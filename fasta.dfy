/**
 * The multi-FASTA line machine the consensus scanner and both gene tabs run:
 * every line is counted; a line empty after normalisation is counted as
 * empty; a header line (first character '>') is counted as a protein,
 * closes the record being collected and asks the caller whether to collect
 * the next one; any other line is appended to the record being collected.
 * After the last line the record still being collected is closed.
 *
 * The machine is written as a left fold over the lines (the shape of the
 * loops that run it) and is proved equal to an independent grouping of the
 * lines into records.
 */
module Fasta {
  import opened Wrappers
  import opened Text

  /** `line.split('\n')[0].split('\r')[0].strip()` */
  function NormLine(line: string): (ll: string)
    ensures '\n' !in ll && '\r' !in ll
    ensures |ll| > 0 ==> !IsSpace(ll[0]) && !IsSpace(ll[|ll| - 1])
  {
    var l := CutAt(line, '\n');
    CutAtPrefix(l, '\r');
    Strip(CutAt(l, '\r'))
  }

  /** Every raw line normalised with `norm`; the last line last. */
  function NormAll(lines: seq<string>, norm: string -> string): (r: seq<string>)
    ensures |r| == |lines|
  {
    if |lines| == 0 then [] else NormAll(lines[..|lines| - 1], norm) + [norm(lines[|lines| - 1])]
  }

  /** Line `i` of the normalised file is raw line `i` normalised. */
  lemma {:induction false} NormAllAt(lines: seq<string>, norm: string -> string, i: nat)
    requires i < |lines|
    ensures NormAll(lines, norm)[i] == norm(lines[i])
    decreases |lines|
  {
    if i < |lines| - 1 {
      NormAllAt(lines[..|lines| - 1], norm, i);
    }
  }

  predicate IsHeader(ll: string) {
    |ll| > 0 && ll[0] == '>'
  }

  /**
   * What the caller decides at a header: skip the record, collect it under a
   * tag, or start collecting it and raise (an IndexError while taking the
   * identifier apart) before the tag is known.
   */
  datatype Pick<T> = Skip | Take(tag: T) | TakeFails

  /** The record being collected: its tag and its sequence lines so far. */
  datatype Open<T> = Open(tag: T, body: seq<string>)

  /**
   * The machine's state: the four counters, the record being collected
   * (`searchP` is `current.Some?`), the records closed so far with their
   * joined sequences, and whether an exception has stopped the scan.
   */
  datatype Scan<T> = Scan(ltotal: nat, lempty: nat, prottotal: nat, protsselT: nat,
                          current: Option<Open<T>>, closed: seq<(T, string)>, raised: bool)

  function Init<T>(): Scan<T> {
    Scan(0, 0, 0, 0, None, [], false)
  }

  /** Closing the record being collected hands it over with its lines joined. */
  function Close<T>(st: Scan<T>): (r: Scan<T>)
    ensures r.current.None?
    ensures r.closed == st.closed + (if st.current.Some? then
      [(st.current.value.tag, Join(st.current.value.body, ""))] else [])
  {
    match st.current
    case None => st
    case Some(o) => st.(current := None, closed := st.closed + [(o.tag, Join(o.body, ""))])
  }

  /** One normalised line. */
  function Step<T>(st: Scan<T>, ll: string, pick: string -> Pick<T>): Scan<T> {
    if st.raised then st
    else
      var st1 := st.(ltotal := st.ltotal + 1);
      if ll == "" then st1.(lempty := st1.lempty + 1)
      else if ll[0] == '>' then
        AfterPick(Close(st1).(prottotal := st1.prottotal + 1), pick(ll))
      else if st1.current.Some? then
        st1.(current := Some(st1.current.value.(body := st1.current.value.body + [ll])))
      else st1
  }

  /** What a header's pick does once the previous record is closed and the protein counted. */
  function AfterPick<T>(st: Scan<T>, p: Pick<T>): Scan<T> {
    match p
    case Skip => st
    case Take(t) => st.(protsselT := st.protsselT + 1, current := Some(Open(t, [])))
    case TakeFails => st.(protsselT := st.protsselT + 1, raised := true)
  }

  /** A header line: the line and the protein are counted, the previous record closed, then the pick applies. */
  lemma StepHeader<T>(st: Scan<T>, ll: string, pick: string -> Pick<T>)
    requires !st.raised && IsHeader(ll)
    ensures Step(st, ll, pick) == AfterPick(Counted(st), pick(ll))
  {
  }

  /** Any other line: counted, as empty when it is, else added to the record being collected. */
  lemma StepLine<T>(st: Scan<T>, ll: string, pick: string -> Pick<T>)
    requires !st.raised && !IsHeader(ll)
    ensures var st1 := st.(ltotal := st.ltotal + 1);
      Step(st, ll, pick) ==
        if ll == "" then st1.(lempty := st.lempty + 1)
        else if st.current.Some? then st1.(current := Some(st.current.value.(body := st.current.value.body + [ll])))
        else st1
  {
  }

  /** The machine after the given lines, first line first. */
  function Run<T>(lls: seq<string>, pick: string -> Pick<T>): Scan<T> {
    if |lls| == 0 then Init() else Step(Run(lls[..|lls| - 1], pick), lls[|lls| - 1], pick)
  }

  /** After the loop: the last record is closed unless the scan raised. */
  function Finish<T>(st: Scan<T>): Scan<T> {
    if st.raised then st else Close(st)
  }

  // ---------------------------------------------------------- the records

  /** How many lines come before the next header. */
  function BodyLen(lls: seq<string>): (n: nat)
    ensures n <= |lls|
    ensures forall j :: 0 <= j < n ==> !IsHeader(lls[j])
    ensures n < |lls| ==> IsHeader(lls[n])
  {
    if |lls| == 0 || IsHeader(lls[0]) then 0 else 1 + BodyLen(lls[1..])
  }

  /** The lines that are not empty. */
  function NonBlank(lls: seq<string>): (r: seq<string>)
    ensures forall x :: x in r ==> x != "" && x in lls
  {
    if |lls| == 0 then [] else (if lls[0] == "" then [] else [lls[0]]) + NonBlank(lls[1..])
  }

  /** A header and the non-empty lines between it and the next header. */
  datatype Record = Record(header: string, body: seq<string>)

  /** The records of a FASTA text, in order; lines before the first header belong to none. */
  function Records(lls: seq<string>): (r: seq<Record>)
    ensures forall k :: 0 <= k < |r| ==> IsHeader(r[k].header)
    decreases |lls|
  {
    if |lls| == 0 then []
    else if IsHeader(lls[0]) then
      var n := BodyLen(lls[1..]);
      [Record(lls[0], NonBlank(lls[1..][..n]))] + Records(lls[1..][n..])
    else Records(lls[1..])
  }

  /**
   * The records the caller picks, each with its sequence lines joined, in
   * order; the scan stops at the first header whose pick raises.
   */
  function Selected<T>(recs: seq<Record>, pick: string -> Pick<T>): (seq<(T, string)>, bool) {
    if |recs| == 0 then ([], false)
    else
      match pick(recs[0].header)
      case Skip => Selected(recs[1..], pick)
      case Take(t) =>
        var rest := Selected(recs[1..], pick);
        ([(t, Join(recs[0].body, ""))] + rest.0, rest.1)
      case TakeFails => ([], true)
  }

  // ----------------------------------------------------------- the proofs

  /** The machine run from a given state over the lines, first line first. */
  function RunFrom<T>(st: Scan<T>, lls: seq<string>, pick: string -> Pick<T>): Scan<T>
    decreases |lls|
  {
    if |lls| == 0 then st else RunFrom(Step(st, lls[0], pick), lls[1..], pick)
  }

  lemma {:induction false} RunFromSnoc<T>(st: Scan<T>, lls: seq<string>, x: string, pick: string -> Pick<T>)
    ensures RunFrom(st, lls + [x], pick) == Step(RunFrom(st, lls, pick), x, pick)
    decreases |lls|
  {
    if |lls| == 0 {
      assert (lls + [x])[1..] == [];
    } else {
      assert (lls + [x])[1..] == lls[1..] + [x];
      RunFromSnoc(Step(st, lls[0], pick), lls[1..], x, pick);
    }
  }

  lemma {:induction false} RunIsRunFrom<T>(lls: seq<string>, pick: string -> Pick<T>)
    ensures Run(lls, pick) == RunFrom(Init(), lls, pick)
  {
    if |lls| > 0 {
      var n := |lls| - 1;
      RunIsRunFrom(lls[..n], pick);
      RunFromSnoc(Init(), lls[..n], lls[n], pick);
      assert lls[..n] + [lls[n]] == lls;
    }
  }

  lemma {:induction false} RaisedStays<T>(st: Scan<T>, lls: seq<string>, pick: string -> Pick<T>)
    requires st.raised
    ensures RunFrom(st, lls, pick) == st
    decreases |lls|
  {
    if |lls| > 0 {
      RaisedStays(Step(st, lls[0], pick), lls[1..], pick);
    }
  }

  /** What closing the record being collected, extended by some lines, hands over. */
  function Pending<T>(st: Scan<T>, more: seq<string>): seq<(T, string)> {
    if st.current.Some? then [(st.current.value.tag, Join(st.current.value.body + more, ""))] else []
  }

  /**
   * From any state that has not raised, the machine hands over the record
   * being collected (with the sequence lines up to the next header) and then
   * exactly the picked records of the remaining lines.
   */
  lemma {:induction false} RunFromRecords<T>(st: Scan<T>, lls: seq<string>, pick: string -> Pick<T>)
    requires !st.raised
    ensures Finish(RunFrom(st, lls, pick)).closed ==
      st.closed + Pending(st, NonBlank(lls[..BodyLen(lls)])) + Selected(Records(lls), pick).0
    ensures Finish(RunFrom(st, lls, pick)).raised == Selected(Records(lls), pick).1
    decreases |lls|
  {
    if |lls| == 0 {
      PendingEmpty(st);
      assert lls[..BodyLen(lls)] == [];
    } else {
      var st' := Step(st, lls[0], pick);
      if IsHeader(lls[0]) {
        match pick(lls[0])
        case Skip =>
          HeaderSkip(st, lls[0], pick);
          RunFromRecords(st', lls[1..], pick);
          SkipCase(st, lls, pick);
        case Take(_) =>
          HeaderTake(st, lls[0], pick, []);
          RunFromRecords(st', lls[1..], pick);
          TakeCase(st, lls, pick);
        case TakeFails =>
          HeaderFails(st, lls[0], pick);
          RaisedStays(st', lls[1..], pick);
          FailsCase(st, lls, pick);
      } else {
        RunFromRecords(st', lls[1..], pick);
        LineCase(st, lls, pick);
      }
    }
  }

  /** RunFromRecords' statement for one state and the lines after it. */
  ghost predicate HandsOver<T>(st: Scan<T>, lls: seq<string>, pick: string -> Pick<T>) {
    && Finish(RunFrom(st, lls, pick)).closed ==
         st.closed + Pending(st, NonBlank(lls[..BodyLen(lls)])) + Selected(Records(lls), pick).0
    && Finish(RunFrom(st, lls, pick)).raised == Selected(Records(lls), pick).1
  }

  /** The header's state once the previous record is closed and the protein counted. */
  function Counted<T>(st: Scan<T>): Scan<T> {
    Close(st.(ltotal := st.ltotal + 1)).(prottotal := st.prottotal + 1)
  }

  /** The records from a header on: its own, then those after its sequence lines. */
  lemma HeaderRecords(lls: seq<string>)
    requires |lls| > 0 && IsHeader(lls[0])
    ensures Records(lls) == [Record(lls[0], NonBlank(lls[1..][..BodyLen(lls[1..])]))] + Records(lls[1..])
    ensures lls[..BodyLen(lls)] == []
  {
    var tail := lls[1..];
    assert Records(lls) == [Record(lls[0], NonBlank(tail[..BodyLen(tail)]))] + Records(tail[BodyLen(tail)..]);
    SkipBody(tail);
  }

  /** A skipped header closes the previous record and opens none. */
  lemma HeaderSkip<T>(st: Scan<T>, ll: string, pick: string -> Pick<T>)
    requires !st.raised && IsHeader(ll) && pick(ll).Skip?
    ensures var st' := Step(st, ll, pick);
      !st'.raised && st'.current.None? && st'.closed == Counted(st).closed
  {
    assert Step(st, ll, pick) == AfterPick(Counted(st), pick(ll));
  }

  /** A picked header closes the previous record and opens its own, still empty. */
  lemma HeaderTake<T>(st: Scan<T>, ll: string, pick: string -> Pick<T>, body: seq<string>)
    requires !st.raised && IsHeader(ll) && pick(ll).Take?
    ensures var st' := Step(st, ll, pick);
      && !st'.raised && st'.closed == Counted(st).closed
      && Pending(st', body) == [(pick(ll).tag, Join(body, ""))]
  {
    var st' := Step(st, ll, pick);
    assert st' == AfterPick(Counted(st), pick(ll));
    assert st'.current == Some(Open(pick(ll).tag, []));
    assert [] + body == body;
  }

  /** A header whose pick raises closes the previous record and stops the scan. */
  lemma HeaderFails<T>(st: Scan<T>, ll: string, pick: string -> Pick<T>)
    requires !st.raised && IsHeader(ll) && pick(ll).TakeFails?
    ensures var st' := Step(st, ll, pick);
      st'.raised && st'.closed == Counted(st).closed
  {
    assert Step(st, ll, pick) == AfterPick(Counted(st), pick(ll));
  }

  /** RunFromRecords at a skipped header, given the result for the lines after it. */
  lemma SkipCase<T>(st: Scan<T>, lls: seq<string>, pick: string -> Pick<T>)
    requires !st.raised && |lls| > 0 && IsHeader(lls[0]) && pick(lls[0]).Skip?
    requires HandsOver(Step(st, lls[0], pick), lls[1..], pick)
    ensures HandsOver(st, lls, pick)
  {
    var st' := Step(st, lls[0], pick);
    var tail := lls[1..];
    assert RunFrom(st, lls, pick) == RunFrom(st', tail, pick);
    assert st'.closed + Pending(st', NonBlank(tail[..BodyLen(tail)])) ==
           st.closed + Pending(st, NonBlank(lls[..BodyLen(lls)])) by {
      HeaderSkip(st, lls[0], pick);
      HeaderRecords(lls);
      PendingEmpty(st);
    }
    assert Selected(Records(lls), pick) == Selected(Records(tail), pick) by {
      HeaderRecords(lls);
    }
  }

  /** RunFromRecords at a picked header, given the result for the lines after it. */
  lemma TakeCase<T>(st: Scan<T>, lls: seq<string>, pick: string -> Pick<T>)
    requires !st.raised && |lls| > 0 && IsHeader(lls[0]) && pick(lls[0]).Take?
    requires HandsOver(Step(st, lls[0], pick), lls[1..], pick)
    ensures HandsOver(st, lls, pick)
  {
    var st' := Step(st, lls[0], pick);
    var tail := lls[1..];
    var body := NonBlank(tail[..BodyLen(tail)]);
    assert RunFrom(st, lls, pick) == RunFrom(st', tail, pick);
    assert st'.closed == st.closed + Pending(st, NonBlank(lls[..BodyLen(lls)])) by {
      HeaderTake(st, lls[0], pick, body);
      HeaderRecords(lls);
      PendingEmpty(st);
    }
    assert Pending(st', body) + Selected(Records(tail), pick).0 == Selected(Records(lls), pick).0 by {
      HeaderTake(st, lls[0], pick, body);
      HeaderRecords(lls);
      SelectedTake(Records(lls), pick);
    }
    assert Selected(Records(lls), pick).1 == Selected(Records(tail), pick).1 by {
      HeaderRecords(lls);
      SelectedTake(Records(lls), pick);
    }
  }

  /** RunFromRecords at a header whose pick raises. */
  lemma FailsCase<T>(st: Scan<T>, lls: seq<string>, pick: string -> Pick<T>)
    requires !st.raised && |lls| > 0 && IsHeader(lls[0]) && pick(lls[0]).TakeFails?
    requires RunFrom(Step(st, lls[0], pick), lls[1..], pick) == Step(st, lls[0], pick)
    ensures HandsOver(st, lls, pick)
  {
    var st' := Step(st, lls[0], pick);
    HeaderFails(st, lls[0], pick);
    HeaderRecords(lls);
    PendingEmpty(st);
    assert RunFrom(st, lls, pick) == RunFrom(st', lls[1..], pick);
    assert Selected(Records(lls), pick) == ([], true);
  }

  lemma SelectedTake<T>(recs: seq<Record>, pick: string -> Pick<T>)
    requires |recs| > 0
    ensures pick(recs[0].header).Take? ==>
      && Selected(recs, pick).0 ==
           [(pick(recs[0].header).tag, Join(recs[0].body, ""))] + Selected(recs[1..], pick).0
      && Selected(recs, pick).1 == Selected(recs[1..], pick).1
  {
  }

  /** Closing with no further lines hands over the record as collected. */
  lemma PendingEmpty<T>(st: Scan<T>)
    ensures Close(st).closed == st.closed + Pending(st, [])
  {
    if st.current.Some? {
      assert st.current.value.body + [] == st.current.value.body;
    }
  }

  /** RunFromRecords at a line that is not a header, given the result for the lines after it. */
  lemma LineCase<T>(st: Scan<T>, lls: seq<string>, pick: string -> Pick<T>)
    requires !st.raised && |lls| > 0 && !IsHeader(lls[0])
    requires var st' := Step(st, lls[0], pick);
      && Finish(RunFrom(st', lls[1..], pick)).closed ==
           st'.closed + Pending(st', NonBlank(lls[1..][..BodyLen(lls[1..])])) + Selected(Records(lls[1..]), pick).0
      && Finish(RunFrom(st', lls[1..], pick)).raised == Selected(Records(lls[1..]), pick).1
    ensures Finish(RunFrom(st, lls, pick)).closed ==
      st.closed + Pending(st, NonBlank(lls[..BodyLen(lls)])) + Selected(Records(lls), pick).0
    ensures Finish(RunFrom(st, lls, pick)).raised == Selected(Records(lls), pick).1
  {
    var st' := Step(st, lls[0], pick);
    var tail := lls[1..];
    var m := BodyLen(tail);
    assert RunFrom(st, lls, pick) == RunFrom(st', tail, pick);
    assert Records(lls) == Records(tail);
    assert BodyLen(lls) == 1 + m;
    assert st'.closed == st.closed;
    LinePending(st, lls, pick);
  }

  /** A sequence line extends the record being collected, as NonBlank does. */
  lemma LinePending<T>(st: Scan<T>, lls: seq<string>, pick: string -> Pick<T>)
    requires !st.raised && |lls| > 0 && !IsHeader(lls[0])
    ensures Pending(Step(st, lls[0], pick), NonBlank(lls[1..][..BodyLen(lls[1..])])) ==
            Pending(st, NonBlank(lls[..1 + BodyLen(lls[1..])]))
  {
    var st' := Step(st, lls[0], pick);
    var tail := lls[1..];
    var m := BodyLen(tail);
    NonBlankCons(lls, m);
    var nb := NonBlank(lls[..1 + m]);
    if st.current.Some? {
      var body := st.current.value.body;
      if lls[0] == "" {
        assert st'.current == st.current;
        assert body + nb == body + NonBlank(tail[..m]);
      } else {
        assert st'.current.value.body == body + [lls[0]];
        assert body + nb == (body + [lls[0]]) + NonBlank(tail[..m]);
      }
    }
  }

  lemma NonBlankCons(lls: seq<string>, m: nat)
    requires m < |lls|
    ensures NonBlank(lls[..1 + m]) == (if lls[0] == "" then [] else [lls[0]]) + NonBlank(lls[1..][..m])
  {
    assert lls[..1 + m][1..] == lls[1..][..m];
  }

  /** The lines before the first header belong to no record. */
  lemma {:induction false} SkipBody(lls: seq<string>)
    ensures Records(lls) == Records(lls[BodyLen(lls)..])
    decreases |lls|
  {
    if |lls| > 0 && !IsHeader(lls[0]) {
      SkipBody(lls[1..]);
      assert lls[1..][BodyLen(lls[1..])..] == lls[BodyLen(lls)..];
    }
  }

  /**
   * The machine hands over exactly the picked records, each with its
   * sequence lines joined in order, each once, and raises exactly when a
   * pick raises.
   */
  lemma RunRecords<T>(lls: seq<string>, pick: string -> Pick<T>)
    ensures Finish(Run(lls, pick)).closed == Selected(Records(lls), pick).0
    ensures Finish(Run(lls, pick)).raised == Selected(Records(lls), pick).1
  {
    RunIsRunFrom(lls, pick);
    RunFromRecords(Init(), lls, pick);
  }

  // --------------------------------------------------------- the counters

  /** How many of the lines satisfy `p`. */
  function CountOf(lls: seq<string>, p: string -> bool): nat {
    if |lls| == 0 then 0 else CountOf(lls[..|lls| - 1], p) + (if p(lls[|lls| - 1]) then 1 else 0)
  }

  function IsBlank(ll: string): bool {
    ll == ""
  }

  function IsHeaderLine(ll: string): bool {
    IsHeader(ll)
  }

  /**
   * Without an exception every line is counted, every empty line is counted
   * as empty, every header as a protein, and every picked protein is handed
   * over once the scan is finished; while scanning, the picked proteins are
   * those handed over plus the one being collected.
   */
  lemma {:induction false} RunCounters<T>(lls: seq<string>, pick: string -> Pick<T>)
    ensures var st := Run(lls, pick);
      !st.raised ==>
        && st.ltotal == |lls|
        && st.lempty == CountOf(lls, IsBlank)
        && st.prottotal == CountOf(lls, IsHeaderLine)
        && st.protsselT == |st.closed| + (if st.current.Some? then 1 else 0)
  {
    if |lls| > 0 {
      RunCounters(lls[..|lls| - 1], pick);
    }
  }

  /** After the final flush, one record has been handed over per picked protein. */
  lemma FinishCount<T>(lls: seq<string>, pick: string -> Pick<T>)
    ensures !Finish(Run(lls, pick)).raised ==>
      |Finish(Run(lls, pick)).closed| == Run(lls, pick).protsselT
  {
    RunCounters(lls, pick);
  }

  /** Every picked protein was counted as a protein. */
  lemma {:induction false} RunSelectedLeTotal<T>(lls: seq<string>, pick: string -> Pick<T>)
    ensures Run(lls, pick).protsselT <= Run(lls, pick).prottotal
  {
    if |lls| > 0 {
      RunSelectedLeTotal(lls[..|lls| - 1], pick);
    }
  }

  /**
   * Running further never takes anything back: an exception stays raised and
   * the records handed over so far stay handed over.
   */
  lemma {:induction false} RunMono<T>(lls: seq<string>, i: nat, pick: string -> Pick<T>)
    requires i <= |lls|
    ensures Run(lls[..i], pick).raised ==> Run(lls, pick).raised
    ensures Run(lls[..i], pick).closed <= Run(lls, pick).closed
    decreases |lls|
  {
    if i == |lls| {
      assert lls[..i] == lls;
    } else {
      var n := |lls| - 1;
      assert lls[..n][..i] == lls[..i];
      RunMono(lls[..n], i, pick);
    }
  }

  /** The machine after one more line. */
  lemma RunSnoc<T>(lls: seq<string>, i: nat, pick: string -> Pick<T>)
    requires i < |lls|
    ensures Run(lls[..i + 1], pick) == Step(Run(lls[..i], pick), lls[i], pick)
  {
    assert lls[..i + 1][..i] == lls[..i];
  }
}

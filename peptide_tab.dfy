/**
 * The peptide tabs. From a tab-separated peptide table they keep the lines
 * whose start-residue column holds an integer not above the first residue
 * asked for, and write the chosen columns of those lines. The first line also
 * gives the header: its cells in the chosen columns, joined by tabs.
 *
 * `Peptide` is the tab of win_tab_peptide.py, which cuts and splits each line
 * itself. `PeptidePane` is the pane of pane.py, which runs in the steps
 * PrepareRun, RunAnalysis and WriteOutput and splits each line with a
 * splitter that is a parameter here.
 *
 * Both loops are the same machine (`Step`, folded by `Run`); the reference
 * definitions `KeptRows`, `Empties` and `RaisesOn` say what it yields.
 */
module PeptideTabs {
  import opened Wrappers
  import opened Text
  import opened PyList
  import Config
  import Checks
  import ODict
  import DataMethods
  import GeneTabs
  import SeqSetConf
  import opened GuiChecks

  /** The run values: first residue, start-residue column, columns to extract. */
  datatype Params = Params(fRes: int, sRes: int, cols: seq<int>)

  // ------------------------------------------------------------ one line

  /** `line.split('\n')[0].split('\r')[0].split('\t')`, the tab's own splitting. */
  function Fields(line: string): (r: seq<string>)
    ensures |r| >= 1
    ensures r[0] == "" <==>
      var cut := CutAt(CutAt(line, '\n'), '\r');
      cut == "" || cut[0] == '\t'
  {
    Split(CutAt(CutAt(line, '\n'), '\r'), '\t')
  }

  /** Every line split with `split`; the last line last. */
  function SplitAll(lines: seq<string>, split: string -> seq<string>): (r: seq<seq<string>>)
    ensures |r| == |lines|
    ensures forall i :: 0 <= i < |lines| ==> r[i] == split(lines[i])
  {
    if |lines| == 0 then [] else SplitAll(lines[..|lines| - 1], split) + [split(lines[|lines| - 1])]
  }

  /** `l[k]` as a function of `k`, None where Python raises IndexError. */
  function At(l: seq<string>): int -> Option<string> {
    k => PyIndex(l, k)
  }

  /** `[l[i] for i in cols]`: None where one of the indices raises IndexError. */
  function Cells(l: seq<string>, cols: seq<int>): Option<seq<string>> {
    MapAll(cols, At(l))
  }

  /** The cells exist exactly when every column is a valid Python index, and they are those entries. */
  lemma CellsSpec(l: seq<string>, cols: seq<int>)
    ensures Cells(l, cols).Some? <==> forall j :: 0 <= j < |cols| ==> -|l| <= cols[j] < |l|
    ensures Cells(l, cols).Some? ==>
      && |Cells(l, cols).value| == |cols|
      && forall j :: 0 <= j < |cols| ==> Cells(l, cols).value[j] == l[PyOffset(|l|, cols[j])]
  {
    MapAllSome(cols, At(l));
    if Cells(l, cols).Some? {
      MapAllValues(cols, At(l));
    }
  }

  /** `int(l[sRes])`: None where the index or the conversion raises. */
  function StartValue(l: seq<string>, sRes: int): Option<int> {
    IndexThen(l, sRes, ParseInt)
  }

  /** The tab-joined header cells, None where a column index raises. */
  function HeaderOf(l: seq<string>, cols: seq<int>): Option<string> {
    match Cells(l, cols)
    case None => None
    case Some(hs) => Some(Join(hs, "\t"))
  }

  /** What the loop does with one split line, the header aside. */
  datatype Verdict =
    | Blank                    // the first cell is empty
    | NotInt                   // the start residue is missing or no integer
    | Above                    // the start residue is above the first residue
    | Kept(row: seq<string>)   // the chosen cells of a kept line
    | Fails                    // an index the source does not guard raises

  function Classify(l: seq<string>, p: Params): Verdict {
    if |l| == 0 then Fails
    else if l[0] == "" then Blank
    else
      match StartValue(l, p.sRes)
      case None => NotInt
      case Some(tres) =>
        if tres <= p.fRes then
          match Cells(l, p.cols)
          case None => Fails
          case Some(row) => Kept(row)
        else Above
  }

  /**
   * A line is kept exactly when its first cell is not empty, its start
   * residue is an integer not above the first residue and every chosen column
   * exists; the row is then those cells, in the order of the columns.
   */
  lemma KeptSpec(l: seq<string>, p: Params)
    ensures Classify(l, p).Kept? <==>
      && |l| > 0 && l[0] != ""
      && StartValue(l, p.sRes).Some? && StartValue(l, p.sRes).value <= p.fRes
      && forall j :: 0 <= j < |p.cols| ==> -|l| <= p.cols[j] < |l|
    ensures Classify(l, p).Kept? ==>
      && |Classify(l, p).row| == |p.cols|
      && forall j :: 0 <= j < |p.cols| ==> Classify(l, p).row[j] == l[PyOffset(|l|, p.cols[j])]
  {
    CellsSpec(l, p.cols);
  }

  // ------------------------------------------------------------ the loop

  /**
   * The two rules the loop applies to a split line: the header it gives as
   * line 1 (None where that raises) and its verdict.
   */
  datatype Rules = Rules(head: seq<string> -> Option<string>, verdict: seq<string> -> Verdict)

  /** The rules of a run with values `p`. */
  function RulesOf(p: Params): Rules {
    Rules(l => HeaderOf(l, p.cols), l => Classify(l, p))
  }

  /** The loop's state: the counters, the header, the kept rows, and whether it has raised. */
  datatype Scan = Scan(ltotal: nat, lempty: nat, ptotal: nat, header: Option<string>,
                       dataO: seq<seq<string>>, raised: bool)

  /** The state before the first line: counters reset, the header as it was. */
  function Start(header: Option<string>): Scan {
    Scan(0, 0, 0, header, [], false)
  }

  /** The counters and the kept rows after one classified line. */
  function Apply(st: Scan, v: Verdict): Scan {
    match v
    case Blank => st.(lempty := st.lempty + 1)
    case NotInt => st.(lempty := st.lempty + 1)
    case Above => st
    case Kept(row) => st.(dataO := st.dataO + [row], ptotal := st.ptotal + 1)
    case Fails => st.(raised := true)
  }

  /** One pass of the loop body: count the line, take the header on line 1, classify. */
  function Step(st: Scan, l: seq<string>, r: Rules): Scan {
    if st.raised then st
    else
      var st1 := st.(ltotal := st.ltotal + 1);
      if st1.ltotal == 1 then
        match r.head(l)
        case None => st1.(raised := true)
        case Some(h) => Apply(st1.(header := Some(h)), r.verdict(l))
      else Apply(st1, r.verdict(l))
  }

  /** The loop over the split lines, from `start`. */
  function Run(start: Scan, ls: seq<seq<string>>, r: Rules): Scan {
    if |ls| == 0 then start else Step(Run(start, ls[..|ls| - 1], r), ls[|ls| - 1], r)
  }

  lemma RunSnoc(start: Scan, ls: seq<seq<string>>, i: nat, r: Rules)
    requires i < |ls|
    ensures Run(start, ls[..i + 1], r) == Step(Run(start, ls[..i], r), ls[i], r)
  {
    assert ls[..i + 1][..i] == ls[..i];
  }

  /** The rows the table yields: the kept lines, first line first. */
  function KeptRows(ls: seq<seq<string>>, r: Rules): seq<seq<string>> {
    if |ls| == 0 then []
    else
      match r.verdict(ls[0])
      case Kept(row) => [row] + KeptRows(ls[1..], r)
      case _ => KeptRows(ls[1..], r)
  }

  /** How many lines have an empty first cell or no integer start residue. */
  function Empties(ls: seq<seq<string>>, r: Rules): nat {
    if |ls| == 0 then 0
    else (if r.verdict(ls[0]) in {Blank, NotInt} then 1 else 0) + Empties(ls[1..], r)
  }

  /** The run raises: line 1 gives no header, or some line fails. */
  predicate RaisesOn(ls: seq<seq<string>>, r: Rules) {
    (|ls| > 0 && r.head(ls[0]).None?) ||
    exists i :: 0 <= i < |ls| && r.verdict(ls[i]).Fails?
  }

  lemma KeptRowsSnoc(ls: seq<seq<string>>, l: seq<string>, r: Rules)
    ensures KeptRows(ls + [l], r) ==
      KeptRows(ls, r) + (if r.verdict(l).Kept? then [r.verdict(l).row] else [])
    ensures Empties(ls + [l], r) == Empties(ls, r) + (if r.verdict(l) in {Blank, NotInt} then 1 else 0)
  {
    if |ls| == 0 {
      assert [l][1..] == [];
    } else {
      assert (ls + [l])[1..] == ls[1..] + [l];
      KeptRowsSnoc(ls[1..], l, r);
    }
  }

  /** A row is among the kept rows exactly when some line is kept with it. */
  lemma {:induction false} KeptRowsMember(ls: seq<seq<string>>, r: Rules, row: seq<string>)
    ensures row in KeptRows(ls, r) <==> exists i :: 0 <= i < |ls| && r.verdict(ls[i]) == Kept(row)
  {
    if |ls| > 0 {
      KeptRowsMember(ls[1..], r, row);
      if r.verdict(ls[0]) == Kept(row) {
        assert row in KeptRows(ls, r);
      } else if exists i :: 1 <= i < |ls| && r.verdict(ls[i]) == Kept(row) {
        var i :| 1 <= i < |ls| && r.verdict(ls[i]) == Kept(row);
        assert r.verdict(ls[1..][i - 1]) == Kept(row);
      } else {
        forall i | 0 <= i < |ls[1..]|
          ensures r.verdict(ls[1..][i]) != Kept(row)
        {
          assert ls[1..][i] == ls[i + 1];
        }
      }
    }
  }

  /** The counters stay consistent: one kept row per peptide, and never more lines counted than seen. */
  lemma {:induction false} RunShape(start: Scan, ls: seq<seq<string>>, r: Rules)
    requires |start.dataO| == start.ptotal
    requires start.lempty + start.ptotal <= start.ltotal
    ensures var st := Run(start, ls, r);
      && |st.dataO| == st.ptotal
      && st.lempty + st.ptotal <= st.ltotal
      && (!st.raised ==> st.ltotal == start.ltotal + |ls| && !start.raised)
  {
    if |ls| > 0 {
      RunShape(start, ls[..|ls| - 1], r);
    }
  }

  /** Without a raise, the run adds the kept rows and the empty lines of the lines it reads. */
  lemma {:induction false} RunRows(start: Scan, ls: seq<seq<string>>, r: Rules)
    ensures !Run(start, ls, r).raised ==>
      && Run(start, ls, r).dataO == start.dataO + KeptRows(ls, r)
      && Run(start, ls, r).ptotal == start.ptotal + |KeptRows(ls, r)|
      && Run(start, ls, r).lempty == start.lempty + Empties(ls, r)
  {
    if |ls| > 0 {
      var init := ls[..|ls| - 1];
      var l := ls[|ls| - 1];
      assert ls == init + [l];
      RunRows(start, init, r);
      KeptRowsSnoc(init, l, r);
    }
  }

  lemma RaisesOnSnoc(ls: seq<seq<string>>, l: seq<string>, r: Rules)
    requires |ls| > 0
    ensures RaisesOn(ls + [l], r) <==> RaisesOn(ls, r) || r.verdict(l).Fails?
  {
    var ls' := ls + [l];
    if RaisesOn(ls', r) && !r.verdict(l).Fails? && !r.head(ls'[0]).None? {
      var i :| 0 <= i < |ls'| && r.verdict(ls'[i]).Fails?;
      assert ls[i] == ls'[i];
    }
    if exists i :: 0 <= i < |ls| && r.verdict(ls[i]).Fails? {
      var i :| 0 <= i < |ls| && r.verdict(ls[i]).Fails?;
      assert ls'[i] == ls[i];
    }
    assert ls'[0] == ls[0];
    assert ls'[|ls|] == l;
  }

  /** From a fresh start the run raises exactly on a missing header or a failing line. */
  lemma {:induction false} RunRaised(start: Scan, ls: seq<seq<string>>, r: Rules)
    requires start == Start(start.header)
    ensures Run(start, ls, r).raised <==> RaisesOn(ls, r)
  {
    if |ls| > 0 {
      var init := ls[..|ls| - 1];
      var l := ls[|ls| - 1];
      assert ls == init + [l];
      RunRaised(start, init, r);
      if |init| == 0 {
        assert ls == [l];
        assert RaisesOn(ls, r) <==> r.head(l).None? || r.verdict(l).Fails?;
      } else {
        RaisesOnSnoc(init, l, r);
        RunShape(start, init, r);
      }
    }
  }

  /** From a fresh start, without a raise, the header is that of line 1, or the old one on an empty table. */
  lemma {:induction false} RunHeader(start: Scan, ls: seq<seq<string>>, r: Rules)
    requires start == Start(start.header)
    ensures !Run(start, ls, r).raised ==>
      Run(start, ls, r).header == (if |ls| == 0 then start.header else r.head(ls[0]))
  {
    if |ls| > 0 {
      var init := ls[..|ls| - 1];
      RunHeader(start, init, r);
      RunShape(start, init, r);
      if |init| > 0 {
        assert init[0] == ls[0];
      }
    }
  }

  /** A run that has raised stays raised on further lines. */
  lemma {:induction false} RaisedStays(start: Scan, ls: seq<seq<string>>, i: nat, r: Rules)
    requires i <= |ls|
    requires Run(start, ls[..i], r).raised
    ensures Run(start, ls, r).raised
  {
    if i < |ls| {
      assert ls[..|ls| - 1][..i] == ls[..i];
      RaisedStays(start, ls[..|ls| - 1], i, r);
    } else {
      assert ls[..i] == ls;
    }
  }

  /**
   * The full report on a run from a fresh start: it raises exactly on a
   * missing header or a failing line; otherwise every line is counted, the
   * rows are the kept rows in order, and a run with rows has the header of
   * line 1.
   */
  lemma RunSpec(start: Scan, ls: seq<seq<string>>, r: Rules)
    requires start == Start(start.header)
    ensures var st := Run(start, ls, r);
      && (st.raised <==> RaisesOn(ls, r))
      && (!st.raised ==>
          && st.ltotal == |ls|
          && st.dataO == KeptRows(ls, r)
          && st.ptotal == |KeptRows(ls, r)|
          && st.lempty == Empties(ls, r)
          && st.ptotal + st.lempty <= st.ltotal
          && (st.ptotal > 0 ==> |ls| > 0 && st.header == r.head(ls[0]) && st.header.Some?))
  {
    RunRaised(start, ls, r);
    RunRows(start, ls, r);
    RunShape(start, ls, r);
    RunHeader(start, ls, r);
  }

  // ------------------------------------------------------------ checked input

  /** The values the tab's input check stores: fRes, fResCol and Col2Ext. */
  function CheckedParams(fResText: string, fResColText: string, col2ExtText: string): Option<Params> {
    var a := Checks.CheckMNumber(fResText, "gt", 0, None);
    var b := Checks.CheckMNumber(fResColText, "egt", 0, None);
    var c := Checks.ListNumber(col2ExtText, "egt", 0, false, false, true, false, false);
    if a.Some? && b.Some? && col2ExtText !in Config.NaVals && c.Some? && c.value.Numbers? then
      Some(Params(a.value, b.value, c.value.values))
    else None
  }

  /**
   * Checked values are a positive first residue, a column index of at least
   * zero and distinct column indices of at least zero.
   */
  lemma CheckedParamsSpec(fResText: string, fResColText: string, col2ExtText: string)
    ensures var r := CheckedParams(fResText, fResColText, col2ExtText);
      r.Some? ==>
        && r.value.fRes > 0 && r.value.sRes >= 0
        && (forall x :: x in r.value.cols ==> x >= 0)
        && Checks.Distinct(r.value.cols)
  {
    Checks.ListNumberSpec(col2ExtText, "egt", 0, false, false, true, false, false);
  }

  // ------------------------------------------------------------ the tab

  /** The peptide tab of win_tab_peptide.py. */
  class Peptide {
    const gc: GuiCheck
    var ltotal: nat
    var lempty: nat
    var ptotal: nat
    var header: Option<string>
    var dataO: seq<seq<string>>

    constructor()
      ensures fresh(gc)
      ensures ltotal == 0 && lempty == 0 && ptotal == 0 && header == None && dataO == []
    {
      gc := new GuiCheck();
      ltotal, lempty, ptotal, header, dataO := 0, 0, 0, None, [];
    }

    /** The fields hold the (unraised) state `st`. */
    ghost predicate Mirrors(st: Scan)
      reads this
    {
      && !st.raised
      && ltotal == st.ltotal && lempty == st.lempty && ptotal == st.ptotal
      && header == st.header && dataO == st.dataO
    }

    /**
     * `CheckInput`: the input and output file checks (given as their
     * outcomes), then fRes as an integer greater than 0, fResCol as an integer
     * of at least 0 and Col2Ext as a list of distinct integers of at least 0;
     * the first failing check ends it.
     */
    method CheckInput(iFileOk: bool, oFileOk: bool, fResText: string, fResColText: string,
                      col2ExtText: string) returns (ok: bool)
      modifies gc
      ensures ok <==> iFileOk && oFileOk && CheckedParams(fResText, fResColText, col2ExtText).Some?
      ensures ok ==>
        var p := CheckedParams(fResText, fResColText, col2ExtText).value;
        && ODict.Get(gc.dO, "fRes") == Some(Number(p.fRes))
        && ODict.Get(gc.dO, "fResCol") == Some(Number(p.sRes))
        && ODict.Get(gc.dO, "Col2Ext") == Some(Numbers(Checks.Numbers(p.cols)))
    {
      if !iFileOk || !oFileOk {
        return false;
      }
      SeqSetConf.NaNotNumber(fResText, "gt");
      SeqSetConf.NaNotNumber(fResColText, "egt");
      Checks.ListNumberSpec(col2ExtText, "egt", 0, false, false, true, false, false);
      var d0 := gc.dO;
      ok := gc.GuiCheckInteger("fRes", fResText, "gt", false);
      if !ok {
        return;
      }
      var d1 := gc.dO;
      ok := gc.GuiCheckInteger("fResCol", fResColText, "egt", false);
      if !ok {
        return;
      }
      var d2 := gc.dO;
      ok := gc.GuiCheckListNumber("Col2Ext", col2ExtText, "egt", 0, false, false, false, true, false);
      if ok {
        var c := ListSlot(Checks.ListNumber(col2ExtText, "egt", 0, false, false, true, false, false));
        var b := NumberSlot(Checks.CheckMNumber(fResColText, "egt", 0, None));
        ODict.PutGet(d2, "Col2Ext", c);
        ODict.PutGetOther(d2, "Col2Ext", c, "fResCol");
        ODict.PutGetOther(d2, "Col2Ext", c, "fRes");
        ODict.PutGetOther(d1, "fResCol", b, "fRes");
        ODict.PutGet(d1, "fResCol", b);
        ODict.PutGet(d0, "fRes", NumberSlot(Checks.CheckMNumber(fResText, "gt", 0, None)));
      }
    }

    /** The header step of line 1: the chosen cells joined by tabs, or a raise. */
    method TakeHeader(l: seq<string>, p: Params) returns (raised: bool)
      modifies this`header
      ensures raised <==> HeaderOf(l, p.cols).None?
      ensures !raised ==> header == HeaderOf(l, p.cols)
    {
      var hs: Option<seq<string>> := MapList(p.cols, At(l));
      if hs.None? {
        return true;
      }
      header := Some(Join(hs.value, "\t"));
      raised := false;
    }

    /** The line's verdict applied to the counters and the rows (`lempty`, `ptotal`, `dataO`). */
    method Tally(v: Verdict, ghost st: Scan) returns (raised: bool)
      requires Mirrors(st)
      modifies this`lempty, this`ptotal, this`dataO
      ensures raised == Apply(st, v).raised
      ensures !raised ==> Mirrors(Apply(st, v))
    {
      match v
      case Blank =>
        lempty := lempty + 1;
        raised := false;
      case NotInt =>
        lempty := lempty + 1;
        raised := false;
      case Above =>
        raised := false;
      case Kept(row) =>
        dataO := dataO + [row];
        ptotal := ptotal + 1;
        raised := false;
      case Fails =>
        raised := true;
    }

    /** One pass of the loop body. */
    method Line(l: seq<string>, p: Params, ghost st: Scan) returns (raised: bool)
      requires Mirrors(st)
      modifies this`ltotal, this`lempty, this`ptotal, this`header, this`dataO
      ensures raised == Step(st, l, RulesOf(p)).raised
      ensures !raised ==> Mirrors(Step(st, l, RulesOf(p)))
    {
      ltotal := ltotal + 1;
      ghost var st1 := st.(ltotal := st.ltotal + 1);
      if ltotal == 1 {
        raised := TakeHeader(l, p);
        if raised {
          return;
        }
        st1 := st1.(header := header);
      }
      raised := Tally(Classify(l, p), st1);
    }

    /**
     * `DataProcessing`: the counters and the rows are reset, then every line
     * of the file (given as `lines`) goes through the loop body. The result
     * is the run of `Step` over the split lines; a raise ends it.
     */
    method DataProcessing(lines: seq<string>, p: Params) returns (status: Status)
      modifies this`ltotal, this`lempty, this`ptotal, this`header, this`dataO
      ensures var st := Run(Start(old(header)), SplitAll(lines, Fields), RulesOf(p));
        && (status == Raised <==> st.raised)
        && (status != Raised ==> status == Returned(true) && Mirrors(st))
    {
      ghost var start := Start(header);
      ghost var ls := SplitAll(lines, Fields);
      ghost var r := RulesOf(p);
      lempty, ltotal, ptotal, dataO := 0, 0, 0, [];
      ghost var st := start;
      var i := 0;
      while i < |lines|
        invariant 0 <= i <= |lines|
        invariant st == Run(start, ls[..i], r)
        invariant Mirrors(st)
      {
        RunSnoc(start, ls, i, r);
        var raised := Line(Fields(lines[i]), p, st);
        st := Step(st, ls[i], r);
        if raised {
          RaisedStays(start, ls, i + 1, r);
          return Raised;
        }
        i := i + 1;
      }
      assert ls[..i] == ls;
      status := Returned(true);
    }

    /**
     * `WriteOutput`: with no peptide, False and nothing written; otherwise
     * the input dict, the header line, the rows and the last line, and True.
     */
    method WriteOutput(written: string, d: seq<(string, string)>, helper: Option<seq<(string, string)>>)
      returns (status: Status, out: string)
      ensures ptotal == 0 ==> status == Returned(false) && out == written
      ensures ptotal != 0 && !DataMethods.DictWrite(d, helper).1 ==>
        status == Raised && out == written + "Input data:\n" + DataMethods.DictWrite(d, helper).0
      ensures ptotal != 0 && DataMethods.DictWrite(d, helper).1 && header.None? ==>
        status == Raised
      ensures ptotal != 0 && DataMethods.DictWrite(d, helper).1 && header.Some? ==>
        && status == Returned(true)
        && out == written + "Input data:\n" + DataMethods.DictWrite(d, helper).0 + "\n" +
                  "Output data:\n" + header.value + "\n" +
                  DataMethods.ListText(dataO) + "\n\n" + DataMethods.LastLine()
    {
      if ptotal == 0 {
        return Returned(false), written;
      }
      var ok;
      ok, out := DataMethods.FFsWriteDict(written + "Input data:\n", d, helper);
      if !ok {
        return Raised, out;
      }
      out := out + "\n";
      out := out + "Output data:\n";
      if header.None? {
        return Raised, out;
      }
      out := out + header.value + "\n";
      ok, out := DataMethods.FFsWriteList(out, dataO);
      out := out + "\n\n";
      out := out + DataMethods.LastLine();
      status := Returned(true);
    }
  }

  /**
   * What the tab keeps: without a raise, every row written comes from a line
   * of the file that KeptSpec describes, and with a row there is a header,
   * that of the first line.
   */
  lemma TabRows(lines: seq<string>, p: Params, h0: Option<string>)
    ensures var st := Run(Start(h0), SplitAll(lines, Fields), RulesOf(p));
      !st.raised ==>
        && (forall row :: row in st.dataO ==>
              exists i :: 0 <= i < |lines| && Classify(Fields(lines[i]), p) == Kept(row))
        && (st.ptotal > 0 ==> st.header == HeaderOf(Fields(lines[0]), p.cols) && st.header.Some?)
  {
    var ls := SplitAll(lines, Fields);
    var st := Run(Start(h0), ls, RulesOf(p));
    RunSpec(Start(h0), ls, RulesOf(p));
    if !st.raised {
      forall row | row in st.dataO
        ensures exists i :: 0 <= i < |lines| && Classify(Fields(lines[i]), p) == Kept(row)
      {
        RowFromLine(lines, p, ls, row);
      }
      if st.ptotal > 0 {
        assert ls[0] == Fields(lines[0]);
      }
    }
  }

  lemma RowFromLine(lines: seq<string>, p: Params, ls: seq<seq<string>>, row: seq<string>)
    requires ls == SplitAll(lines, Fields)
    requires row in KeptRows(ls, RulesOf(p))
    ensures exists i :: 0 <= i < |lines| && Classify(Fields(lines[i]), p) == Kept(row)
  {
    KeptRowsMember(ls, RulesOf(p), row);
    var i :| 0 <= i < |ls| && RulesOf(p).verdict(ls[i]) == Kept(row);
    assert ls[i] == Fields(lines[i]);
  }

  // ------------------------------------------------------------ the pane

  /** `int(" ".join(text.split()))` */
  function IntOfText(text: string): Option<int> {
    ParseInt(Join(WsSplit(text), " "))
  }

  /** The peptide pane of pane.py. */
  class PeptidePane {
    var fRes: int
    var sRes: int
    var colExt: seq<int>
    var colExtStr: string
    var ltotal: nat
    var lempty: nat
    var ptotal: nat
    var header: Option<string>
    var dataO: seq<seq<string>>

    constructor()
      ensures fRes == 0 && sRes == 0 && colExt == [] && colExtStr == ""
      ensures ltotal == 0 && lempty == 0 && ptotal == 0 && header == None && dataO == []
    {
      fRes, sRes, colExt, colExtStr := 0, 0, [], "";
      ltotal, lempty, ptotal, header, dataO := 0, 0, 0, None, [];
    }

    /** The state of the analysis loop held by the fields. */
    function State(): Scan
      reads this
    {
      Scan(ltotal, lempty, ptotal, header, dataO, false)
    }

    /** The fields hold the (unraised) state `st`. */
    ghost predicate Mirrors(st: Scan)
      reads this
    {
      && !st.raised
      && ltotal == st.ltotal && lempty == st.lempty && ptotal == st.ptotal
      && header == st.header && dataO == st.dataO
    }

    /** The run values held by the fields. */
    function Values(): Params
      reads this
    {
      Params(fRes, sRes, colExt)
    }

    /**
     * `PrepareRun`: fRes, sRes and colExt are read from their texts in this
     * order, each assignment raising on a text that is no integer (list); on
     * success the counters and the rows are reset.
     */
    method PrepareRun(firstText: string, startText: string, colText: string) returns (status: Status)
      modifies this
      ensures var a, b, c := IntOfText(firstText), IntOfText(startText), GeneTabs.ParseAll(WsSplit(colText));
        && (status == Raised <==> a.None? || b.None? || c.None?)
        && (status != Raised ==> status == Returned(true))
        && fRes == (if a.Some? then a.value else old(fRes))
        && sRes == (if a.Some? && b.Some? then b.value else old(sRes))
        && colExt == (if a.Some? && b.Some? && c.Some? then c.value else old(colExt))
        && (status != Raised ==>
            && colExtStr == Join(WsSplit(colText), " ")
            && State() == Start(old(header)))
    {
      var a := IntOfText(firstText);
      var b := IntOfText(startText);
      var c: Option<seq<int>> := MapList(WsSplit(colText), ParseInt);
      status := Assign(a, b, c, Join(WsSplit(colText), " "));
    }

    /**
     * The assignments of PrepareRun given the three conversions: each field
     * is set when its conversion and those before it succeed; the first
     * failing conversion raises.
     */
    method Assign(a: Option<int>, b: Option<int>, c: Option<seq<int>>, colStr: string)
      returns (status: Status)
      modifies this
      ensures status == Raised <==> a.None? || b.None? || c.None?
      ensures status != Raised ==> status == Returned(true)
      ensures fRes == (if a.Some? then a.value else old(fRes))
      ensures sRes == (if a.Some? && b.Some? then b.value else old(sRes))
      ensures colExt == (if a.Some? && b.Some? && c.Some? then c.value else old(colExt))
      ensures status != Raised ==> colExtStr == colStr && State() == Start(old(header))
      ensures status == Raised ==> State() == old(State()) && colExtStr == old(colExtStr)
    {
      status := Raised;
      if a.Some? {
        fRes := a.value;
        if b.Some? {
          sRes := b.value;
          if c.Some? {
            colExt := c.value;
            colExtStr := colStr;
            lempty, ltotal, ptotal, dataO := 0, 0, 0, [];
            status := Returned(true);
          }
        }
      }
    }

    /** One pass of the loop body. */
    method Line(l: seq<string>, ghost st: Scan) returns (raised: bool)
      requires Mirrors(st)
      modifies this`ltotal, this`lempty, this`ptotal, this`header, this`dataO
      ensures raised == Step(st, l, RulesOf(Values())).raised
      ensures !raised ==> Mirrors(Step(st, l, RulesOf(Values())))
    {
      ltotal := ltotal + 1;
      if ltotal == 1 {
        var hs: Option<seq<string>> := MapList(colExt, At(l));
        if hs.None? {
          return true;
        }
        header := Some(Join(hs.value, "\t"));
      }
      raised := Tally(Classify(l, Values()), State());
    }

    /** The line's verdict applied to the counters and the rows (`lempty`, `ptotal`, `dataO`). */
    method Tally(v: Verdict, ghost st: Scan) returns (raised: bool)
      requires Mirrors(st)
      modifies this`lempty, this`ptotal, this`dataO
      ensures raised == Apply(st, v).raised
      ensures !raised ==> Mirrors(Apply(st, v))
    {
      match v
      case Blank =>
        lempty := lempty + 1;
        raised := false;
      case NotInt =>
        lempty := lempty + 1;
        raised := false;
      case Above =>
        raised := false;
      case Kept(row) =>
        dataO := dataO + [row];
        ptotal := ptotal + 1;
        raised := false;
      case Fails =>
        raised := true;
    }

    /**
     * `RunAnalysis`: every line of the input file (given as `lines`) is split
     * with `split` (the library splitter) and goes through the loop body,
     * continuing from the current counters; a raise ends it.
     */
    method RunAnalysis(lines: seq<string>, split: string -> seq<string>) returns (status: Status)
      modifies this`ltotal, this`lempty, this`ptotal, this`header, this`dataO
      ensures var st := Run(old(State()), SplitAll(lines, split), RulesOf(Values()));
        && (status == Raised <==> st.raised)
        && (status != Raised ==> status == Returned(true) && Mirrors(st))
    {
      ghost var start := State();
      ghost var ls := SplitAll(lines, split);
      ghost var r := RulesOf(Values());
      ghost var st := start;
      var i := 0;
      while i < |lines|
        invariant 0 <= i <= |lines|
        invariant RulesOf(Values()) == r
        invariant st == Run(start, ls[..i], r)
        invariant Mirrors(st)
      {
        RunSnoc(start, ls, i, r);
        var raised := Line(split(lines[i]), st);
        st := Step(st, ls[i], r);
        if raised {
          RaisedStays(start, ls, i + 1, r);
          return Raised;
        }
        i := i + 1;
      }
      assert ls[..i] == ls;
      status := Returned(true);
    }

    /**
     * The guard of `WriteOutput`: False with no peptide; otherwise True and
     * the header line `str(header) + '\n'` that heads the rows (a header
     * never set raises).
     */
    method WriteOutput() returns (status: Status, headerLine: string)
      ensures ptotal == 0 ==> status == Returned(false)
      ensures ptotal != 0 && header.None? ==> status == Raised
      ensures ptotal != 0 && header.Some? ==> status == Returned(true) && headerLine == header.value + "\n"
    {
      if ptotal == 0 {
        return Returned(false), "";
      }
      if header.None? {
        return Raised, "";
      }
      status, headerLine := Returned(true), header.value + "\n";
    }
  }
}

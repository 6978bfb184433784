/**
 * The string and record serialisers. An open output file is modelled by the
 * text written to it so far: each writer takes that text and gives back the
 * text with its own output appended.
 */
module DataMethods {
  import opened Wrappers
  import opened Text
  import ODict
  import Config

  // ---------------------------------------------------------------- str2l

  /**
   * `str2l(myStr, sep, stripOpt)`: always succeeds with the `sep`-split parts
   * of `myStr`, each stripped when `stripOpt` is set.
   */
  method Str2l(myStr: string, sep: char, stripOpt: bool) returns (ok: bool, myL: seq<string>)
    ensures ok
    ensures |myL| == Occurrences(myStr, sep) + 1
    ensures forall k :: 0 <= k < |myL| ==>
      myL[k] == if stripOpt then Strip(Split(myStr, sep)[k]) else Split(myStr, sep)[k]
  {
    myL := Split(myStr, sep);
    if stripOpt {
      var k := 0;
      while k < |myL|
        invariant 0 <= k <= |myL| == |Split(myStr, sep)|
        invariant forall j :: 0 <= j < k ==> myL[j] == Strip(Split(myStr, sep)[j])
        invariant forall j :: k <= j < |myL| ==> myL[j] == Split(myStr, sep)[j]
      {
        myL := myL[k := Strip(myL[k])];
        k := k + 1;
      }
    }
    ok := true;
  }

  // -------------------------------------------------------- FFsWriteList

  /** Each row joined with tabs. */
  function TabJoined(rows: seq<seq<string>>): (r: seq<string>)
    ensures |r| == |rows|
    ensures forall i :: 0 <= i < |rows| ==> r[i] == Join(rows[i], "\t")
  {
    if |rows| == 0 then [] else [Join(rows[0], "\t")] + TabJoined(rows[1..])
  }

  /** What FFsWriteList writes: the tab-joined rows separated by newlines, none after the last. */
  function ListText(rows: seq<seq<string>>): string {
    Join(TabJoined(rows), "\n")
  }

  /**
   * `FFsWriteList(oFile, iList)`: writes every row tab-joined, followed by a
   * newline unless it is the last row.
   */
  method FFsWriteList(written: string, iList: seq<seq<string>>) returns (ok: bool, out: string)
    ensures ok
    ensures out == written + ListText(iList)
  {
    var lastL := |iList|;
    out := written;
    var k := 1;
    while k <= lastL
      invariant 1 <= k <= lastL + 1
      invariant out == written + ListText(iList[..k - 1]) + (if 1 < k <= lastL then "\n" else "")
    {
      var li := Join(iList[k - 1], "\t");
      ListStep(iList, k);
      if k < lastL {
        out := out + li + "\n";
      } else {
        out := out + li;
      }
      k := k + 1;
    }
    assert iList[..k - 1] == iList;
    ok := true;
  }

  /** Row `k` (counted from 1) of the list follows the rows before it, after a newline if there are any. */
  lemma ListStep(rows: seq<seq<string>>, k: nat)
    requires 1 <= k <= |rows|
    ensures ListText(rows[..k]) == ListText(rows[..k - 1]) + (if k > 1 then "\n" else "") + Join(rows[k - 1], "\t")
  {
    var pre := TabJoined(rows[..k - 1]);
    TabJoinedSnoc(rows, k);
    JoinSnoc(pre, Join(rows[k - 1], "\t"), "\n");
  }

  lemma {:induction false} TabJoinedSnoc(rows: seq<seq<string>>, k: nat)
    requires 1 <= k <= |rows|
    ensures TabJoined(rows[..k]) == TabJoined(rows[..k - 1]) + [Join(rows[k - 1], "\t")]
  {
    var a, b := TabJoined(rows[..k]), TabJoined(rows[..k - 1]) + [Join(rows[k - 1], "\t")];
    assert |a| == |b|;
    forall i | 0 <= i < |a| ensures a[i] == b[i] {
      if i < k - 1 {
        assert rows[..k][i] == rows[..k - 1][i];
      }
    }
  }

  /** Joining one more part adds the separator (when there were parts) and the part. */
  lemma {:induction false} JoinSnoc(parts: seq<string>, x: string, sep: string)
    ensures Join(parts + [x], sep) == Join(parts, sep) + (if |parts| > 0 then sep else "") + x
  {
    if |parts| > 1 {
      assert (parts + [x])[1..] == parts[1..] + [x];
      JoinSnoc(parts[1..], x, sep);
    } else if |parts| == 1 {
      assert (parts + [x])[1..] == [x];
    } else {
      assert parts + [x] == [x];
    }
  }

  /** A character that is in no part and not in the separator is not in the join. */
  lemma {:induction false} JoinAvoids(parts: seq<string>, sep: string, c: char)
    requires c !in sep
    requires forall i :: 0 <= i < |parts| ==> c !in parts[i]
    ensures c !in Join(parts, sep)
  {
    if |parts| > 1 {
      JoinAvoids(parts[1..], sep, c);
    }
  }

  /** No cell holds a tab or a newline. */
  predicate PlainCells(rows: seq<seq<string>>) {
    forall i, j :: 0 <= i < |rows| && 0 <= j < |rows[i]| ==>
      '\t' !in rows[i][j] && '\n' !in rows[i][j]
  }

  /**
   * Reading the written list back: splitting on newlines and then on tabs
   * gives the rows, provided there is at least one row, no row is empty and
   * no cell holds a tab or a newline.
   */
  lemma ListTextRoundTrip(rows: seq<seq<string>>)
    requires |rows| >= 1
    requires forall i :: 0 <= i < |rows| ==> |rows[i]| >= 1
    requires PlainCells(rows)
    ensures |Split(ListText(rows), '\n')| == |rows|
    ensures forall i :: 0 <= i < |rows| ==> Split(Split(ListText(rows), '\n')[i], '\t') == rows[i]
  {
    var lines := TabJoined(rows);
    forall i | 0 <= i < |rows|
      ensures '\n' !in lines[i]
      ensures Split(lines[i], '\t') == rows[i]
    {
      JoinAvoids(rows[i], "\t", '\n');
      SplitJoin(rows[i], '\t');
    }
    SplitJoin(lines, '\n');
  }

  // -------------------------------------------------------- FFsWriteDict

  /**
   * The text FFsWriteDict writes for the entries of `idict`, and whether it
   * got through all of them: one `label:\tvalue` line per entry, then an
   * empty line. The label is the key, or its entry in the helper dict
   * `hDict`; a key the helper lacks raises KeyError there, so the text stops
   * before that entry.
   */
  function DictWrite(idict: seq<(string, string)>, hDict: Option<seq<(string, string)>>): (string, bool) {
    if |idict| == 0 then ("\n", true)
    else
      match Label(idict[0].0, hDict)
      case None => ("", false)
      case Some(j) =>
        var rest := DictWrite(idict[1..], hDict);
        (j + ":\t" + idict[0].1 + "\n" + rest.0, rest.1)
  }

  /** `FFsWriteDict(oFile, idict, hDict)`; `ok` is false where Python raises KeyError. */
  method FFsWriteDict(written: string, idict: seq<(string, string)>,
                      hDict: Option<seq<(string, string)>>) returns (ok: bool, out: string)
    ensures (out, ok) == (written + DictWrite(idict, hDict).0, DictWrite(idict, hDict).1)
  {
    out := written;
    var i := 0;
    while i < |idict|
      invariant 0 <= i <= |idict|
      invariant out + DictWrite(idict[i..], hDict).0 == written + DictWrite(idict, hDict).0
      invariant DictWrite(idict[i..], hDict).1 == DictWrite(idict, hDict).1
    {
      var (k, v) := idict[i];
      var j: string;
      if hDict.None? {
        j := k;
      } else {
        var h := ODict.Get(hDict.value, k);
        if h.None? {
          DictWriteStep(idict, i, hDict);
          assert out + "" == out;
          ok := false;
          return;
        }
        j := h.value;
      }
      var line := j + ":\t" + v + "\n";
      DictWriteStep(idict, i, hDict);
      Assoc(out, line, DictWrite(idict[i + 1..], hDict).0);
      out := out + line;
      i := i + 1;
    }
    out := out + "\n";
    ok := true;
  }

  /** The entry at `i` is written (with its label) before the rest, or stops the writing. */
  lemma DictWriteStep(idict: seq<(string, string)>, i: nat, hDict: Option<seq<(string, string)>>)
    requires i < |idict|
    ensures var rest := DictWrite(idict[i + 1..], hDict);
      DictWrite(idict[i..], hDict) ==
        match Label(idict[i].0, hDict)
        case None => ("", false)
        case Some(j) => (j + ":\t" + idict[i].1 + "\n" + rest.0, rest.1)
  {
    assert idict[i..][1..] == idict[i + 1..];
  }

  /** The label of a key: itself, or its entry in the helper dict. */
  function Label(k: string, hDict: Option<seq<(string, string)>>): Option<string> {
    if hDict.None? then Some(k) else ODict.Get(hDict.value, k)
  }

  /** The lines FFsWriteDict writes before its closing empty line. */
  function EntryLines(idict: seq<(string, string)>, hDict: Option<seq<(string, string)>>): (r: seq<string>)
    requires forall i :: 0 <= i < |idict| ==> Label(idict[i].0, hDict).Some?
    ensures |r| == |idict|
    ensures forall i :: 0 <= i < |idict| ==>
      r[i] == Label(idict[i].0, hDict).value + ":\t" + idict[i].1
  {
    if |idict| == 0 then [] else
      [Label(idict[0].0, hDict).value + ":\t" + idict[0].1] + EntryLines(idict[1..], hDict)
  }

  /**
   * FFsWriteDict gets through all entries exactly when there is no helper
   * dict or the helper has every key; the text is then the entry lines in
   * insertion order, each ended by a newline, and one more newline.
   */
  lemma {:induction false} DictWriteSpec(idict: seq<(string, string)>, hDict: Option<seq<(string, string)>>)
    ensures DictWrite(idict, hDict).1 <==>
      forall i :: 0 <= i < |idict| ==> Label(idict[i].0, hDict).Some?
    ensures DictWrite(idict, hDict).1 ==>
      DictWrite(idict, hDict).0 == Join(EntryLines(idict, hDict) + ["", ""], "\n")
  {
    if |idict| > 0 {
      DictWriteSpec(idict[1..], hDict);
      assert forall i :: 1 <= i < |idict| ==> idict[1..][i - 1] == idict[i];
      if DictWrite(idict, hDict).1 {
        var ls := EntryLines(idict, hDict);
        assert ls + ["", ""] == [ls[0]] + (EntryLines(idict[1..], hDict) + ["", ""]);
      }
    }
  }

  /**
   * Reading the written dict back: when the labels and values hold no
   * newline, splitting the text on newlines gives one `label:\tvalue` line
   * per entry and then two empty pieces.
   */
  lemma DictWriteRoundTrip(idict: seq<(string, string)>, hDict: Option<seq<(string, string)>>)
    requires forall i :: 0 <= i < |idict| ==> Label(idict[i].0, hDict).Some?
    requires forall i :: 0 <= i < |idict| ==>
      '\n' !in Label(idict[i].0, hDict).value && '\n' !in idict[i].1
    ensures DictWrite(idict, hDict).1
    ensures Split(DictWrite(idict, hDict).0, '\n') == EntryLines(idict, hDict) + ["", ""]
  {
    DictWriteSpec(idict, hDict);
    var ls := EntryLines(idict, hDict) + ["", ""];
    forall i | 0 <= i < |ls| ensures '\n' !in ls[i] {
      if i < |idict| {
        assert ls[i] == Label(idict[i].0, hDict).value + ":\t" + idict[i].1;
      }
    }
    SplitJoin(ls, '\n');
  }

  // ---------------------------------------------------- FFsWriteLastLine

  /** `FFsWriteLastLine(oFile)`: the closing line of every output file. */
  function LastLine(): string {
    "File generated with\t" + Config.AppName + "\t" + Config.AppVersion
  }

  /** The last line is one line of three tab-separated fields: the phrase, the name, the version. */
  lemma LastLineFields()
    ensures Split(LastLine(), '\t') == ["File generated with", Config.AppName, Config.AppVersion]
    ensures '\n' !in LastLine()
  {
    var parts := ["File generated with", Config.AppName, Config.AppVersion];
    assert parts[1..][1..] == [Config.AppVersion];
    assert Join(parts[1..], "\t") == Config.AppName + "\t" + Config.AppVersion;
    assert LastLine() == Join(parts, "\t");
    assert forall i :: 0 <= i < |parts| ==> '\t' !in parts[i] && '\n' !in parts[i];
    SplitJoin(parts, '\t');
    JoinAvoids(parts, "\t", '\n');
  }
}

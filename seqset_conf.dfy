/**
 * The configuration dialog of the consensus tab (class
 * `ConsensusSearchConfig`): it asks for a number of residues, creates that
 * many rows of position/amino-acid fields, and exports the typed rows as the
 * position -> letters mapping the consensus validator reads. The typed texts
 * are parameters; so is the outcome of `ast.literal_eval` on the text already
 * in the consensus tab.
 */
module SeqSetConf {
  import opened Wrappers
  import opened Text
  import ODict
  import Config
  import Checks
  import ConsensusTab
  import opened PyLit
  import opened GuiChecks

  /** The key of row `k` (numbered from 1): the row number if no position was typed, else the typed text. */
  function RowKey(k: nat, pos: string): PyVal {
    if pos == "" then PyInt(k) else PyStr(pos)
  }

  /** The entry row `k` (numbered from 1) contributes: its key and its letters upper-cased. */
  function RowEntry(k: nat, row: (string, string)): (PyVal, PyVal) {
    (RowKey(k, row.0), PyStr(Upper(row.1)))
  }

  /** The rows inserted one after the other, a later row replacing an earlier one with the same key. */
  function Rows(rows: seq<(string, string)>): seq<(PyVal, PyVal)> {
    if |rows| == 0 then []
    else
      var e := RowEntry(|rows|, rows[|rows| - 1]);
      ODict.Put(Rows(rows[..|rows| - 1]), e.0, e.1)
  }

  /** Every row has a typed position. */
  predicate AllTyped(rows: seq<(string, string)>) {
    forall i :: 0 <= i < |rows| ==> rows[i].0 != ""
  }

  /** The mapping OnOk exports: the rows, then the Pos key with the flag "every position typed". */
  function Mapping(rows: seq<(string, string)>): seq<(PyVal, PyVal)> {
    ODict.Put(Rows(rows), PyStr(Config.PosKey), PyBool(AllTyped(rows)))
  }

  /**
   * The Pos key is the last item. InitVal numbers the items from 1 while the
   * rows OnCreate built for `len(dict) - 1` residues are numbered 1 to
   * `len(dict) - 1`: a last item other than Pos has no row, and the lookup
   * of its row raises IndexError.
   */
  predicate PosLast(items: seq<(PyVal, PyVal)>) {
    |items| > 0 && items[|items| - 1].0 == PyStr(Config.PosKey)
  }

  class ConsensusSearchConfig {
    /** The validator fields `d` and `do` the dialog inherits. */
    const gc: GuiCheck
    /** Whether `self.do` exists: it is created by the first OnCreate. */
    var hasDo: bool
    /** The text of the number-of-residues field. */
    var nResText: string
    /** The mapping last written to the consensus tab, if any. */
    var exported: Option<seq<(PyVal, PyVal)>>

    constructor ()
      ensures !hasDo && nResText == "" && exported.None?
      ensures gc.d == [] && gc.dO == []
    {
      gc := new GuiCheck();
      hasDo := false;
      nResText := "";
      exported := None;
    }

    /**
     * `OnCreate`: resets `d` and `do`, checks the number of residues as an
     * integer greater than 0 and, when it passes, stores `TRow`, one more
     * than that number (the header row).
     */
    method OnCreate() returns (ok: bool)
      modifies this, gc
      ensures hasDo && nResText == old(nResText) && exported == old(exported)
      ensures gc.d == [("NRes", nResText)]
      ensures
        var r := Checks.CheckMNumber(nResText, "gt", 0, None);
        && (ok <==> r.Some?)
        && gc.dO == (if r.Some? then [("NRes", Number(r.value)), ("TRow", Number(r.value + 1))]
                     else [("NRes", NoValue)])
    {
      gc.d := [];
      gc.dO := [];
      hasDo := true;
      NaNotNumber(nResText, "gt");
      ok := gc.GuiCheckInteger("NRes", nResText, "gt", false);
      if !ok {
        return;
      }
      var n := Checks.CheckMNumber(nResText, "gt", 0, None).value;
      gc.dO := ODict.Put(gc.dO, "TRow", Number(n + 1));
    }

    /**
     * `OnOk` for the rows below the header, each a (position text,
     * amino-acid text) pair. Without `do` (no OnCreate yet) it returns False;
     * with `do` but no `TRow` the lookup raises KeyError; otherwise it builds
     * the mapping and exports it.
     */
    method OnOk(rows: seq<(string, string)>) returns (st: Status)
      modifies this
      ensures hasDo == old(hasDo) && nResText == old(nResText)
      ensures !hasDo ==> st == Returned(false) && exported == old(exported)
      ensures hasDo && ODict.Get(gc.dO, "TRow").None? ==> st == Raised && exported == old(exported)
      ensures hasDo && ODict.Get(gc.dO, "TRow").Some? ==> st == Returned(true) && exported == Some(Mapping(rows))
    {
      if !hasDo {
        return Returned(false);
      }
      if ODict.Get(gc.dO, "TRow").None? {
        return Raised;
      }
      var myDict := BuildMapping(rows);
      exported := Some(myDict);
      return Returned(true);
    }

    /**
     * `InitVal`, for the text already in the consensus tab and its literal
     * evaluation: empty text or a non-dict returns False; text that does not
     * evaluate raises; a dict sets the number of residues to its size minus
     * one (the Pos key) and runs OnCreate; it then raises KeyError when the
     * dict has no Pos key, and IndexError when its last item is not Pos.
     */
    method InitVal(userText: string, lit: Literal) returns (st: Status)
      modifies this, gc
      ensures userText == "" ==> st == Returned(false) && unchanged(this, gc)
      ensures userText != "" && lit.NotParseable? ==> st == Raised
      ensures userText != "" && lit.NotADict? ==> st == Returned(false)
      ensures userText != "" && lit.Dict? ==>
        && nResText == IntToStr(|lit.items| - 1)
        && hasDo
        && (ODict.Get(gc.dO, "TRow").Some? <==> |lit.items| >= 2)
        && (|lit.items| >= 2 ==> ODict.Get(gc.dO, "TRow") == Some(Number(|lit.items|)))
        && st == (if ODict.Get(lit.items, PyStr(Config.PosKey)).None? || !PosLast(lit.items) then Raised else Returned(true))
    {
      if userText == "" {
        return Returned(false);
      }
      match lit
      case NotParseable =>
        return Raised;
      case NotADict =>
        return Returned(false);
      case Dict(items) =>
        SetResidues(|items| - 1);
        if ODict.Get(items, PyStr(Config.PosKey)).None? {
          return Raised;
        }
        if items[|items| - 1].0 != PyStr(Config.PosKey) {
          return Raised;
        }
        return Returned(true);
    }

    /**
     * The number of residues read from the typed dict: the field is set to
     * `n` and OnCreate runs, which stores `TRow` only when `n` passes.
     */
    method SetResidues(n: int)
      modifies this, gc
      ensures nResText == IntToStr(n) && hasDo
      ensures ODict.Get(gc.dO, "TRow") == (if n > 0 then Some(Number(n + 1)) else None)
    {
      nResText := IntToStr(n);
      var _ := OnCreate();
      ResiduesNumber(n);
      if n > 0 {
        ODict.PutGet([("NRes", Number(n))], "TRow", Number(n + 1));
      } else {
        assert gc.dO == [("NRes", NoValue)];
      }
    }

    /**
     * `OnOk` past its two checks: the rows inserted one by one, then the
     * Pos flag.
     */
    static method BuildMapping(rows: seq<(string, string)>) returns (myDict: seq<(PyVal, PyVal)>)
      ensures myDict == Mapping(rows)
    {
      myDict := [];
      var pos := true;
      var k := 0;
      while k < |rows|
        invariant 0 <= k <= |rows|
        invariant myDict == Rows(rows[..k]) && pos == AllTyped(rows[..k])
      {
        RowsSnoc(rows, k);
        TypedSnoc(rows, k);
        if rows[k].0 == "" {
          myDict := ODict.Put(myDict, PyInt(k + 1), PyStr(Upper(rows[k].1)));
          pos := false;
        } else {
          myDict := ODict.Put(myDict, PyStr(rows[k].0), PyStr(Upper(rows[k].1)));
        }
        k := k + 1;
      }
      assert rows[..k] == rows;
      myDict := ODict.Put(myDict, PyStr(Config.PosKey), PyBool(pos));
    }
  }

  /** One more row: its entry is inserted. */
  lemma RowsSnoc(rows: seq<(string, string)>, k: nat)
    requires k < |rows|
    ensures Rows(rows[..k + 1]) == ODict.Put(Rows(rows[..k]), RowKey(k + 1, rows[k].0), PyStr(Upper(rows[k].1)))
  {
    var q := rows[..k + 1];
    assert q[..k] == rows[..k];
    assert q[k] == rows[k];
    assert Rows(q) == ODict.Put(Rows(q[..k]), RowEntry(k + 1, q[k]).0, RowEntry(k + 1, q[k]).1);
  }

  /** One more row: the flag also needs its position typed. */
  lemma TypedSnoc(rows: seq<(string, string)>, k: nat)
    requires k < |rows|
    ensures AllTyped(rows[..k + 1]) <==> AllTyped(rows[..k]) && rows[k].0 != ""
  {
    var q, p := rows[..k + 1], rows[..k];
    if AllTyped(q) {
      assert q[k] == rows[k];
      forall i | 0 <= i < k ensures p[i].0 != "" {
        assert p[i] == q[i];
      }
    }
    if AllTyped(p) && rows[k].0 != "" {
      forall i | 0 <= i < k + 1 ensures q[i].0 != "" {
        if i < k {
          assert q[i] == p[i];
        }
      }
    }
  }

  /** The decimal text of `n` passes as a number greater than 0 exactly when `n` does. */
  lemma ResiduesNumber(n: int)
    ensures Checks.CheckMNumber(IntToStr(n), "gt", 0, None) == (if n > 0 then Some(n) else None)
  {
    ParseIntToStr(n);
  }

  /** A "no value" text never passes as a number. */
  lemma NaNotNumber(text: string, comp: string)
    ensures text in Config.NaVals ==> Checks.CheckMNumber(text, comp, 0, None).None?
  {
    if text in Config.NaVals {
      if text == "" {
        assert Strip(text) == "";
      } else {
        assert text[0] == 'N' || text[0] == 'n';
        assert text[|text| - 1] in "NnoOA";
        LetterNotInt(text);
      }
    }
  }

  // ------------------------------------------------ the exported mapping

  /** The Pos key holds True exactly when every row has a typed position. */
  lemma MappingPos(rows: seq<(string, string)>)
    ensures ODict.Get(Mapping(rows), PyStr(Config.PosKey)) == Some(PyBool(AllTyped(rows)))
  {
    ODict.PutGet(Rows(rows), PyStr(Config.PosKey), PyBool(AllTyped(rows)));
  }

  /**
   * A row whose key is not Pos and is not repeated by a later row ends up
   * in the mapping with its own letters, upper-cased.
   */
  lemma {:induction false} MappingLater(rows: seq<(string, string)>, i: nat)
    requires i < |rows| && RowKey(i + 1, rows[i].0) != PyStr(Config.PosKey)
    requires forall j :: i < j < |rows| ==> RowKey(j + 1, rows[j].0) != RowKey(i + 1, rows[i].0)
    ensures ODict.Get(Mapping(rows), RowKey(i + 1, rows[i].0)) == Some(PyStr(Upper(rows[i].1)))
  {
    RowsLater(rows, i);
    ODict.PutGetOther(Rows(rows), PyStr(Config.PosKey), PyBool(AllTyped(rows)), RowKey(i + 1, rows[i].0));
  }

  lemma {:induction false} RowsLater(rows: seq<(string, string)>, i: nat)
    requires i < |rows|
    requires forall j :: i < j < |rows| ==> RowKey(j + 1, rows[j].0) != RowKey(i + 1, rows[i].0)
    ensures ODict.Get(Rows(rows), RowKey(i + 1, rows[i].0)) == Some(PyStr(Upper(rows[i].1)))
  {
    var n := |rows| - 1;
    var p := rows[..n];
    var e := RowEntry(|rows|, rows[n]);
    if i == n {
      ODict.PutGet(Rows(p), e.0, e.1);
    } else {
      assert p[i] == rows[i];
      forall j | i < j < |p| ensures RowKey(j + 1, p[j].0) != RowKey(i + 1, p[i].0) {
        assert p[j] == rows[j];
      }
      RowsLater(p, i);
      assert e.0 != RowKey(i + 1, rows[i].0);
      ODict.PutGetOther(Rows(p), e.0, e.1, RowKey(i + 1, rows[i].0));
    }
  }

  /**
   * With no position typed as Pos, the exported mapping ends with the Pos
   * key, so InitVal reading it back neither raises KeyError nor IndexError.
   */
  lemma ExportReloads(rows: seq<(string, string)>)
    requires PyStr(Config.PosKey) !in RowKeys(rows)
    ensures PosLast(Mapping(rows))
    ensures ODict.Get(Mapping(rows), PyStr(Config.PosKey)).Some?
  {
    var pk := PyStr(Config.PosKey);
    var d := Rows(rows);
    RowsEntries(rows);
    forall i | 0 <= i < |d| ensures ODict.Keys(d)[i] != pk {
      assert d[i] in d;
      var j :| 0 <= j < |rows| && d[i] == RowEntry(j + 1, rows[j]);
      assert RowKeys(rows)[j] == d[i].0;
    }
    MappingPos(rows);
  }

  /** The keys of the rows, in row order. */
  function RowKeys(rows: seq<(string, string)>): (ks: seq<PyVal>)
    ensures |ks| == |rows|
    ensures forall i :: 0 <= i < |rows| ==> ks[i] == RowKey(i + 1, rows[i].0)
  {
    seq(|rows|, i requires 0 <= i < |rows| => RowKey(i + 1, rows[i].0))
  }

  /**
   * With no key typed twice and none typed as Pos, the mapping has one
   * entry per row, in row order, then Pos; so InitVal, reading it back,
   * finds as many residues as there were rows.
   */
  lemma MappingSize(rows: seq<(string, string)>)
    requires Checks.Distinct(RowKeys(rows)) && PyStr(Config.PosKey) !in RowKeys(rows)
    ensures ODict.Keys(Mapping(rows)) == RowKeys(rows) + [PyStr(Config.PosKey)]
    ensures |Mapping(rows)| - 1 == |rows|
  {
    RowsKeys(rows);
    ODict.PutKeys(Rows(rows), PyStr(Config.PosKey), PyBool(AllTyped(rows)));
  }

  lemma {:induction false} RowsKeys(rows: seq<(string, string)>)
    requires Checks.Distinct(RowKeys(rows))
    ensures ODict.Keys(Rows(rows)) == RowKeys(rows)
  {
    if |rows| > 0 {
      var ks := RowKeys(rows);
      var n := |rows| - 1;
      var p := rows[..n];
      assert RowKeys(p) == ks[..n];
      assert Checks.Distinct(ks[..n]) by {
        forall i, j | 0 <= i < j < n ensures ks[..n][i] != ks[..n][j] {
          assert ks[..n][i] == ks[i] && ks[..n][j] == ks[j];
        }
      }
      RowsKeys(p);
      var e := RowEntry(|rows|, rows[n]);
      assert e.0 == ks[n];
      forall i | 0 <= i < n ensures ks[..n][i] != e.0 {
        assert ks[..n][i] == ks[i];
      }
      ODict.PutKeys(Rows(p), e.0, e.1);
      LastSplit(ks);
    }
  }

  lemma LastSplit<T>(s: seq<T>)
    requires |s| > 0
    ensures s == s[..|s| - 1] + [s[|s| - 1]]
  {
  }

  /** Every entry of the rows is the entry of some row. */
  lemma {:induction false} RowsEntries(rows: seq<(string, string)>)
    ensures forall e :: e in Rows(rows) ==> exists j :: 0 <= j < |rows| && e == RowEntry(j + 1, rows[j])
  {
    if |rows| > 0 {
      var n := |rows| - 1;
      var p := rows[..n];
      RowsEntries(p);
      var e := RowEntry(|rows|, rows[n]);
      ODict.PutEntries(Rows(p), e.0, e.1);
      forall x | x in Rows(rows) ensures exists j :: 0 <= j < |rows| && x == RowEntry(j + 1, rows[j]) {
        if x in Rows(p) {
          var j :| 0 <= j < |p| && x == RowEntry(j + 1, p[j]);
          assert x == RowEntry(j + 1, rows[j]);
        } else {
          assert x == RowEntry(n + 1, rows[n]);
        }
      }
    }
  }

  /** A typed row the validator lets through: a position `int()` reads and good letters. */
  predicate GoodRow(row: (string, string)) {
    (row.0 == "" || ParseInt(row.0).Some?) && GoodTokens(Tokens(Upper(row.1)))
  }

  /**
   * The exported mapping never makes the validator raise (every value but
   * Pos is text); it is accepted when every row is good; and once accepted
   * it selects the positional scan exactly when every position was typed.
   */
  lemma ExportValidated(rows: seq<(string, string)>)
    ensures !PosAADict(Dict(Mapping(rows))).raised
    ensures (forall i :: 0 <= i < |rows| ==> GoodRow(rows[i])) ==>
      PosAADict(Dict(Mapping(rows))).k
    ensures PosAADict(Dict(Mapping(rows))).k ==>
      ConsensusTab.Mode(PosAADict(Dict(Mapping(rows))).table) == Some(AllTyped(rows))
  {
    var m := Mapping(rows);
    PosAADictSpec(Dict(m));
    ExportNoRaising(rows);
    MappingPos(rows);
    var k := PosIndex(m);
    if forall i :: 0 <= i < |rows| ==> GoodRow(rows[i]) {
      ExportAllGood(rows);
    }
    if PosAADict(Dict(m)).k {
      ExportPos(rows);
    }
  }

  /** No item of the exported mapping reaches `str2l` with a value that is not text. */
  lemma ExportNoRaising(rows: seq<(string, string)>)
    ensures forall j :: 0 <= j < |Mapping(rows)| ==> !RaisingItem(Mapping(rows)[j])
  {
    var m := Mapping(rows);
    RowsEntries(rows);
    ODict.PutEntries(Rows(rows), PyStr(Config.PosKey), PyBool(AllTyped(rows)));
    forall j | 0 <= j < |m| ensures !RaisingItem(m[j]) {
      assert m[j] in m;
    }
  }

  /** When every typed row is good, every item of the exported mapping is let through. */
  lemma ExportAllGood(rows: seq<(string, string)>)
    requires forall i :: 0 <= i < |rows| ==> GoodRow(rows[i])
    ensures forall j :: 0 <= j < |Mapping(rows)| ==> GoodItem(Mapping(rows)[j])
  {
    var m := Mapping(rows);
    var pk := PyStr(Config.PosKey);
    RowsEntries(rows);
    ODict.PutEntries(Rows(rows), pk, PyBool(AllTyped(rows)));
    forall j | 0 <= j < |m| ensures GoodItem(m[j]) {
      assert m[j] in m;
      if m[j] != (pk, PyBool(AllTyped(rows))) {
        var r :| 0 <= r < |rows| && m[j] == RowEntry(r + 1, rows[r]);
        RowGood(r + 1, rows[r]);
      }
    }
  }

  /** The entry of a good row is let through by the validator. */
  lemma RowGood(k: nat, row: (string, string))
    requires GoodRow(row)
    ensures GoodItem(RowEntry(k, row))
  {
    var e := RowEntry(k, row);
    if row.0 == "" {
      assert e.0 == PyInt(k);
    } else {
      assert e.0 == PyStr(row.0) && IntOf(e.0) == ParseInt(row.0);
    }
    assert e.1 == PyStr(Upper(row.1));
  }

  /** The last Pos item of the exported mapping holds whether every position was typed. */
  lemma ExportPos(rows: seq<(string, string)>)
    ensures LastPos(Mapping(rows)) == Some(PyBool(AllTyped(rows)))
  {
    var pk := PyStr(Config.PosKey);
    MappingPos(rows);
    RowsUnique(rows);
    ODict.PutUnique(Rows(rows), pk, PyBool(AllTyped(rows)));
    LastPosUnique(Mapping(rows), PyBool(AllTyped(rows)));
  }

  /** The rows are inserted by key, so no key appears twice. */
  lemma {:induction false} RowsUnique(rows: seq<(string, string)>)
    ensures ODict.UniqueKeys(Rows(rows))
  {
    if |rows| > 0 {
      var e := RowEntry(|rows|, rows[|rows| - 1]);
      RowsUnique(rows[..|rows| - 1]);
      ODict.PutUnique(Rows(rows[..|rows| - 1]), e.0, e.1);
    }
  }

  /** The index of the Pos key in a mapping that has one. */
  lemma PosIndex(m: seq<(PyVal, PyVal)>) returns (k: nat)
    requires ODict.Get(m, PyStr(Config.PosKey)).Some?
    ensures k < |m| && IsPosKey(m[k].0)
  {
    var ks := ODict.Keys(m);
    k :| 0 <= k < |ks| && ks[k] == PyStr(Config.PosKey);
  }

  /** In a mapping built by insertion, the last Pos item holds the value stored under Pos. */
  lemma {:induction false} LastPosUnique(m: seq<(PyVal, PyVal)>, v: PyVal)
    requires ODict.UniqueKeys(m) && ODict.Get(m, PyStr(Config.PosKey)) == Some(v)
    ensures LastPos(m) == Some(v)
  {
    var n := |m| - 1;
    var p := m[..n];
    if IsPosKey(m[n].0) {
      ODict.GetLast(m);
    } else {
      ODict.GetInit(m, PyStr(Config.PosKey));
      assert ODict.UniqueKeys(p);
      LastPosUnique(p, v);
    }
  }
}

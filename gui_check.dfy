/**
 * The input validators shared by the tabs and the configuration dialog
 * (class `GuiCheck`). Each validator reads the text of one field, records it
 * under a key in the raw-text dict `d`, and records the converted value under
 * the same key in the dict `dO` (the source's `self.do`). The text of the
 * field is a parameter; for the position/amino-acid mapping, so is the outcome
 * of `ast.literal_eval` on that text.
 */
module GuiChecks {
  import opened Wrappers
  import opened Text
  import ODict
  import Config
  import Checks
  import DataMethods
  import Candidates
  import ConsensusTab
  import PyList
  import opened PyLit

  /** A converted value as the validators store it in `dO`. */
  datatype Slot =
    | NoValue                         // None
    | Raw(text: string)               // the text itself
    | Number(n: int)
    | Numbers(list: Checks.NumList)
    | PosDict(table: PosTable)        // the validated position -> letters mapping
    | Indices(ks: seq<int>)           // the zero-based positions of that mapping

  /** What SetInitVal stores under its key: None for a "no value" text, else the text. */
  function InitSlot(text: string): Slot {
    if text in Config.NaVals then NoValue else Raw(text)
  }

  function NumberSlot(r: Option<int>): Slot {
    if r.None? then NoValue else Number(r.value)
  }

  function ListSlot(r: Option<Checks.NumList>): Slot {
    if r.None? then NoValue else Numbers(r.value)
  }

  // ------------------------------------------- the position/letters mapping

  /** `str2l(v, ' ')[1]`: the single-space-separated tokens of `v`, each stripped. */
  function Tokens(v: string): (r: seq<string>)
    ensures |r| == |Split(v, ' ')|
    ensures forall j :: 0 <= j < |r| ==> r[j] == Strip(Split(v, ' ')[j])
  {
    seq(|Split(v, ' ')|, j requires 0 <= j < |Split(v, ' ')| => Strip(Split(v, ' ')[j]))
  }

  /** No token twice, and every token a one-letter amino-acid code. */
  predicate GoodTokens(lv: seq<string>) {
    Checks.NoRepeats(lv) && Checks.CheckListAinListB(lv, Config.OneLetterAA)
  }

  /**
   * Which rules the mapping is checked by: as the validator is written, or
   * with the checks its documentation promises (keys passing the `comp`/`val`
   * comparison, no residue number twice, a boolean Pos value).
   */
  datatype Rules = AsWritten | Intended(comp: string, val: int)

  /**
   * The validator part way through the items: the flag `k`, whether an
   * exception has escaped, the table built so far and the index list.
   */
  datatype PosScan = PosScan(k: bool, raised: bool, table: PosTable, idx: seq<int>)

  predicate Going(s: PosScan) {
    s.k && !s.raised
  }

  function StartScan(): PosScan {
    PosScan(true, false, PosTable([], None), [])
  }

  /**
   * One item of the loop. A stopped scan (after `break` or a raise) stays as
   * it is. The Pos key stores its value; any other key goes to KeyStep.
   */
  function ItemStep(rules: Rules, s: PosScan, item: (PyVal, PyVal)): PosScan {
    if !Going(s) then s
    else if IsPosKey(item.0) then PosStep(rules, s, item.1)
    else KeyStep(rules, s, IntOf(item.0), item.1)
  }

  /** `do[n]['Pos'] = v`; with the intended rules only a boolean is taken. */
  function PosStep(rules: Rules, s: PosScan, v: PyVal): PosScan {
    if rules.Intended? && !v.PyBool? then PosScan(false, s.raised, s.table, s.idx)
    else PosScan(s.k, s.raised, PosTable(s.table.rows, Some(v)), s.idx)
  }

  /**
   * A key other than Pos, after `int()` (None where it raises, which the
   * validator catches): it must convert, and with the intended rules pass
   * the comparison and be new.
   */
  function KeyStep(rules: Rules, s: PosScan, key: Option<int>, v: PyVal): PosScan {
    if key.None? then PosScan(false, s.raised, s.table, s.idx)
    else if rules.Intended? &&
            (!Checks.CheckNumComp(key.value, rules.comp, rules.val) || key.value in ODict.Keys(s.table.rows))
    then PosScan(false, s.raised, s.table, s.idx)
    else LettersStep(s, key.value, v)
  }

  /**
   * The value of an integer key `kInt`: it must be a string (`str2l` calls
   * `split` on it, which raises AttributeError otherwise), and its tokens
   * must be distinct one-letter codes; the letters are then stored under
   * `kInt` and `kInt - 1` is appended to the index list.
   */
  function LettersStep(s: PosScan, kInt: int, v: PyVal): PosScan {
    if !v.PyStr? then PosScan(s.k, true, s.table, s.idx)
    else if !GoodTokens(Tokens(v.s)) then PosScan(false, s.raised, s.table, s.idx)
    else PosScan(s.k, s.raised, PosTable(ODict.Put(s.table.rows, kInt, Tokens(v.s)), s.table.pos), s.idx + [kInt - 1])
  }

  /** The loop over the items of the evaluated dict, in order. */
  function ItemsScan(rules: Rules, items: seq<(PyVal, PyVal)>): PosScan {
    if |items| == 0 then StartScan()
    else ItemStep(rules, ItemsScan(rules, items[..|items| - 1]), items[|items| - 1])
  }

  /**
   * GuiCheckPosAADict after SetInitVal: text that does not evaluate, or not
   * to a dict, is rejected with an empty table; otherwise the loop runs and
   * the mapping is rejected if no Pos key was met.
   */
  function Validate(rules: Rules, lit: Literal): PosScan {
    match lit
    case Dict(items) =>
      var s := ItemsScan(rules, items);
      s.(k := s.k && s.table.pos.Some?)
    case _ => PosScan(false, false, PosTable([], None), [])
  }

  /** The mapping as the validator reads it, according to the source. */
  function PosAADict(lit: Literal): PosScan {
    Validate(AsWritten, lit)
  }

  /** The mapping as its documentation describes it: keys greater than `val` by `comp`. */
  function CheckedPosAADict(lit: Literal, comp: string, val: int): PosScan {
    Validate(Intended(comp, val), lit)
  }

  // ------------------------------------------------------- the validators

  class GuiCheck {
    /** The raw text of every checked field, by key (`self.d`). */
    var d: seq<(string, string)>
    /** The converted value of every checked field, by key (`self.do`). */
    var dO: seq<(string, Slot)>

    constructor ()
      ensures d == [] && dO == []
    {
      d := [];
      dO := [];
    }

    /**
     * `SetInitVal`: records the text; a "no value" text stores None and
     * passes only when NA is allowed (`CheckNA`), any other text is stored
     * as it is and passes.
     */
    method SetInitVal(n: string, text: string, na: bool) returns (ok: bool)
      modifies this
      ensures d == ODict.Put(old(d), n, text)
      ensures dO == ODict.Put(old(dO), n, InitSlot(text))
      ensures ok <==> text !in Config.NaVals || na
    {
      d := ODict.Put(d, n, text);
      if text in Config.NaVals {
        dO := ODict.Put(dO, n, NoValue);
        ok := na;
      } else {
        dO := ODict.Put(dO, n, Raw(text));
        ok := true;
      }
    }

    /**
     * `GuiCheckInteger(n, tc, msg, t='int', comp, NA)`: after SetInitVal,
     * the text must convert to an integer that passes `comp` against 0; the
     * number (or None) is stored under `n`.
     */
    method GuiCheckInteger(n: string, text: string, comp: string, na: bool) returns (ok: bool)
      modifies this
      ensures d == ODict.Put(old(d), n, text)
      ensures text in Config.NaVals && !na ==> !ok && dO == ODict.Put(old(dO), n, NoValue)
      ensures !(text in Config.NaVals && !na) ==>
        && (ok <==> Checks.CheckMNumber(text, comp, 0, None).Some?)
        && dO == ODict.Put(old(dO), n, NumberSlot(Checks.CheckMNumber(text, comp, 0, None)))
    {
      var init := SetInitVal(n, text, na);
      if !init {
        return false;
      }
      var r := Checks.CheckMNumber(text, comp, 0, None);
      ODict.PutPut(old(dO), n, InitSlot(text), NumberSlot(r));
      dO := ODict.Put(dO, n, NumberSlot(r));
      ok := r.Some?;
    }

    /**
     * `GuiCheckListNumber(n, tc, msg, t='int', comp, val, NA, Range, Order,
     * Unique, DelRepeat)`: after SetInitVal, the text must be a valid number
     * list for CheckMListNumber, which is called without NA; the list (or
     * None) is stored under `n`.
     */
    method GuiCheckListNumber(n: string, text: string, comp: string, val: int, na: bool,
                              range: bool, order: bool, unique: bool, delRepeat: bool)
      returns (ok: bool)
      modifies this
      ensures d == ODict.Put(old(d), n, text)
      ensures text in Config.NaVals && !na ==> !ok && dO == ODict.Put(old(dO), n, NoValue)
      ensures !(text in Config.NaVals && !na) ==>
        var r := Checks.ListNumber(text, comp, val, range, order, unique, delRepeat, false);
        && (ok <==> r.Some?)
        && dO == ODict.Put(old(dO), n, ListSlot(r))
    {
      var init := SetInitVal(n, text, na);
      if !init {
        return false;
      }
      var r := Checks.CheckMListNumber(text, comp, val, range, order, unique, delRepeat, false);
      ODict.PutPut(old(dO), n, InitSlot(text), ListSlot(r));
      dO := ODict.Put(dO, n, ListSlot(r));
      ok := r.Some?;
    }

    /**
     * `GuiCheckPosAADict(n, n2, tc, msg, t, comp, val, NA)`: after
     * SetInitVal, the evaluated text `lit` is checked item by item; the table
     * is stored under `n` and the index list under `n2`, as far as the loop
     * got. The result is the flag (`CheckK`), or Raised when a non-string
     * value reaches `str2l`. `comp` and `val` are accepted but not used.
     */
    method GuiCheckPosAADict(n: string, n2: string, text: string, lit: Literal,
                             comp: string, val: int, na: bool) returns (st: Status)
      requires n != n2
      modifies this
      ensures d == ODict.Put(old(d), n, text)
      ensures text in Config.NaVals && !na ==> st == Returned(false) && dO == ODict.Put(old(dO), n, NoValue)
      ensures !(text in Config.NaVals && !na) ==>
        var r := PosAADict(lit);
        && st == (if r.raised then Raised else Returned(r.k))
        && dO == ODict.Put(ODict.Put(old(dO), n, PosDict(r.table)), n2, Indices(r.idx))
    {
      var init := SetInitVal(n, text, na);
      if !init {
        return Returned(false);
      }
      ghost var dO1 := dO;
      dO := ODict.Put(dO, n, PosDict(PosTable([], None)));
      dO := ODict.Put(dO, n2, Indices([]));
      var s := ValidateLiteral(lit);
      StoreScan(dO1, n, n2, s.table, s.idx);
      ODict.PutPut(old(dO), n, InitSlot(text), PosDict(s.table));
      st := if s.raised then Raised else Returned(s.k);
    }

    /** The table and the index list replace the empty ones stored before the loop. */
    method StoreScan(ghost dO1: seq<(string, Slot)>, n: string, n2: string, table: PosTable, idx: seq<int>)
      requires n != n2
      requires dO == ODict.Put(ODict.Put(dO1, n, PosDict(PosTable([], None))), n2, Indices([]))
      modifies this`dO
      ensures dO == ODict.Put(ODict.Put(dO1, n, PosDict(table)), n2, Indices(idx))
    {
      ODict.PutAgain(dO1, n, PosDict(PosTable([], None)), n2, Indices([]), PosDict(table));
      ODict.PutPut(ODict.Put(dO1, n, PosDict(table)), n2, Indices([]), Indices(idx));
      dO := ODict.Put(dO, n, PosDict(table));
      dO := ODict.Put(dO, n2, Indices(idx));
    }
  }

  /**
   * The evaluated text: anything but a dict is rejected with an empty
   * table; a dict is scanned item by item and needs a Pos key.
   */
  method ValidateLiteral(lit: Literal) returns (s: PosScan)
    ensures s == PosAADict(lit)
  {
    if !lit.Dict? {
      return PosScan(false, false, PosTable([], None), []);
    }
    s := ScanItems(lit.items);
    s := s.(k := s.k && s.table.pos.Some?);
  }

  /**
   * The loop of GuiCheckPosAADict over the items of the evaluated dict: it
   * stops at the first item that is rejected (`break`) or raises.
   */
  method ScanItems(items: seq<(PyVal, PyVal)>) returns (s: PosScan)
    ensures s == ItemsScan(AsWritten, items)
  {
    s := StartScan();
    var i := 0;
    while i < |items|
      invariant 0 <= i <= |items|
      invariant s == ItemsScan(AsWritten, items[..i]) && Going(s)
    {
      ItemsScanSnoc(AsWritten, items, i);
      s := ScanItem(s.table.rows, s.table.pos, s.idx, items[i].0, items[i].1);
      if !Going(s) {
        StoppedStays(AsWritten, items, i + 1);
        return;
      }
      i := i + 1;
    }
    assert items[..i] == items;
  }

  /** The body of that loop for the item `key: v`. */
  method ScanItem(rows: seq<(int, seq<string>)>, pos: Option<PyVal>, idx: seq<int>, key: PyVal, v: PyVal)
    returns (s: PosScan)
    ensures s == ItemStep(AsWritten, PosScan(true, false, PosTable(rows, pos), idx), (key, v))
  {
    if IsPosKey(key) {
      return PosScan(true, false, PosTable(rows, Some(v)), idx);
    }
    var kInt := IntOf(key);
    if kInt.None? {
      return PosScan(false, false, PosTable(rows, pos), idx);
    }
    s := ScanValue(rows, pos, idx, kInt.value, v);
  }

  /** The value `v` of the integer key `kInt`: `str2l`, then the two list checks. */
  method ScanValue(rows: seq<(int, seq<string>)>, pos: Option<PyVal>, idx: seq<int>, kInt: int, v: PyVal)
    returns (s: PosScan)
    ensures s == LettersStep(PosScan(true, false, PosTable(rows, pos), idx), kInt, v)
  {
    if !v.PyStr? {
      return PosScan(true, true, PosTable(rows, pos), idx);
    }
    var _, lv := DataMethods.Str2l(v.s, ' ', true);
    assert lv == Tokens(v.s);
    if Checks.NoRepeats(lv) && Checks.CheckListAinListB(lv, Config.OneLetterAA) {
      s := PosScan(true, false, PosTable(ODict.Put(rows, kInt, lv), pos), idx + [kInt - 1]);
    } else {
      s := PosScan(false, false, PosTable(rows, pos), idx);
    }
  }

  /** An item with an integer key and a string value whose letters are not good is rejected. */
  lemma StepRejects(rules: Rules, s: PosScan, item: (PyVal, PyVal))
    requires Going(s) && !IsPosKey(item.0) && IntOf(item.0).Some? && item.1.PyStr?
    requires !GoodTokens(Tokens(item.1.s))
    ensures ItemStep(rules, s, item) == s.(k := false)
  {
  }

  /** An item with an integer key and good letters is stored and indexed. */
  lemma StepTakes(rules: Rules, rows: seq<(int, seq<string>)>, pos: Option<PyVal>, idx: seq<int>,
                  key: PyVal, v: PyVal, kInt: int, lv: seq<string>)
    requires !IsPosKey(key) && IntOf(key) == Some(kInt) && v.PyStr? && lv == Tokens(v.s) && GoodTokens(lv)
    requires rules.Intended? ==> Checks.CheckNumComp(kInt, rules.comp, rules.val) && kInt !in ODict.Keys(rows)
    ensures ItemStep(rules, PosScan(true, false, PosTable(rows, pos), idx), (key, v)) ==
      PosScan(true, false, PosTable(ODict.Put(rows, kInt, lv), pos), idx + [kInt - 1])
  {
  }

  lemma ItemsScanSnoc(rules: Rules, items: seq<(PyVal, PyVal)>, i: nat)
    requires i < |items|
    ensures ItemsScan(rules, items[..i + 1]) == ItemStep(rules, ItemsScan(rules, items[..i]), items[i])
  {
    assert items[..i + 1][..i] == items[..i];
  }

  /** Once the loop has stopped, the remaining items change nothing. */
  lemma {:induction false} StoppedStays(rules: Rules, items: seq<(PyVal, PyVal)>, j: nat)
    requires j <= |items| && !Going(ItemsScan(rules, items[..j]))
    ensures ItemsScan(rules, items) == ItemsScan(rules, items[..j])
    decreases |items|
  {
    if j == |items| {
      assert items[..j] == items;
    } else {
      var n := |items| - 1;
      assert items[..n][..j] == items[..j];
      StoppedStays(rules, items[..n], j);
    }
  }
  // ------------------------------------------------ what the validator accepts

  /** An item the validator lets through: the Pos key, or an integer key with good letters. */
  predicate GoodItem(item: (PyVal, PyVal)) {
    IsPosKey(item.0) || (IntOf(item.0).Some? && item.1.PyStr? && GoodTokens(Tokens(item.1.s)))
  }

  /** An item whose value reaches `str2l` without being a string. */
  predicate RaisingItem(item: (PyVal, PyVal)) {
    !IsPosKey(item.0) && IntOf(item.0).Some? && !item.1.PyStr?
  }

  /** `[int(key) - 1]` for an integer key other than Pos, and nothing for any other item. */
  function KeyIndex(item: (PyVal, PyVal)): seq<int> {
    if !IsPosKey(item.0) && IntOf(item.0).Some? then [IntOf(item.0).value - 1] else []
  }

  /** `int(key) - 1` for every integer key other than Pos, in item order. */
  function Positions(items: seq<(PyVal, PyVal)>): seq<int> {
    if |items| == 0 then []
    else
      var last := items[|items| - 1];
      Positions(items[..|items| - 1]) + KeyIndex(last)
  }

  /** The value of the last Pos item, if there is one. */
  function LastPos(items: seq<(PyVal, PyVal)>): Option<PyVal> {
    if |items| == 0 then None
    else if IsPosKey(items[|items| - 1].0) then Some(items[|items| - 1].1)
    else LastPos(items[..|items| - 1])
  }

  /** There is a last Pos item exactly when some item has the Pos key. */
  lemma {:induction false} LastPosSome(items: seq<(PyVal, PyVal)>)
    ensures LastPos(items).Some? <==> exists i :: 0 <= i < |items| && IsPosKey(items[i].0)
  {
    if |items| > 0 {
      var n := |items| - 1;
      LastPosSome(items[..n]);
      assert forall i :: 0 <= i < n ==> items[..n][i] == items[i];
    }
  }

  /** Every letter list stored in the table has good letters. */
  predicate LettersOk(rows: seq<(int, seq<string>)>) {
    forall e :: e in rows ==> GoodTokens(e.1)
  }

  /** The item at `j` raises, and every item before it is let through. */
  predicate RaisesAt(items: seq<(PyVal, PyVal)>, j: int) {
    0 <= j < |items| && RaisingItem(items[j]) && AllGood(items[..j])
  }

  /** Every item is let through. */
  predicate AllGood(items: seq<(PyVal, PyVal)>) {
    |items| == 0 || (AllGood(items[..|items| - 1]) && GoodItem(items[|items| - 1]))
  }

  lemma {:induction false} AllGoodEach(items: seq<(PyVal, PyVal)>)
    ensures AllGood(items) <==> forall i :: 0 <= i < |items| ==> GoodItem(items[i])
  {
    if |items| > 0 {
      var n := |items| - 1;
      AllGoodEach(items[..n]);
      assert forall i :: 0 <= i < n ==> items[..n][i] == items[i];
    }
  }

  /**
   * What one step `t` of the loop as written does with item `it` on a scan
   * `s` that is still going: it goes on exactly for a good item, raises
   * exactly for a raising one, and when it goes on it appends the item's
   * index, keeps or replaces the Pos value, and keeps every letter list good.
   */
  predicate StepFacts(s: PosScan, it: (PyVal, PyVal), t: PosScan) {
    && (Going(t) <==> GoodItem(it))
    && (t.raised <==> RaisingItem(it))
    && (Going(t) ==>
      && t.idx == s.idx + KeyIndex(it)
      && t.table.pos == (if IsPosKey(it.0) then Some(it.1) else s.table.pos)
      && (LettersOk(s.table.rows) ==> LettersOk(t.table.rows)))
  }

  /** One item of the loop as written: a stopped scan stays as it is. */
  lemma ScanStep(s: PosScan, it: (PyVal, PyVal))
    ensures !Going(s) ==> ItemStep(AsWritten, s, it) == s
    ensures Going(s) ==> StepFacts(s, it, ItemStep(AsWritten, s, it))
  {
    if Going(s) {
      if IsPosKey(it.0) {
        PosItemStep(s, it);
      } else {
        assert ItemStep(AsWritten, s, it) == KeyStep(AsWritten, s, IntOf(it.0), it.1);
        KeyItemStep(s, it);
      }
    }
  }

  /** The Pos item, in the loop as written. */
  lemma PosItemStep(s: PosScan, it: (PyVal, PyVal))
    requires Going(s) && IsPosKey(it.0)
    ensures StepFacts(s, it, ItemStep(AsWritten, s, it))
  {
    assert KeyIndex(it) == [];
    assert ItemStep(AsWritten, s, it) == PosStep(AsWritten, s, it.1);
  }

  /** Any other item, in the loop as written. */
  lemma KeyItemStep(s: PosScan, it: (PyVal, PyVal))
    requires Going(s) && !IsPosKey(it.0)
    ensures StepFacts(s, it, KeyStep(AsWritten, s, IntOf(it.0), it.1))
  {
    var key := IntOf(it.0);
    KeyScanStep(s, key, it.1);
    assert GoodItem(it) == (key.Some? && it.1.PyStr? && GoodTokens(Tokens(it.1.s)));
    assert RaisingItem(it) == (key.Some? && !it.1.PyStr?);
    assert KeyIndex(it) == (if key.Some? then [key.value - 1] else []);
  }

  /** A key other than Pos, in the loop as written. */
  lemma KeyScanStep(s: PosScan, key: Option<int>, v: PyVal)
    requires Going(s)
    ensures
      var t := KeyStep(AsWritten, s, key, v);
      && (Going(t) <==> key.Some? && v.PyStr? && GoodTokens(Tokens(v.s)))
      && (t.raised <==> key.Some? && !v.PyStr?)
      && (Going(t) ==>
        && t.idx == s.idx + [key.value - 1]
        && t.table.pos == s.table.pos
        && (LettersOk(s.table.rows) ==> LettersOk(t.table.rows)))
  {
    if key.Some? && v.PyStr? && GoodTokens(Tokens(v.s)) {
      ODict.PutEntries(s.table.rows, key.value, Tokens(v.s));
    }
  }

  /** The validator's loop runs through every item exactly when every item is good. */
  lemma {:induction false} AsWrittenGoing(items: seq<(PyVal, PyVal)>)
    ensures Going(ItemsScan(AsWritten, items)) <==> AllGood(items)
  {
    if |items| > 0 {
      var p := items[..|items| - 1];
      AsWrittenGoing(p);
      ScanStep(ItemsScan(AsWritten, p), items[|items| - 1]);
    }
  }

  /** When the loop has run through every item, the index list holds `int(key) - 1` for every integer key, in order. */
  lemma {:induction false} ScanIndices(items: seq<(PyVal, PyVal)>)
    ensures Going(ItemsScan(AsWritten, items)) ==> ItemsScan(AsWritten, items).idx == Positions(items)
  {
    if |items| > 0 {
      var p := items[..|items| - 1];
      ScanStep(ItemsScan(AsWritten, p), items[|items| - 1]);
      ScanIndices(p);
    }
  }

  /** When the loop has run through every item, the Pos value stored is that of the last Pos item. */
  lemma {:induction false} ScanPos(items: seq<(PyVal, PyVal)>)
    ensures Going(ItemsScan(AsWritten, items)) ==> ItemsScan(AsWritten, items).table.pos == LastPos(items)
  {
    if |items| > 0 {
      var p := items[..|items| - 1];
      ScanStep(ItemsScan(AsWritten, p), items[|items| - 1]);
      ScanPos(p);
    }
  }

  /** When the loop has run through every item, every stored letter list has good letters. */
  lemma {:induction false} ScanLetters(items: seq<(PyVal, PyVal)>)
    ensures Going(ItemsScan(AsWritten, items)) ==> LettersOk(ItemsScan(AsWritten, items).table.rows)
  {
    if |items| > 0 {
      var p := items[..|items| - 1];
      ScanStep(ItemsScan(AsWritten, p), items[|items| - 1]);
      ScanLetters(p);
    }
  }

  /**
   * The validator raises exactly when the text evaluates to a dict in which
   * an item with an integer key and a non-string value comes after good
   * items only.
   */
  lemma {:induction false} AsWrittenRaises(items: seq<(PyVal, PyVal)>)
    ensures ItemsScan(AsWritten, items).raised <==> exists j :: RaisesAt(items, j)
  {
    if |items| > 0 {
      var n := |items| - 1;
      var p := items[..n];
      AsWrittenRaises(p);
      AsWrittenGoing(p);
      ScanStep(ItemsScan(AsWritten, p), items[n]);
      forall j | 0 <= j < n ensures RaisesAt(items, j) <==> RaisesAt(p, j) {
        assert items[..j] == p[..j];
      }
      assert RaisesAt(items, n) <==> RaisingItem(items[n]) && Going(ItemsScan(AsWritten, p));
    }
  }

  /**
   * GuiCheckPosAADict (as written) accepts exactly the texts that evaluate
   * to a dict with a Pos key in which every other key converts with `int()`
   * and holds distinct one-letter codes; it raises exactly when a non-string
   * value is met before any rejected item. On acceptance the index list is
   * `int(key) - 1` for every key in order, the Pos value is kept, and the
   * letter lists are single letters with no letter twice.
   */
  lemma PosAADictSpec(lit: Literal)
    ensures PosAADict(lit).k && !PosAADict(lit).raised <==>
      && lit.Dict?
      && (forall i :: 0 <= i < |lit.items| ==> GoodItem(lit.items[i]))
      && (exists i :: 0 <= i < |lit.items| && IsPosKey(lit.items[i].0))
    ensures PosAADict(lit).raised <==> lit.Dict? && exists j :: RaisesAt(lit.items, j)
    ensures PosAADict(lit).k && !PosAADict(lit).raised ==>
      && PosAADict(lit).idx == Positions(lit.items)
      && PosAADict(lit).table.pos == LastPos(lit.items)
      && Candidates.SingleLetters(AllAA(PosAADict(lit).table))
      && forall i :: 0 <= i < |PosAADict(lit).table.rows| ==> Checks.Distinct(PosAADict(lit).table.rows[i].1)
  {
    if lit.Dict? {
      AsWrittenGoing(lit.items);
      AllGoodEach(lit.items);
      LastPosSome(lit.items);
      ScanIndices(lit.items);
      ScanPos(lit.items);
      ScanLetters(lit.items);
      AsWrittenRaises(lit.items);
      var r := PosAADict(lit);
      if r.k && !r.raised {
        LettersShape(r.table);
      }
    }
  }

  /** Good letter lists are lists of single letters with no letter twice. */
  lemma LettersShape(t: PosTable)
    requires LettersOk(t.rows)
    ensures Candidates.SingleLetters(AllAA(t))
    ensures forall i :: 0 <= i < |t.rows| ==> Checks.Distinct(t.rows[i].1)
  {
    var rows := t.rows;
    forall i | 0 <= i < |rows|
      ensures Checks.Distinct(rows[i].1)
      ensures forall j :: 0 <= j < |rows[i].1| ==> |rows[i].1[j]| == 1
    {
      assert rows[i] in rows;
      Checks.NoRepeatsIsDistinct(rows[i].1);
      forall j | 0 <= j < |rows[i].1| ensures |rows[i].1[j]| == 1 {
        OneLetterCodes(rows[i].1[j]);
      }
    }
  }

  /** The amino-acid codes are single letters. */
  lemma OneLetterCodes(t: string)
    requires t in Config.OneLetterAA
    ensures |t| == 1
  {
  }
  // ------------------------------------------- the mapping as documented

  /**
   * What the documented checks guarantee of a scan: one index per stored
   * key, each `key - 1`, every key passing the comparison, no key twice,
   * good letters, and a boolean Pos value.
   */
  predicate Checked(comp: string, val: int, s: PosScan) {
    && |s.idx| == |s.table.rows|
    && (forall i :: 0 <= i < |s.idx| ==>
          s.idx[i] == s.table.rows[i].0 - 1 && Checks.CheckNumComp(s.table.rows[i].0, comp, val))
    && ODict.UniqueKeys(s.table.rows)
    && LettersOk(s.table.rows)
    && (s.table.pos.Some? ==> s.table.pos.value.PyBool?)
  }

  /** One item under the documented rules: it keeps Checked, and where it goes on it does what the code does. */
  lemma IntendedStep(comp: string, val: int, s: PosScan, it: (PyVal, PyVal))
    requires Going(s) && Checked(comp, val, s)
    ensures Going(ItemStep(Intended(comp, val), s, it)) ==>
      && Checked(comp, val, ItemStep(Intended(comp, val), s, it))
      && ItemStep(Intended(comp, val), s, it) == ItemStep(AsWritten, s, it)
  {
    var rows, pos, idx := s.table.rows, s.table.pos, s.idx;
    assert s == PosScan(true, false, PosTable(rows, pos), idx);
    var key, v := it.0, it.1;
    if !IsPosKey(key) && IntOf(key).Some? && v.PyStr? && GoodTokens(Tokens(v.s)) {
      var k := IntOf(key).value;
      if Checks.CheckNumComp(k, comp, val) && k !in ODict.Keys(rows) {
        StepTakes(Intended(comp, val), rows, pos, idx, key, v, k, Tokens(v.s));
        StepTakes(AsWritten, rows, pos, idx, key, v, k, Tokens(v.s));
        CheckedAppend(comp, val, rows, pos, idx, k, Tokens(v.s));
      }
    }
  }

  /** Storing a new key that passes the comparison keeps Checked. */
  lemma CheckedAppend(comp: string, val: int, rows: seq<(int, seq<string>)>, pos: Option<PyVal>, idx: seq<int>,
                      k: int, lv: seq<string>)
    requires Checked(comp, val, PosScan(true, false, PosTable(rows, pos), idx))
    requires Checks.CheckNumComp(k, comp, val) && k !in ODict.Keys(rows) && GoodTokens(lv)
    ensures Checked(comp, val, PosScan(true, false, PosTable(ODict.Put(rows, k, lv), pos), idx + [k - 1]))
  {
    var rows' := ODict.Put(rows, k, lv);
    assert rows' == rows + [(k, lv)];
    ODict.PutEntries(rows, k, lv);
    forall i, j | 0 <= i < j < |rows'| ensures rows'[i].0 != rows'[j].0 {
      if j == |rows| {
        assert rows[i].0 == ODict.Keys(rows)[i];
      }
    }
  }

  /**
   * Under the documented rules, a loop that runs through every item leaves
   * a Checked scan, equal to the one the code as written leaves: the
   * documented rules only reject more.
   */
  lemma {:induction false} IntendedScan(comp: string, val: int, items: seq<(PyVal, PyVal)>)
    ensures Going(ItemsScan(Intended(comp, val), items)) ==>
      && Checked(comp, val, ItemsScan(Intended(comp, val), items))
      && ItemsScan(Intended(comp, val), items) == ItemsScan(AsWritten, items)
  {
    if |items| > 0 {
      var p := items[..|items| - 1];
      var s := ItemsScan(Intended(comp, val), p);
      if Going(ItemsScan(Intended(comp, val), items)) {
        assert Going(s);
        IntendedScan(comp, val, p);
        IntendedStep(comp, val, s, items[|items| - 1]);
      }
    }
  }

  /**
   * A mapping the documented checks accept is accepted by the code as
   * written with the same table and indices, and it is well formed for the
   * consensus scan: single letters, no letter twice at a position, one
   * index `key - 1` per stored key, each key passing the comparison, and a
   * Pos value that selects a scan.
   */
  lemma CheckedPosAADictSound(lit: Literal, comp: string, val: int)
    ensures
      var r := CheckedPosAADict(lit, comp, val);
      r.k && !r.raised ==>
        && PosAADict(lit) == r
        && ConsensusTab.WellFormed(r.table, r.idx)
        && ConsensusTab.Mode(r.table).Some?
        && ODict.UniqueKeys(r.table.rows)
        && forall i :: 0 <= i < |r.idx| ==>
             r.idx[i] == r.table.rows[i].0 - 1 && Checks.CheckNumComp(r.table.rows[i].0, comp, val)
  {
    var r := CheckedPosAADict(lit, comp, val);
    if r.k && !r.raised {
      IntendedScan(comp, val, lit.items);
      LettersShape(r.table);
    }
  }

  /**
   * With keys checked to be greater than 0, as the consensus tab asks, the
   * positional motif of a protein can be read exactly when no key exceeds
   * its length, and its letter at each position is the residue numbered by
   * that key (counting from 1).
   */
  lemma CheckedPositionsInProtein(lit: Literal, tseq: string)
    ensures
      var r := CheckedPosAADict(lit, "gt", 0);
      r.k && !r.raised ==>
        && (ConsensusTab.Extract(tseq, r.idx).Some? <==> KeysFit(tseq, r.table.rows))
        && (ConsensusTab.Extract(tseq, r.idx).Some? ==> KeyedResidues(tseq, r.table.rows, ConsensusTab.Extract(tseq, r.idx).value))
  {
    var r := CheckedPosAADict(lit, "gt", 0);
    if r.k && !r.raised {
      CheckedPosAADictSound(lit, "gt", 0);
      PositiveKeysExtract(tseq, r.table.rows, r.idx);
    }
  }

  /** No key numbers a residue past the end of the protein. */
  predicate KeysFit(tseq: string, rows: seq<(int, seq<string>)>) {
    forall i :: 0 <= i < |rows| ==> rows[i].0 <= |tseq|
  }

  /** `m` holds, for each key in order, the residue that key numbers (counting from 1). */
  predicate KeyedResidues(tseq: string, rows: seq<(int, seq<string>)>, m: string) {
    && |m| == |rows|
    && forall i :: 0 <= i < |rows| ==> 0 < rows[i].0 <= |tseq| && m[i] == tseq[rows[i].0 - 1]
  }

  /** Indices `key - 1` of positive keys pick the residues those keys number. */
  lemma PositiveKeysExtract(tseq: string, rows: seq<(int, seq<string>)>, idx: seq<int>)
    requires |idx| == |rows|
    requires forall i :: 0 <= i < |idx| ==> idx[i] == rows[i].0 - 1 && Checks.CheckNumComp(rows[i].0, "gt", 0)
    ensures ConsensusTab.Extract(tseq, idx).Some? <==> KeysFit(tseq, rows)
    ensures ConsensusTab.Extract(tseq, idx).Some? ==> KeyedResidues(tseq, rows, ConsensusTab.Extract(tseq, idx).value)
  {
    ConsensusTab.ExtractSpec(tseq, idx);
    forall i | 0 <= i < |idx| ensures 0 <= idx[i] && PyList.PyOffset(|tseq|, idx[i]) == idx[i] {
      assert Checks.CheckNumComp(rows[i].0, "gt", 0);
    }
  }
  // ------------------------------------------------ the validator as written

  /** A one-letter value is read as that letter. */
  lemma OneLetterTokens(c: char)
    requires c != ' ' && !IsSpace(c)
    ensures Tokens([c]) == [[c]]
  {
    assert [c][1..] == [];
    assert Split([c], ' ') == [[c] + ""] + [];
    assert LStrip([c]) == [c];
    assert Strip([c]) == [c];
  }

  /** A single amino-acid letter is a good letter list. */
  lemma OneLetterGood(c: char)
    requires [c] in Config.OneLetterAA
    ensures GoodTokens([[c]])
  {
    assert Checks.ToSet([[c]]) == {[c]};
  }

  /** Scanning one more item is one more step of the loop. */
  lemma ItemsSnoc(rules: Rules, p: seq<(PyVal, PyVal)>, x: (PyVal, PyVal))
    ensures ItemsScan(rules, p + [x]) == ItemStep(rules, ItemsScan(rules, p), x)
  {
    assert (p + [x])[..|p|] == p;
  }

  lemma TwoItems(rules: Rules, a: (PyVal, PyVal), b: (PyVal, PyVal))
    ensures ItemsScan(rules, [a, b]) == ItemStep(rules, ItemStep(rules, StartScan(), a), b)
  {
    ItemsSnoc(rules, [], a);
    assert [] + [a] == [a];
    ItemsSnoc(rules, [a], b);
    assert [a] + [b] == [a, b];
  }

  lemma ThreeItems(rules: Rules, a: (PyVal, PyVal), b: (PyVal, PyVal), c: (PyVal, PyVal))
    ensures ItemsScan(rules, [a, b, c]) == ItemStep(rules, ItemStep(rules, ItemStep(rules, StartScan(), a), b), c)
  {
    TwoItems(rules, a, b);
    ItemsSnoc(rules, [a, b], c);
    assert [a, b] + [c] == [a, b, c];
  }

  /** Python reads index -1 of "CA" as its last residue. */
  lemma LastResidue()
    ensures ConsensusTab.Extract("CA", [-1]) == Some("A")
  {
    assert [-1][..0] == [];
    assert ConsensusTab.Extract("CA", []) == Some("");
    assert PyList.PyIndex("CA", -1) == Some('A');
    assert "" + ['A'] == "A";
  }

  /**
   * Key 0 passes the validator as written, although its documentation asks
   * for keys greater than 0: it becomes index -1, which Python reads as the
   * last residue of the protein. The documented check rejects it.
   */
  lemma ZeroKeyWraps()
    ensures
      var lit := Dict([(PyInt(0), PyStr("A")), (PyStr(Config.PosKey), PyBool(true))]);
      && PosAADict(lit).k && !PosAADict(lit).raised
      && PosAADict(lit).idx == [-1]
      && ConsensusTab.Extract("CA", PosAADict(lit).idx) == Some("A")
      && !CheckedPosAADict(lit, "gt", 0).k
  {
    var a, b := (PyInt(0), PyStr("A")), (PyStr(Config.PosKey), PyBool(true));
    OneLetterTokens('A');
    OneLetterGood('A');
    TwoItems(AsWritten, a, b);
    TwoItems(Intended("gt", 0), a, b);
    StepTakes(AsWritten, [], None, [], a.0, a.1, 0, ["A"]);
    LastResidue();
  }
  /** `int("2")` is 2. */
  lemma IntOfTwo()
    ensures IntOf(PyStr("2")) == Some(2)
  {
    assert Strip("2") == "2" by {
      StripUnchanged("2");
    }
    assert "2"[..0] == [];
    assert DigitsValue("2") == 2;
  }

  /** A text does not contain a longer one. */
  lemma ContainsNotLonger(s: string, p: string)
    requires |p| > |s|
    ensures !Contains(s, p)
  {
    if Contains(s, p) {
      var k := ContainsWitness(s, p);
    }
  }

  /**
   * Keys 2 and "2" both pass the validator as written and both convert to
   * 2: the table keeps one letter list, but the index list gets two
   * entries. The motif read from a protein then has two residues while
   * every candidate has one, so the positional scan never credits a row.
   * The documented check (no residue number twice) rejects the mapping.
   */
  lemma RepeatedKeyNeverMatches(tseq: string, tprot: string)
    ensures
      var lit := Dict([(PyInt(2), PyStr("A")), (PyStr("2"), PyStr("C")), (PyStr(Config.PosKey), PyBool(true))]);
      var r := PosAADict(lit);
      && r.k && !r.raised
      && r.table.rows == [(2, ["C"])]
      && r.idx == [1, 1]
      && !ConsensusTab.ScanWithPos(ConsensusTab.InitTable(AllAA(r.table)), tseq, tprot, r.idx).1
      && !CheckedPosAADict(lit, "gt", 0).k
  {
    RepeatedKeyScans();
    NoMotifOfTwo(PosTable([(2, ["C"])], Some(PyBool(true))), tseq, tprot);
  }

  /** The mapping with keys 2 and "2", as the code reads it. */
  lemma RepeatedKeyScans()
    ensures
      var items := [(PyInt(2), PyStr("A")), (PyStr("2"), PyStr("C")), (PyStr(Config.PosKey), PyBool(true))];
      && ItemsScan(AsWritten, items) == PosScan(true, false, PosTable([(2, ["C"])], Some(PyBool(true))), [1, 1])
      && !ItemsScan(Intended("gt", 0), items).k
  {
    var a, b, c := (PyInt(2), PyStr("A")), (PyStr("2"), PyStr("C")), (PyStr(Config.PosKey), PyBool(true));
    RepeatedKeyAsWritten(a, b, c);
    RepeatedKeyChecked(a, b, c);
  }

  lemma RepeatedKeyAsWritten(a: (PyVal, PyVal), b: (PyVal, PyVal), c: (PyVal, PyVal))
    requires a == (PyInt(2), PyStr("A")) && b == (PyStr("2"), PyStr("C")) && c == (PyStr(Config.PosKey), PyBool(true))
    ensures ItemsScan(AsWritten, [a, b, c]) == PosScan(true, false, PosTable([(2, ["C"])], Some(PyBool(true))), [1, 1])
  {
    ThreeItems(AsWritten, a, b, c);
    var s1 := PosScan(true, false, PosTable([(2, ["A"])], None), [1]);
    var s2 := PosScan(true, false, PosTable([(2, ["C"])], None), [1, 1]);
    FirstTwo(AsWritten, a);
    SecondItem(b);
    SecondTwo(s1, b);
    assert ItemStep(AsWritten, s2, c) == PosScan(true, false, PosTable([(2, ["C"])], Some(PyBool(true))), [1, 1]);
  }

  lemma FirstTwo(rules: Rules, a: (PyVal, PyVal))
    requires rules == AsWritten || rules == Intended("gt", 0)
    requires a == (PyInt(2), PyStr("A"))
    ensures ItemStep(rules, StartScan(), a) == PosScan(true, false, PosTable([(2, ["A"])], None), [1])
  {
    OneLetterTokens('A');
    OneLetterGood('A');
    StepTakes(rules, [], None, [], a.0, a.1, 2, ["A"]);
    assert ODict.Put([], 2, ["A"]) == [(2, ["A"])] && [] + [1] == [1];
  }

  lemma SecondTwo(s1: PosScan, b: (PyVal, PyVal))
    requires s1 == PosScan(true, false, PosTable([(2, ["A"])], None), [1])
    requires !IsPosKey(b.0) && IntOf(b.0) == Some(2) && b.1.PyStr? && Tokens(b.1.s) == ["C"] && GoodTokens(["C"])
    ensures ItemStep(AsWritten, s1, b) == PosScan(true, false, PosTable([(2, ["C"])], None), [1, 1])
  {
    ReplaceTwo();
    StepTakes(AsWritten, [(2, ["A"])], None, [1], b.0, b.1, 2, ["C"]);
    assert [1] + [1] == [1, 1];
  }

  /** Assigning to key 2 again replaces its letters in place. */
  lemma ReplaceTwo()
    ensures ODict.Put([(2, ["A"])], 2, ["C"]) == [(2, ["C"])]
  {
  }

  /** The item `"2": "C"`: its key converts to 2 and its value is one good letter. */
  lemma SecondItem(b: (PyVal, PyVal))
    requires b == (PyStr("2"), PyStr("C"))
    ensures !IsPosKey(b.0) && IntOf(b.0) == Some(2) && b.1.PyStr? && Tokens(b.1.s) == ["C"] && GoodTokens(["C"])
  {
    LetterC();
    IntOfTwo();
  }

  /** The text "C" is one good letter. */
  lemma LetterC()
    ensures Tokens("C") == ["C"] && GoodTokens(["C"])
  {
    OneLetterTokens('C');
    assert "C" == Config.OneLetterAA[12];
    OneLetterGood('C');
  }


  lemma RepeatedKeyChecked(a: (PyVal, PyVal), b: (PyVal, PyVal), c: (PyVal, PyVal))
    requires a == (PyInt(2), PyStr("A")) && b == (PyStr("2"), PyStr("C")) && c == (PyStr(Config.PosKey), PyBool(true))
    ensures !ItemsScan(Intended("gt", 0), [a, b, c]).k
  {
    ThreeItems(Intended("gt", 0), a, b, c);
    FirstTwo(Intended("gt", 0), a);
    var s1 := PosScan(true, false, PosTable([(2, ["A"])], None), [1]);
    SecondItem(b);
    SecondChecked(s1, b);
  }

  /** With the documented checks, a second key converting to 2 is refused. */
  lemma SecondChecked(s1: PosScan, b: (PyVal, PyVal))
    requires s1 == PosScan(true, false, PosTable([(2, ["A"])], None), [1])
    requires !IsPosKey(b.0) && IntOf(b.0) == Some(2)
    ensures !ItemStep(Intended("gt", 0), s1, b).k
  {
    assert 2 in ODict.Keys(s1.table.rows);
    assert ItemStep(Intended("gt", 0), s1, b) == KeyStep(Intended("gt", 0), s1, Some(2), b.1);
  }

  /** With one letter list and two indices, no candidate contains the motif read. */
  lemma NoMotifOfTwo(t: PosTable, tseq: string, tprot: string)
    requires t.rows == [(2, ["C"])]
    ensures !ConsensusTab.ScanWithPos(ConsensusTab.InitTable(AllAA(t)), tseq, tprot, [1, 1]).1
  {
    var lists := AllAA(t);
    assert lists == [["C"]];
    var table := ConsensusTab.InitTable(lists);
    Candidates.CandidateShape(lists);
    ConsensusTab.ExtractSpec(tseq, [1, 1]);
    var m := ConsensusTab.Extract(tseq, [1, 1]);
    if m.Some? {
      forall k | 0 <= k < |table| ensures !Contains(table[k].sequence, m.value) {
        ContainsNotLonger(table[k].sequence, m.value);
      }
      assert |ConsensusTab.Matches(table, m.value)| == 0;
    }
  }

  /**
   * A Pos value that is not a boolean passes the validator as written,
   * although its documentation asks for a boolean; the consensus scan then
   * raises on the first protein it is handed (the `ScanDict` lookup fails).
   * The documented check rejects the mapping.
   */
  lemma NonBoolPosRaises(compProt: bool, lines: seq<string>)
    requires |ConsensusTab.Outcome(compProt, lines).closed| > 0
    ensures
      var lit := Dict([(PyInt(2), PyStr("A")), (PyStr(Config.PosKey), PyStr("yes"))]);
      var r := PosAADict(lit);
      && r.k && !r.raised
      && ConsensusTab.Raises(r.table, compProt, lines)
      && !CheckedPosAADict(lit, "gt", 0).k
  {
    var a, b := (PyInt(2), PyStr("A")), (PyStr(Config.PosKey), PyStr("yes"));
    NonBoolPosScans(a, b);
    NoModeRaises(PosTable([(2, ["A"])], Some(PyStr("yes"))), compProt, lines);
  }

  /** The mapping `{2: "A", "Pos": "yes"}`, read as written and with the documented checks. */
  lemma NonBoolPosScans(a: (PyVal, PyVal), b: (PyVal, PyVal))
    requires a == (PyInt(2), PyStr("A")) && b == (PyStr(Config.PosKey), PyStr("yes"))
    ensures ItemsScan(AsWritten, [a, b]) == PosScan(true, false, PosTable([(2, ["A"])], Some(PyStr("yes"))), [1])
    ensures !ItemsScan(Intended("gt", 0), [a, b]).k
  {
    TwoItems(AsWritten, a, b);
    TwoItems(Intended("gt", 0), a, b);
    FirstTwo(AsWritten, a);
    FirstTwo(Intended("gt", 0), a);
  }

  /** A Pos value that selects no scan makes the consensus scan raise once a protein is handed over. */
  lemma NoModeRaises(t: PosTable, compProt: bool, lines: seq<string>)
    requires t.pos == Some(PyStr("yes"))
    requires |ConsensusTab.Outcome(compProt, lines).closed| > 0
    ensures ConsensusTab.Raises(t, compProt, lines)
  {
    assert ConsensusTab.Mode(t).None?;
  }
}

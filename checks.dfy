/**
 * The user-input checks: single values (number type, comparison, interval,
 * unique and contained lists) and the two multiple checks built on them
 * (one number; a space-separated list of numbers and ranges). Only the
 * integer case of the number type is modelled.
 */
module Checks {
  import opened Wrappers
  import opened Text
  import Sorting

  // ------------------------------------------------------- single values

  /** `CheckNumType(var, t='int')`: `int(var)`, or None where it raises. */
  function CheckNumType(v: string): Option<int> {
    ParseInt(v)
  }

  /** The decimal text of any integer passes CheckNumType and gives that integer back. */
  lemma CheckNumTypeOfStr(n: int)
    ensures CheckNumType(IntToStr(n)) == Some(n)
  {
    ParseIntToStr(n);
  }

  /** The comparison keywords CheckNumComp knows. */
  predicate KnownComp(comp: string) {
    comp == "gt" || comp == "egt" || comp == "e" || comp == "elt" || comp == "lt"
  }

  /**
   * `CheckNumComp(num, comp, val)`: gt, egt, e, elt and lt compare `num` with
   * `val` by >, >=, ==, <= and <; any other keyword lets every number pass.
   */
  function CheckNumComp(num: int, comp: string, val: int): (r: bool)
    ensures !KnownComp(comp) ==> r
  {
    if comp == "gt" then num > val
    else if comp == "egt" then num >= val
    else if comp == "e" then num == val
    else if comp == "elt" then num <= val
    else if comp == "lt" then num < val
    else true
  }

  /** Every comparison passes a whole interval once it passes both of its ends. */
  lemma CheckNumCompConvex(a: int, x: int, b: int, comp: string, val: int)
    requires a <= x <= b
    requires CheckNumComp(a, comp, val) && CheckNumComp(b, comp, val)
    ensures CheckNumComp(x, comp, val)
  {
  }

  /** `CheckaWithincd(a, c, d)`: `c <= a <= d`. */
  predicate CheckaWithincd(a: int, c: int, d: int) {
    c <= a && a <= d
  }

  function ToSet<T>(l: seq<T>): set<T> {
    set x | x in l
  }

  predicate Distinct<T(==)>(l: seq<T>) {
    forall i, j :: 0 <= i < j < |l| ==> l[i] != l[j]
  }

  /** `len(set(l)) == len(l)` */
  predicate NoRepeats<T(==)>(l: seq<T>) {
    |ToSet(l)| == |l|
  }

  lemma {:induction false} ToSetSize<T>(l: seq<T>)
    ensures |ToSet(l)| <= |l|
    ensures Distinct(l) ==> |ToSet(l)| == |l|
  {
    if |l| > 0 {
      ToSetSize(l[1..]);
      assert ToSet(l) == {l[0]} + ToSet(l[1..]);
      if Distinct(l) {
        assert l[0] !in ToSet(l[1..]);
      }
    }
  }

  /** A list has as many distinct elements as entries exactly when no two entries are equal. */
  lemma {:induction false} NoRepeatsIsDistinct<T>(l: seq<T>)
    ensures NoRepeats(l) <==> Distinct(l)
  {
    ToSetSize(l);
    if |l| > 0 && !Distinct(l) {
      var i, j :| 0 <= i < j < |l| && l[i] == l[j];
      if i == 0 {
        ToSetSize(l[1..]);
        assert l[0] in ToSet(l[1..]) by { assert l[1..][j - 1] == l[j]; }
        assert ToSet(l) == ToSet(l[1..]);
      } else {
        NoRepeatsIsDistinct(l[1..]);
        ToSetSize(l[1..]);
        assert l[1..][i - 1] == l[1..][j - 1];
        assert ToSet(l) == {l[0]} + ToSet(l[1..]);
      }
    }
  }

  /** The entries of `l` that are not None (`[x for x in l if x != None]`). */
  function Present<T>(l: seq<Option<T>>): (r: seq<Option<T>>)
    ensures forall x :: x in r ==> x.Some? && x in l
  {
    if |l| == 0 then [] else (if l[0].Some? then [l[0]] else []) + Present(l[1..])
  }

  /**
   * `CheckListUniqueElements(l, NA)`: no entry repeats; with NA the None
   * entries are dropped first.
   */
  function CheckListUniqueElements<T(==)>(l: seq<Option<T>>, na: bool): (r: bool) {
    NoRepeats(if na then Present(l) else l)
  }

  /** CheckListUniqueElements holds exactly when no two (non-None, with NA) entries are equal. */
  lemma CheckListUniqueElementsSpec<T>(l: seq<Option<T>>, na: bool)
    ensures CheckListUniqueElements(l, na) <==> Distinct(if na then Present(l) else l)
  {
    NoRepeatsIsDistinct(if na then Present(l) else l);
  }

  /** `CheckListAinListB(a, b)`: every element of `a` is in `b` (so an empty `a` passes). */
  function CheckListAinListB<T(==)>(a: seq<T>, b: seq<T>): (r: bool)
    ensures r <==> forall i :: 0 <= i < |a| ==> a[i] in b
  {
    if |a| == 0 then true
    else if a[0] in b then
      var r := CheckListAinListB(a[1..], b);
      assert forall i :: 1 <= i < |a| ==> a[i] == a[1..][i - 1];
      r
    else false
  }

  // ---------------------------------------------------- multiple checks

  /**
   * `CheckMNumber(num, t='int', comp, val, val2)`: the converted number when
   * it converts and passes the comparison (or, with `val2`, lies in
   * `[val, val2]`); None otherwise.
   */
  function CheckMNumber(num: string, comp: string, val: int, val2: Option<int>): (r: Option<int>)
    ensures r.Some? ==> r == CheckNumType(num)
    ensures r.Some? <==>
      CheckNumType(num).Some? &&
      (if val2.None? then CheckNumComp(CheckNumType(num).value, comp, val)
       else val <= CheckNumType(num).value <= val2.value)
  {
    match CheckNumType(num)
    case None => None
    case Some(n) =>
      if val2.None? then
        if CheckNumComp(n, comp, val) then Some(n) else None
      else if CheckaWithincd(n, val, val2.value) then Some(n) else None
  }

  /** What CheckMListNumber gives back: `[None]` or a list of numbers. */
  datatype NumList = NaList | Numbers(values: seq<int>)

  /** `range(a, b + 1)` */
  function Range(a: int, b: int): (r: seq<int>)
    ensures |r| == if a <= b then b - a + 1 else 0
    ensures forall i :: 0 <= i < |r| ==> r[i] == a + i
    decreases b - a
  {
    if a > b then [] else [a] + Range(a + 1, b)
  }

  /**
   * The numbers one token of the list stands for: nothing for an empty
   * token, one number, a negative number, or (when ranges are allowed) the
   * expansion of `a-b` with `a < b`; None when the token rejects the list.
   */
  function TokenNumbers(tok: string, comp: string, val: int, range: bool): Option<seq<int>> {
    if tok == "" then Some([])
    else if '-' !in tok then
      match CheckMNumber(tok, comp, val, None)
      case None => None
      case Some(n) => Some([n])
    else
      var ii := Split(tok, '-');
      if |ii| > 2 then None
      else if ii[0] == "" then
        match CheckMNumber(tok, comp, val, None)
        case None => None
        case Some(n) => Some([n])
      else if range then
        match (CheckMNumber(ii[0], comp, val, None), CheckMNumber(ii[1], comp, val, None))
        case (Some(a), Some(b)) => if a >= b then None else Some(Range(a, b))
        case _ => None
      else None
  }

  /** The numbers of the first tokens, in order, or None once a token rejects. */
  function Expand(toks: seq<string>, comp: string, val: int, range: bool): Option<seq<int>>
    decreases |toks|
  {
    if |toks| == 0 then Some([])
    else
      match Expand(toks[..|toks| - 1], comp, val, range)
      case None => None
      case Some(prev) =>
        match TokenNumbers(toks[|toks| - 1], comp, val, range)
        case None => None
        case Some(ns) => Some(prev + ns)
  }

  /** `list(dict.fromkeys(l))`: the first occurrence of each number, in order. */
  function Dedupe(l: seq<int>): (r: seq<int>)
    ensures Distinct(r) && ToSet(r) == ToSet(l)
    decreases |l|
  {
    if |l| == 0 then []
    else
      var p := Dedupe(l[..|l| - 1]);
      assert ToSet(l) == ToSet(l[..|l| - 1]) + {l[|l| - 1]} by {
        assert l == l[..|l| - 1] + [l[|l| - 1]];
      }
      if l[|l| - 1] in p then p else p + [l[|l| - 1]]
  }

  /** The position of the first occurrence of `x` in `l`. */
  function FirstIndex(l: seq<int>, x: int): (k: nat)
    requires x in l
    ensures k < |l| && l[k] == x
    ensures forall j :: 0 <= j < k ==> l[j] != x
  {
    if l[0] == x then 0 else 1 + FirstIndex(l[1..], x)
  }

  /** A number occurring in a prefix first occurs where it first occurs in the prefix. */
  lemma FirstIndexPrefix(l: seq<int>, n: nat, x: int)
    requires n <= |l| && x in l[..n]
    ensures FirstIndex(l, x) == FirstIndex(l[..n], x)
  {
    var k1, k2 := FirstIndex(l, x), FirstIndex(l[..n], x);
    assert l[..n][k2] == l[k2];
    assert k1 <= k2;
    assert l[..n][k1] == l[k1];
  }

  lemma NotInPrefix(l: seq<int>, n: nat, x: int)
    requires n <= |l| && x !in l[..n]
    ensures forall k :: 0 <= k < n ==> l[k] != x
  {
    forall k | 0 <= k < n ensures l[k] != x {
      assert l[..n][k] == l[k];
    }
  }

  /** Every number of `r` occurs in `l`, and `r` lists them in the order they first occur in `l`. */
  predicate InFirstOrder(l: seq<int>, r: seq<int>) {
    forall i, j :: 0 <= i < j < |r| ==> r[i] in l && r[j] in l && FirstIndex(l, r[i]) < FirstIndex(l, r[j])
  }

  /**
   * `dict.fromkeys` keeps the numbers in the order of their first
   * occurrences: with Dedupe's own contract (no repeats, same numbers) this
   * says the result is the list of first occurrences.
   */
  lemma {:induction false} DedupeOrder(l: seq<int>)
    ensures InFirstOrder(l, Dedupe(l))
  {
    if |l| > 0 {
      var n := |l| - 1;
      var q := l[..n];
      var p := Dedupe(q);
      DedupeOrder(q);
      forall y | y in p ensures y in l && y in l[..n] && FirstIndex(l, y) == FirstIndex(l[..n], y) < n {
        assert y in ToSet(p);
        assert y in ToSet(l[..n]);
        FirstIndexPrefix(l, n, y);
      }
      var r := Dedupe(l);
      if l[n] in p {
        assert r == p;
        forall i, j | 0 <= i < j < |r| ensures r[i] in l && r[j] in l && FirstIndex(l, r[i]) < FirstIndex(l, r[j]) {
          assert r[i] == p[i] && r[j] == p[j] && r[i] in p && r[j] in p;
          assert FirstIndex(l[..n], p[i]) < FirstIndex(l[..n], p[j]);
        }
      } else {
        assert l[n] !in ToSet(l[..n]);
        NotInPrefix(l, n, l[n]);
        assert FirstIndex(l, l[n]) == n;
        assert r == p + [l[n]];
        forall i, j | 0 <= i < j < |r| ensures r[i] in l && r[j] in l && FirstIndex(l, r[i]) < FirstIndex(l, r[j]) {
          assert r[i] == p[i] && r[i] in p;
          if j < |p| {
            assert r[j] == p[j] && r[j] in p;
            assert FirstIndex(l[..n], p[i]) < FirstIndex(l[..n], p[j]);
          } else {
            assert r[j] == l[n];
          }
        }
      }
    }
  }

  function IntLe(a: int, b: int): bool {
    a <= b
  }

  lemma IntLeTotalPreorder()
    ensures Sorting.TotalPreorder(IntLe)
  {
  }

  /**
   * The uniqueness and order steps applied to the expanded numbers: a list
   * with repeats is rejected, or (with DelRepeat) keeps first occurrences;
   * then it is sorted when order is asked for.
   */
  function Finish(lout: seq<int>, order: bool, unique: bool, delRepeat: bool): Option<seq<int>> {
    if unique && !NoRepeats(lout) && !delRepeat then None
    else
      var l1 := if unique && !NoRepeats(lout) then Dedupe(lout) else lout;
      Some(if order then Sorting.SortBy(l1, IntLe) else l1)
  }

  /** The whole of CheckMListNumber (integer case) as one value. */
  function ListNumber(listV: string, comp: string, val: int, range: bool, order: bool,
                      unique: bool, delRepeat: bool, na: bool): Option<NumList>
  {
    var lin := Split(Strip(listV), ' ');
    if "NA" in lin then
      if na && |lin| == 1 then Some(NaList) else None
    else
      match Expand(lin, comp, val, range)
      case None => None
      case Some(lout) =>
        match Finish(lout, order, unique, delRepeat)
        case None => None
        case Some(l) => Some(Numbers(l))
  }

  /**
   * The steps after expansion keep exactly the expanded numbers' set, leave
   * no repeats when uniqueness is asked for and order ascending when order is.
   */
  lemma FinishSpec(lout: seq<int>, order: bool, unique: bool, delRepeat: bool)
    ensures var r := Finish(lout, order, unique, delRepeat);
      && (r.None? <==> unique && !Distinct(lout) && !delRepeat)
      && (r.Some? ==>
          && ToSet(r.value) == ToSet(lout)
          && (unique ==> Distinct(r.value))
          && (order ==> Sorting.SortedBy(r.value, IntLe)))
  {
    NoRepeatsIsDistinct(lout);
    if !(unique && !NoRepeats(lout) && !delRepeat) {
      var l1 := if unique && !NoRepeats(lout) then Dedupe(lout) else lout;
      assert ToSet(l1) == ToSet(lout);
      assert unique ==> Distinct(l1);
      if order {
        SortStep(l1);
      }
    }
  }

  /** Sorting ascending keeps the set of numbers and leaves no repeats where there were none. */
  lemma SortStep(l1: seq<int>)
    ensures var l2 := Sorting.SortBy(l1, IntLe);
      && ToSet(l2) == ToSet(l1)
      && (Distinct(l1) ==> Distinct(l2))
      && Sorting.SortedBy(l2, IntLe)
  {
    var l2 := Sorting.SortBy(l1, IntLe);
    IntLeTotalPreorder();
    Sorting.SortBySpec(l1, IntLe);
    assert ToSet(l2) == ToSet(l1) by {
      forall x ensures x in ToSet(l1) <==> x in ToSet(l2) {
        assert x in l1 <==> x in multiset(l1);
        assert x in l2 <==> x in multiset(l2);
      }
    }
    if Distinct(l1) {
      DistinctPermutation(l1, l2);
    }
  }

  /** Every number a token stands for passes the comparison. */
  lemma TokenNumbersPass(tok: string, comp: string, val: int, range: bool)
    requires TokenNumbers(tok, comp, val, range).Some?
    ensures forall x :: x in TokenNumbers(tok, comp, val, range).value ==> CheckNumComp(x, comp, val)
  {
    if tok != "" && '-' in tok {
      var ii := Split(tok, '-');
      if |ii| == 2 && ii[0] != "" && range {
        var a := CheckMNumber(ii[0], comp, val, None).value;
        var b := CheckMNumber(ii[1], comp, val, None).value;
        forall x | x in Range(a, b) ensures CheckNumComp(x, comp, val) {
          CheckNumCompConvex(a, x, b, comp, val);
        }
      }
    }
  }

  lemma {:induction false} ExpandPass(toks: seq<string>, comp: string, val: int, range: bool)
    requires Expand(toks, comp, val, range).Some?
    ensures forall x :: x in Expand(toks, comp, val, range).value ==> CheckNumComp(x, comp, val)
    decreases |toks|
  {
    if |toks| > 0 {
      ExpandPass(toks[..|toks| - 1], comp, val, range);
      TokenNumbersPass(toks[|toks| - 1], comp, val, range);
    }
  }

  /**
   * What an accepted list holds: a list of numbers is accepted exactly when
   * there is no NA, every token expands and repeats are allowed (or
   * removed); it then holds exactly the expanded numbers, every one passing
   * the comparison, unique when uniqueness is asked for and ascending when
   * order is. The `[None]` answer comes only from a lone NA with NA allowed.
   */
  lemma ListNumberSpec(listV: string, comp: string, val: int, range: bool, order: bool,
                       unique: bool, delRepeat: bool, na: bool)
    ensures var r := ListNumber(listV, comp, val, range, order, unique, delRepeat, na);
      var lin := Split(Strip(listV), ' ');
      var e := Expand(lin, comp, val, range);
      && (r == Some(NaList) <==> na && lin == ["NA"])
      && (r.Some? && r.value.Numbers? <==>
          "NA" !in lin && e.Some? && !(unique && !Distinct(e.value) && !delRepeat))
      && (r.Some? && r.value.Numbers? ==>
          && e.Some? && ToSet(r.value.values) == ToSet(e.value)
          && (forall x :: x in r.value.values ==> CheckNumComp(x, comp, val))
          && (unique ==> Distinct(r.value.values))
          && (order ==> Sorting.SortedBy(r.value.values, IntLe)))
  {
    var lin := Split(Strip(listV), ' ');
    if "NA" !in lin {
      match Expand(lin, comp, val, range)
      case None =>
      case Some(lout) =>
        ExpandPass(lin, comp, val, range);
        FinishSpec(lout, order, unique, delRepeat);
        var r := Finish(lout, order, unique, delRepeat);
        if r.Some? {
          assert forall x :: x in r.value ==> x in ToSet(lout);
        }
    }
  }

  /** Reordering a list with no repeats leaves it without repeats. */
  lemma DistinctPermutation(a: seq<int>, b: seq<int>)
    requires multiset(a) == multiset(b) && Distinct(a)
    ensures Distinct(b)
  {
    assert |a| == |multiset(a)| == |multiset(b)| == |b|;
    assert ToSet(a) == ToSet(b) by {
      forall x ensures x in ToSet(a) <==> x in ToSet(b) {
        assert x in a <==> x in multiset(a);
        assert x in b <==> x in multiset(b);
      }
    }
    NoRepeatsIsDistinct(a);
    NoRepeatsIsDistinct(b);
  }

  /**
   * `CheckMListNumber(listV, t='int', comp, val, Range, Order, Unique,
   * DelRepeat, NA)`: splits the stripped text on single spaces, answers a
   * lone NA, expands the tokens and applies the uniqueness and order steps.
   */
  method CheckMListNumber(listV: string, comp: string, val: int, range: bool, order: bool,
                          unique: bool, delRepeat: bool, na: bool) returns (r: Option<NumList>)
    ensures r == ListNumber(listV, comp, val, range, order, unique, delRepeat, na)
  {
    var lin := Split(Strip(listV), ' ');
    if "NA" in lin {
      if na && |lin| == 1 {
        return Some(NaList);
      }
      return None;
    }
    var expanded := ExpandTokens(lin, comp, val, range);
    if expanded.None? {
      return None;
    }
    var lout := expanded.value;
    if unique {
      if !NoRepeats(lout) {
        if delRepeat {
          lout := Dedupe(lout);
        } else {
          return None;
        }
      }
    }
    if order {
      lout := Sorting.SortBy(lout, IntLe);
    }
    assert Finish(expanded.value, order, unique, delRepeat) == Some(lout);
    return Some(Numbers(lout));
  }

  /**
   * The token loop of CheckMListNumber: the numbers of the tokens in order,
   * stopping with None at the first token that rejects the list.
   */
  method ExpandTokens(lin: seq<string>, comp: string, val: int, range: bool)
    returns (r: Option<seq<int>>)
    ensures r == Expand(lin, comp, val, range)
  {
    var lout: seq<int> := [];
    var i := 0;
    while i < |lin|
      invariant 0 <= i <= |lin|
      invariant Expand(lin[..i], comp, val, range) == Some(lout)
    {
      assert lin[..i + 1][..i] == lin[..i];
      var ns := TokenNumbers(lin[i], comp, val, range);
      if ns.None? {
        ExpandStops(lin, i + 1, comp, val, range);
        return None;
      }
      lout := lout + ns.value;
      i := i + 1;
    }
    assert lin[..i] == lin;
    return Some(lout);
  }

  /** Once a prefix of the tokens is rejected, so is the whole list. */
  lemma {:induction false} ExpandStops(toks: seq<string>, n: nat, comp: string, val: int, range: bool)
    requires n <= |toks| && Expand(toks[..n], comp, val, range).None?
    ensures Expand(toks, comp, val, range).None?
    decreases |toks| - n
  {
    if n < |toks| {
      assert toks[..n + 1][..n] == toks[..n];
      ExpandStops(toks, n + 1, comp, val, range);
    } else {
      assert toks[..n] == toks;
    }
  }
}

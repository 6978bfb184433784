/**
 * Python's list access as the core uses it: `l[k]` with negative indexing
 * and IndexError, and `list(map(f, xs))` (or a loop appending `f(x)`) for a
 * conversion that may raise.
 */
module PyList {
  import opened Wrappers

  /** The offset Python reads for `s[k]`: a negative index counts from the end. */
  function PyOffset(n: nat, k: int): int {
    if k < 0 then n + k else k
  }

  /** `s[k]`, or None where Python raises IndexError. */
  function PyIndex<T>(s: seq<T>, k: int): (r: Option<T>)
    ensures r.Some? <==> -|s| <= k < |s|
    ensures r.Some? ==> 0 <= PyOffset(|s|, k) < |s| && r.value == s[PyOffset(|s|, k)]
  {
    if -|s| <= k < |s| then Some(s[PyOffset(|s|, k)]) else None
  }

  /** `f(s[k])` for a conversion `f` that may raise: None where the index or `f` raises. */
  function IndexThen<T, U>(s: seq<T>, k: int, f: T -> Option<U>): (r: Option<U>)
    ensures r.Some? ==> PyIndex(s, k).Some? && r == f(PyIndex(s, k).value)
  {
    match PyIndex(s, k)
    case None => None
    case Some(x) => f(x)
  }

  /**
   * `list(map(f, tokens))` for a conversion `f` that may raise: every
   * element's value in order, None at the first element where `f` raises.
   */
  function MapAll<S, T>(toks: seq<S>, f: S -> Option<T>): (r: Option<seq<T>>)
    ensures r.Some? ==> |r.value| == |toks|
  {
    if |toks| == 0 then Some([])
    else
      match MapAll(toks[..|toks| - 1], f)
      case None => None
      case Some(prev) =>
        match f(toks[|toks| - 1])
        case None => None
        case Some(n) => Some(prev + [n])
  }

  /** `list(map(f, tokens))`, or a `for` loop appending `f(x)`, as the loop that builds the list. */
  method MapList<S, T>(toks: seq<S>, f: S -> Option<T>) returns (r: Option<seq<T>>)
    ensures r == MapAll(toks, f)
  {
    var l: seq<T> := [];
    var k := 0;
    while k < |toks|
      invariant 0 <= k <= |toks|
      invariant MapAll(toks[..k], f) == Some(l)
    {
      assert toks[..k + 1][..k] == toks[..k];
      var n := f(toks[k]);
      if n.None? {
        MapAllStops(toks, k + 1, f);
        return None;
      }
      l := l + [n.value];
      k := k + 1;
    }
    assert toks[..k] == toks;
    return Some(l);
  }

  /** Once a token fails to convert, no longer list of tokens converts. */
  lemma MapAllStops<S, T>(toks: seq<S>, i: nat, f: S -> Option<T>)
    requires 0 < i <= |toks| && f(toks[i - 1]).None?
    ensures MapAll(toks, f).None?
  {
    MapAllSome(toks, f);
  }

  /** The conversion of all tokens succeeds exactly when it succeeds on every token. */
  lemma {:induction false} MapAllSome<S, T>(toks: seq<S>, f: S -> Option<T>)
    ensures MapAll(toks, f).Some? <==> forall k :: 0 <= k < |toks| ==> f(toks[k]).Some?
  {
    if |toks| > 0 {
      var n := |toks| - 1;
      MapAllSome(toks[..n], f);
      if MapAll(toks, f).Some? {
        forall k | 0 <= k < |toks|
          ensures f(toks[k]).Some?
        {
          if k < n {
            assert toks[..n][k] == toks[k];
          }
        }
      } else if MapAll(toks[..n], f).None? {
        var k :| 0 <= k < n && f(toks[..n][k]).None?;
        assert toks[..n][k] == toks[k];
      }
    }
  }

  /** When the conversion of all tokens succeeds it gives each token's value, in order. */
  lemma {:induction false} MapAllValues<S, T>(toks: seq<S>, f: S -> Option<T>)
    requires MapAll(toks, f).Some?
    ensures forall k :: 0 <= k < |toks| ==> f(toks[k]).Some? && MapAll(toks, f).value[k] == f(toks[k]).value
  {
    if |toks| > 0 {
      var n := |toks| - 1;
      MapAllValues(toks[..n], f);
      assert MapAll(toks, f).value == MapAll(toks[..n], f).value + [f(toks[n]).value];
      forall k | 0 <= k < n
        ensures f(toks[k]).Some? && MapAll(toks, f).value[k] == f(toks[k]).value
      {
        assert toks[..n][k] == toks[k];
      }
    }
  }
}

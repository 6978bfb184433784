/**
 * The Python values a typed-in position/amino-acid mapping can hold after
 * literal evaluation, and the table the validator builds from it.
 */
module PyLit {
  import opened Wrappers
  import opened Text
  import Config

  /**
   * A literal value: a string, an integer, a boolean, a finite float, a
   * bytes literal (its characters), or anything else that has neither a
   * `split(' ')` on text nor an `int()` conversion (None, complex numbers,
   * tuples, lists, ...).
   */
  datatype PyVal = PyStr(s: string) | PyInt(i: int) | PyBool(b: bool) | PyFloat(r: real) | PyBytes(bs: string) | PyOther

  /** The outcome of `ast.literal_eval` on the typed text. */
  datatype Literal = NotParseable | NotADict | Dict(items: seq<(PyVal, PyVal)>)

  /** `int(x)` of a float: the fraction is dropped, rounding toward zero. */
  function Trunc(x: real): (n: int)
    ensures n as real <= x < n as real + 1.0 || n as real - 1.0 < x <= n as real
    ensures 0.0 <= x ==> 0 <= n
    ensures x <= 0.0 ==> n <= 0
    ensures (if x < 0.0 then -x else x) < (if n < 0 then -n else n) as real + 1.0
  {
    if x >= 0.0 then x.Floor else -((-x).Floor)
  }

  /** `int(v)`, or None where Python raises: text and bytes are parsed alike, a float is truncated. */
  function IntOf(v: PyVal): (r: Option<int>)
    ensures v.PyInt? ==> r == Some(v.i)
    ensures v.PyBytes? ==> r == ParseInt(v.bs)
    ensures v.PyFloat? ==> r.Some? && (r.value as real <= v.r < r.value as real + 1.0 || r.value as real - 1.0 < v.r <= r.value as real)
    ensures v.PyOther? ==> r.None?
  {
    match v
    case PyStr(s) => ParseInt(s)
    case PyInt(i) => Some(i)
    case PyBool(b) => Some(if b then 1 else 0)
    case PyFloat(x) => Some(Trunc(x))
    case PyBytes(bs) => ParseInt(bs)
    case PyOther => None
  }

  predicate IsPosKey(v: PyVal) {
    v == PyStr(Config.PosKey)
  }

  /**
   * `ScanDict[v]` for the dict `{True: ..., False: ...}`: Python looks keys
   * up by equality, under which 1 and 1.0 are True and 0 and 0.0 are False;
   * any other value raises KeyError (None here).
   */
  function ScanKey(v: PyVal): (r: Option<bool>)
    ensures v.PyBool? ==> r == Some(v.b)
    ensures v.PyInt? ==> (r.Some? <==> v.i == 0 || v.i == 1) && (r.Some? ==> (r.value <==> v.i == 1))
    ensures v.PyFloat? ==> (r.Some? <==> v.r == 0.0 || v.r == 1.0) && (r.Some? ==> (r.value <==> v.r == 1.0))
    ensures v.PyStr? || v.PyBytes? || v.PyOther? ==> r.None?
  {
    match v
    case PyBool(b) => Some(b)
    case PyInt(i) => if i == 1 then Some(true) else if i == 0 then Some(false) else None
    case PyFloat(x) => if x == 1.0 then Some(true) else if x == 0.0 then Some(false) else None
    case _ => None
  }

  /**
   * The validated mapping: the letter lists under their integer residue
   * numbers, in insertion order, and the value stored under the Pos key if
   * it has been stored.
   */
  datatype PosTable = PosTable(rows: seq<(int, seq<string>)>, pos: Option<PyVal>)

  /** The letter lists of the table in mapping order (the non-Pos values). */
  function AllAA(t: PosTable): (r: seq<seq<string>>)
    ensures |r| == |t.rows|
    ensures forall i :: 0 <= i < |r| ==> r[i] == t.rows[i].1
  {
    seq(|t.rows|, i requires 0 <= i < |t.rows| => t.rows[i].1)
  }
}

/**
 * Candidate generation: every way of choosing one token per position
 * (`itertools.product(*allAA)`, the first position varying slowest), and the
 * candidate motifs as the concatenations of those choices.
 */
module Candidates {
  import opened Text
  import Checks

  /** `[x] + t` for every `t` in `ts`, in order. */
  function Block(x: string, ts: seq<seq<string>>): (r: seq<seq<string>>)
    ensures |r| == |ts|
    ensures forall j :: 0 <= j < |ts| ==> r[j] == [x] + ts[j]
  {
    seq(|ts|, j requires 0 <= j < |ts| => [x] + ts[j])
  }

  /** The blocks of every `x` in `xs`, in the order of `xs`. */
  function Prefix(xs: seq<string>, ts: seq<seq<string>>): seq<seq<string>> {
    if |xs| == 0 then [] else Block(xs[0], ts) + Prefix(xs[1..], ts)
  }

  /** The tuples of `itertools.product(*lists)`, in the order it yields them. */
  function Choices(lists: seq<seq<string>>): seq<seq<string>>
    decreases |lists|
  {
    if |lists| == 0 then [[]] else Prefix(lists[0], Choices(lists[1..]))
  }

  /** The number of tuples: the product of the list sizes. */
  function SizeProduct(lists: seq<seq<string>>): nat {
    if |lists| == 0 then 1 else |lists[0]| * SizeProduct(lists[1..])
  }

  /** `[''.join(v) for v in itertools.product(*lists)]` */
  function Product(lists: seq<seq<string>>): (r: seq<string>)
    ensures |r| == |Choices(lists)|
    ensures forall k :: 0 <= k < |r| ==> r[k] == Join(Choices(lists)[k], "")
  {
    var cs := Choices(lists);
    seq(|cs|, k requires 0 <= k < |cs| => Join(cs[k], ""))
  }

  /** A tuple that picks one entry of each list, position by position. */
  predicate IsChoice(t: seq<string>, lists: seq<seq<string>>) {
    |t| == |lists| && forall i :: 0 <= i < |t| ==> t[i] in lists[i]
  }

  lemma {:induction false} PrefixSize(xs: seq<string>, ts: seq<seq<string>>)
    ensures |Prefix(xs, ts)| == |xs| * |ts|
  {
    if |xs| > 0 {
      PrefixSize(xs[1..], ts);
      assert |xs| * |ts| == |ts| + (|xs| - 1) * |ts|;
    }
  }

  /** There are as many candidates as the product of the list sizes. */
  lemma {:induction false} ChoicesSize(lists: seq<seq<string>>)
    ensures |Choices(lists)| == SizeProduct(lists)
    ensures |Product(lists)| == SizeProduct(lists)
    decreases |lists|
  {
    if |lists| > 0 {
      ChoicesSize(lists[1..]);
      PrefixSize(lists[0], Choices(lists[1..]));
    }
  }

  lemma {:induction false} PrefixMember(xs: seq<string>, ts: seq<seq<string>>, t: seq<string>)
    ensures t in Prefix(xs, ts) <==> |t| > 0 && t[0] in xs && t[1..] in ts
  {
    if |xs| > 0 {
      PrefixMember(xs[1..], ts, t);
      var b := Block(xs[0], ts);
      assert t in Prefix(xs, ts) <==> t in b || t in Prefix(xs[1..], ts);
      if t in b {
        var j :| 0 <= j < |ts| && b[j] == t;
        assert t[1..] == ts[j];
      }
      if |t| > 0 && t[0] == xs[0] && t[1..] in ts {
        var j :| 0 <= j < |ts| && ts[j] == t[1..];
        assert b[j] == t;
      }
    }
  }

  /** The tuples are exactly the choices of one entry per list. */
  lemma {:induction false} ChoicesMember(lists: seq<seq<string>>, t: seq<string>)
    ensures t in Choices(lists) <==> IsChoice(t, lists)
    decreases |lists|
  {
    if |lists| == 0 {
      assert t in [[]] <==> t == [];
    } else {
      PrefixMember(lists[0], Choices(lists[1..]), t);
      if |t| > 0 {
        ChoicesMember(lists[1..], t[1..]);
        assert IsChoice(t, lists) <==> t[0] in lists[0] && IsChoice(t[1..], lists[1..]) by {
          if t[0] in lists[0] && IsChoice(t[1..], lists[1..]) {
            forall i | 0 <= i < |t| ensures t[i] in lists[i] {
              if i > 0 {
                assert t[1..][i - 1] == t[i];
              }
            }
          }
          if IsChoice(t, lists) {
            forall i | 0 <= i < |t| - 1 ensures t[1..][i] in lists[1..][i] {
              assert t[i + 1] in lists[i + 1];
            }
          }
        }
      }
    }
  }

  lemma {:induction false} PrefixDistinct(xs: seq<string>, ts: seq<seq<string>>)
    requires Checks.Distinct(xs) && Checks.Distinct(ts)
    ensures Checks.Distinct(Prefix(xs, ts))
  {
    if |xs| > 0 {
      var b := Block(xs[0], ts);
      var rest := Prefix(xs[1..], ts);
      PrefixDistinct(xs[1..], ts);
      forall i, j | 0 <= i < j < |b + rest| ensures (b + rest)[i] != (b + rest)[j] {
        if j < |b| {
          assert b[i][1..] == ts[i] && b[j][1..] == ts[j];
        } else if i < |b| {
          PrefixMember(xs[1..], ts, rest[j - |b|]);
          var k :| 0 <= k < |xs[1..]| && xs[1..][k] == rest[j - |b|][0];
          assert xs[k + 1] != xs[0];
        } else {
          assert rest[i - |b|] != rest[j - |b|];
        }
      }
    }
  }

  /** With no repeated entry in any list, no tuple is produced twice. */
  lemma {:induction false} ChoicesDistinct(lists: seq<seq<string>>)
    requires forall i :: 0 <= i < |lists| ==> Checks.Distinct(lists[i])
    ensures Checks.Distinct(Choices(lists))
    decreases |lists|
  {
    if |lists| > 0 {
      ChoicesDistinct(lists[1..]);
      PrefixDistinct(lists[0], Choices(lists[1..]));
    }
  }

  /** Every token of every list is a single letter. */
  predicate SingleLetters(lists: seq<seq<string>>) {
    forall i, j :: 0 <= i < |lists| && 0 <= j < |lists[i]| ==> |lists[i][j]| == 1
  }

  /** Joining single letters gives one character per token, in order. */
  lemma {:induction false} JoinSingles(t: seq<string>)
    requires forall i :: 0 <= i < |t| ==> |t[i]| == 1
    ensures |Join(t, "")| == |t|
    ensures forall i :: 0 <= i < |t| ==> Join(t, "")[i] == t[i][0]
  {
    if |t| > 1 {
      JoinSingles(t[1..]);
      assert Join(t, "") == t[0] + Join(t[1..], "");
    }
  }

  /**
   * With single-letter tokens and no repeats within a position, the
   * candidate motifs all have one letter per position, are pairwise
   * distinct, and there are as many as the product of the list sizes.
   */
  lemma CandidateShape(lists: seq<seq<string>>)
    requires SingleLetters(lists)
    requires forall i :: 0 <= i < |lists| ==> Checks.Distinct(lists[i])
    ensures |Product(lists)| == SizeProduct(lists)
    ensures forall k :: 0 <= k < |Product(lists)| ==> |Product(lists)[k]| == |lists|
    ensures Checks.Distinct(Product(lists))
  {
    ChoicesSize(lists);
    ChoicesDistinct(lists);
    var cs := Choices(lists);
    var ps := Product(lists);
    forall k | 0 <= k < |cs|
      ensures IsChoice(cs[k], lists)
      ensures |ps[k]| == |lists|
      ensures forall i :: 0 <= i < |lists| ==> ps[k][i] == cs[k][i][0]
    {
      ChoicesMember(lists, cs[k]);
      JoinSingles(cs[k]);
    }
    forall k, l | 0 <= k < l < |ps| ensures ps[k] != ps[l] {
      assert cs[k] != cs[l];
      var i :| 0 <= i < |lists| && cs[k][i] != cs[l][i];
      assert cs[k][i] == [cs[k][i][0]] && cs[l][i] == [cs[l][i][0]];
      assert ps[k][i] != ps[l][i];
    }
  }

  /** A motif is a candidate exactly when it picks one entry of each list, position by position. */
  lemma ProductMember(lists: seq<seq<string>>, m: string)
    requires SingleLetters(lists)
    ensures m in Product(lists) <==>
      |m| == |lists| && forall i :: 0 <= i < |m| ==> [m[i]] in lists[i]
  {
    var cs := Choices(lists);
    var ps := Product(lists);
    if m in ps {
      var k :| 0 <= k < |ps| && ps[k] == m;
      ChoicesMember(lists, cs[k]);
      JoinSingles(cs[k]);
      forall i | 0 <= i < |m| ensures [m[i]] in lists[i] {
        assert cs[k][i] in lists[i];
        assert |cs[k][i]| == 1 && cs[k][i] == [cs[k][i][0]];
      }
    }
    if |m| == |lists| && forall i :: 0 <= i < |m| ==> [m[i]] in lists[i] {
      var t := seq(|m|, i requires 0 <= i < |m| => [m[i]]);
      ChoicesMember(lists, t);
      var k :| 0 <= k < |cs| && cs[k] == t;
      JoinSingles(t);
      assert Join(t, "") == m;
      assert ps[k] == m;
    }
  }
}

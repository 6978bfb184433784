/**
 * The consensus-sequence tab: it builds one candidate motif per way of
 * choosing a letter at every configured position, scans the proteins of a
 * multi-FASTA file, counts for every candidate the proteins it occurs in and
 * sorts the table by that count.
 *
 * Two scans exist. The positional scan reads the residues of a protein at
 * the configured positions and credits the one candidate they spell; the
 * free scan credits every candidate that occurs anywhere in the protein.
 */
module ConsensusTab {
  import opened Wrappers
  import opened Text
  import Sorting
  import Checks
  import Fasta
  import Candidates
  import opened PyLit
  import opened PyList

  // ------------------------------------------------------------ the table

  /** One row of the output table: Sequence, Appearance and Prot_IDs (the two percent columns are derived). */
  datatype Row = Row(sequence: string, appearance: nat, protIds: string)

  /** One row per candidate motif, in product order, with no appearance yet. */
  function InitTable(allAA: seq<seq<string>>): (t: seq<Row>)
    ensures |t| == |Candidates.Product(allAA)|
    ensures forall k :: 0 <= k < |t| ==> t[k] == Row(Candidates.Product(allAA)[k], 0, "")
  {
    var ps := Candidates.Product(allAA);
    seq(|ps|, k requires 0 <= k < |ps| => Row(ps[k], 0, ""))
  }

  /** The protein-id list with one more id: comma-separated, no separator before the first. */
  function AppendId(ids: string, tprot: string): string {
    if ids == "" then tprot else ids + ", " + tprot
  }

  /** A row credited with one more protein. */
  function Bump(r: Row, tprot: string): Row {
    Row(r.sequence, r.appearance + 1, AppendId(r.protIds, tprot))
  }

  /** The sum of the Appearance column. */
  function Sum(t: seq<Row>): nat {
    if |t| == 0 then 0 else Sum(t[..|t| - 1]) + t[|t| - 1].appearance
  }

  /** Every row keeps its motif and gains at most one appearance. */
  predicate StepsUp(t: seq<Row>, t': seq<Row>) {
    && |t'| == |t|
    && forall k :: 0 <= k < |t| ==>
         t'[k].sequence == t[k].sequence && t[k].appearance <= t'[k].appearance <= t[k].appearance + 1
  }

  // ------------------------------------------------------- the free scan

  /** ScanSeqNoPosLookSeq: a row whose motif occurs in the protein is credited with it. */
  function LookSeq(row: Row, tseq: string, tprot: string): Row {
    if Contains(tseq, row.sequence) then Bump(row, tprot) else row
  }

  /** ScanSeqNoPos: every row looked up in the protein. */
  function ScanNoPos(table: seq<Row>, tseq: string, tprot: string): (r: seq<Row>)
    ensures StepsUp(table, r)
    ensures forall k :: 0 <= k < |table| ==> r[k] == LookSeq(table[k], tseq, tprot)
  {
    seq(|table|, k requires 0 <= k < |table| => LookSeq(table[k], tseq, tprot))
  }

  // ------------------------------------------------- the positional scan

  /** The residues of the protein at the given positions, joined; None at the first position out of range. */
  function Extract(tseq: string, ks: seq<int>): Option<string> {
    if |ks| == 0 then Some("")
    else
      match Extract(tseq, ks[..|ks| - 1])
      case None => None
      case Some(m) =>
        match PyIndex(tseq, ks[|ks| - 1])
        case None => None
        case Some(c) => Some(m + [c])
  }

  /**
   * The motif is read exactly when every position is a valid Python index of
   * the protein; it then has one residue per position, read with Python's
   * negative indexing.
   */
  lemma {:induction false} ExtractSpec(tseq: string, ks: seq<int>)
    ensures Extract(tseq, ks).Some? <==> forall i :: 0 <= i < |ks| ==> -|tseq| <= ks[i] < |tseq|
    ensures Extract(tseq, ks).Some? ==>
      && |Extract(tseq, ks).value| == |ks|
      && forall i :: 0 <= i < |ks| ==> Extract(tseq, ks).value[i] == tseq[PyOffset(|tseq|, ks[i])]
  {
    if |ks| > 0 {
      var n := |ks| - 1;
      ExtractSpec(tseq, ks[..n]);
      assert forall i :: 0 <= i < n ==> ks[..n][i] == ks[i];
    }
  }

  /** The positions of the rows whose motif contains `m`, in table order. */
  function Matches(table: seq<Row>, m: string): (r: seq<nat>)
    ensures forall j :: 0 <= j < |r| ==> r[j] < |table| && Contains(table[r[j]].sequence, m)
    ensures forall k :: 0 <= k < |table| && Contains(table[k].sequence, m) ==> k in r
    ensures forall a, b :: 0 <= a < b < |r| ==> r[a] < r[b]
  {
    if |table| == 0 then []
    else
      var n := |table| - 1;
      Matches(table[..n], m) + (if Contains(table[n].sequence, m) then [n] else [])
  }

  /** ScanSeqWithPos as a function of the table: the new table and whether a row was credited. */
  function ScanWithPos(table: seq<Row>, tseq: string, tprot: string, ks: seq<int>): (seq<Row>, bool) {
    match Extract(tseq, ks)
    case None => (table, false)
    case Some(m) =>
      var idx := Matches(table, m);
      if |idx| != 1 then (table, false)
      else (table[idx[0] := Bump(table[idx[0]], tprot)], true)
  }

  /** Row `k` is the only row whose motif contains `m`. */
  predicate OnlyMatch(table: seq<Row>, m: string, k: int) {
    && 0 <= k < |table|
    && Contains(table[k].sequence, m)
    && forall j :: 0 <= j < |table| && j != k ==> !Contains(table[j].sequence, m)
  }

  /**
   * The positional scan credits a row exactly when the motif can be read
   * and exactly one row contains it; it then credits that row and touches
   * nothing else, and otherwise changes nothing.
   */
  lemma ScanWithPosSpec(table: seq<Row>, tseq: string, tprot: string, ks: seq<int>)
    ensures ScanWithPos(table, tseq, tprot, ks).1 <==>
      Extract(tseq, ks).Some? && exists k :: OnlyMatch(table, Extract(tseq, ks).value, k)
    ensures ScanWithPos(table, tseq, tprot, ks).1 ==>
      exists k :: OnlyMatch(table, Extract(tseq, ks).value, k) &&
        ScanWithPos(table, tseq, tprot, ks).0 == table[k := Bump(table[k], tprot)]
    ensures !ScanWithPos(table, tseq, tprot, ks).1 ==> ScanWithPos(table, tseq, tprot, ks).0 == table
  {
    if Extract(tseq, ks).Some? {
      var m := Extract(tseq, ks).value;
      var idx := Matches(table, m);
      if |idx| == 1 {
        assert OnlyMatch(table, m, idx[0]);
      }
      if k :| OnlyMatch(table, m, k) {
        assert k in idx;
        forall a | 0 <= a < |idx| ensures idx[a] == k {
        }
        OneIndex(idx, k);
      }
    }
  }

  /** An increasing list of positions that holds `k` and nothing else is `[k]`. */
  lemma OneIndex(r: seq<nat>, k: nat)
    requires k in r && forall a :: 0 <= a < |r| ==> r[a] == k
    requires forall a, b :: 0 <= a < b < |r| ==> r[a] < r[b]
    ensures |r| == 1
  {
    Checks.ToSetSize(r);
    assert Checks.ToSet(r) == {k};
  }

  /** Every row has a motif of length `len`, and no two rows have the same motif. */
  predicate MotifTable(table: seq<Row>, len: nat) {
    && (forall k :: 0 <= k < |table| ==> |table[k].sequence| == len)
    && (forall j, k :: 0 <= j < k < |table| ==> table[j].sequence != table[k].sequence)
  }

  /**
   * When the motifs are as long as the list of positions and pairwise
   * distinct, a protein credits row `k` exactly when its residues at the
   * positions spell that row's motif.
   */
  lemma ScanWithPosCount(table: seq<Row>, tseq: string, tprot: string, ks: seq<int>, k: int)
    requires MotifTable(table, |ks|) && 0 <= k < |table|
    ensures ScanWithPos(table, tseq, tprot, ks).0[k].appearance ==
      table[k].appearance + (if Extract(tseq, ks) == Some(table[k].sequence) then 1 else 0)
  {
    ExtractSpec(tseq, ks);
    if Extract(tseq, ks).Some? {
      var m := Extract(tseq, ks).value;
      var idx := Matches(table, m);
      forall j | 0 <= j < |table| ensures Contains(table[j].sequence, m) <==> table[j].sequence == m {
        ContainsSameLength(table[j].sequence, m);
      }
      if m == table[k].sequence {
        assert k in idx;
        forall a | 0 <= a < |idx| ensures idx[a] == k {
          assert table[idx[a]].sequence == m;
        }
        OneIndex(idx, k);
      } else {
        assert k !in idx;
      }
    }
  }

  // ------------------------------------------------------- the whole file

  /** `ScanDict[mode](tseq, tprot)` for one handed-over protein `(tprot, tseq)`. */
  function ScanOne(table: seq<Row>, rec: (string, string), positional: bool, ks: seq<int>): (r: seq<Row>)
    ensures StepsUp(table, r)
  {
    if positional then ScanWithPos(table, rec.1, rec.0, ks).0 else ScanNoPos(table, rec.1, rec.0)
  }

  /** The table after scanning the handed-over proteins, first protein first. */
  function ScanAll(table: seq<Row>, recs: seq<(string, string)>, positional: bool, ks: seq<int>): seq<Row> {
    if |recs| == 0 then table
    else ScanOne(ScanAll(table, recs[..|recs| - 1], positional, ks), recs[|recs| - 1], positional, ks)
  }

  /** Scanning keeps the motifs and credits every row at most once per protein. */
  lemma {:induction false} ScanAllShape(table: seq<Row>, recs: seq<(string, string)>, positional: bool, ks: seq<int>)
    ensures |ScanAll(table, recs, positional, ks)| == |table|
    ensures forall k :: 0 <= k < |table| ==>
      && ScanAll(table, recs, positional, ks)[k].sequence == table[k].sequence
      && table[k].appearance <= ScanAll(table, recs, positional, ks)[k].appearance <= table[k].appearance + |recs|
  {
    if |recs| > 0 {
      ScanAllShape(table, recs[..|recs| - 1], positional, ks);
    }
  }

  /** How many of the proteins contain `s`. */
  function Hits(recs: seq<(string, string)>, s: string): nat {
    if |recs| == 0 then 0
    else Hits(recs[..|recs| - 1], s) + (if Contains(recs[|recs| - 1].1, s) then 1 else 0)
  }

  /** How many of the proteins spell `s` at the positions `ks`. */
  function MotifHits(recs: seq<(string, string)>, ks: seq<int>, s: string): nat {
    if |recs| == 0 then 0
    else MotifHits(recs[..|recs| - 1], ks, s) + (if Extract(recs[|recs| - 1].1, ks) == Some(s) then 1 else 0)
  }

  /** The free scan counts, for every row, the proteins its motif occurs in. */
  lemma {:induction false} FreeCount(table: seq<Row>, recs: seq<(string, string)>, ks: seq<int>, k: int)
    requires 0 <= k < |table|
    ensures |ScanAll(table, recs, false, ks)| == |table|
    ensures ScanAll(table, recs, false, ks)[k].appearance == table[k].appearance + Hits(recs, table[k].sequence)
  {
    ScanAllShape(table, recs, false, ks);
    if |recs| > 0 {
      var n := |recs| - 1;
      FreeCount(table, recs[..n], ks, k);
      ScanAllShape(table, recs[..n], false, ks);
    }
  }

  /**
   * With motifs as long as the position list and pairwise distinct, the
   * positional scan counts, for every row, the proteins whose residues at
   * the positions spell its motif.
   */
  lemma {:induction false} PositionalCount(table: seq<Row>, recs: seq<(string, string)>, ks: seq<int>, k: int)
    requires MotifTable(table, |ks|) && 0 <= k < |table|
    ensures |ScanAll(table, recs, true, ks)| == |table|
    ensures ScanAll(table, recs, true, ks)[k].appearance == table[k].appearance + MotifHits(recs, ks, table[k].sequence)
  {
    ScanAllShape(table, recs, true, ks);
    if |recs| > 0 {
      var n := |recs| - 1;
      PositionalCount(table, recs[..n], ks, k);
      ScanAllShape(table, recs[..n], true, ks);
      var t := ScanAll(table, recs[..n], true, ks);
      assert MotifTable(t, |ks|);
      ScanWithPosCount(t, recs[n].1, recs[n].0, ks, k);
    }
  }

  /** The Appearance column sums to zero exactly when no row appears. */
  lemma {:induction false} SumZero(t: seq<Row>)
    ensures Sum(t) == 0 <==> forall k :: 0 <= k < |t| ==> t[k].appearance == 0
  {
    if |t| > 0 {
      SumZero(t[..|t| - 1]);
      assert forall k :: 0 <= k < |t| - 1 ==> t[..|t| - 1][k] == t[k];
    }
  }

  /** Crediting one row raises the sum by one. */
  lemma {:induction false} SumBump(t: seq<Row>, k: int, tprot: string)
    requires 0 <= k < |t|
    ensures Sum(t[k := Bump(t[k], tprot)]) == Sum(t) + 1
  {
    var n := |t| - 1;
    if k < n {
      assert t[k := Bump(t[k], tprot)][..n] == t[..n][k := Bump(t[k], tprot)];
      SumBump(t[..n], k, tprot);
    } else {
      assert t[k := Bump(t[k], tprot)][..n] == t[..n];
    }
  }

  /** The positional scan credits at most one row per protein, so the sum grows by at most the number of proteins. */
  lemma {:induction false} PositionalSum(table: seq<Row>, recs: seq<(string, string)>, ks: seq<int>)
    ensures Sum(ScanAll(table, recs, true, ks)) <= Sum(table) + |recs|
  {
    if |recs| > 0 {
      var n := |recs| - 1;
      PositionalSum(table, recs[..n], ks);
      var t := ScanAll(table, recs[..n], true, ks);
      ScanWithPosSpec(t, recs[n].1, recs[n].0, ks);
      if ScanWithPos(t, recs[n].1, recs[n].0, ks).1 {
        var k :| OnlyMatch(t, Extract(recs[n].1, ks).value, k) &&
          ScanWithPos(t, recs[n].1, recs[n].0, ks).0 == t[k := Bump(t[k], recs[n].0)];
        SumBump(t, k, recs[n].0);
      }
    }
  }

  // ------------------------------------------------------------- sorting

  /** `sort_values(by=['Appearance', 'Sequence'], ascending=[False, True])` */
  predicate RowLe(a: Row, b: Row) {
    a.appearance > b.appearance || (a.appearance == b.appearance && StrLe(a.sequence, b.sequence))
  }

  /** Descending count, then ascending motif, compares every pair of rows and is transitive. */
  lemma RowLeTotalPreorder()
    ensures Sorting.TotalPreorder(RowLe)
  {
    forall a: Row, b: Row ensures RowLe(a, b) || RowLe(b, a) {
      StrLeTotal(a.sequence, b.sequence);
    }
    forall a: Row, b: Row, c: Row | RowLe(a, b) && RowLe(b, c) ensures RowLe(a, c) {
      if a.appearance == b.appearance == c.appearance {
        StrLeTransitive(a.sequence, b.sequence, c.sequence);
      }
    }
  }

  // ------------------------------------------------ reading the FASTA file

  /**
   * What the tab decides at a header: a fragment is skipped when only
   * complete proteins are wanted; any other protein is picked under the
   * second `|`-separated field of its header, and a header without one
   * raises IndexError.
   */
  function SeqSetPick(compProt: bool, ll: string): (p: Fasta.Pick<string>)
    ensures p.Skip? <==> Contains(ll, "Fragment") && compProt
    ensures p.TakeFails? <==> !(Contains(ll, "Fragment") && compProt) && '|' !in ll
  {
    if Contains(ll, "Fragment") && compProt then Fasta.Skip
    else
      match Field(ll, '|', 1)
      case None => Fasta.TakeFails
      case Some(id) => Fasta.Take(id)
  }

  function SeqSetPicker(compProt: bool): string -> Fasta.Pick<string> {
    ll => SeqSetPick(compProt, ll)
  }

  /** Which scan `ScanDict` selects for the stored Pos value; None where the lookup raises KeyError. */
  function Mode(t: PosTable): Option<bool> {
    if t.pos.None? then None else ScanKey(t.pos.value)
  }

  /** The line machine after the whole file, last record closed. */
  function Outcome(compProt: bool, lines: seq<string>): Fasta.Scan<string> {
    Fasta.Finish(Fasta.Run(Fasta.NormAll(lines, Fasta.NormLine), SeqSetPicker(compProt)))
  }

  /**
   * DataProcessing raises when a header pick raises, or when a protein is
   * handed over to a scan and the Pos value selects none.
   */
  predicate Raises(posAA: PosTable, compProt: bool, lines: seq<string>) {
    RaisesAfter(posAA, Fasta.Run(Fasta.NormAll(lines, Fasta.NormLine), SeqSetPicker(compProt)))
  }

  /** DataProcessing raises once the line machine has reached `st`. */
  predicate RaisesAfter(posAA: PosTable, st: Fasta.Scan<string>) {
    Fasta.Finish(st).raised || (Mode(posAA).None? && |Fasta.Finish(st).closed| > 0)
  }

  /** The table before sorting: every candidate with its count over the handed-over proteins. */
  function Counted(posAA: PosTable, posAAL: seq<int>, compProt: bool, lines: seq<string>): seq<Row> {
    ScanAll(InitTable(AllAA(posAA)), Outcome(compProt, lines).closed, Mode(posAA) == Some(true), posAAL)
  }

  /** A validated table: single letters, no letter twice at a position, one index per position. */
  predicate WellFormed(posAA: PosTable, posAAL: seq<int>) {
    && Candidates.SingleLetters(AllAA(posAA))
    && (forall i :: 0 <= i < |posAA.rows| ==> Checks.Distinct(posAA.rows[i].1))
    && |posAAL| == |posAA.rows|
  }

  /**
   * In positional mode on a validated table, every candidate's count is the
   * number of analysed proteins whose residues at the positions spell it;
   * and a motif is a candidate exactly when each of its letters is listed
   * at its position.
   */
  lemma PositionalCounts(posAA: PosTable, posAAL: seq<int>, compProt: bool, lines: seq<string>, k: int)
    requires Mode(posAA) == Some(true) && WellFormed(posAA, posAAL)
    requires 0 <= k < |InitTable(AllAA(posAA))|
    ensures |Counted(posAA, posAAL, compProt, lines)| == |Candidates.Product(AllAA(posAA))|
    ensures Counted(posAA, posAAL, compProt, lines)[k].sequence == Candidates.Product(AllAA(posAA))[k]
    ensures Counted(posAA, posAAL, compProt, lines)[k].appearance ==
      MotifHits(Outcome(compProt, lines).closed, posAAL, Candidates.Product(AllAA(posAA))[k])
  {
    var allAA := AllAA(posAA);
    var init := InitTable(allAA);
    Candidates.CandidateShape(allAA);
    assert MotifTable(init, |posAAL|);
    ScanAllShape(init, Outcome(compProt, lines).closed, true, posAAL);
    PositionalCount(init, Outcome(compProt, lines).closed, posAAL, k);
  }

  /** In free mode every candidate's count is the number of analysed proteins it occurs in. */
  lemma FreeCounts(posAA: PosTable, posAAL: seq<int>, compProt: bool, lines: seq<string>, k: int)
    requires Mode(posAA) == Some(false)
    requires 0 <= k < |InitTable(AllAA(posAA))|
    ensures |Counted(posAA, posAAL, compProt, lines)| == |Candidates.Product(AllAA(posAA))|
    ensures Counted(posAA, posAAL, compProt, lines)[k].sequence == Candidates.Product(AllAA(posAA))[k]
    ensures Counted(posAA, posAAL, compProt, lines)[k].appearance ==
      Hits(Outcome(compProt, lines).closed, Candidates.Product(AllAA(posAA))[k])
  {
    var init := InitTable(AllAA(posAA));
    ScanAllShape(init, Outcome(compProt, lines).closed, false, posAAL);
    FreeCount(init, Outcome(compProt, lines).closed, posAAL, k);
  }

  /** Without an exception no count exceeds the number of analysed proteins. */
  lemma CountBound(posAA: PosTable, posAAL: seq<int>, compProt: bool, lines: seq<string>, k: int)
    requires !Raises(posAA, compProt, lines)
    requires 0 <= k < |InitTable(AllAA(posAA))|
    ensures |Counted(posAA, posAAL, compProt, lines)| == |InitTable(AllAA(posAA))|
    ensures Counted(posAA, posAAL, compProt, lines)[k].appearance <=
      Fasta.Run(Fasta.NormAll(lines, Fasta.NormLine), SeqSetPicker(compProt)).protsselT
  {
    var lls := Fasta.NormAll(lines, Fasta.NormLine);
    Fasta.FinishCount(lls, SeqSetPicker(compProt));
    ScanAllShape(InitTable(AllAA(posAA)), Outcome(compProt, lines).closed, Mode(posAA) == Some(true), posAAL);
  }

  /** In positional mode the counts add up to at most the number of analysed proteins. */
  lemma PositionalTotal(posAA: PosTable, posAAL: seq<int>, compProt: bool, lines: seq<string>)
    requires !Raises(posAA, compProt, lines) && Mode(posAA) == Some(true)
    ensures Sum(Counted(posAA, posAAL, compProt, lines)) <=
      Fasta.Run(Fasta.NormAll(lines, Fasta.NormLine), SeqSetPicker(compProt)).protsselT
  {
    var lls := Fasta.NormAll(lines, Fasta.NormLine);
    var init := InitTable(AllAA(posAA));
    Fasta.FinishCount(lls, SeqSetPicker(compProt));
    SumZero(init);
    PositionalSum(init, Outcome(compProt, lines).closed, posAAL);
  }

  /**
   * A non-zero sum (the condition for writing the output) means there was
   * at least one analysed protein, and so at least one protein: the
   * percentages written divide by non-zero totals.
   */
  lemma PercentsDefined(posAA: PosTable, posAAL: seq<int>, compProt: bool, lines: seq<string>)
    requires !Raises(posAA, compProt, lines)
    requires Sum(Counted(posAA, posAAL, compProt, lines)) != 0
    ensures var st := Fasta.Run(Fasta.NormAll(lines, Fasta.NormLine), SeqSetPicker(compProt));
      0 < st.protsselT <= st.prottotal
  {
    var lls := Fasta.NormAll(lines, Fasta.NormLine);
    var pick := SeqSetPicker(compProt);
    var init := InitTable(AllAA(posAA));
    var c := Counted(posAA, posAAL, compProt, lines);
    Fasta.RunSelectedLeTotal(lls, pick);
    SumZero(c);
    var k :| 0 <= k < |c| && c[k].appearance != 0;
    ScanAllShape(init, Outcome(compProt, lines).closed, Mode(posAA) == Some(true), posAAL);
    CountBound(posAA, posAAL, compProt, lines, k);
  }

  /** The written table is ordered by descending count, then motif, and holds exactly the counted rows. */
  lemma SortedOutput(posAA: PosTable, posAAL: seq<int>, compProt: bool, lines: seq<string>)
    ensures Sorting.SortedBy(Sorting.SortBy(Counted(posAA, posAAL, compProt, lines), RowLe), RowLe)
    ensures multiset(Sorting.SortBy(Counted(posAA, posAAL, compProt, lines), RowLe)) ==
            multiset(Counted(posAA, posAAL, compProt, lines))
  {
    RowLeTotalPreorder();
    Sorting.SortBySpec(Counted(posAA, posAAL, compProt, lines), RowLe);
  }

  // ----------------------------------------------------------- the tab

  /** The consensus tab: its validated input, its output table and its counters. */
  class Consensus {
    const posAA: PosTable
    const posAAL: seq<int>
    const compProt: bool
    var dataO: seq<Row>
    var ltotal: nat
    var lempty: nat
    var prottotal: nat
    var protsselT: nat
    var sum: nat

    /** A tab holding the checked input, before any run. */
    constructor (posAA: PosTable, posAAL: seq<int>, compProt: bool)
      ensures this.posAA == posAA && this.posAAL == posAAL && this.compProt == compProt
      ensures dataO == [] && ltotal == 0 && lempty == 0 && prottotal == 0 && protsselT == 0 && sum == 0
    {
      this.posAA := posAA;
      this.posAAL := posAAL;
      this.compProt := compProt;
      dataO := [];
      ltotal, lempty, prottotal, protsselT, sum := 0, 0, 0, 0, 0;
    }

    /** `ScanSeqWithPos(tseq, tprot)`: the positional scan of one protein. */
    method ScanSeqWithPos(tseq: string, tprot: string) returns (found: bool)
      modifies this`dataO
      ensures (dataO, found) == ScanWithPos(old(dataO), tseq, tprot, posAAL)
    {
      var s := "";
      var i := 0;
      while i < |posAAL|
        invariant 0 <= i <= |posAAL|
        invariant Extract(tseq, posAAL[..i]) == Some(s)
      {
        assert posAAL[..i + 1][..i] == posAAL[..i];
        var k := posAAL[i];
        if !(-|tseq| <= k < |tseq|) {
          ExtractStops(tseq, posAAL, i + 1);
          return false;
        }
        s := s + [tseq[PyOffset(|tseq|, k)]];
        i := i + 1;
      }
      assert posAAL[..i] == posAAL;
      var idx := Matches(dataO, s);
      if |idx| != 1 {
        return false;
      }
      dataO := dataO[idx[0] := Bump(dataO[idx[0]], tprot)];
      return true;
    }

    /** `ScanSeqNoPos(tseq, tprot)`: the free scan of one protein. */
    method ScanSeqNoPos(tseq: string, tprot: string)
      modifies this`dataO
      ensures dataO == ScanNoPos(old(dataO), tseq, tprot)
    {
      dataO := ScanNoPos(dataO, tseq, tprot);
    }

    /** `ScanDict[positional](tseq, tprot)` */
    method ScanWith(positional: bool, tseq: string, tprot: string)
      modifies this`dataO
      ensures dataO == ScanOne(old(dataO), (tprot, tseq), positional, posAAL)
    {
      if positional {
        var _ := ScanSeqWithPos(tseq, tprot);
      } else {
        ScanSeqNoPos(tseq, tprot);
      }
    }

    /**
     * The fields and the loop's locals agree with the line machine `st`: the
     * counters, the protein being collected, and the table scanned over the
     * proteins handed over so far.
     */
    ghost predicate Mirrors(st: Fasta.Scan<string>, searchP: bool, tprot: string, lseq: seq<string>)
      reads this
    {
      && !st.raised
      && ltotal == st.ltotal && lempty == st.lempty
      && prottotal == st.prottotal && protsselT == st.protsselT
      && (searchP <==> st.current.Some?)
      && (searchP ==> st.current.value == Fasta.Open(tprot, lseq))
      && dataO == ScanAll(InitTable(AllAA(posAA)), st.closed, Mode(posAA) == Some(true), posAAL)
      && (Mode(posAA).None? ==> st.closed == [])
    }

    /** One normalised line of the loop in DataProcessing. */
    method Line(ll: string, searchP: bool, tprot: string, lseq: seq<string>,
                ghost st: Fasta.Scan<string>, ghost pick: string -> Fasta.Pick<string>)
      returns (raised: bool, searchP': bool, tprot': string, lseq': seq<string>)
      requires Mirrors(st, searchP, tprot, lseq) && pick == SeqSetPicker(compProt)
      modifies this`dataO, this`ltotal, this`lempty, this`prottotal, this`protsselT
      ensures var st' := Fasta.Step(st, ll, pick);
        && (raised <==> st'.raised || (Mode(posAA).None? && |st'.closed| > 0))
        && (!raised ==> Mirrors(st', searchP', tprot', lseq'))
    {
      ghost var st' := Fasta.Step(st, ll, pick);
      searchP', tprot', lseq' := searchP, tprot, lseq;
      raised := false;
      ltotal := ltotal + 1;
      if ll == "" {
        lempty := lempty + 1;
      } else if ll[0] == '>' {
        prottotal := prottotal + 1;
        if searchP {
          var tseq := Join(lseq, "");
          var mode := Mode(posAA);
          if mode.None? {
            return true, searchP', tprot', lseq';
          }
          ScanWith(mode.value, tseq, tprot);
        }
        if Contains(ll, "Fragment") && compProt {
          searchP' := false;
        } else {
          searchP' := true;
          protsselT := protsselT + 1;
          var f := Field(ll, '|', 1);
          if f.None? {
            return true, searchP', tprot', lseq';
          }
          tprot' := f.value;
          lseq' := [];
        }
      } else if searchP {
        lseq' := lseq + [ll];
      }
    }

    /** The last protein, handed over after the loop. */
    method Flush(searchP: bool, tprot: string, lseq: seq<string>, ghost st: Fasta.Scan<string>)
      returns (raised: bool)
      requires Mirrors(st, searchP, tprot, lseq)
      modifies this`dataO
      ensures raised <==> Mode(posAA).None? && |Fasta.Finish(st).closed| > 0
      ensures !raised ==> dataO == ScanAll(InitTable(AllAA(posAA)), Fasta.Finish(st).closed, Mode(posAA) == Some(true), posAAL)
    {
      raised := false;
      if searchP {
        var mode := Mode(posAA);
        if mode.None? {
          return true;
        }
        var tseq := Join(lseq, "");
        ScanWith(mode.value, tseq, tprot);
        assert Fasta.Finish(st).closed[..|st.closed|] == st.closed;
      }
    }

    /** The candidate table and the counters set up before the loop: the machine before any line. */
    method Reset()
      modifies this`dataO, this`ltotal, this`lempty, this`prottotal, this`protsselT
      ensures Mirrors(Fasta.Init(), false, "", [])
    {
      dataO := InitTable(AllAA(posAA));
      ltotal, lempty, prottotal, protsselT := 0, 0, 0, 0;
    }

    /** Line `i` of the file, normalised and run through the line machine. */
    method LineAt(lines: seq<string>, i: nat, searchP: bool, tprot: string, lseq: seq<string>,
                  ghost lls: seq<string>, ghost pick: string -> Fasta.Pick<string>)
      returns (raised: bool, searchP': bool, tprot': string, lseq': seq<string>)
      requires lls == Fasta.NormAll(lines, Fasta.NormLine) && pick == SeqSetPicker(compProt) && i < |lines|
      requires Mirrors(Fasta.Run(lls[..i], pick), searchP, tprot, lseq)
      modifies this`dataO, this`ltotal, this`lempty, this`prottotal, this`protsselT
      ensures var st' := Fasta.Run(lls[..i + 1], pick);
        && (raised <==> st'.raised || (Mode(posAA).None? && |st'.closed| > 0))
        && (!raised ==> Mirrors(st', searchP', tprot', lseq'))
    {
      var ll := Fasta.NormLine(lines[i]);
      Fasta.NormAllAt(lines, Fasta.NormLine, i);
      Fasta.RunSnoc(lls, i, pick);
      raised, searchP', tprot', lseq' := Line(ll, searchP, tprot, lseq, Fasta.Run(lls[..i], pick), pick);
    }

    /** The loop of DataProcessing over the normalised lines. */
    method ReadLines(lines: seq<string>, ghost lls: seq<string>, ghost pick: string -> Fasta.Pick<string>)
      returns (raised: bool, searchP: bool, tprot: string, lseq: seq<string>)
      requires lls == Fasta.NormAll(lines, Fasta.NormLine) && pick == SeqSetPicker(compProt)
      modifies this`dataO, this`ltotal, this`lempty, this`prottotal, this`protsselT
      ensures raised ==> RaisesAfter(posAA, Fasta.Run(lls, pick))
      ensures !raised ==> Mirrors(Fasta.Run(lls, pick), searchP, tprot, lseq)
    {
      Reset();
      searchP, tprot, lseq := false, "", [];
      var i := 0;
      ghost var st: Fasta.Scan<string> := Fasta.Init();
      assert lls[..0] == [];
      while i < |lines|
        invariant 0 <= i <= |lines|
        invariant st == Fasta.Run(lls[..i], pick)
        invariant Mirrors(st, searchP, tprot, lseq)
      {
        raised, searchP, tprot, lseq := LineAt(lines, i, searchP, tprot, lseq, lls, pick);
        st := Fasta.Run(lls[..i + 1], pick);
        if raised {
          RaisesEarly(posAA, lls, pick, i + 1);
          return;
        }
        i := i + 1;
      }
      assert lls[..i] == lls;
      raised := false;
    }

    /**
     * `DataProcessing()` over the lines of the input file: it builds the
     * candidate table, runs the line machine, scans every handed-over
     * protein, sums the counts and sorts the table. It raises exactly when
     * a header has no identifier field or a protein reaches the scan while
     * the Pos value selects no scan; otherwise it returns True with the
     * counters of the line machine and the sorted counted table.
     */
    method DataProcessing(lines: seq<string>) returns (status: Status)
      modifies this`dataO, this`ltotal, this`lempty, this`prottotal, this`protsselT, this`sum
      ensures status == Raised <==> Raises(posAA, compProt, lines)
      ensures status != Raised ==> status == Returned(true)
      ensures status != Raised ==>
        var st := Fasta.Run(Fasta.NormAll(lines, Fasta.NormLine), SeqSetPicker(compProt));
        && ltotal == st.ltotal && lempty == st.lempty
        && prottotal == st.prottotal && protsselT == st.protsselT
        && sum == Sum(Counted(posAA, posAAL, compProt, lines))
        && dataO == Sorting.SortBy(Counted(posAA, posAAL, compProt, lines), RowLe)
    {
      ghost var lls := Fasta.NormAll(lines, Fasta.NormLine);
      ghost var pick := SeqSetPicker(compProt);
      var raised := ScanLines(lines, lls, pick);
      if raised {
        return Raised;
      }
      sum := Sum(dataO);
      dataO := Sorting.SortBy(dataO, RowLe);
      return Returned(true);
    }

    /** The loop and the last protein: the counters and the unsorted counted table. */
    method ScanLines(lines: seq<string>, ghost lls: seq<string>, ghost pick: string -> Fasta.Pick<string>)
      returns (raised: bool)
      requires lls == Fasta.NormAll(lines, Fasta.NormLine) && pick == SeqSetPicker(compProt)
      modifies this`dataO, this`ltotal, this`lempty, this`prottotal, this`protsselT
      ensures raised <==> RaisesAfter(posAA, Fasta.Run(lls, pick))
      ensures !raised ==>
        var st := Fasta.Run(lls, pick);
        && ltotal == st.ltotal && lempty == st.lempty
        && prottotal == st.prottotal && protsselT == st.protsselT
        && dataO == ScanAll(InitTable(AllAA(posAA)), Fasta.Finish(st).closed, Mode(posAA) == Some(true), posAAL)
    {
      var searchP, tprot, lseq;
      raised, searchP, tprot, lseq := ReadLines(lines, lls, pick);
      if raised {
        return;
      }
      ghost var st := Fasta.Run(lls, pick);
      assert !st.raised && ltotal == st.ltotal && lempty == st.lempty;
      assert prottotal == st.prottotal && protsselT == st.protsselT;
      assert !Fasta.Finish(st).raised;
      raised := Flush(searchP, tprot, lseq, st);
    }

    /**
     * `WriteOutput()`: refuses (False) when no candidate was found in any
     * protein; otherwise the report is written (True).
     */
    method WriteOutput() returns (ok: bool)
      ensures ok <==> sum != 0
    {
      ok := sum != 0;
    }
  }

  /** A prefix of the file that already raises makes DataProcessing raise. */
  lemma RaisesEarly(posAA: PosTable, lls: seq<string>, pick: string -> Fasta.Pick<string>, i: nat)
    requires i <= |lls|
    requires var st := Fasta.Run(lls[..i], pick);
      st.raised || (Mode(posAA).None? && |st.closed| > 0)
    ensures RaisesAfter(posAA, Fasta.Run(lls, pick))
  {
    Fasta.RunMono(lls, i, pick);
  }

  /** Once a position is out of range, no longer prefix of the positions gives a motif. */
  lemma {:induction false} ExtractStops(tseq: string, ks: seq<int>, i: nat)
    requires 0 < i <= |ks| && PyIndex(tseq, ks[i - 1]).None?
    ensures Extract(tseq, ks).None?
  {
    ExtractSpec(tseq, ks);
  }
}

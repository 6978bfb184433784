/**
 * What the two gene tabs share: the gene file read into a collection of
 * gene names (two ways, one per version of the tab), the header decision
 * (`GN=` names a listed gene, the second `|`-separated field is the
 * protein), the rows written for each picked protein (gene, protein and the
 * N-terminal peptides `seq[0:i]`), the output header and the sort order.
 */
module Genes {
  import opened Wrappers
  import opened Text
  import Fasta
  import Checks
  import DataMethods
  import Sorting
  import Config

  // -------------------------------------------- the gene file (win_tab_gene)

  /** `ll[1:-1]`: the line without its first and last character. */
  function Inner(ll: string): (r: string)
    ensures |ll| >= 2 ==> ll == [ll[0]] + r + [ll[|ll| - 1]]
    ensures |ll| < 2 ==> r == ""
  {
    if |ll| >= 2 then ll[1..|ll| - 1] else ""
  }

  /**
   * The genes a non-empty normalised line names: a line holding `;` is a
   * quoted cell whose inner text is split on `;`; any other line is one gene.
   */
  function LineGenes(ll: string): (r: seq<string>)
    ensures |r| >= 1
  {
    if ';' in ll then Split(Inner(ll), ';') else [ll]
  }

  /** The set of genes the normalised lines of the gene file name; empty lines name none. */
  function GeneSet(lls: seq<string>): set<string> {
    if |lls| == 0 then {}
    else
      var ll := lls[|lls| - 1];
      GeneSet(lls[..|lls| - 1]) + (if ll == "" then {} else Checks.ToSet(LineGenes(ll)))
  }

  /**
   * The gene file loop of `GeneFromFasta.DataProcessing`: every line is cut
   * at its line break and stripped, empty lines are passed over, the genes
   * of the others are appended to a list, and the list becomes a set.
   */
  method ReadGeneFile(lines: seq<string>) returns (genes: set<string>)
    ensures genes == GeneSet(Fasta.NormAll(lines, Fasta.NormLine))
  {
    ghost var lls := Fasta.NormAll(lines, Fasta.NormLine);
    var list: seq<string> := [];
    var i := 0;
    while i < |lines|
      invariant 0 <= i <= |lines|
      invariant Checks.ToSet(list) == GeneSet(lls[..i])
    {
      var ll := Fasta.NormLine(lines[i]);
      GeneSetSnoc(lls, i);
      Fasta.NormAllAt(lines, Fasta.NormLine, i);
      ghost var before := list;
      if ll != "" {
        if ';' in ll {
          list := AppendAll(list, Split(Inner(ll), ';'));
        } else {
          list := list + [ll];
        }
        assert list == before + LineGenes(ll);
        ToSetConcat(before, LineGenes(ll));
        assert Checks.ToSet(list) == GeneSet(lls[..i]) + Checks.ToSet(LineGenes(lls[i]));
        assert Checks.ToSet(list) == GeneSet(lls[..i + 1]);
      } else {
        assert GeneSet(lls[..i + 1]) == GeneSet(lls[..i]) + {};
        assert Checks.ToSet(list) == GeneSet(lls[..i + 1]);
      }
      i := i + 1;
      assert Checks.ToSet(list) == GeneSet(lls[..i]);
    }
    assert lls[..i] == lls;
    genes := Checks.ToSet(list);
  }

  /** `for v in lll: genes.append(v)` */
  method AppendAll(list: seq<string>, lll: seq<string>) returns (list': seq<string>)
    ensures list' == list + lll
  {
    list' := list;
    var j := 0;
    while j < |lll|
      invariant 0 <= j <= |lll|
      invariant list' == list + lll[..j]
    {
      assert lll[..j + 1] == lll[..j] + [lll[j]];
      list' := list' + [lll[j]];
      j := j + 1;
    }
    assert lll[..j] == lll;
  }

  lemma GeneSetSnoc(lls: seq<string>, i: nat)
    requires i < |lls|
    ensures GeneSet(lls[..i + 1]) ==
      GeneSet(lls[..i]) + (if lls[i] == "" then {} else Checks.ToSet(LineGenes(lls[i])))
  {
    assert lls[..i + 1][..i] == lls[..i];
  }

  lemma ToSetConcat(a: seq<string>, b: seq<string>)
    ensures Checks.ToSet(a + b) == Checks.ToSet(a) + Checks.ToSet(b)
  {
    assert forall x :: x in a + b <==> x in a || x in b;
  }

  /** A gene is in the set exactly when some non-empty line names it. */
  lemma {:induction false} GeneSetMember(lls: seq<string>, g: string)
    ensures g in GeneSet(lls) <==>
      exists i :: 0 <= i < |lls| && lls[i] != "" && g in LineGenes(lls[i])
  {
    if |lls| > 0 {
      var n := |lls| - 1;
      GeneSetMember(lls[..n], g);
      if g in GeneSet(lls) {
        if g !in GeneSet(lls[..n]) {
          assert lls[n] != "" && g in LineGenes(lls[n]);
        } else {
          var i :| 0 <= i < n && lls[..n][i] != "" && g in LineGenes(lls[..n][i]);
          assert lls[i] == lls[..n][i];
        }
      }
      if exists i :: 0 <= i < |lls| && lls[i] != "" && g in LineGenes(lls[i]) {
        var i :| 0 <= i < |lls| && lls[i] != "" && g in LineGenes(lls[i]);
        if i < n {
          assert lls[..n][i] == lls[i];
        }
      }
    }
  }

  /** The set is empty (the tab then refuses to run) exactly when every line of the gene file is empty. */
  lemma GeneSetEmpty(lls: seq<string>)
    ensures GeneSet(lls) == {} <==> forall i :: 0 <= i < |lls| ==> lls[i] == ""
  {
    if GeneSet(lls) != {} {
      var g :| g in GeneSet(lls);
      GeneSetMember(lls, g);
    }
    if exists i :: 0 <= i < |lls| && lls[i] != "" {
      var i :| 0 <= i < |lls| && lls[i] != "";
      var g := LineGenes(lls[i])[0];
      GeneSetMember(lls, g);
    }
  }

  /**
   * A quoted cell of two or more `;`-separated genes, none holding `;`,
   * reads back as exactly those genes, whatever the quote characters.
   */
  lemma QuotedCell(open: char, genes: seq<string>, close: char)
    requires |genes| >= 2
    requires forall k :: 0 <= k < |genes| ==> ';' !in genes[k]
    ensures LineGenes([open] + Join(genes, ";") + [close]) == genes
  {
    var inner := Join(genes, ";");
    var ll := [open] + inner + [close];
    assert Join(genes, ";") == genes[0] + ";" + Join(genes[1..], ";");
    assert ll[1 + |genes[0]|] == ';';
    assert Inner(ll) == inner;
    SplitJoin(genes, ';');
  }

  // ------------------------------------------------- the gene file (tab.py)

  /** `"".join(line.split()).replace('"', "")`: the line without whitespace and double quotes. */
  function Squeeze(line: string): string {
    if |line| == 0 then ""
    else (if IsSpace(line[0]) || line[0] == '"' then "" else [line[0]]) + Squeeze(line[1..])
  }

  /** Squeeze keeps exactly the characters that are neither whitespace nor `"`, and only removes. */
  lemma {:induction false} SqueezeChars(line: string)
    ensures forall c :: c in Squeeze(line) <==> c in line && !IsSpace(c) && c != '"'
    ensures |Squeeze(line)| <= |line|
  {
    if |line| > 0 {
      SqueezeChars(line[1..]);
      assert forall c :: c in line <==> c == line[0] || c in line[1..];
    }
  }

  /** What one line adds to the gene list: its squeezed text, then its `;`-separated parts. */
  function LineEntries(g: string): (r: seq<string>)
  {
    if g == "" then [] else [g] + (if ';' in g then Split(g, ';') else [])
  }

  /** The gene list of `GeneTab.CheckInput`, in order, repeats kept. */
  function GeneList(lines: seq<string>): seq<string> {
    if |lines| == 0 then []
    else GeneList(lines[..|lines| - 1]) + LineEntries(Squeeze(lines[|lines| - 1]))
  }

  /** The squeezed line `g` names `x`: it is `x`, or it holds `;` and `x` is one of its parts. */
  predicate Names(g: string, x: string) {
    g != "" && (x == g || (';' in g && x in Split(g, ';')))
  }

  lemma EntriesNames(g: string, x: string)
    ensures x in LineEntries(g) <==> Names(g, x)
  {
  }

  /**
   * A gene is listed exactly when it is the squeezed text of a line or, for
   * a squeezed text holding `;`, one of its parts.
   */
  lemma {:induction false} GeneListMember(lines: seq<string>, x: string)
    ensures x in GeneList(lines) <==> exists i :: 0 <= i < |lines| && Names(Squeeze(lines[i]), x)
  {
    if |lines| > 0 {
      var n := |lines| - 1;
      GeneListMember(lines[..n], x);
      EntriesNames(Squeeze(lines[n]), x);
      assert GeneList(lines) == GeneList(lines[..n]) + LineEntries(Squeeze(lines[n]));
      if x in GeneList(lines[..n]) {
        var i :| 0 <= i < n && Names(Squeeze(lines[..n][i]), x);
        assert lines[..n][i] == lines[i];
      } else if !Names(Squeeze(lines[n]), x) {
        forall i | 0 <= i < |lines| ensures !Names(Squeeze(lines[i]), x) {
          if i < n {
            assert lines[..n][i] == lines[i];
          }
        }
      }
    }
  }

  /** Every line squeezes to nothing. */
  predicate NoGenes(lines: seq<string>) {
    |lines| == 0 || (NoGenes(lines[..|lines| - 1]) && Squeeze(lines[|lines| - 1]) == "")
  }

  /** The list is empty (CheckInput then refuses) exactly when no line has anything but whitespace and quotes. */
  lemma {:induction false} GeneListEmpty(lines: seq<string>)
    ensures GeneList(lines) == [] <==> NoGenes(lines)
  {
    if |lines| > 0 {
      var n := |lines| - 1;
      GeneListEmpty(lines[..n]);
      var e := LineEntries(Squeeze(lines[n]));
      assert |GeneList(lines)| == |GeneList(lines[..n])| + |e|;
    }
  }

  lemma {:induction false} NoGenesEach(lines: seq<string>)
    ensures NoGenes(lines) <==> forall i :: 0 <= i < |lines| ==> Squeeze(lines[i]) == ""
  {
    if |lines| > 0 {
      var n := |lines| - 1;
      NoGenesEach(lines[..n]);
      forall i | 0 <= i < n ensures lines[..n][i] == lines[i] {
      }
    }
  }

  // ----------------------------------------------------- the FASTA headers

  /** The first of the words that contains `p`. */
  function FirstWith(ws: seq<string>, p: string): (r: Option<string>)
    ensures r.Some? ==> r.value in ws && Contains(r.value, p)
    ensures r.None? <==> forall i :: 0 <= i < |ws| ==> !Contains(ws[i], p)
  {
    if |ws| == 0 then None
    else if Contains(ws[0], p) then Some(ws[0])
    else
      var r := FirstWith(ws[1..], p);
      assert forall i :: 1 <= i < |ws| ==> ws[i] == ws[1..][i - 1];
      r
  }

  /** A header holding `GN=` has a word holding `GN=`, and that word holds `=`. */
  lemma GnWord(ll: string)
    requires Contains(ll, "GN=")
    ensures FirstWith(WsSplit(ll), "GN=").Some?
    ensures '=' in FirstWith(WsSplit(ll), "GN=").value
  {
    assert IsWord("GN=");
    var i := ContainsInWord(ll, "GN=");
    var w := FirstWith(WsSplit(ll), "GN=").value;
    var k := ContainsWitness(w, "GN=");
    assert w[k + 2] == "GN="[2];
  }

  /**
   * `[s for s in ll.split() if 'GN=' in s][0].split('=')[1]`: the text after
   * the first `=` (up to the next one) of the first word holding `GN=`.
   */
  function GeneOf(ll: string): (g: string)
    requires Contains(ll, "GN=")
    ensures '=' !in g
  {
    GnWord(ll);
    var w := FirstWith(WsSplit(ll), "GN=").value;
    Split(w, '=')[1]
  }

  /**
   * What both tabs decide at a header: a protein whose `GN=` gene is listed
   * is picked under its gene and the second `|`-separated field of the
   * header (IndexError when there is none); every other protein is skipped.
   */
  function GenePick(genes: set<string>, ll: string): (p: Fasta.Pick<(string, string)>)
    ensures p.Skip? <==> !Contains(ll, "GN=") || GeneOf(ll) !in genes
    ensures p.TakeFails? <==> Contains(ll, "GN=") && GeneOf(ll) in genes && '|' !in ll
    ensures p.Take? ==> p.tag.0 in genes && p.tag == (GeneOf(ll), Field(ll, '|', 1).value)
  {
    if !Contains(ll, "GN=") then Fasta.Skip
    else if GeneOf(ll) !in genes then Fasta.Skip
    else
      match Field(ll, '|', 1)
      case None => Fasta.TakeFails
      case Some(id) => Fasta.Take((GeneOf(ll), id))
  }

  function GenePicker(genes: set<string>): string -> Fasta.Pick<(string, string)> {
    ll => GenePick(genes, ll)
  }

  // --------------------------------------------------------------- the rows

  /** `s[0:i]` in Python: a prefix of `s`, counted from the end for a negative `i`. */
  function PyPrefix(s: string, i: int): (r: string)
    ensures r <= s
    ensures i >= 0 ==> |r| == if i <= |s| then i else |s|
    ensures i < 0 ==> |r| == if |s| + i >= 0 then |s| + i else 0
  {
    if i >= 0 then (if i <= |s| then s[..i] else s)
    else if |s| + i >= 0 then s[..|s| + i]
    else ""
  }

  /** `[seq[0:i] for i in r2ext]` */
  function Prefixes(s: string, r2ext: seq<int>): (r: seq<string>)
    ensures |r| == |r2ext|
    ensures forall k :: 0 <= k < |r2ext| ==> r[k] == PyPrefix(s, r2ext[k])
  {
    if |r2ext| == 0 then [] else Prefixes(s, r2ext[..|r2ext| - 1]) + [PyPrefix(s, r2ext[|r2ext| - 1])]
  }

  /** The row of a picked protein: gene, protein, then one peptide per requested length. */
  function GeneRow(rec: ((string, string), string), r2ext: seq<int>): seq<string> {
    [rec.0.0, rec.0.1] + Prefixes(rec.1, r2ext)
  }

  function GeneRows(recs: seq<((string, string), string)>, r2ext: seq<int>): (r: seq<seq<string>>)
    ensures |r| == |recs|
    ensures forall k :: 0 <= k < |recs| ==> r[k] == GeneRow(recs[k], r2ext)
  {
    if |recs| == 0 then [] else GeneRows(recs[..|recs| - 1], r2ext) + [GeneRow(recs[|recs| - 1], r2ext)]
  }

  /**
   * The loop that closes a protein: `ltemp.append(lseq[0:i])` for every
   * requested length, after the gene and the protein.
   */
  method AppendPrefixes(ltemp: seq<string>, lseq: string, r2ext: seq<int>) returns (row: seq<string>)
    ensures row == ltemp + Prefixes(lseq, r2ext)
  {
    row := ltemp;
    var k := 0;
    while k < |r2ext|
      invariant 0 <= k <= |r2ext|
      invariant row == ltemp + Prefixes(lseq, r2ext[..k])
    {
      assert r2ext[..k + 1][..k] == r2ext[..k];
      row := row + [PyPrefix(lseq, r2ext[k])];
      k := k + 1;
    }
    assert r2ext[..k] == r2ext;
  }

  /**
   * For positive lengths (the only ones the residue check lets through) the
   * row holds the gene, the protein and, per length `i`, the first
   * `min(i, |seq|)` residues of the protein.
   */
  lemma RowShape(rec: ((string, string), string), r2ext: seq<int>)
    requires forall k :: 0 <= k < |r2ext| ==> r2ext[k] > 0
    ensures |GeneRow(rec, r2ext)| == |r2ext| + 2
    ensures GeneRow(rec, r2ext)[0] == rec.0.0 && GeneRow(rec, r2ext)[1] == rec.0.1
    ensures forall k :: 0 <= k < |r2ext| ==>
      var p := GeneRow(rec, r2ext)[k + 2];
      && |p| == (if r2ext[k] <= |rec.1| then r2ext[k] else |rec.1|)
      && p == rec.1[..|p|]
  {
    var row := GeneRow(rec, r2ext);
    forall k | 0 <= k < |r2ext|
      ensures var p := row[k + 2];
        && |p| == (if r2ext[k] <= |rec.1| then r2ext[k] else |rec.1|)
        && p == rec.1[..|p|]
    {
      assert row[k + 2] == PyPrefix(rec.1, r2ext[k]);
    }
  }

  // ------------------------------------------------------- the output file

  /** `'1-' + str(i)`: the column title of the peptides of length `i`. */
  function Column(i: int): string {
    "1-" + IntToStr(i)
  }

  /** The column titles of the requested lengths. */
  function Columns(r2ext: seq<int>): (r: seq<string>)
    ensures |r| == |r2ext|
    ensures forall k :: 0 <= k < |r2ext| ==> r[k] == Column(r2ext[k])
  {
    if |r2ext| == 0 then [] else Columns(r2ext[..|r2ext| - 1]) + [Column(r2ext[|r2ext| - 1])]
  }

  /**
   * The header as win_tab_gene writes it after `Gene\tProtein\t`, after
   * the first `n` lengths: each title is followed by a tab, and the last
   * one by a line break.
   */
  function HeaderAsWritten(r2ext: seq<int>, n: nat): string
    requires n <= |r2ext|
  {
    if n == 0 then "Gene\tProtein\t"
    else HeaderAsWritten(r2ext, n - 1) + Column(r2ext[n - 1]) + (if n < |r2ext| then "\t" else "\n")
  }

  /** The header as tab.py writes it: the titles joined by tabs, then a line break. */
  function HeaderLine(r2ext: seq<int>): string {
    "Gene\tProtein\t" + Join(Columns(r2ext), "\t") + "\n"
  }

  lemma ColumnPlain(i: int)
    ensures '\t' !in Column(i) && '\n' !in Column(i)
  {
    var d := NatToStr(if i < 0 then -i else i);
    assert forall j :: 0 <= j < |d| ==> IsDigit(d[j]);
  }

  /**
   * The header written by tab.py is one line: it ends with its only line
   * break, and its fields are `Gene`, `Protein` and the column titles.
   */
  lemma {:induction false} HeaderLineSpec(r2ext: seq<int>)
    requires |r2ext| > 0
    ensures var h := HeaderLine(r2ext);
      && h[|h| - 1] == '\n' && '\n' !in h[..|h| - 1]
      && Split(h[..|h| - 1], '\t') == ["Gene", "Protein"] + Columns(r2ext)
  {
    var cols := Columns(r2ext);
    var jc := Join(cols, "\t");
    var h := HeaderLine(r2ext);
    var fields := ["Gene", "Protein"] + cols;
    PairCons("Gene", "Protein", cols);
    assert Join(fields[1..], "\t") == "Protein" + "\t" + jc;
    assert Join(fields, "\t") == "Gene" + "\t" + Join(fields[1..], "\t");
    assert "Gene" + "\t" + "Protein" + "\t" == "Gene\tProtein\t";
    Regroup("Gene", "\t", "Protein", "\t", jc);
    assert h == Join(fields, "\t") + "\n";
    assert h[..|h| - 1] == Join(fields, "\t");
    forall k | 0 <= k < |fields| ensures '\t' !in fields[k] && '\n' !in fields[k] {
      if k >= 2 {
        assert fields[k] == cols[k - 2];
        ColumnPlain(r2ext[k - 2]);
      }
    }
    SplitJoin(fields, '\t');
    DataMethods.JoinAvoids(fields, "\t", '\n');
  }

  /** After some of the lengths, the written header is the joined titles so far and a tab or the line break. */
  lemma {:induction false} HeaderSoFar(r2ext: seq<int>, n: nat)
    requires 0 < n <= |r2ext|
    ensures HeaderAsWritten(r2ext, n) ==
      "Gene\tProtein\t" + Join(Columns(r2ext[..n]), "\t") + (if n < |r2ext| then "\t" else "\n")
  {
    var tail: string := if n < |r2ext| then "\t" else "\n";
    var col := Column(r2ext[n - 1]);
    var prev := Columns(r2ext[..n - 1]);
    assert r2ext[..n][..n - 1] == r2ext[..n - 1];
    assert Columns(r2ext[..n]) == prev + [col];
    DataMethods.JoinSnoc(prev, col, "\t");
    if n == 1 {
      assert prev == [];
      assert Join(Columns(r2ext[..n]), "\t") == col;
    } else {
      HeaderSoFar(r2ext, n - 1);
      var g := "Gene\tProtein\t";
      var jp := Join(prev, "\t");
      assert HeaderAsWritten(r2ext, n - 1) == g + jp + "\t";
      assert Join(Columns(r2ext[..n]), "\t") == jp + "\t" + col;
      Regroup(g, jp, "\t", col, tail);
    }
  }

  lemma PairCons<T>(a: T, b: T, s: seq<T>)
    ensures ([a, b] + s)[1..] == [b] + s
  {
  }

  lemma Regroup(a: string, b: string, c: string, d: string, e: string)
    ensures (a + b + c) + d + e == a + (b + c + d) + e
    ensures a + b + (c + d + e) == a + b + c + d + e
  {
  }

  /** With at least one length the two versions of the header agree. */
  lemma HeaderVersionsAgree(r2ext: seq<int>)
    requires |r2ext| > 0
    ensures HeaderAsWritten(r2ext, |r2ext|) == HeaderLine(r2ext)
  {
    HeaderSoFar(r2ext, |r2ext|);
    assert r2ext[..|r2ext|] == r2ext;
  }

  /**
   * The residue field ` ` (one space) passes win_tab_gene's residue check
   * as an empty list of lengths; the header then ends in a tab with no line
   * break, so the first protein row is written on the header's line, where
   * tab.py still ends the header line.
   */
  lemma BlankResidueHeader()
    ensures " " !in Config.NaVals
    ensures Checks.ListNumber(" ", "gt", 0, false, false, true, false, false) == Some(Checks.Numbers([]))
    ensures '\n' !in HeaderAsWritten([], 0)
    ensures HeaderLine([]) == "Gene\tProtein\t\n"
  {
    assert Strip(" ") == "";
    assert Split("", ' ') == [""];
    assert Checks.Expand([""], "gt", 0, false) == Some([]) by {
      var toks: seq<string> := [""];
      assert toks[..|toks| - 1] == [];
      assert Checks.Expand([], "gt", 0, false) == Some([]);
      assert Checks.TokenNumbers(toks[|toks| - 1], "gt", 0, false) == Some([]);
      var none: seq<int> := [];
      assert none + none == none;
    }
    assert Checks.NoRepeats<int>([]) by {
      assert Checks.ToSet<int>([]) == {};
    }
  }

  // ------------------------------------------------------------- the sort

  /** `itemgetter(0, 1)` on a row: its gene and its protein. */
  function SortKey(row: seq<string>): (string, string) {
    if |row| >= 2 then (row[0], row[1]) else ("", "")
  }

  /** `sort(key=itemgetter(0, 1))`: by gene, then by protein. */
  predicate GeneRowLe(a: seq<string>, b: seq<string>) {
    var (a0, a1) := SortKey(a);
    var (b0, b1) := SortKey(b);
    (a0 != b0 && StrLe(a0, b0)) || (a0 == b0 && StrLe(a1, b1))
  }

  lemma GeneRowLeTotalPreorder()
    ensures Sorting.TotalPreorder(GeneRowLe)
  {
    forall a: seq<string>, b: seq<string> ensures GeneRowLe(a, b) || GeneRowLe(b, a) {
      StrLeTotal(SortKey(a).0, SortKey(b).0);
      StrLeTotal(SortKey(a).1, SortKey(b).1);
    }
    forall a: seq<string>, b: seq<string>, c: seq<string> | GeneRowLe(a, b) && GeneRowLe(b, c)
      ensures GeneRowLe(a, c)
    {
      var (a0, a1) := SortKey(a);
      var (b0, b1) := SortKey(b);
      var (c0, c1) := SortKey(c);
      if a0 == b0 == c0 {
        StrLeTransitive(a1, b1, c1);
      } else if a0 == b0 {
      } else if b0 == c0 {
      } else {
        StrLeTransitive(a0, b0, c0);
        if a0 == c0 {
          StrLeAntisymmetric(a0, b0);
        }
      }
    }
  }

  /** The written rows are ordered by gene, then protein, and are exactly the extracted rows. */
  lemma SortedRows(rows: seq<seq<string>>)
    ensures Sorting.SortedBy(Sorting.SortBy(rows, GeneRowLe), GeneRowLe)
    ensures multiset(Sorting.SortBy(rows, GeneRowLe)) == multiset(rows)
  {
    GeneRowLeTotalPreorder();
    Sorting.SortBySpec(rows, GeneRowLe);
  }
}

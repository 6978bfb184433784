/**
 * The two gene tabs. Each reads a list of gene names and a multi-FASTA
 * file, picks every protein whose header names a listed gene (`GN=`), and
 * writes one row per picked protein: the gene, the protein identifier and
 * the N-terminal peptides of the requested lengths. `GeneFromFasta` is the
 * tab of win_tab_gene.py, which reads the gene file in its own run;
 * `GeneTab` is the tab of tab.py, which reads it while checking the input
 * and runs in the three steps PrepareRun, RunAnalysis and WriteOutput.
 */
module GeneTabs {
  import opened Wrappers
  import opened Text
  import Fasta
  import Sorting
  import DataMethods
  import Checks
  import opened Genes
  import opened PyList

  /** The rows of the proteins handed over, after the rows there were before. */
  lemma GeneRowsSnoc(recs: seq<((string, string), string)>, x: ((string, string), string), r2ext: seq<int>)
    ensures GeneRows(recs + [x], r2ext) == GeneRows(recs, r2ext) + [GeneRow(x, r2ext)]
  {
    assert (recs + [x])[..|recs|] == recs;
  }

  // ------------------------------------------------------- win_tab_gene.py

  /** The tab of win_tab_gene.py: its checked lengths, its counters and its rows. */
  class GeneFromFasta {
    const r2ext: seq<int>
    var ltotal: nat
    var lempty: nat
    var prottotal: nat
    var protsselT: nat
    var dataO: seq<seq<string>>

    /** A tab holding the checked lengths, before any run. */
    constructor (r2ext: seq<int>)
      ensures this.r2ext == r2ext
      ensures dataO == [] && ltotal == 0 && lempty == 0 && prottotal == 0 && protsselT == 0
    {
      this.r2ext := r2ext;
      dataO := [];
      ltotal, lempty, prottotal, protsselT := 0, 0, 0, 0;
    }

    /**
     * The fields and the loop's locals agree with the line machine `st`:
     * the counters, the protein being collected and one row per protein
     * handed over.
     */
    ghost predicate Mirrors(st: Fasta.Scan<(string, string)>, searchP: bool, tag: (string, string), lseq: seq<string>)
      reads this
    {
      && !st.raised
      && ltotal == st.ltotal && lempty == st.lempty
      && prottotal == st.prottotal && protsselT == st.protsselT
      && (searchP <==> st.current.Some?)
      && (searchP ==> st.current.value == Fasta.Open(tag, lseq))
      && dataO == GeneRows(st.closed, r2ext)
    }

    /** One normalised line of the FASTA loop in DataProcessing. */
    method Line(ll: string, genes: set<string>, searchP: bool, tag: (string, string), lseq: seq<string>,
                ghost st: Fasta.Scan<(string, string)>)
      returns (raised: bool, searchP': bool, tag': (string, string), lseq': seq<string>)
      requires Mirrors(st, searchP, tag, lseq)
      modifies this`dataO, this`ltotal, this`lempty, this`prottotal, this`protsselT
      ensures var st' := Fasta.Step(st, ll, GenePicker(genes));
        && raised == st'.raised
        && (!raised ==> Mirrors(st', searchP', tag', lseq'))
    {
      if ll != "" && ll[0] == '>' {
        raised, searchP', tag', lseq' := Header(ll, genes, searchP, tag, lseq, st);
      } else {
        searchP', tag', lseq' := searchP, tag, lseq;
        raised := false;
        ltotal := ltotal + 1;
        if ll == "" {
          lempty := lempty + 1;
        } else if searchP {
          lseq' := lseq + [ll];
        }
        Fasta.StepLine(st, ll, GenePicker(genes));
      }
    }

    /** A header line of the FASTA loop. */
    method Header(ll: string, genes: set<string>, searchP: bool, tag: (string, string), lseq: seq<string>,
                  ghost st: Fasta.Scan<(string, string)>)
      returns (raised: bool, searchP': bool, tag': (string, string), lseq': seq<string>)
      requires Mirrors(st, searchP, tag, lseq) && Fasta.IsHeader(ll)
      modifies this`dataO, this`ltotal, this`prottotal, this`protsselT
      ensures var st' := Fasta.Step(st, ll, GenePicker(genes));
        && raised == st'.raised
        && (!raised ==> Mirrors(st', searchP', tag', lseq'))
    {
      ghost var c := Fasta.Counted(st);
      CloseRecord(searchP, tag, lseq, st);
      raised, searchP', tag', lseq' := PickHeader(ll, genes, c);
      Fasta.StepHeader(st, ll, GenePicker(genes));
    }

    /** At a header: the line and the protein are counted and the protein being collected is handed over. */
    method CloseRecord(searchP: bool, tag: (string, string), lseq: seq<string>, ghost st: Fasta.Scan<(string, string)>)
      requires Mirrors(st, searchP, tag, lseq)
      modifies this`dataO, this`ltotal, this`prottotal
      ensures Mirrors(Fasta.Counted(st), false, tag, lseq)
    {
      ltotal := ltotal + 1;
      prottotal := prottotal + 1;
      if searchP {
        var row := AppendPrefixes([tag.0, tag.1], Join(lseq, ""), r2ext);
        GeneRowsSnoc(st.closed, (tag, Join(lseq, "")), r2ext);
        dataO := dataO + [row];
      }
    }

    /** At a header: whether its gene is listed, and its identifier (IndexError without a `|`). */
    method PickHeader(ll: string, genes: set<string>, ghost c: Fasta.Scan<(string, string)>)
      returns (raised: bool, searchP': bool, tag': (string, string), lseq': seq<string>)
      requires Mirrors(c, false, ("", ""), [])
      modifies this`protsselT
      ensures var c' := Fasta.AfterPick(c, GenePick(genes, ll));
        && raised == c'.raised
        && (!raised ==> Mirrors(c', searchP', tag', lseq'))
    {
      raised, searchP', tag', lseq' := false, false, ("", ""), [];
      if Contains(ll, "GN=") {
        var genInll := GeneOf(ll);
        if genInll in genes {
          searchP' := true;
          protsselT := protsselT + 1;
          var f := Field(ll, '|', 1);
          if f.None? {
            return true, searchP', tag', lseq';
          }
          tag', lseq' := (genInll, f.value), [];
        }
      }
    }

    /** The counters and the rows cleared before the loop: the state of the machine before any line. */
    method Reset()
      modifies this`dataO, this`ltotal, this`lempty, this`prottotal, this`protsselT
      ensures Mirrors(Fasta.Init(), false, ("", ""), [])
    {
      ltotal, lempty, prottotal, protsselT := 0, 0, 0, 0;
      dataO := [];
    }

    /** Line `i` of the file, normalised and run through the line machine. */
    method LineAt(lines: seq<string>, i: nat, genes: set<string>, searchP: bool, tag: (string, string),
                  lseq: seq<string>, ghost lls: seq<string>)
      returns (raised: bool, searchP': bool, tag': (string, string), lseq': seq<string>)
      requires lls == Fasta.NormAll(lines, Fasta.NormLine) && i < |lines|
      requires Mirrors(Fasta.Run(lls[..i], GenePicker(genes)), searchP, tag, lseq)
      modifies this`dataO, this`ltotal, this`lempty, this`prottotal, this`protsselT
      ensures var st' := Fasta.Run(lls[..i + 1], GenePicker(genes));
        && raised == st'.raised
        && (!raised ==> Mirrors(st', searchP', tag', lseq'))
    {
      var ll := Fasta.NormLine(lines[i]);
      Fasta.NormAllAt(lines, Fasta.NormLine, i);
      Fasta.RunSnoc(lls, i, GenePicker(genes));
      raised, searchP', tag', lseq' := Line(ll, genes, searchP, tag, lseq, Fasta.Run(lls[..i], GenePicker(genes)));
    }

    /** The FASTA loop over the lines of the file, stopping where Python raises. */
    method ReadLines(genes: set<string>, lines: seq<string>, ghost lls: seq<string>)
      returns (raised: bool, searchP: bool, tag: (string, string), lseq: seq<string>)
      requires lls == Fasta.NormAll(lines, Fasta.NormLine)
      modifies this`dataO, this`ltotal, this`lempty, this`prottotal, this`protsselT
      ensures raised == Fasta.Run(lls, GenePicker(genes)).raised
      ensures !raised ==> Mirrors(Fasta.Run(lls, GenePicker(genes)), searchP, tag, lseq)
    {
      ghost var pick := GenePicker(genes);
      Reset();
      searchP, tag, lseq := false, ("", ""), [];
      var i := 0;
      ghost var st: Fasta.Scan<(string, string)> := Fasta.Init();
      assert lls[..0] == [];
      while i < |lines|
        invariant 0 <= i <= |lines|
        invariant st == Fasta.Run(lls[..i], pick)
        invariant Mirrors(st, searchP, tag, lseq)
      {
        raised, searchP, tag, lseq := LineAt(lines, i, genes, searchP, tag, lseq, lls);
        st := Fasta.Run(lls[..i + 1], pick);
        if raised {
          Fasta.RunMono(lls, i + 1, pick);
          return;
        }
        i := i + 1;
      }
      assert lls[..i] == lls;
      raised := false;
    }

    /** The last protein, handed over after the loop. */
    method Flush(searchP: bool, tag: (string, string), lseq: seq<string>, ghost st: Fasta.Scan<(string, string)>)
      requires Mirrors(st, searchP, tag, lseq)
      modifies this`dataO
      ensures dataO == GeneRows(Fasta.Finish(st).closed, r2ext)
    {
      if searchP {
        var row := AppendPrefixes([tag.0, tag.1], Join(lseq, ""), r2ext);
        GeneRowsSnoc(st.closed, (tag, Join(lseq, "")), r2ext);
        dataO := dataO + [row];
      }
    }

    /**
     * `DataProcessing()` over the lines of the gene file and of the FASTA
     * file: False when the gene file names no gene (nothing else is
     * touched); otherwise the FASTA scan, which raises exactly where a
     * picked header has no `|` field, and else returns True with the counters
     * of the line machine and one row per picked protein.
     */
    method DataProcessing(geneLines: seq<string>, lines: seq<string>) returns (status: Status)
      modifies this`dataO, this`ltotal, this`lempty, this`prottotal, this`protsselT
      ensures GeneSet(Fasta.NormAll(geneLines, Fasta.NormLine)) == {} ==>
        status == Returned(false) && unchanged(this)
      ensures GeneSet(Fasta.NormAll(geneLines, Fasta.NormLine)) != {} ==>
        var st := Fasta.Run(Fasta.NormAll(lines, Fasta.NormLine),
                            GenePicker(GeneSet(Fasta.NormAll(geneLines, Fasta.NormLine))));
        && (status == Raised <==> st.raised)
        && (status != Raised ==>
              && status == Returned(true)
              && ltotal == st.ltotal && lempty == st.lempty
              && prottotal == st.prottotal && protsselT == st.protsselT
              && dataO == GeneRows(Fasta.Finish(st).closed, r2ext))
    {
      var genes := ReadGeneFile(geneLines);
      if |genes| == 0 {
        return Returned(false);
      }
      status := ScanFasta(genes, lines);
    }

    /** The FASTA part of DataProcessing, for the genes read from the gene file. */
    method ScanFasta(genes: set<string>, lines: seq<string>) returns (status: Status)
      modifies this`dataO, this`ltotal, this`lempty, this`prottotal, this`protsselT
      ensures var st := Fasta.Run(Fasta.NormAll(lines, Fasta.NormLine), GenePicker(genes));
        && (status == Raised <==> st.raised)
        && (status != Raised ==>
              && status == Returned(true)
              && ltotal == st.ltotal && lempty == st.lempty
              && prottotal == st.prottotal && protsselT == st.protsselT
              && dataO == GeneRows(Fasta.Finish(st).closed, r2ext))
    {
      ghost var lls := Fasta.NormAll(lines, Fasta.NormLine);
      var raised, searchP, tag, lseq := ReadLines(genes, lines, lls);
      if raised {
        return Raised;
      }
      Flush(searchP, tag, lseq, Fasta.Run(lls, GenePicker(genes)));
      return Returned(true);
    }

    /**
     * `WriteOutput()` appending to the text already in the output file:
     * False when no protein was picked; Raised when the helper dict lacks a
     * key of `d` (KeyError in FFsWriteDict, after the lines before it);
     * otherwise the input dict, the header, the rows sorted by gene and
     * protein and the last line, and True.
     */
    method WriteOutput(written: string, d: seq<(string, string)>, helper: Option<seq<(string, string)>>)
      returns (status: Status, out: string)
      modifies this`dataO
      ensures protsselT == 0 ==> status == Returned(false) && out == written && dataO == old(dataO)
      ensures protsselT != 0 && !DataMethods.DictWrite(d, helper).1 ==>
        status == Raised && out == written + "Input data:\n" + DataMethods.DictWrite(d, helper).0 &&
        dataO == old(dataO)
      ensures protsselT != 0 && DataMethods.DictWrite(d, helper).1 ==>
        && status == Returned(true)
        && dataO == Sorting.SortBy(old(dataO), GeneRowLe)
        && out == written + "Input data:\n" + DataMethods.DictWrite(d, helper).0 + "\n" +
                  "Output data:\n" + HeaderAsWritten(r2ext, |r2ext|) +
                  DataMethods.ListText(dataO) + "\n\n" + DataMethods.LastLine()
    {
      if protsselT == 0 {
        return Returned(false), written;
      }
      var ok;
      ok, out := DataMethods.FFsWriteDict(written + "Input data:\n", d, helper);
      if !ok {
        return Raised, out;
      }
      out := out + "\n";
      out := out + "Output data:\n";
      out := WriteHeader(out, r2ext);
      dataO := Sorting.SortBy(dataO, GeneRowLe);
      ok, out := DataMethods.FFsWriteList(out, dataO);
      out := out + "\n\n";
      out := out + DataMethods.LastLine();
      status := Returned(true);
    }
  }

  /**
   * The header loop of win_tab_gene.py's WriteOutput: the two fixed titles,
   * then every length's title followed by a tab, the last by a line break.
   */
  method WriteHeader(out: string, r2ext: seq<int>) returns (out': string)
    ensures out' == out + HeaderAsWritten(r2ext, |r2ext|)
  {
    out' := out + "Gene\tProtein\t";
    var k := 0;
    while k < |r2ext|
      invariant 0 <= k <= |r2ext|
      invariant out' == out + HeaderAsWritten(r2ext, k)
    {
      var title := Column(r2ext[k]);
      var sep := if k + 1 < |r2ext| then "\t" else "\n";
      HeaderStep(out, out', r2ext, k);
      out' := out' + title + sep;
      k := k + 1;
    }
  }

  /** One more line of the gene file in CheckInput. */
  lemma GeneListStep(lines: seq<string>, i: nat)
    requires i < |lines|
    ensures GeneList(lines[..i + 1]) == GeneList(lines[..i]) + LineEntries(Squeeze(lines[i]))
  {
    assert lines[..i + 1][..i] == lines[..i];
  }


  /** One more title of the header loop. */
  lemma HeaderStep(out: string, acc: string, r2ext: seq<int>, k: nat)
    requires k < |r2ext| && acc == out + HeaderAsWritten(r2ext, k)
    ensures acc + Column(r2ext[k]) + (if k + 1 < |r2ext| then "\t" else "\n") ==
      out + HeaderAsWritten(r2ext, k + 1)
  {
    var sep := if k + 1 < |r2ext| then "\t" else "\n";
    Append3(out, HeaderAsWritten(r2ext, k), Column(r2ext[k]), sep);
  }

  lemma Append3(a: string, b: string, c: string, d: string)
    ensures (a + b) + c + d == a + (b + c + d)
  {
  }

  /**
   * Read as records: without an exception the rows are those of the FASTA
   * records whose header names a listed gene, in file order, one per picked
   * protein; the scan raises exactly when such a header has no `|` field.
   */
  lemma GeneFromFastaRecords(r2ext: seq<int>, geneLines: seq<string>, lines: seq<string>)
    ensures var lls := Fasta.NormAll(lines, Fasta.NormLine);
      var pick := GenePicker(GeneSet(Fasta.NormAll(geneLines, Fasta.NormLine)));
      var st := Fasta.Run(lls, pick);
      && (st.raised <==> Fasta.Selected(Fasta.Records(lls), pick).1)
      && (!st.raised ==>
            && GeneRows(Fasta.Finish(st).closed, r2ext) == GeneRows(Fasta.Selected(Fasta.Records(lls), pick).0, r2ext)
            && |GeneRows(Fasta.Finish(st).closed, r2ext)| == st.protsselT <= st.prottotal)
  {
    var lls := Fasta.NormAll(lines, Fasta.NormLine);
    var pick := GenePicker(GeneSet(Fasta.NormAll(geneLines, Fasta.NormLine)));
    Fasta.RunRecords(lls, pick);
    Fasta.FinishCount(lls, pick);
    Fasta.RunSelectedLeTotal(lls, pick);
  }

  /**
   * After a run that returned True, WriteOutput refuses exactly when no
   * row was extracted, that is, when no header of the file names a listed
   * gene.
   */
  lemma NothingToWrite(genes: set<string>, lls: seq<string>)
    requires !Fasta.Run(lls, GenePicker(genes)).raised
    ensures Fasta.Run(lls, GenePicker(genes)).protsselT == 0 <==>
      Fasta.Finish(Fasta.Run(lls, GenePicker(genes))).closed == []
  {
    Fasta.FinishCount(lls, GenePicker(genes));
  }

  // ---------------------------------------------------------------- tab.py

  /** `list(map(int, tokens))`: the integers of the tokens, None where `int()` raises ValueError. */
  function ParseAll(toks: seq<string>): Option<seq<int>> {
    MapAll(toks, ParseInt)
  }

  /** The stripped-down form of a list of lengths: its words joined by single spaces. */
  lemma {:induction false} WordPrefix(w: string, rest: string)
    requires IsWord(w) && (rest == "" || IsSpace(rest[0]))
    ensures Word(w + rest) == w
    decreases |w|
  {
    assert (w + rest)[0] == w[0];
    if |w| == 1 {
      assert (w + rest)[1..] == rest;
    } else {
      assert (w + rest)[1..] == w[1..] + rest;
      WordPrefix(w[1..], rest);
    }
  }

  /** Splitting words joined by single spaces gives the words back. */
  lemma {:induction false} WsSplitJoin(ws: seq<string>)
    requires forall k :: 0 <= k < |ws| ==> IsWord(ws[k])
    ensures WsSplit(Join(ws, " ")) == ws
  {
    if |ws| == 1 {
      WordPrefix(ws[0], "");
      assert ws[0] + "" == ws[0];
      assert ws[0][|ws[0]|..] == "";
    } else if |ws| > 1 {
      var rest := Join(ws[1..], " ");
      var s := ws[0] + (" " + rest);
      assert Join(ws, " ") == s;
      WordPrefix(ws[0], " " + rest);
      assert s[|ws[0]|..] == " " + rest;
      assert (" " + rest)[1..] == rest;
      WsSplitJoin(ws[1..]);
    }
  }

  /**
   * The lengths as recorded for the output (`" ".join(text.split())`) read
   * back as the same lengths.
   */
  lemma ResExtRoundTrip(text: string)
    ensures ParseAll(WsSplit(Join(WsSplit(text), " "))) == ParseAll(WsSplit(text))
  {
    WsSplitJoin(WsSplit(text));
  }

  /** The tab of tab.py: its gene list, its lengths, its counters and its rows. */
  class GeneTab {
    var geneList: seq<string>
    var resExt: seq<int>
    var resExtStr: string
    var ltotal: nat
    var lempty: nat
    var prottotal: nat
    var protsselT: nat
    var dataO: seq<seq<string>>

    constructor ()
      ensures geneList == [] && resExt == [] && resExtStr == "" && dataO == []
      ensures ltotal == 0 && lempty == 0 && prottotal == 0 && protsselT == 0
    {
      geneList, resExt, resExtStr, dataO := [], [], "", [];
      ltotal, lempty, prottotal, protsselT := 0, 0, 0, 0;
    }

    /**
     * The gene-file part of `CheckInput()`: every line without whitespace
     * and double quotes, empty ones passed over, each added to the list
     * followed by its `;`-separated parts; False when the list stays empty.
     */
    method CheckInput(geneLines: seq<string>) returns (ok: bool)
      modifies this`geneList
      ensures geneList == GeneList(geneLines)
      ensures ok <==> !NoGenes(geneLines)
    {
      geneList := [];
      var i := 0;
      while i < |geneLines|
        invariant 0 <= i <= |geneLines|
        invariant geneList == GeneList(geneLines[..i])
      {
        GeneListStep(geneLines, i);
        AddLine(Squeeze(geneLines[i]));
        i := i + 1;
      }
      assert geneLines[..i] == geneLines;
      GeneListEmpty(geneLines);
      ok := |geneList| > 0;
    }

    /** The loop body of the gene file: a non-empty squeezed line, then its `;`-separated parts. */
    method AddLine(g: string)
      modifies this`geneList
      ensures geneList == old(geneList) + LineEntries(g)
    {
      ghost var before := geneList;
      if g != "" {
        geneList := geneList + [g];
        if ';' in g {
          geneList := AppendAll(geneList, Split(g, ';'));
          Assoc(before, [g], Split(g, ';'));
        }
      }
    }

    /**
     * `PrepareRun()` with the text of the residue field: the lengths are the
     * integers of its words (ValueError when one is not an integer), the
     * recorded text is its words joined by single spaces, and the counters
     * and rows start empty.
     */
    method PrepareRun(residueText: string) returns (status: Status)
      modifies this`resExt, this`resExtStr, this`ltotal, this`lempty, this`prottotal, this`protsselT, this`dataO
      ensures status == Raised <==> ParseAll(WsSplit(residueText)).None?
      ensures status != Raised ==>
        && status == Returned(true)
        && resExt == ParseAll(WsSplit(residueText)).value
        && resExtStr == Join(WsSplit(residueText), " ")
        && ltotal == 0 && lempty == 0 && prottotal == 0 && protsselT == 0 && dataO == []
    {
      var r: Option<seq<int>> := MapList(WsSplit(residueText), ParseInt);
      if r.None? {
        return Raised;
      }
      resExt := r.value;
      resExtStr := Join(WsSplit(residueText), " ");
      ltotal, lempty, prottotal, protsselT := 0, 0, 0, 0;
      dataO := [];
      return Returned(true);
    }

    /**
     * The fields and the loop's locals agree with the line machine `st`
     * run after the counters and rows `base` the run started from.
     */
    ghost predicate Mirrors(base: Fasta.Scan<(string, string)>, prior: seq<seq<string>>,
                            st: Fasta.Scan<(string, string)>, searchP: bool, tag: (string, string), lseq: seq<string>)
      reads this
    {
      && !st.raised
      && ltotal == base.ltotal + st.ltotal && lempty == base.lempty + st.lempty
      && prottotal == base.prottotal + st.prottotal && protsselT == base.protsselT + st.protsselT
      && (searchP <==> st.current.Some?)
      && (searchP ==> st.current.value == Fasta.Open(tag, lseq))
      && dataO == prior + GeneRows(st.closed, resExt)
    }

    /** One normalised line of the loop in RunAnalysis. */
    method Line(ll: string, searchP: bool, tag: (string, string), lseq: seq<string>,
                ghost base: Fasta.Scan<(string, string)>, ghost prior: seq<seq<string>>,
                ghost st: Fasta.Scan<(string, string)>)
      returns (raised: bool, searchP': bool, tag': (string, string), lseq': seq<string>)
      requires Mirrors(base, prior, st, searchP, tag, lseq)
      modifies this`dataO, this`ltotal, this`lempty, this`prottotal, this`protsselT
      ensures var st' := Fasta.Step(st, ll, GenePicker(Checks.ToSet(geneList)));
        && raised == st'.raised
        && (!raised ==> Mirrors(base, prior, st', searchP', tag', lseq'))
    {
      if ll != "" && ll[0] == '>' {
        raised, searchP', tag', lseq' := Header(ll, searchP, tag, lseq, base, prior, st);
      } else {
        searchP', tag', lseq' := searchP, tag, lseq;
        raised := false;
        ltotal := ltotal + 1;
        if ll == "" {
          lempty := lempty + 1;
        } else if searchP {
          lseq' := lseq + [ll];
        }
        Fasta.StepLine(st, ll, GenePicker(Checks.ToSet(geneList)));
      }
    }

    /** A header line of the loop in RunAnalysis. */
    method Header(ll: string, searchP: bool, tag: (string, string), lseq: seq<string>,
                  ghost base: Fasta.Scan<(string, string)>, ghost prior: seq<seq<string>>,
                  ghost st: Fasta.Scan<(string, string)>)
      returns (raised: bool, searchP': bool, tag': (string, string), lseq': seq<string>)
      requires Mirrors(base, prior, st, searchP, tag, lseq) && Fasta.IsHeader(ll)
      modifies this`dataO, this`ltotal, this`prottotal, this`protsselT
      ensures var st' := Fasta.Step(st, ll, GenePicker(Checks.ToSet(geneList)));
        && raised == st'.raised
        && (!raised ==> Mirrors(base, prior, st', searchP', tag', lseq'))
    {
      ghost var c := Fasta.Counted(st);
      CloseRecord(searchP, tag, lseq, base, prior, st);
      raised, searchP', tag', lseq' := PickHeader(ll, base, prior, c);
      Fasta.StepHeader(st, ll, GenePicker(Checks.ToSet(geneList)));
    }

    /** At a header: the line and the protein are counted and the protein being collected is handed over. */
    method CloseRecord(searchP: bool, tag: (string, string), lseq: seq<string>,
                       ghost base: Fasta.Scan<(string, string)>, ghost prior: seq<seq<string>>,
                       ghost st: Fasta.Scan<(string, string)>)
      requires Mirrors(base, prior, st, searchP, tag, lseq)
      modifies this`dataO, this`ltotal, this`prottotal
      ensures Mirrors(base, prior, Fasta.Counted(st), false, tag, lseq)
    {
      ltotal := ltotal + 1;
      prottotal := prottotal + 1;
      if searchP {
        var row := AppendPrefixes([tag.0, tag.1], Join(lseq, ""), resExt);
        GeneRowsSnoc(st.closed, (tag, Join(lseq, "")), resExt);
        dataO := dataO + [row];
      }
    }

    /** At a header: whether its gene is in the list, and its identifier (IndexError without a `|`). */
    method PickHeader(ll: string, ghost base: Fasta.Scan<(string, string)>, ghost prior: seq<seq<string>>,
                      ghost c: Fasta.Scan<(string, string)>)
      returns (raised: bool, searchP': bool, tag': (string, string), lseq': seq<string>)
      requires Mirrors(base, prior, c, false, ("", ""), [])
      modifies this`protsselT
      ensures var c' := Fasta.AfterPick(c, GenePick(Checks.ToSet(geneList), ll));
        && raised == c'.raised
        && (!raised ==> Mirrors(base, prior, c', searchP', tag', lseq'))
    {
      raised, searchP', tag', lseq' := false, false, ("", ""), [];
      if Contains(ll, "GN=") {
        var tGene := GeneOf(ll);
        if tGene in geneList {
          searchP' := true;
          protsselT := protsselT + 1;
          var f := Field(ll, '|', 1);
          if f.None? {
            return true, searchP', tag', lseq';
          }
          tag', lseq' := (tGene, f.value), [];
        }
      }
    }

    /** Line `i` of the file, normalised and run through the line machine. */
    method LineAt(lines: seq<string>, i: nat, norm: string -> string, searchP: bool, tag: (string, string),
                  lseq: seq<string>, ghost lls: seq<string>,
                  ghost base: Fasta.Scan<(string, string)>, ghost prior: seq<seq<string>>)
      returns (raised: bool, searchP': bool, tag': (string, string), lseq': seq<string>)
      requires lls == Fasta.NormAll(lines, norm) && i < |lines|
      requires Mirrors(base, prior, Fasta.Run(lls[..i], GenePicker(Checks.ToSet(geneList))), searchP, tag, lseq)
      modifies this`dataO, this`ltotal, this`lempty, this`prottotal, this`protsselT
      ensures var st' := Fasta.Run(lls[..i + 1], GenePicker(Checks.ToSet(geneList)));
        && raised == st'.raised
        && (!raised ==> Mirrors(base, prior, st', searchP', tag', lseq'))
    {
      var ll := norm(lines[i]);
      Fasta.NormAllAt(lines, norm, i);
      Fasta.RunSnoc(lls, i, GenePicker(Checks.ToSet(geneList)));
      raised, searchP', tag', lseq' := Line(ll, searchP, tag, lseq, base, prior,
                                            Fasta.Run(lls[..i], GenePicker(Checks.ToSet(geneList))));
    }

    /** The loop of RunAnalysis over the lines of the file, stopping where Python raises. */
    method RunLines(lines: seq<string>, norm: string -> string, ghost lls: seq<string>,
                    ghost base: Fasta.Scan<(string, string)>, ghost prior: seq<seq<string>>)
      returns (raised: bool, searchP: bool, tag: (string, string), lseq: seq<string>)
      requires lls == Fasta.NormAll(lines, norm)
      requires Mirrors(base, prior, Fasta.Init(), false, ("", ""), [])
      modifies this`dataO, this`ltotal, this`lempty, this`prottotal, this`protsselT
      ensures raised == Fasta.Run(lls, GenePicker(Checks.ToSet(geneList))).raised
      ensures !raised ==> Mirrors(base, prior, Fasta.Run(lls, GenePicker(Checks.ToSet(geneList))), searchP, tag, lseq)
    {
      ghost var pick := GenePicker(Checks.ToSet(geneList));
      searchP, tag, lseq := false, ("", ""), [];
      var i := 0;
      ghost var st: Fasta.Scan<(string, string)> := Fasta.Init();
      assert lls[..0] == [];
      while i < |lines|
        invariant 0 <= i <= |lines|
        invariant st == Fasta.Run(lls[..i], pick)
        invariant Mirrors(base, prior, st, searchP, tag, lseq)
      {
        raised, searchP, tag, lseq := LineAt(lines, i, norm, searchP, tag, lseq, lls, base, prior);
        st := Fasta.Run(lls[..i + 1], pick);
        if raised {
          Fasta.RunMono(lls, i + 1, pick);
          return;
        }
        i := i + 1;
      }
      assert lls[..i] == lls;
      raised := false;
    }

    /** The last protein, handed over after the loop. */
    method Flush(searchP: bool, tag: (string, string), lseq: seq<string>,
                 ghost base: Fasta.Scan<(string, string)>, ghost prior: seq<seq<string>>,
                 ghost st: Fasta.Scan<(string, string)>)
      requires Mirrors(base, prior, st, searchP, tag, lseq)
      modifies this`dataO
      ensures dataO == prior + GeneRows(Fasta.Finish(st).closed, resExt)
    {
      if searchP {
        var row := AppendPrefixes([tag.0, tag.1], Join(lseq, ""), resExt);
        GeneRowsSnoc(st.closed, (tag, Join(lseq, "")), resExt);
        dataO := dataO + [row];
      }
    }

    /**
     * `RunAnalysis()` over the lines of the FASTA file, each normalised by
     * `norm` (`Str2List(line, strip='b')[0]`): it raises exactly where a
     * picked header has no `|` field; otherwise the counters grow by those
     * of the line machine, one row per picked protein is appended, and it
     * returns True.
     */
    method RunAnalysis(lines: seq<string>, norm: string -> string) returns (status: Status)
      modifies this`dataO, this`ltotal, this`lempty, this`prottotal, this`protsselT
      ensures var st := Fasta.Run(Fasta.NormAll(lines, norm), GenePicker(Checks.ToSet(geneList)));
        && (status == Raised <==> st.raised)
        && (status != Raised ==>
              && status == Returned(true)
              && ltotal == old(ltotal) + st.ltotal && lempty == old(lempty) + st.lempty
              && prottotal == old(prottotal) + st.prottotal && protsselT == old(protsselT) + st.protsselT
              && dataO == old(dataO) + GeneRows(Fasta.Finish(st).closed, resExt))
    {
      ghost var lls := Fasta.NormAll(lines, norm);
      ghost var base: Fasta.Scan<(string, string)> := Fasta.Scan(ltotal, lempty, prottotal, protsselT, None, [], false);
      ghost var prior := dataO;
      assert dataO == prior + [];
      var raised, searchP, tag, lseq := RunLines(lines, norm, lls, base, prior);
      if raised {
        return Raised;
      }
      Flush(searchP, tag, lseq, base, prior, Fasta.Run(lls, GenePicker(Checks.ToSet(geneList))));
      return Returned(true);
    }

    /**
     * `WriteOutput()`: False when no protein was picked; otherwise the rows
     * are sorted by gene and protein and the header line is the one written
     * before them, and True.
     */
    method WriteOutput() returns (ok: bool, header: string)
      modifies this`dataO
      ensures ok <==> protsselT != 0
      ensures !ok ==> dataO == old(dataO)
      ensures ok ==> dataO == Sorting.SortBy(old(dataO), GeneRowLe) && header == HeaderLine(resExt)
    {
      if protsselT == 0 {
        return false, "";
      }
      header := "Gene\tProtein\t" + Join(Columns(resExt), "\t") + "\n";
      dataO := Sorting.SortBy(dataO, GeneRowLe);
      ok := true;
    }
  }
}

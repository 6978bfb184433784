# PeptideSearchTools: the consensus-sequence scanning engine in Dafny

PeptideSearchTools is a desktop tool for three jobs on protein data:

- **Consensus tab.** It counts, over a multi-FASTA file, how many proteins
  contain each candidate motif. The candidates are built from a
  position → amino-acid table typed by the user.
- **Gene tab.** It extracts the N-terminal prefixes of the proteins whose
  `GN=` gene appears in a gene file.
- **Peptide tab.** It filters the rows of a tab-separated peptide table.

This project models the logic of those three tabs. It covers:

- the input validators behind them;
- the serialisers that write their reports;
- the dialog that assembles the consensus table.

It then proves what each of them computes.

The modules follow the program:

| module | file | models |
|---|---|---|
| `Checks` | checks.dfy | the number and number-list validators (`check_single.py`, `check_multiple.py`) |
| `DataMethods` | data_methods.dfy | `str2l` and the report writers (`data_methods.py`); output is a string the writers append to |
| `Config` | config.dfy | the constants the core reads: the "no value" texts, the twenty one-letter amino-acid codes, the `Pos` key, the program name and version |
| `PyLit` | pylit.dfy | the Python values `ast.literal_eval` can hand back, as far as the validator inspects them |
| `GuiChecks` | gui_check.dfy | class `GuiCheck`: `SetInitVal`, `GuiCheckInteger`, `GuiCheckListNumber` and `GuiCheckPosAADict` (`win_supp.py`) |
| `SeqSetConf` | seqset_conf.dfy | class `ConsensusSearchConfig`: `InitVal`, `OnCreate` and `OnOk` (`win_seqset_conf.py`) |
| `Fasta` | fasta.dfy | the FASTA line machine shared by the consensus and gene tabs: counters, the selected flag, sequence reassembly, the hand-over at the next header and the final flush |
| `Candidates` | candidates.dfy | the Cartesian product of the per-position letter lists |
| `ConsensusTab` | consensus.dfy | class `Consensus`: `DataProcessing`, `ScanSeqWithPos`, `ScanSeqNoPos`/`ScanSeqNoPosLookSeq` and the `WriteOutput` guard (`win_tab_seqset.py`) |
| `Genes` | genes.dfy | gene-file parsing, the `GN=` pick, prefix extraction and the header line of the gene tabs |
| `GeneTabs` | gene_tab.dfy | class `GeneFromFasta` (`win_tab_gene.py`) and class `GeneTab` (`tab.py`) |
| `PeptideTabs` | peptide_tab.dfy | class `Peptide` (`win_tab_peptide.py`) and class `PeptidePane` (`pane.py`) |
| `Text`, `ODict`, `Sorting`, `PyList`, `Wrappers` | text.dfy, odict.dfy, sorting.dfy, pylist.dfy, wrappers.dfy | Python's string operations, insertion-ordered dicts, a stable sort by a key order, Python indexing, and `Option`/`Status` |

The model follows a few conventions:

- **Exceptions.** A Python exception is an outcome, not a precondition:
  - methods return `Status.Raised`;
  - functions return `None`.
  Examples are an `IndexError` on `header.split('|')[1]`, a `ValueError`
  from `int()`, and a `KeyError` on a missing helper label.
- **Line loops.** Each loop over the lines of a file is a method with a
  `while` loop over `seq<string>`. It is proved against a left-fold
  specification: `Fasta.Run` for the FASTA tabs and `PeptideTabs.Run` for
  the peptide tabs. Lemmas then state what the fold computes:
  - the rows or records it hands over;
  - the counters;
  - when it raises.
- **Mutable state.** Each tab is a `class` whose fields are the counters and
  the `dataO` table. Its methods state the whole new state.

`CheckNA` and `CheckK` (`win_supp.py:275-301`) are modelled inline: each is
the boolean condition it returns, in `SetInitVal` and in
`GuiCheckPosAADict`.

## Model

| member | source | states |
|---|---|---|
| Checks.CheckNumTypeOfStr | 0-CODE/check/check_single.py:56-84 | the decimal text of any integer passes `CheckNumType` with `t='int'` and converts back to that integer |
| Checks.CheckNumComp | 0-CODE/check/check_single.py:87-129 | gt, egt, e, elt and lt compare by >, >=, ==, <= and <; any other keyword lets every number pass |
| Checks.CheckNumCompConvex | 0-CODE/check/check_single.py:87-129 | a comparison that passes both ends of an interval passes every number in it |
| Checks.NoRepeatsIsDistinct | 0-CODE/check/check_single.py:149-165 | "as many distinct elements as entries" holds exactly when no two entries are equal |
| Checks.CheckListUniqueElementsSpec | 0-CODE/check/check_single.py:149-165 | the list passes exactly when it has no duplicates; with NA, the None entries are dropped first |
| Checks.CheckListAinListB | 0-CODE/check/check_single.py:168-175 | true exactly when every element of A is in B (so true for an empty A) |
| Checks.CheckMNumber | 0-CODE/check/check_multiple.py:21-46 | succeeds exactly when the text converts to an integer that passes `comp` against `val`, or lies in `[val, val2]` when `val2` is given; the result is the converted number |
| Checks.Range | 0-CODE/check/check_multiple.py:111-128 | the expansion of `a-b` is `a..b` inclusive: `b - a + 1` numbers, the i-th being `a + i` |
| Checks.TokenNumbersPass | 0-CODE/check/check_multiple.py:85-131 | every number a token stands for (a single number or an expanded range) passes the comparison |
| Checks.ExpandPass | 0-CODE/check/check_multiple.py:85-131 | every number of an accepted token list passes the comparison |
| Checks.ExpandTokens | 0-CODE/check/check_multiple.py:85-131 | the token loop yields the tokens' numbers in order, and rejects the list at the first failing token |
| Checks.ExpandStops | 0-CODE/check/check_multiple.py:85-131 | once a prefix of the tokens is rejected, the whole list is rejected |
| Checks.Dedupe | 0-CODE/check/check_multiple.py:134-144 | removing repeats keeps the set of numbers and leaves no repeats |
| Checks.DedupeOrder | 0-CODE/check/check_multiple.py:141 | `dict.fromkeys` lists the numbers in the order of their first occurrence in the input |
| Checks.SortStep | 0-CODE/check/check_multiple.py:146-149 | sorting ascending keeps the set of numbers and creates no repeats |
| Checks.FinishSpec | 0-CODE/check/check_multiple.py:134-149 | after expansion the list keeps exactly its set of numbers; it has no repeats when Unique is asked for (duplicates are rejected unless DelRepeat) and is ascending when Order is asked for |
| Checks.ListNumberSpec | 0-CODE/check/check_multiple.py:49-151 | a lone NA is answered `[None]` exactly when NA is allowed; a list of numbers is accepted exactly when there is no NA, every token expands and repeats are allowed or removed; it then has the same set as the expanded tokens, every number passes the comparison, unique when asked for, ascending when asked for |
| Checks.CheckMListNumber | 0-CODE/check/check_multiple.py:49-151 | the imperative token loop, with its DelRepeat and sort steps, computes `ListNumber` |
| DataMethods.Str2l | 0-CODE/data/data_methods.py:86-103 | always succeeds; it returns one part per separator plus one, each the stripped `sep`-split part |
| Text.JoinSplit | 0-CODE/data/data_methods.py:86-103 | without stripping, joining the parts of `str2l` with the separator gives the text back |
| DataMethods.TabJoined | 0-CODE/data/data_methods.py:39-53 | each row becomes its cells joined by tabs |
| DataMethods.FFsWriteList | 0-CODE/data/data_methods.py:39-53 | the loop appends every row tab-joined, with a newline between rows and none after the last |
| DataMethods.ListTextRoundTrip | 0-CODE/data/data_methods.py:39-53 | splitting the written list on newlines, then on tabs, gives the rows back when no cell holds a tab or newline and no row is empty |
| DataMethods.FFsWriteDict | 0-CODE/data/data_methods.py:21-36 | the loop appends the entry lines and a final empty line; it stops (KeyError) at the first key missing from the helper dict |
| DataMethods.EntryLines | 0-CODE/data/data_methods.py:21-36 | one `label:\tvalue` line per entry, in insertion order; the label is `hDict[k]` with a helper and `k` without |
| DataMethods.DictWriteSpec | 0-CODE/data/data_methods.py:21-36 | the writer gets through every entry exactly when there is no helper or the helper has every key; the text is then the entry lines, each followed by a newline, then one more newline |
| DataMethods.DictWriteRoundTrip | 0-CODE/data/data_methods.py:21-36 | with no newline in labels and values, splitting the text on newlines gives the entry lines back, then two empty strings |
| DataMethods.LastLineFields | 0-CODE/data/data_methods.py:56-67 | the last line is one line of exactly three tab-separated fields: "File generated with", the program name and the version |
| PyLit.IntOf | CODE/gui/win/win_supp.py:214-218 | `int(key)` for an integer key is the key; a float key is truncated toward zero (2.5 gives 2); numeric text and bytes are parsed; any other key raises |
| PyLit.Trunc | CODE/gui/win/win_supp.py:214-218 | `int()` of a float drops the fraction: the result is within 1 of the float, on the side of 0 |
| PyLit.ScanKey | 0-CODE/gui/win/win_tab_seqset.py:184-187 | the `ScanDict` lookup selects by the boolean Pos value, with 1 and 1.0 acting as True and 0 and 0.0 as False; text, bytes and other values raise |
| PyLit.AllAA | 0-CODE/gui/win/win_tab_seqset.py:156-161 | the letter lists of the non-Pos entries, in mapping order |
| GuiChecks.Tokens | CODE/gui/win/win_supp.py:220 | `str2l(v, ' ')[1]`: one stripped token per single-space-separated part |
| GuiChecks.GuiCheck.SetInitVal | CODE/gui/win/win_supp.py:248-286 | records the text in `d`; a "no value" text stores None in `do` and passes only when NA is allowed; any other text is stored as it is and passes |
| GuiChecks.GuiCheck.GuiCheckInteger | CODE/gui/win/win_supp.py:97-121 | records the text; a "no value" text fails unless NA is allowed; otherwise it passes exactly when `CheckMNumber` passes, and `do[n]` holds the number, or None on failure |
| GuiChecks.GuiCheck.GuiCheckListNumber | CODE/gui/win/win_supp.py:124-161 | records the text; a "no value" text fails unless NA is allowed; otherwise it passes exactly when `CheckMListNumber` accepts, and `do[n]` holds the list, or None on failure |
| GuiChecks.GuiCheck.GuiCheckPosAADict | CODE/gui/win/win_supp.py:165-245 | after SetInitVal, the result and `do[n]`, `do[n2]` are those of the item scan of the evaluated text: `do[n]` maps `int(key)` to its token list, `do[n2]` lists `int(key) - 1` in order, the Pos value is copied; rejected when not a dict, without Pos, or on a bad item |
| GuiChecks.ScanItems | CODE/gui/win/win_supp.py:208-241 | the imperative item loop computes the item scan, stopping at the first rejected item (`break`) or at a raise |
| GuiChecks.ScanItem | CODE/gui/win/win_supp.py:211-235 | one pass of the loop body is one step of the item scan |
| GuiChecks.StepRejects | CODE/gui/win/win_supp.py:220-232 | an integer key whose tokens repeat or are not amino-acid codes rejects the mapping and stores nothing |
| GuiChecks.StepTakes | CODE/gui/win/win_supp.py:227-229 | an integer key with good tokens stores its tokens under `int(key)` and appends `int(key) - 1` |
| GuiChecks.StoppedStays | CODE/gui/win/win_supp.py:216-232 | after a `break`, the remaining items change nothing |
| GuiChecks.ScanStep | CODE/gui/win/win_supp.py:211-235 | an item on a scan that is still going is handled as a Pos item or as an integer-keyed item |
| GuiChecks.AsWrittenGoing | CODE/gui/win/win_supp.py:208-241 | the loop runs through every item exactly when every item is good |
| GuiChecks.ScanIndices | CODE/gui/win/win_supp.py:229 | after a full pass, the index list is `int(key) - 1` for every integer key, in order |
| GuiChecks.ScanPos | CODE/gui/win/win_supp.py:233-235 | after a full pass, the stored Pos value is that of the last Pos item |
| GuiChecks.ScanLetters | CODE/gui/win/win_supp.py:220-232 | after a full pass, every stored token list has distinct amino-acid codes |
| GuiChecks.AsWrittenRaises | CODE/gui/win/win_supp.py:220 | the validator raises exactly when an integer-keyed item with a value that is not text follows good items only |
| GuiChecks.PosAADictSpec | CODE/gui/win/win_supp.py:165-245 | accepts exactly the texts that evaluate to a dict with a Pos key whose other keys all convert with `int()` and hold distinct amino-acid codes; it then stores the table and the `key - 1` indices |
| GuiChecks.LettersShape | CODE/gui/win/win_supp.py:220-232 | accepted token lists are single letters, none twice at one position |
| GuiChecks.CheckedPosAADictSound | CODE/gui/win/win_supp.py:167-170 | a mapping the documented checks accept (keys > 0, no position twice, boolean Pos) is accepted by the code as written with the same table, and it is well formed for the consensus scan |
| GuiChecks.CheckedPositionsInProtein | CODE/gui/win/win_supp.py:229 | with keys > 0, the positional motif can be read exactly when no key exceeds the protein length, and its i-th letter is residue `key_i` counted from 1 |
| GuiChecks.ZeroKeyWraps | CODE/gui/win/win_supp.py:229 | key 0 passes the validator as written, becomes index -1, and reads the last residue |
| GuiChecks.RepeatedKeyNeverMatches | CODE/gui/win/win_supp.py:214-229 | keys 2 and "2" both pass and give indices [1, 1] for a one-letter table, so the positional scan never credits a row |
| GuiChecks.NonBoolPosRaises | CODE/gui/win/win_supp.py:233-235 | a text Pos value passes the validator as written, and the consensus scan then raises on the first protein |
| SeqSetConf.ConsensusSearchConfig.OnCreate | 0-CODE/gui/win/win_seqset_conf.py:186-216 | resets `d` and `do`, checks NRes as an integer > 0, and on success stores `TRow = NRes + 1` |
| SeqSetConf.ConsensusSearchConfig.OnOk | 0-CODE/gui/win/win_seqset_conf.py:155-185 | returns False and exports nothing before OnCreate; with no TRow it raises; otherwise it exports the mapping of the rows below the header and returns True |
| SeqSetConf.ConsensusSearchConfig.InitVal | 0-CODE/gui/win/win_seqset_conf.py:124-148 | empty text returns False and changes nothing; unparseable text raises; a non-dict returns False; a dict sets the residue number to `len(dict) - 1` and runs OnCreate (so `TRow = len(dict)` when that number is > 0); it then raises KeyError when the dict has no Pos key and IndexError when its last item is not Pos (the item numbered `len(dict)` has no row), and returns True otherwise |
| SeqSetConf.MappingPos | 0-CODE/gui/win/win_seqset_conf.py:165-177 | the exported Pos value is True exactly when every row has a typed position |
| SeqSetConf.MappingLater | 0-CODE/gui/win/win_seqset_conf.py:167-176 | a row's key holds that row's letters, upper-cased, unless a later row uses the same key |
| SeqSetConf.ExportReloads | 0-CODE/gui/win/win_seqset_conf.py:155-177 | with no position typed as Pos, the exported mapping ends with the Pos key, so InitVal reading it back raises neither KeyError nor IndexError |
| SeqSetConf.MappingSize | 0-CODE/gui/win/win_seqset_conf.py:133 | with distinct keys and no row keyed Pos, the mapping has one entry per row, in row order, then Pos, so InitVal reads back the number of rows |
| SeqSetConf.ExportValidated | 0-CODE/gui/win/win_seqset_conf.py:155-185 | the exported mapping never makes the validator raise; it is accepted when every row is good; once accepted, its Pos value selects a scan |
| Fasta.NormLine | 0-CODE/gui/win/win_tab_seqset.py:175-177 | the normalised line has no line break and neither starts nor ends with whitespace |
| Fasta.NormAll | 0-CODE/gui/win/win_tab_seqset.py:172-177 | one normalised line per line of the file, in order |
| Fasta.Close | 0-CODE/gui/win/win_tab_seqset.py:182-189 | closing hands over the record being collected, with its lines joined, and clears it |
| Fasta.HeaderTake | 0-CODE/gui/win/win_tab_seqset.py:194-203 | a picked header counts a selected protein and opens an empty record under its identifier |
| Fasta.SkipBody | 0-CODE/gui/win/win_tab_seqset.py:204-208 | lines before the first header belong to no record |
| Fasta.RunFromRecords | 0-CODE/gui/win/win_tab_seqset.py:172-229 | from any state that has not raised, the machine hands over the pending record and then exactly the picked records of the remaining lines |
| Fasta.RunRecords | 0-CODE/gui/win/win_tab_seqset.py:172-229 | the machine hands over exactly the picked records, in file order, each once, with its sequence lines joined; it raises exactly when a pick raises |
| Fasta.RunCounters | 0-CODE/gui/win/win_tab_seqset.py:172-208 | without a raise, every line is counted, every empty line as empty, every header as a protein, and every picked protein as selected |
| Fasta.RunSelectedLeTotal | 0-CODE/gui/win/win_tab_seqset.py:180-203 | selected proteins never exceed proteins |
| Fasta.RunMono | 0-CODE/gui/win/win_tab_seqset.py:172-223 | reading more lines never takes back a raise or a record already handed over |
| Candidates.Product | 0-CODE/gui/win/win_tab_seqset.py:162 | one candidate per tuple of the product, in product order, each the concatenation of its letters |
| Candidates.ChoicesSize | 0-CODE/gui/win/win_tab_seqset.py:162 | there are as many candidates as the product of the list sizes |
| Candidates.ChoicesMember | 0-CODE/gui/win/win_tab_seqset.py:162 | the tuples are exactly the choices of one entry per list |
| Candidates.ChoicesDistinct | 0-CODE/gui/win/win_tab_seqset.py:162 | with no entry repeated within a list, no tuple is produced twice |
| Candidates.CandidateShape | 0-CODE/gui/win/win_tab_seqset.py:162 | with single-letter, distinct entries, every candidate has one letter per position, and the candidates are pairwise distinct and as many as the product of sizes |
| Candidates.ProductMember | 0-CODE/gui/win/win_tab_seqset.py:162 | a motif is a candidate exactly when it picks one entry per list, position by position |
| ConsensusTab.InitTable | 0-CODE/gui/win/win_tab_seqset.py:156-164 | one row per candidate, in product order, with count 0 and no identifier |
| ConsensusTab.ExtractSpec | 0-CODE/gui/win/win_tab_seqset.py:256-262 | the motif is read exactly when every position is a valid Python index, and it is then the residues at those indices (negative ones from the end) |
| ConsensusTab.ExtractStops | 0-CODE/gui/win/win_tab_seqset.py:257-261 | once a position is out of range, no longer position list gives a motif |
| ConsensusTab.Matches | 0-CODE/gui/win/win_tab_seqset.py:264-266 | the increasing positions of exactly the rows whose candidate contains the motif |
| ConsensusTab.ScanWithPosSpec | 0-CODE/gui/win/win_tab_seqset.py:255-279 | a row is credited exactly when the motif can be read and exactly one row contains it; that row gets count + 1 and the identifier appended, and nothing else changes; otherwise the table is unchanged |
| ConsensusTab.ScanWithPosCount | 0-CODE/gui/win/win_tab_seqset.py:264 | with candidates as long as the position list and pairwise distinct, "contains" is equality: row k is credited exactly when the protein's residues at the positions spell its candidate |
| ConsensusTab.ScanNoPos | 0-CODE/gui/win/win_tab_seqset.py:294-319 | every row whose candidate occurs in the protein gets count + 1 and the identifier appended; the others are unchanged |
| ConsensusTab.ScanOne | 0-CODE/gui/win/win_tab_seqset.py:184-187 | scanning one protein keeps the candidates and raises each count by at most one |
| ConsensusTab.ScanAllShape | 0-CODE/gui/win/win_tab_seqset.py:182-229 | scanning every handed-over protein keeps the candidates and credits each row at most once per protein |
| ConsensusTab.FreeCount | 0-CODE/gui/win/win_tab_seqset.py:294-319 | the free scan counts, for every row, the proteins its candidate occurs in |
| ConsensusTab.PositionalCount | 0-CODE/gui/win/win_tab_seqset.py:255-279 | the positional scan counts, for every row, the proteins whose residues at the positions spell its candidate |
| ConsensusTab.SumZero | 0-CODE/gui/win/win_tab_seqset.py:233 | the Appearance sum is zero exactly when no row appears |
| ConsensusTab.PositionalSum | 0-CODE/gui/win/win_tab_seqset.py:268-273 | the positional scan raises the sum by at most one per protein |
| ConsensusTab.RowLeTotalPreorder | 0-CODE/gui/win/win_tab_seqset.py:235-239 | descending count, then ascending sequence, orders every pair of rows transitively |
| ConsensusTab.SeqSetPick | 0-CODE/gui/win/win_tab_seqset.py:191-203 | a "Fragment" header is skipped when only complete proteins are wanted; any other header is picked under its second `|` field, and raises without one |
| ConsensusTab.PositionalCounts | 0-CODE/gui/win/win_tab_seqset.py:152-241 | on a validated table, every candidate's count is the number of analysed proteins whose residues at the positions spell it |
| ConsensusTab.FreeCounts | 0-CODE/gui/win/win_tab_seqset.py:152-241 | in free mode every candidate's count is the number of analysed proteins it occurs in |
| ConsensusTab.CountBound | 0-CODE/gui/win/win_tab_seqset.py:152-241 | without an exception, no count exceeds the number of selected proteins |
| ConsensusTab.PositionalTotal | 0-CODE/gui/win/win_tab_seqset.py:233 | in positional mode the counts add up to at most the number of selected proteins |
| ConsensusTab.PercentsDefined | 0-CODE/gui/win/win_tab_seqset.py:231-232 | a non-zero sum means at least one selected protein, so both percentage columns divide by a positive number |
| ConsensusTab.SortedOutput | 0-CODE/gui/win/win_tab_seqset.py:235-239 | the sorted table is ordered by descending count, then sequence, and is a permutation of the counted rows |
| ConsensusTab.RaisesEarly | 0-CODE/gui/win/win_tab_seqset.py:172-223 | a prefix of the file that already raises makes DataProcessing raise |
| ConsensusTab.Consensus.constructor | 0-CODE/gui/win/win_tab_seqset.py:134-147 | the tab holds the checked table, index list and complete-protein flag, with empty results and zero counters |
| ConsensusTab.Consensus.ScanSeqWithPos | 0-CODE/gui/win/win_tab_seqset.py:244-279 | updates `dataO` in place to the positional scan of the protein, and returns whether a row was credited |
| ConsensusTab.Consensus.ScanSeqNoPos | 0-CODE/gui/win/win_tab_seqset.py:282-300 | updates `dataO` in place to the free scan of the protein |
| ConsensusTab.Consensus.ScanWith | 0-CODE/gui/win/win_tab_seqset.py:184-187 | the `ScanDict` dispatch: the positional or the free scan by the Pos value |
| ConsensusTab.Consensus.ReadLines | 0-CODE/gui/win/win_tab_seqset.py:172-223 | the line loop follows `Fasta.Run` step by step: counters, selected flag, identifier and sequence buffer, with every handed-over protein scanned; it raises where the run does |
| ConsensusTab.Consensus.Flush | 0-CODE/gui/win/win_tab_seqset.py:225-229 | the final flush scans the last protein; the table is then every handed-over protein scanned in order |
| ConsensusTab.Consensus.DataProcessing | 0-CODE/gui/win/win_tab_seqset.py:152-241 | raises exactly when the run raises or a handed-over protein meets a non-boolean Pos; otherwise returns True with `dataO` the sorted scan of the handed-over proteins, the counters those of the run, and `sum` the Appearance total |
| ConsensusTab.Consensus.WriteOutput | 0-CODE/gui/win/win_tab_seqset.py:322-328 | refuses (False) exactly when the Appearance sum is 0 |
| Genes.Inner | CODE/gui/win/win_tab_gene.py:215 | `ll[1:-1]`: the line without its first and last character |
| Genes.LineGenes | CODE/gui/win/win_tab_gene.py:214-219 | a line holding `;` gives the `;`-parts of its inner text; any other line gives itself |
| Genes.ReadGeneFile | CODE/gui/win/win_tab_gene.py:203-221 | the gene-file loop builds the set of the genes of the non-empty normalised lines |
| Genes.GeneSetMember | CODE/gui/win/win_tab_gene.py:206-220 | a gene is in the set exactly when some non-empty line names it |
| Genes.GeneSetEmpty | CODE/gui/win/win_tab_gene.py:224-226 | the set is empty, and the tab refuses, exactly when every line is empty |
| Genes.QuotedCell | CODE/gui/win/win_tab_gene.py:214-217 | a quoted cell of two or more `;`-separated genes reads back as exactly those genes |
| Genes.SqueezeChars | CODE/gui/tab.py:248-249 | keeps exactly the characters that are neither whitespace nor `"`, and only removes |
| Genes.GeneListMember | CODE/gui/tab.py:247-258 | a gene is listed exactly when it is the squeezed text of a line or, for squeezed text holding `;`, one of its parts |
| Genes.GeneListEmpty | CODE/gui/tab.py:259-262 | the list is empty, and CheckInput refuses, exactly when no line has anything but whitespace and quotes |
| Genes.GnWord | CODE/gui/win/win_tab_gene.py:255 | a header holding `GN=` has a word holding `GN=`, and that word holds `=` |
| Genes.GeneOf | CODE/gui/win/win_tab_gene.py:255 | the gene is the text after the first `=` of the first `GN=` word, and holds no `=` |
| Genes.GenePick | CODE/gui/win/win_tab_gene.py:254-266 | a header is picked exactly when it holds `GN=` and its gene is listed; it is picked under the gene and its second `|` field, and raises without one |
| Genes.PyPrefix | CODE/gui/win/win_tab_gene.py:250 | `s[0:i]` is a prefix of length `min(i, len(s))`, counted from the end for negative `i` |
| Genes.Prefixes | CODE/gui/win/win_tab_gene.py:249-250 | one prefix per requested length, in order |
| Genes.AppendPrefixes | CODE/gui/win/win_tab_gene.py:248-251 | the closing loop appends one prefix per requested length after the gene and the protein |
| Genes.RowShape | CODE/gui/win/win_tab_gene.py:247-251 | for positive lengths, a row holds the gene, the protein and the first `min(i, len(seq))` residues per length |
| Genes.Columns | CODE/gui/tab.py:410 | one `1-i` title per requested length |
| Genes.HeaderLineSpec | CODE/gui/tab.py:410-411 | the header is one line ending in its only line break, with fields Gene, Protein and the titles |
| Genes.HeaderSoFar | CODE/gui/win/win_tab_gene.py:318-324 | after some lengths, the written header is the titles so far, each followed by a tab or by the line break for the last |
| Genes.HeaderVersionsAgree | CODE/gui/win/win_tab_gene.py:318-324 | with at least one length, the win_tab_gene header equals the tab.py header |
| Genes.BlankResidueHeader | CODE/gui/win/win_tab_gene.py:318-324 | the residue text " " passes as an empty list of lengths, and the header then has no line break |
| Genes.SortedRows | CODE/gui/win/win_tab_gene.py:328 | the sorted rows are ordered by gene, then protein, and are a permutation of the extracted rows |
| GeneTabs.GeneFromFasta.constructor | CODE/gui/win/win_tab_gene.py:229-234 | the tab holds the checked lengths, with no rows and zero counters |
| GeneTabs.GeneFromFasta.CloseRecord | CODE/gui/win/win_tab_gene.py:245-253 | at a header, the line and the protein are counted and the protein being collected is handed over as a row |
| GeneTabs.GeneFromFasta.PickHeader | CODE/gui/win/win_tab_gene.py:254-266 | at a header, the state follows `GenePick`: select under the gene and identifier, skip, or raise |
| GeneTabs.GeneFromFasta.ReadLines | CODE/gui/win/win_tab_gene.py:236-286 | the FASTA loop follows `Fasta.Run` with the gene pick step by step, and raises where it does |
| GeneTabs.GeneFromFasta.Flush | CODE/gui/win/win_tab_gene.py:287-294 | after the final flush, the rows are those of every handed-over protein, in order |
| GeneTabs.GeneFromFasta.DataProcessing | CODE/gui/win/win_tab_gene.py:197-297 | returns False and touches nothing when the gene file names no gene; otherwise it raises exactly where the run does, and else returns True with one row per selected protein and the run's counters |
| GeneTabs.GeneFromFasta.WriteOutput | CODE/gui/win/win_tab_gene.py:301-337 | returns False and writes nothing when no protein was selected; raises on a missing helper label; otherwise writes the input dict, the header as written, the rows sorted by gene and protein, and the last line |
| GeneTabs.WriteHeader | CODE/gui/win/win_tab_gene.py:318-324 | the header loop writes the two fixed titles, then every title followed by a tab, the last by a line break |
| GeneTabs.GeneFromFastaRecords | CODE/gui/win/win_tab_gene.py:236-294 | without an exception, the rows are those of the FASTA records whose header names a listed gene, in file order, one per selected protein |
| GeneTabs.NothingToWrite | CODE/gui/win/win_tab_gene.py:305-307 | after a run, WriteOutput refuses exactly when no header names a listed gene |
| GeneTabs.ResExtRoundTrip | CODE/gui/tab.py:284-290 | the lengths as recorded for the report read back as the same lengths |
| GeneTabs.GeneTab.CheckInput | CODE/gui/tab.py:243-262 | the gene list is every squeezed non-empty line followed by its `;`-parts, with no deduplication; it passes exactly when some line has a gene |
| GeneTabs.GeneTab.PrepareRun | CODE/gui/tab.py:271-310 | raises exactly when a word of the residue text is not an integer; otherwise the lengths are those integers, the recorded text is the words joined by single spaces, and all counters and rows are reset |
| GeneTabs.GeneTab.RunAnalysis | CODE/gui/tab.py:313-382 | the line loop and final flush follow `Fasta.Run` with the gene pick; raises exactly where a picked header lacks a `|` field; otherwise one row per selected protein |
| GeneTabs.GeneTab.WriteOutput | CODE/gui/tab.py:385-413 | False exactly when no protein was selected; otherwise the rows are sorted by gene and protein and the header line is `HeaderLine` |
| PeptideTabs.Fields | CODE/gui/win/win_tab_peptide.py:205-208 | the line cut at `\n`, then `\r`, then split on tabs: at least one field, and the first field is empty exactly when the cut line is empty or starts with a tab |
| PeptideTabs.SplitAll | CODE/gui/win/win_tab_peptide.py:202-208 | every line split, in order |
| PeptideTabs.CellsSpec | CODE/gui/win/win_tab_peptide.py:229-230 | the chosen cells exist exactly when every column is a valid Python index, and they are those entries |
| PeptideTabs.KeptSpec | CODE/gui/win/win_tab_peptide.py:217-234 | a line is kept exactly when its first field is not empty, its start column is an integer not above the first residue, and every chosen column exists; the row is the chosen cells in order |
| PeptideTabs.KeptRowsMember | CODE/gui/win/win_tab_peptide.py:226-232 | a row is among the kept rows exactly when some line is kept with it |
| PeptideTabs.RunShape | CODE/gui/win/win_tab_peptide.py:202-232 | one row per peptide, never more empty lines and peptides than lines, and every line counted when nothing raises |
| PeptideTabs.RunRows | CODE/gui/win/win_tab_peptide.py:215-234 | without a raise, the run adds the kept rows and the empty lines of the lines it reads |
| PeptideTabs.RunRaised | CODE/gui/win/win_tab_peptide.py:209-231 | from a fresh start, the run raises exactly on a missing header column in line 1 or a line with a missing chosen column |
| PeptideTabs.RunHeader | CODE/gui/win/win_tab_peptide.py:209-214 | without a raise, the header is that of line 1, or the old one for an empty file |
| PeptideTabs.RaisedStays | CODE/gui/win/win_tab_peptide.py:202-235 | a run that has raised stays raised |
| PeptideTabs.RunSpec | CODE/gui/win/win_tab_peptide.py:189-250 | the full report from a fresh start: when it raises; otherwise every line counted, the rows are the kept rows in order, the empty count is that of blank and non-integer lines, and with a peptide the header is that of line 1 |
| PeptideTabs.CheckedParamsSpec | CODE/gui/win/win_tab_peptide.py:153-182 | checked values are a first residue > 0, a start column >= 0, and distinct column indices >= 0 |
| PeptideTabs.TabRows | CODE/gui/win/win_tab_peptide.py:209-232 | without a raise, every row comes from a line of the file that `KeptSpec` describes; with a row there is a header, that of line 1 |
| PeptideTabs.Peptide.constructor | CODE/gui/win/win_tab_peptide.py:195-199 | a fresh tab with zero counters, no rows and no header |
| PeptideTabs.Peptide.CheckInput | CODE/gui/win/win_tab_peptide.py:130-186 | passes exactly when the file checks pass and fRes, fResCol and Col2Ext are valid; it then stores the three checked values in `do` |
| PeptideTabs.Peptide.TakeHeader | CODE/gui/win/win_tab_peptide.py:209-214 | line 1 sets the header to its chosen cells joined by tabs, or raises |
| PeptideTabs.Peptide.Tally | CODE/gui/win/win_tab_peptide.py:217-234 | the line's verdict updates the blank-line count, the kept-row count and the rows as one step of the line loop does, and raises exactly when that step raises |
| PeptideTabs.Peptide.Line | CODE/gui/win/win_tab_peptide.py:202-235 | one pass of the loop body is one step of the run |
| PeptideTabs.Peptide.DataProcessing | CODE/gui/win/win_tab_peptide.py:189-250 | resets the counters and rows, then raises exactly when the run raises, and otherwise returns True with the state of the run |
| PeptideTabs.Peptide.WriteOutput | CODE/gui/win/win_tab_peptide.py:253-290 | False and nothing written with no peptide; raises on a missing helper label or an unset header; otherwise writes the input dict, the header line, the rows and the last line |
| PeptideTabs.PeptidePane.PrepareRun | CODE/gui/pane.py:301-339 | fRes, sRes and colExt are read in that order, each raising on text that is not an integer (list); on success the recorded column text is set and the counters and rows are reset |
| PeptideTabs.PeptidePane.Assign | CODE/gui/pane.py:312-326 | each field is set when its conversion and those before it succeed; the first failing conversion raises and leaves the run state unchanged |
| PeptideTabs.PeptidePane.Line | CODE/gui/pane.py:352-381 | one pass of the loop body is one step of the run |
| PeptideTabs.PeptidePane.Tally | CODE/gui/pane.py:362-381 | the line's verdict updates the blank-line count, the kept-row count and the rows as one step of the line loop does, and raises exactly when that step raises |
| PeptideTabs.PeptidePane.RunAnalysis | CODE/gui/pane.py:342-393 | every line, split by the library splitter, goes through the loop body; the result is the run from the prepared state, raising exactly when it raises |
| PeptideTabs.PeptidePane.WriteOutput | CODE/gui/pane.py:404-421 | False with no peptide; raises with no header; otherwise True with the header line `header + '\n'` |

## Left out

- The wxPython user interface is not modelled: windows, sizers, dialogs, message boxes, status-bar updates, and `wx.Yield`/`wx.CallAfter`. Neither is the threading that keeps the interface responsive.
- File I/O is not modelled:
  - an input file is its sequence of lines;
  - an output file is the text written so far;
  - the file validators (`CheckFileRead`, `CheckFileWrite`, `GuiCheckInputFile`, `GuiCheckOutFile`) are booleans given as their outcomes.
- The percentage columns `%_AP` and `%_TP` are floating point and are not computed. `ConsensusTab.PercentsDefined` states only that their divisors are positive.
- `FFsWriteCSV` and pandas are not modelled. The candidate table is a sequence of (sequence, count, identifiers) rows, and the consensus report's table body is not rendered.
- `CheckNumType` with `t='float'` is not modelled; only the integer case the core uses is.
- `str.contains` is a regular-expression search. In `ScanSeqWithPos` (`win_tab_seqset.py:264`) its pattern is the residues read from the protein itself. The model treats it as substring containment, which assumes protein sequences hold no regular-expression metacharacters. A `*` (stop) or `.` in a sequence line would make pandas raise `re.error` or match any letter; neither behaviour is modelled.
- `ast.literal_eval` is a parameter: the evaluated value, "not parseable", or "not a dict". `int()` on text is decimal digits with optional sign and surrounding whitespace. Underscores and non-ASCII digits are not accepted by the model.
- `.upper()` in `OnOk` is modelled on ASCII letters only.
- `list(set(genes))` in `win_tab_gene.py` is modelled as a set, since only membership is used later.
- `Str2List`, `WriteDict2File`, `WriteList2File` and `WriteLastLine2File` come from the `dat4s_core` library, which is not part of this model:
  - `Str2List` is a splitter parameter of `GeneTab.RunAnalysis` and `PeptidePane.RunAnalysis`;
  - the pane and gene-tab writers are modelled only as far as the guard, the sort and the header line.
- The `d` dictionary of the pane and of `GeneTab.PrepareRun` is not modelled, since its labels come from `config.label`. The validators of `PeptidePane.CheckInput` and `GeneTab.CheckInput` (the field part) are library classes and are not modelled.
- CODE/check is not part of this model. `win_supp.py` imports it; the validators are modelled on `0-CODE/check/check_single.py` and `check_multiple.py`.
- `OnCancel` and `CreateShowWidgets` only close or build widgets. `InitVal` is modelled as far as its results and the row count; the filled widget texts are left out.
- SeqSetConf.ConsensusSearchConfig.InitVal: fills the row widgets with `SetValue(v)`. The widget toolkit is not part of this model, so what it does with a value that is not text is not modelled; such a dict, with Pos last, is reported as returning True.
- ConsensusTab.Consensus.constructor: a position with an empty letter list makes the product of candidates empty. `pd.concat([])` then raises ValueError (`win_tab_seqset.py:162-164`); the model builds an empty table instead. The validator never stores an empty list, since `str2l` returns at least one token.
- `ast.literal_eval` can return an infinite float (`1e999`), on which `int()` raises OverflowError; floats are modelled as finite reals.
- After an exception, the fields a method had partly updated (for example a half-built `self.header` list) are not specified. Only the Raised outcome is.
- PeptideTabs.Peptide.DataProcessing: takes the checked values `p` (fRes, fResCol, Col2Ext) as a parameter instead of reading them from `do`.
- `GeneFromFasta.CheckInput` and `Consensus.CheckInput` are sequences of validator calls. Their validators (`GuiCheckListNumber`, `GuiCheckPosAADict`) are modelled; the calling methods are not.

## Findings

| source | as written | input that shows it | evidently intended | confidence | as-written member | corrected member |
|---|---|---|---|---|---|---|
| CODE/gui/win/win_supp.py:229 | a key that converts to 0 (or less) is accepted and stored as index `key - 1`, which Python reads from the end of the protein | `{0: 'A', 'Pos': True}`: index -1 reads the last residue of `CA`, `A` | keys greater than 0, as the docstring at lines 167-170 says | not executed | GuiChecks.ZeroKeyWraps | GuiChecks.CheckedPositionsInProtein |
| CODE/gui/win/win_supp.py:214-229 | keys `2` and `'2'` both pass and both convert to 2; the table keeps one letter list but the index list gets `[1, 1]` | `{2: 'A', '2': 'C', 'Pos': True}`: the motif has two residues while every candidate has one, so the positional scan never credits a row | each residue number once | not executed | GuiChecks.RepeatedKeyNeverMatches | GuiChecks.CheckedPosAADictSound |
| CODE/gui/win/win_supp.py:233-235 | the Pos value is copied without checking that it is a boolean | `{2: 'A', 'Pos': 'yes'}` passes, then `ScanDict['yes']` raises `KeyError` on the first selected protein (win_tab_seqset.py:184) | a boolean Pos value, as the docstring at lines 167-170 says | not executed | GuiChecks.NonBoolPosRaises | GuiChecks.CheckedPosAADictSound |
| CODE/gui/win/win_tab_gene.py:318-324 | the header line ends with the last length's line break, so an empty list of lengths writes no line break | residue text `" "` passes `GuiCheckListNumber` as an empty list; the header `Gene\tProtein\t` then runs into the first data row | the header as one line, as `CODE/gui/tab.py:410-411` writes it | not executed | Genes.BlankResidueHeader | Genes.HeaderLineSpec |

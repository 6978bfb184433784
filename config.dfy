/** The configuration constants the checks and writers read. */
module Config {

  /** Texts a field may hold to mean "no value". */
  const NaVals: seq<string> := ["N", "n", "No", "NO", "NA", ""]

  /** The twenty one-letter amino-acid codes. */
  const OneLetterAA: seq<string> :=
    ["A", "I", "L", "V", "M", "F", "W", "Y", "R", "K", "D", "E", "C", "Q",
     "H", "S", "T", "N", "G", "P"]

  /** The key of the consensus mapping that holds the positional flag. */
  const PosKey: string := "Pos"

  const AppName: string := "Peptide Search Tools"
  const AppVersion: string := "1.0"
}

/**
 The fixed allow-list of file extensions the checker scans
 (pre_commit_hooks/cpg_id_checker.py:12-83).
 */
module Extensions {
  import Paths

  /** Source files of general programming languages (45 entries, written
      as the union of two displays so that membership stays cheap to
      decide). */
  const ProgrammingLanguages: set<string> := {
    ".c", ".c++", ".cc", ".clj", ".cljc", ".cljs", ".cpp", ".cs", ".css",
    ".dart", ".edn", ".fs", ".fsi", ".fsscript", ".fsx", ".go", ".gradle",
    ".groovy", ".h", ".h++", ".hh", ".hpp", ".html"
  } + {
    ".java", ".js", ".jsx", ".kt", ".kts", ".m", ".mm", ".php", ".pl", ".pm",
    ".py", ".rb", ".rs", ".rst", ".scala", ".sh", ".swift", ".tcl", ".ts",
    ".tsx", ".vue", ".xml"
  }

  /** Flat-file formats of bioinformatics. */
  const BioinfFileFormats: set<string> := {
    ".bed", ".fasta", ".fastq", ".gff", ".gff3", ".gtf", ".sam", ".vcf"
  }

  /** Generic text, markup and configuration formats. */
  const TextFileExtensions: set<string> := {
    ".csv", ".tsv", ".json", ".md", ".rst", ".toml", ".txt", ".yaml", ".yml"
  }

  /** The allow-list: the union of the three groups. */
  const AllTextFileExtensions: set<string> :=
    ProgrammingLanguages + BioinfFileFormats + TextFileExtensions

  /** Every allow-listed extension is a single suffix `.xyz`: a dot, then
      at least one character that is neither a dot nor a path separator.
      So each can be produced by `Paths.Ext`, and no entry is dead. */
  predicate IsSingleSuffix(e: string) {
    && |e| >= 2
    && e[0] == '.'
    && forall j :: 1 <= j < |e| ==> e[j] != '.' && e[j] != '/'
  }

  lemma AllowListHasSingleSuffixes()
    ensures forall e :: e in AllTextFileExtensions ==> IsSingleSuffix(e)
  {
    ProgrammingLanguagesAreSuffixes();
    BioinfFormatsAreSuffixes();
    TextExtensionsAreSuffixes();
  }

  lemma ProgrammingLanguagesAreSuffixes()
    ensures forall e :: e in ProgrammingLanguages ==> IsSingleSuffix(e)
  {
  }

  lemma BioinfFormatsAreSuffixes()
    ensures forall e :: e in BioinfFileFormats ==> IsSingleSuffix(e)
  {
  }

  lemma TextExtensionsAreSuffixes()
    ensures forall e :: e in TextFileExtensions ==> IsSingleSuffix(e)
  {
  }

  /** Each allow-listed extension is what `Paths.Ext` reports for a file
      named with it. */
  lemma AllowListReachable(stem: string, e: string)
    requires e in AllTextFileExtensions
    requires |stem| >= 1 && stem[|stem| - 1] != '.' && stem[|stem| - 1] != '/'
    ensures Paths.Ext(stem + e) == e
  {
    AllowListHasSingleSuffixes();
    Paths.SuffixIsExtension(stem, e);
  }
}

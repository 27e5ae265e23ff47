/**
 * Which names the flattener keeps: `should_include_file`, the check against the
 * output file's own name, and the directory names the walk never enters.
 */
module PathFilter {

  /** `SKIP_DIRECTORIES`. */
  const SkipDirectories: set<string> :=
    {".git", ".idea", ".vscode", "node_modules", "dist", "build", "__pycache__"}

  /** `ALLOWED_EXTENSIONS`. */
  const AllowedExtensions: set<string> :=
    {".py", ".js", ".ts", ".tsx", ".jsx", ".go", ".rs", ".sol", ".md", ".txt",
     ".json", ".yml", ".yaml", ".toml", ".sh", ".bash", ".html", ".css"}

  /** `OUTPUT_FILENAME`. */
  const OutputFilename: string := "repo_context.md"

  /** `name.rfind('.')`: the index of the last dot, or -1 when there is none. */
  function LastDot(name: string): (i: int)
    ensures -1 <= i < |name|
    ensures 0 <= i ==> name[i] == '.'
    decreases |name|
  {
    if name == [] then -1
    else if name[|name| - 1] == '.' then |name| - 1
    else LastDot(name[..|name| - 1])
  }

  /** No dot follows the one `LastDot` finds. */
  lemma {:induction false} LastDotIsLast(name: string)
    ensures forall j :: LastDot(name) < j < |name| ==> name[j] != '.'
    decreases |name|
  {
    if name != [] && name[|name| - 1] != '.' {
      var init := name[..|name| - 1];
      LastDotIsLast(init);
      assert forall j :: 0 <= j < |init| ==> init[j] == name[j];
    }
  }

  /** A suffix as `Path.suffix` reports one: a dot, at least one character, no further dot. */
  predicate IsExtension(ext: string) {
    |ext| >= 2 && ext[0] == '.' && forall j :: 1 <= j < |ext| ==> ext[j] != '.'
  }

  /**
   * `Path(name).suffix`: from the last dot to the end, provided that dot is
   * neither the first nor the last character; otherwise empty.
   */
  function Suffix(name: string): string {
    var i := LastDot(name);
    if 0 < i < |name| - 1 then name[i..] else ""
  }

  /** A suffix is empty, or an extension ending the name after a non-empty stem. */
  lemma SuffixShape(name: string)
    ensures Suffix(name) == "" || (IsExtension(Suffix(name)) && |Suffix(name)| < |name|
      && name[|name| - |Suffix(name)|..] == Suffix(name))
  {
    LastDotIsLast(name);
  }

  /** Text without a dot leaves the last dot where it was. */
  lemma {:induction false} LastDotAfter(s: string, t: string)
    requires forall j :: 0 <= j < |t| ==> t[j] != '.'
    ensures LastDot(s + t) == LastDot(s)
    decreases |t|
  {
    if t == [] {
      assert s + t == s;
    } else {
      var t' := t[..|t| - 1];
      assert (s + t)[..|s + t| - 1] == s + t';
      assert (s + t)[|s + t| - 1] == t[|t| - 1];
      LastDotAfter(s, t');
    }
  }

  /** Conversely, a name made of a non-empty stem and an extension has that extension as suffix. */
  lemma SuffixOfStemAndExtension(stem: string, ext: string)
    requires stem != [] && IsExtension(ext)
    ensures Suffix(stem + ext) == ext
  {
    var name := stem + ext;
    var dotted := stem + ['.'];
    assert name == dotted + ext[1..];
    assert forall j :: 0 <= j < |ext[1..]| ==> ext[1..][j] == ext[j + 1];
    LastDotAfter(dotted, ext[1..]);
    assert dotted[|dotted| - 1] == '.';
    assert LastDot(name) == |stem|;
    assert name[|stem|..] == ext;
  }

  /** A name whose only dot is its first character (`.bashrc`) has no suffix. */
  lemma HiddenNameHasNoSuffix(rest: string)
    requires forall j :: 0 <= j < |rest| ==> rest[j] != '.'
    ensures Suffix("." + rest) == ""
  {
    LastDotAfter(".", rest);
    assert LastDot(".") == 0;
  }

  /** `str.lower()` on one character, for the ASCII letters. */
  function LowerChar(c: char): char {
    if 'A' <= c <= 'Z' then c - 'A' + 'a' else c
  }

  /** `str.upper()` on one character, for the ASCII letters. */
  function UpperChar(c: char): char {
    if 'a' <= c <= 'z' then c - 'a' + 'A' else c
  }

  function Lower(s: string): string {
    seq(|s|, i requires 0 <= i < |s| => LowerChar(s[i]))
  }

  function Upper(s: string): string {
    seq(|s|, i requires 0 <= i < |s| => UpperChar(s[i]))
  }

  /** `should_include_file(filename)`. */
  predicate ShouldIncludeFile(name: string) {
    Lower(Suffix(name)) in AllowedExtensions
  }

  /** The two checks `walk_repository` makes on each file name, in the order it makes them. */
  predicate Included(name: string) {
    name != OutputFilename && ShouldIncludeFile(name)
  }

  /** A directory reached by the walk: no segment of its relative path is in `SkipDirectories`. */
  predicate Descended(dir: seq<string>) {
    forall j :: 0 <= j < |dir| ==> dir[j] !in SkipDirectories
  }

  /** Lower-casing keeps every dot where it was, the last one included. */
  lemma {:induction false} LastDotLower(s: string)
    ensures LastDot(Lower(s)) == LastDot(s)
    decreases |s|
  {
    if s != [] {
      assert Lower(s)[..|s| - 1] == Lower(s[..|s| - 1]);
      LastDotLower(s[..|s| - 1]);
    }
  }

  lemma SuffixLower(s: string)
    ensures Suffix(Lower(s)) == Lower(Suffix(s))
  {
    LastDotLower(s);
  }

  lemma LowerUpper(s: string)
    ensures Lower(Upper(s)) == Lower(s)
  {
  }

  /** Names that differ only in the case of their letters are filtered alike. */
  lemma CaseInsensitive(a: string, b: string)
    requires Lower(a) == Lower(b)
    ensures ShouldIncludeFile(a) == ShouldIncludeFile(b)
  {
    SuffixLower(a);
    SuffixLower(b);
  }

  lemma UpperCaseKept(name: string)
    ensures ShouldIncludeFile(Upper(name)) == ShouldIncludeFile(name)
  {
    LowerUpper(name);
    CaseInsensitive(Upper(name), name);
  }

  /**
   * A file is kept exactly when its name is a non-empty stem followed by an
   * extension whose lower-case form is allowed, and it is not the output file.
   */
  lemma IncludedByExtension(stem: string, ext: string)
    requires stem != [] && IsExtension(ext)
    ensures Included(stem + ext) <==> stem + ext != OutputFilename && Lower(ext) in AllowedExtensions
  {
    SuffixOfStemAndExtension(stem, ext);
  }

  lemma IncludedHasExtension(name: string)
    requires Included(name)
    ensures IsExtension(Suffix(name)) && |Suffix(name)| < |name|
    ensures name == name[..|name| - |Suffix(name)|] + Suffix(name)
    ensures Lower(Suffix(name)) in AllowedExtensions && name != OutputFilename
  {
    SuffixShape(name);
    assert Lower("") == "";
  }

  /** The output file has an allowed extension; only its name keeps it out. */
  lemma OutputFileExcludedByName()
    ensures ShouldIncludeFile(OutputFilename)
    ensures !Included(OutputFilename)
  {
    SuffixOfStemAndExtension("repo_context", ".md");
    assert "repo_context" + ".md" == OutputFilename;
    assert Lower(".md") == ".md";
  }

  /** Some names as the walk sees them. */
  lemma PythonFileIncluded()
    ensures Included("x.py")
  {
    SuffixOfStemAndExtension("x", ".py");
    assert "x" + ".py" == "x.py";
    assert Lower(".py") == ".py";
  }

  lemma UpperCaseExtensionIncluded()
    ensures Included("README.MD")
  {
    SuffixOfStemAndExtension("README", ".MD");
    assert "README" + ".MD" == "README.MD";
    assert Lower(".MD") == ".md";
  }

  /** Only the last suffix counts. */
  lemma LastSuffixCounts()
    ensures Included("a.b.json")
  {
    SuffixOfStemAndExtension("a.b", ".json");
    assert "a.b" + ".json" == "a.b.json";
    assert Lower(".json") == ".json";
  }

  lemma CompressedArchiveExcluded()
    ensures !Included("archive.tar.gz")
  {
    SuffixOfStemAndExtension("archive.tar", ".gz");
    assert "archive.tar" + ".gz" == "archive.tar.gz";
    assert Lower(".gz") == ".gz";
  }

  lemma UnknownExtensionExcluded()
    ensures !Included("data.bin")
  {
    SuffixOfStemAndExtension("data", ".bin");
    assert "data" + ".bin" == "data.bin";
    assert Lower(".bin") == ".bin";
  }

  lemma NamesWithoutSuffixExcluded()
    ensures !Included(".bashrc") && !Included("Makefile") && !Included("notes.")
  {
    HiddenNameHasNoSuffix("bashrc");
    assert "." + "bashrc" == ".bashrc";
    assert LastDot("Makefile") == -1;
    assert LastDot("notes.") == 5;
    assert Lower("") == "";
  }

  /** Pruning is inherited: a directory is reached exactly when its parent is and its own name is not skipped. */
  lemma DescendedChild(dir: seq<string>, name: string)
    ensures Descended(dir + [name]) <==> Descended(dir) && name !in SkipDirectories
  {
    assert forall j :: 0 <= j < |dir| ==> (dir + [name])[j] == dir[j];
    assert (dir + [name])[|dir|] == name;
  }

  /** Nothing below a skipped directory is reached. */
  lemma SkippedSubtree(dir: seq<string>, j: nat, below: seq<string>)
    requires j < |dir| && dir[j] in SkipDirectories
    ensures !Descended(dir + below)
  {
    assert (dir + below)[j] == dir[j];
  }
}

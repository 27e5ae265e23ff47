/**
 * `language_for_extension` and `render_file_contents`: the "# File contents"
 * section, one fenced block per included file. File bodies are an input: the
 * outcome of reading each file (`read_file_contents`) is given as a function of
 * its relative path.
 */
module Contents {
  import opened PathFilter
  import opened Strings

  /** `LANGUAGE_BY_EXTENSION`. */
  const LanguageByExtension: map<string, string> := map[
    ".py" := "python",
    ".js" := "javascript",
    ".ts" := "typescript",
    ".tsx" := "tsx",
    ".jsx" := "jsx",
    ".sh" := "bash",
    ".bash" := "bash",
    ".json" := "json",
    ".yml" := "yaml",
    ".yaml" := "yaml",
    ".html" := "html",
    ".css" := "css",
    ".go" := "go",
    ".rs" := "rust",
    ".sol" := "solidity"
  ]

  /** The last part of a path (`Path.name`); empty for the empty path. */
  function Name(path: seq<string>): string {
    if path == [] then "" else path[|path| - 1]
  }

  /** `language_for_extension(path)`: the tag of the lower-cased suffix, `""` when unmapped. */
  function LanguageFor(path: seq<string>): string {
    var ext := Lower(Suffix(Name(path)));
    if ext in LanguageByExtension then LanguageByExtension[ext] else ""
  }

  /** What `read_file_contents` produced: the text, or the message of the exception raised. */
  datatype ReadOutcome = Read(text: string) | Failed(reason: string)

  /** The body line of a block: the text, or the inline error marker. */
  function Body(outcome: ReadOutcome): string {
    match outcome
    case Read(text) => text
    case Failed(reason) => "[ERROR READING FILE: " + reason + "]"
  }

  /** The opening fence: three backticks, then the tag if there is one. */
  function Fence(tag: string): string {
    if tag != "" then "```" + tag else "```"
  }

  /** The fence is three backticks followed by the tag; it is bare exactly when there is no tag. */
  lemma FenceShape(tag: string)
    ensures |Fence(tag)| >= 3 && Fence(tag)[..3] == "```" && Fence(tag)[3..] == tag
    ensures Fence(tag) == "```" <==> tag == ""
  {
  }

  /** Three backticks followed by the tag can only be the fence of that tag. */
  lemma FenceDetermined(fence: string, tag: string)
    requires |fence| >= 3 && fence[..3] == "```" && fence[3..] == tag
    ensures fence == Fence(tag)
  {
    FenceShape(tag);
    assert fence == fence[..3] + fence[3..];
    assert Fence(tag) == Fence(tag)[..3] + Fence(tag)[3..];
  }

  /** `rel_path.as_posix()`. */
  function AsPosix(path: seq<string>): string {
    Join(path, "/")
  }

  function Heading(path: seq<string>): string {
    "## `" + AsPosix(path) + "`"
  }

  const ContentsHeader: string := "# File contents"
  const ClosingFence: string := "```"

  /** The four lines `render_file_contents` appends for one file, its fence tagged by `tagOf`. */
  function Block(path: seq<string>, read: seq<string> -> ReadOutcome, tagOf: seq<string> -> string): seq<string> {
    [Heading(path), Fence(tagOf(path)), Body(read(path)), ClosingFence]
  }

  /** `block(xs[0]) + block(xs[1]) + ...`. */
  function Concat<T>(xs: seq<T>, block: T -> seq<string>): seq<string>
    decreases |xs|
  {
    if xs == [] then [] else Concat(xs[..|xs| - 1], block) + block(xs[|xs| - 1])
  }

  lemma {:induction false} ConcatLength<T>(xs: seq<T>, block: T -> seq<string>)
    requires forall x :: |block(x)| == 4
    ensures |Concat(xs, block)| == 4 * |xs|
    decreases |xs|
  {
    if xs != [] {
      ConcatLength(xs[..|xs| - 1], block);
    }
  }

  /** Line `r` of the block of `xs[k]` sits at position `4 * k + r`. */
  lemma {:induction false} ConcatLine<T>(xs: seq<T>, block: T -> seq<string>, k: nat, r: nat)
    requires forall x :: |block(x)| == 4
    requires k < |xs| && r < 4
    ensures |Concat(xs, block)| == 4 * |xs|
    ensures Concat(xs, block)[4 * k + r] == block(xs[k])[r]
    decreases |xs|
  {
    ConcatLength(xs, block);
    var init := xs[..|xs| - 1];
    ConcatLength(init, block);
    if k < |init| {
      ConcatLine(init, block, k, r);
      assert init[k] == xs[k];
    }
  }

  /** The section for files `files`, each fence tagged by `tagOf`. */
  function Section(files: seq<seq<string>>, read: seq<string> -> ReadOutcome, tagOf: seq<string> -> string): seq<string> {
    [ContentsHeader] + Concat(files, (path: seq<string>) => Block(path, read, tagOf))
  }

  /** The whole result of `render_file_contents(root, files)`. */
  function ContentLines(files: seq<seq<string>>, read: seq<string> -> ReadOutcome): seq<string> {
    Section(files, read, LanguageFor)
  }

  lemma SectionStep(files: seq<seq<string>>, k: nat, read: seq<string> -> ReadOutcome, tagOf: seq<string> -> string)
    requires k < |files|
    ensures Section(files[..k + 1], read, tagOf) == Section(files[..k], read, tagOf) + Block(files[k], read, tagOf)
  {
    assert files[..k + 1][..k] == files[..k];
    ghost var block := (path: seq<string>) => Block(path, read, tagOf);
    assert Concat(files[..k + 1], block) == Concat(files[..k], block) + block(files[k]);
  }

  /** Appending the four lines of file `k` extends the section for the files before it by that file's block. */
  lemma AppendBlock(files: seq<seq<string>>, k: nat, read: seq<string> -> ReadOutcome, tagOf: seq<string> -> string,
                    before: seq<string>, fence: string)
    requires k < |files| && before == Section(files[..k], read, tagOf)
    requires fence == Fence(tagOf(files[k]))
    ensures before + [Heading(files[k])] + [fence] + [Body(read(files[k]))] + [ClosingFence] == Section(files[..k + 1], read, tagOf)
  {
    SectionStep(files, k, read, tagOf);
    assert Block(files[k], read, tagOf) == [Heading(files[k]), fence, Body(read(files[k])), ClosingFence];
  }

  /**
   * Lines 147-148 of `render_file_contents`: the opening fence of a file is three
   * backticks followed by the tag of its extension, nothing when it has none.
   */
  method OpeningFence(relPath: seq<string>) returns (fence: string)
    ensures |fence| >= 3 && fence[..3] == "```" && fence[3..] == LanguageFor(relPath)
  {
    var language := LanguageFor(relPath);
    fence := if language != "" then "```" + language else "```";
  }

  /** `render_file_contents(root, files)`, with `read` standing for reading `root / rel_path`. */
  method RenderFileContents(files: seq<seq<string>>, read: seq<string> -> ReadOutcome) returns (lines: seq<string>)
    ensures lines == ContentLines(files, read)
  {
    lines := [ContentsHeader];
    for k := 0 to |files|
      invariant lines == ContentLines(files[..k], read)
    {
      var relPath := files[k];
      var fence := OpeningFence(relPath);
      ghost var before := lines;
      lines := lines + [Heading(relPath)];
      lines := lines + [fence];
      lines := lines + [Body(read(relPath))];
      lines := lines + [ClosingFence];
      FenceDetermined(fence, LanguageFor(relPath));
      AppendBlock(files, k, read, LanguageFor, before, fence);
    }
    assert files[..|files|] == files;
  }

  // ---------------------------------------------------------------------------
  // The shape of the section.

  lemma SectionLine(files: seq<seq<string>>, read: seq<string> -> ReadOutcome, tagOf: seq<string> -> string, k: nat, r: nat)
    requires k < |files| && r < 4
    ensures |Section(files, read, tagOf)| == 1 + 4 * |files|
    ensures Section(files, read, tagOf)[1 + 4 * k + r] == Block(files[k], read, tagOf)[r]
  {
    ConcatLine(files, (path: seq<string>) => Block(path, read, tagOf), k, r);
  }

  /**
   * The section is its header followed by exactly four lines per file, in the
   * order of `files`, whatever the tags: the heading naming the path, the
   * opening fence, the body, and the closing fence.
   */
  lemma SectionLayout(files: seq<seq<string>>, read: seq<string> -> ReadOutcome, tagOf: seq<string> -> string)
    ensures |Section(files, read, tagOf)| == 1 + 4 * |files|
    ensures Section(files, read, tagOf)[0] == ContentsHeader
    ensures forall k :: 0 <= k < |files| ==> Section(files, read, tagOf)[1 + 4 * k] == Heading(files[k])
    ensures forall k :: 0 <= k < |files| ==> Section(files, read, tagOf)[2 + 4 * k] == Fence(tagOf(files[k]))
    ensures forall k :: 0 <= k < |files| ==> Section(files, read, tagOf)[3 + 4 * k] == Body(read(files[k]))
    ensures forall k :: 0 <= k < |files| ==> Section(files, read, tagOf)[4 + 4 * k] == ClosingFence
  {
    ConcatLength(files, (path: seq<string>) => Block(path, read, tagOf));
    forall k | 0 <= k < |files|
      ensures Section(files, read, tagOf)[1 + 4 * k] == Heading(files[k])
      ensures Section(files, read, tagOf)[2 + 4 * k] == Fence(tagOf(files[k]))
      ensures Section(files, read, tagOf)[3 + 4 * k] == Body(read(files[k]))
      ensures Section(files, read, tagOf)[4 + 4 * k] == ClosingFence
    {
      SectionLine(files, read, tagOf, k, 0);
      SectionLine(files, read, tagOf, k, 1);
      SectionLine(files, read, tagOf, k, 2);
      SectionLine(files, read, tagOf, k, 3);
    }
  }

  /** The layout of `render_file_contents`, each fence tagged by `language_for_extension`. */
  lemma ContentLayout(files: seq<seq<string>>, read: seq<string> -> ReadOutcome)
    ensures |ContentLines(files, read)| == 1 + 4 * |files|
    ensures ContentLines(files, read)[0] == "# File contents"
    ensures forall k :: 0 <= k < |files| ==> ContentLines(files, read)[1 + 4 * k] == Heading(files[k])
    ensures forall k :: 0 <= k < |files| ==> ContentLines(files, read)[2 + 4 * k] == Fence(LanguageFor(files[k]))
    ensures forall k :: 0 <= k < |files| ==> ContentLines(files, read)[3 + 4 * k] == Body(read(files[k]))
    ensures forall k :: 0 <= k < |files| ==> ContentLines(files, read)[4 + 4 * k] == ClosingFence
  {
    SectionLayout(files, read, LanguageFor);
  }

  /** An unreadable file is still announced and fenced; its body is the error marker. */
  lemma FailedReadShowsMarker(files: seq<seq<string>>, read: seq<string> -> ReadOutcome, k: nat, reason: string)
    requires k < |files| && read(files[k]) == Failed(reason)
    ensures |ContentLines(files, read)| == 1 + 4 * |files|
    ensures ContentLines(files, read)[1 + 4 * k] == Heading(files[k])
    ensures ContentLines(files, read)[3 + 4 * k] == "[ERROR READING FILE: " + reason + "]"
  {
    ContentLayout(files, read);
  }

  /** The heading names the path unambiguously: the parts can be read back from it. */
  lemma HeadingNamesPath(path: seq<string>)
    requires path != []
    requires forall j :: 0 <= j < |path| ==> '/' !in path[j]
    ensures Split(Heading(path)[4..|Heading(path)| - 1], '/') == path
  {
    var h := Heading(path);
    assert h[4..|h| - 1] == Join(path, "/");
    SplitJoin(path, '/');
  }

  // ---------------------------------------------------------------------------
  // Language tags.

  /** Every mapped extension is an allowed one; the allowed ones left untagged are `.md`, `.txt` and `.toml`. */
  lemma TagTableCoversAllowed()
    ensures LanguageByExtension.Keys <= AllowedExtensions
    ensures AllowedExtensions - LanguageByExtension.Keys == {".md", ".txt", ".toml"}
  {
  }

  lemma UntaggedExtensions()
    ensures ".md" !in LanguageByExtension && ".txt" !in LanguageByExtension && ".toml" !in LanguageByExtension
  {
    TagTableCoversAllowed();
    assert ".md" in AllowedExtensions - LanguageByExtension.Keys;
    assert ".txt" in AllowedExtensions - LanguageByExtension.Keys;
    assert ".toml" in AllowedExtensions - LanguageByExtension.Keys;
  }

  /**
   * The tag of a file named by a non-empty stem and an extension is the tag of
   * that extension, lower-cased, and empty when the extension is unmapped.
   */
  lemma LanguageOfExtension(path: seq<string>, stem: string, ext: string)
    requires stem != [] && IsExtension(ext) && Name(path) == stem + ext
    ensures Lower(ext) in LanguageByExtension ==> LanguageFor(path) == LanguageByExtension[Lower(ext)]
    ensures Lower(ext) !in LanguageByExtension ==> LanguageFor(path) == ""
  {
    SuffixOfStemAndExtension(stem, ext);
  }

  /** A tagged file always passes `should_include_file`. */
  lemma TaggedFilesAreIncludedKinds(path: seq<string>)
    requires LanguageFor(path) != ""
    ensures ShouldIncludeFile(Name(path))
  {
    TagTableCoversAllowed();
  }

  /** The tag does not depend on the case of the name. */
  lemma LanguageCaseInsensitive(a: seq<string>, b: seq<string>)
    requires Lower(Name(a)) == Lower(Name(b))
    ensures LanguageFor(a) == LanguageFor(b)
  {
    SuffixLower(Name(a));
    SuffixLower(Name(b));
  }

  /** The tag of a file in any directory whose name is `stem + ext`. */
  lemma TagOfName(dirs: seq<string>, stem: string, ext: string)
    requires stem != [] && IsExtension(ext)
    ensures LanguageFor(dirs + [stem + ext]) == if Lower(ext) in LanguageByExtension then LanguageByExtension[Lower(ext)] else ""
  {
    assert Name(dirs + [stem + ext]) == stem + ext;
    LanguageOfExtension(dirs + [stem + ext], stem, ext);
  }

  /** `.sh` and `.bash` share the tag `bash`; `.yml` and `.yaml` share `yaml`, in either case. */
  lemma ShellTag(dirs: seq<string>, stem: string)
    requires stem != []
    ensures LanguageFor(dirs + [stem + ".sh"]) == "bash"
  {
    assert IsExtension(".sh") && Lower(".sh") == ".sh" by {
      assert Lower(".sh") == ".sh";
    }
    TagOfName(dirs, stem, ".sh");
  }

  lemma BashTag(dirs: seq<string>, stem: string)
    requires stem != []
    ensures LanguageFor(dirs + [stem + ".bash"]) == "bash"
  {
    assert IsExtension(".bash") && Lower(".bash") == ".bash" by {
      assert Lower(".bash") == ".bash";
    }
    TagOfName(dirs, stem, ".bash");
  }

  lemma YmlTag(dirs: seq<string>, stem: string)
    requires stem != []
    ensures LanguageFor(dirs + [stem + ".yml"]) == "yaml"
  {
    assert IsExtension(".yml") && Lower(".yml") == ".yml" by {
      assert Lower(".yml") == ".yml";
    }
    TagOfName(dirs, stem, ".yml");
  }

  lemma UpperYamlTag(dirs: seq<string>, stem: string)
    requires stem != []
    ensures LanguageFor(dirs + [stem + ".YAML"]) == "yaml"
  {
    assert IsExtension(".YAML") && Lower(".YAML") == ".yaml" by {
      assert Lower(".YAML") == ".yaml";
    }
    TagOfName(dirs, stem, ".YAML");
  }

  /** Markdown, text and TOML files are fenced without a tag. */
  lemma MarkdownUntagged(dirs: seq<string>, stem: string)
    requires stem != []
    ensures LanguageFor(dirs + [stem + ".md"]) == "" && Fence(LanguageFor(dirs + [stem + ".md"])) == "```"
  {
    assert IsExtension(".md") && Lower(".md") == ".md" by {
      assert Lower(".md") == ".md";
    }
    TagOfName(dirs, stem, ".md");
    UntaggedExtensions();
  }

  lemma TextUntagged(dirs: seq<string>, stem: string)
    requires stem != []
    ensures LanguageFor(dirs + [stem + ".txt"]) == ""
  {
    assert IsExtension(".txt") && Lower(".txt") == ".txt" by {
      assert Lower(".txt") == ".txt";
    }
    TagOfName(dirs, stem, ".txt");
    UntaggedExtensions();
  }

  lemma TomlUntagged(dirs: seq<string>, stem: string)
    requires stem != []
    ensures LanguageFor(dirs + [stem + ".toml"]) == ""
  {
    assert IsExtension(".toml") && Lower(".toml") == ".toml" by {
      assert Lower(".toml") == ".toml";
    }
    TagOfName(dirs, stem, ".toml");
    UntaggedExtensions();
  }
}

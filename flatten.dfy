/**
 * `write_output` and `main`: the two sections joined into the one document
 * the flattener writes to `repo_context.md`.
 */
module Flatten {
  import opened Ordering
  import opened Sorting
  import opened Strings
  import opened PathFilter
  import opened Tree
  import opened Structure
  import opened Contents
  import opened Walk

  /** The text `write_output` writes: the outline, an empty line, the contents, joined by newlines. */
  function Document(structure: seq<string>, contents: seq<string>): string {
    Join(structure + [""] + contents, "\n")
  }

  /** Two non-empty sections end up separated by exactly one blank line. */
  lemma DocumentSections(structure: seq<string>, contents: seq<string>)
    requires structure != [] && contents != []
    ensures Document(structure, contents) == Join(structure, "\n") + "\n\n" + Join(contents, "\n")
  {
    JoinAppend(structure + [""], contents, "\n");
    JoinAppend(structure, [""], "\n");
    assert Join([""], "\n") == "";
    assert Join(structure, "\n") + "\n" + "" + "\n" == Join(structure, "\n") + "\n\n";
  }

  /** When no line holds a newline, splitting the document at newlines gives back its lines. */
  lemma DocumentLines(structure: seq<string>, contents: seq<string>)
    requires forall k :: 0 <= k < |structure| ==> '\n' !in structure[k]
    requires forall k :: 0 <= k < |contents| ==> '\n' !in contents[k]
    ensures Split(Document(structure, contents), '\n') == structure + [""] + contents
  {
    var lines := structure + [""] + contents;
    forall k | 0 <= k < |lines| ensures '\n' !in lines[k] {
      if k < |structure| {
        assert lines[k] == structure[k];
      } else if k > |structure| {
        assert lines[k] == contents[k - |structure| - 1];
      }
    }
    SplitJoin(lines, '\n');
  }

  /** What `main()` writes for a walk whose listings are `walk`, reading files with `read`. */
  ghost function Output(walk: seq<Listing>, read: seq<string> -> ReadOutcome): string {
    var collected := Collected(walk);
    Document(StructureLines(InsertAll(Empty(), collected)), ContentLines(Sort(collected, PathLt), read))
  }

  /** `main()` after argument parsing, with the walk and the file reads as inputs. */
  method Run(walk: seq<Listing>, read: seq<string> -> ReadOutcome) returns (document: string)
    ensures document == Output(walk, read)
  {
    var tree, files := WalkRepository(walk);
    var structureLines := RenderStructure(tree);
    var contentLines := RenderFileContents(files, read);
    document := Document(structureLines, contentLines);
  }

  /**
   * The document opens with the outline's header, and the outline and the
   * file contents are separated by one blank line.
   */
  lemma OutputShape(walk: seq<Listing>, read: seq<string> -> ReadOutcome)
    ensures Output(walk, read) ==
      Join(StructureLines(InsertAll(Empty(), Collected(walk))), "\n") + "\n\n"
        + Join(ContentLines(Sort(Collected(walk), PathLt), read), "\n")
    ensures StructureLines(InsertAll(Empty(), Collected(walk)))[..2] == Header
    ensures ContentLines(Sort(Collected(walk), PathLt), read)[0] == ContentsHeader
  {
    DocumentSections(StructureLines(InsertAll(Empty(), Collected(walk))), ContentLines(Sort(Collected(walk), PathLt), read));
  }

  /**
   * The order in which the walk meets the files, and whether it meets one
   * twice, does not change the outline; the order alone does not change the
   * document either. In particular the outline is that of the tree built from
   * the sorted list of paths.
   */
  lemma WalkOrderIrrelevant(a: seq<Listing>, b: seq<Listing>, read: seq<string> -> ReadOutcome)
    ensures (forall p :: p in Collected(a) <==> p in Collected(b)) ==>
      StructureLines(InsertAll(Empty(), Collected(a))) == StructureLines(InsertAll(Empty(), Collected(b)))
    ensures multiset(Collected(a)) == multiset(Collected(b)) ==> Output(a, read) == Output(b, read)
  {
    forall p | p in Collected(a) ensures |p| > 0 {
      NeverSkippedOrOutput(a, p);
    }
    forall p | p in Collected(b) ensures |p| > 0 {
      NeverSkippedOrOutput(b, p);
    }
    if forall p :: p in Collected(a) <==> p in Collected(b) {
      StructureDependsOnlyOnPaths(Collected(a), Collected(b));
    }
    if multiset(Collected(a)) == multiset(Collected(b)) {
      forall p ensures p in Collected(a) <==> p in Collected(b) {
        assert p in multiset(Collected(a)) <==> p in multiset(Collected(b));
      }
      StructureDependsOnlyOnPaths(Collected(a), Collected(b));
      PathLtStrictTotal();
      SortPermutationInvariant(Collected(a), Collected(b), PathLt);
    }
  }

  lemma SortedTreeSameOutline(walk: seq<Listing>)
    ensures StructureLines(InsertAll(Empty(), Collected(walk)))
         == StructureLines(InsertAll(Empty(), Sort(Collected(walk), PathLt)))
  {
    WalkResult(walk);
    var ps := Collected(walk);
    forall p | p in ps ensures |p| > 0 {
      NeverSkippedOrOutput(walk, p);
    }
    forall p ensures p in ps <==> p in Sort(ps, PathLt) {
      assert p in multiset(ps) <==> p in multiset(Sort(ps, PathLt));
    }
    StructureDependsOnlyOnPaths(ps, Sort(ps, PathLt));
  }

  // ---------------------------------------------------------------------------
  // A small repository: `a/y.md`, `a/x.py` and `node_modules/ignored.js`.

  function SampleWalk(): seq<Listing> {
    [Listing([], []), Listing(["a"], ["y.md", "x.py"]), Listing(["node_modules"], ["ignored.js"])]
  }

  lemma MarkdownFileIncluded()
    ensures Included("y.md")
  {
    SuffixOfStemAndExtension("y", ".md");
    assert "y" + ".md" == "y.md";
    assert Lower(".md") == ".md";
  }

  lemma SortTwo<T(!new)>(x: T, y: T, lt: (T, T) -> bool)
    ensures Sort([x, y], lt) == if lt(y, x) then [y, x] else [x, y]
  {
    assert [x, y][1..] == [y];
    assert [y][1..] == [];
  }

  lemma PickedTwo(dir: seq<string>, x: string, y: string)
    requires Included(x) && Included(y)
    ensures Picked(dir, [x, y]) == [dir + [x], dir + [y]]
  {
    assert [x, y][..1] == [x];
    assert [x][..0] == [];
    assert Picked(dir, [x]) == [dir + [x]];
    assert Picked(dir, [x, y]) == Picked(dir, [x]) + [dir + [y]];
  }

  lemma CollectedThree(a: Listing, b: Listing, c: Listing)
    ensures Collected([a, b, c]) == Taken(a) + Taken(b) + Taken(c)
  {
    assert [a, b, c][..2] == [a, b];
    assert [a, b][..1] == [a];
    assert [a][..0] == [];
    assert Collected([a]) == Taken(a);
    assert Collected([a, b]) == Taken(a) + Taken(b);
    assert Collected([a, b, c]) == Collected([a, b]) + Taken(c);
  }

  lemma InsertAllTwo(d: Dir, p: seq<string>, q: seq<string>)
    ensures InsertAll(d, [p, q]) == Insert(Insert(d, p), q)
  {
    assert [p, q][..1] == [p];
    assert [p][..0] == [];
    assert InsertAll(d, [p]) == Insert(d, p);
    assert InsertAll(d, [p, q]) == Insert(InsertAll(d, [p]), q);
  }

  lemma XBeforeY()
    ensures StrLt("x.py", "y.md") && !StrLt("y.md", "x.py")
  {
    assert "x.py"[0] == 'x' && "y.md"[0] == 'y';
  }

  lemma SampleDescended()
    ensures Descended([]) && Descended(["a"]) && !Descended(["node_modules"])
  {
    assert ["node_modules"][0] == "node_modules";
  }

  /** From `a` the walk takes both files, in sorted order. */
  lemma SampleTaken()
    ensures Taken(Listing(["a"], ["y.md", "x.py"])) == [["a", "x.py"], ["a", "y.md"]]
  {
    SampleDescended();
    XBeforeY();
    SortTwo("y.md", "x.py", StrLt);
    PythonFileIncluded();
    MarkdownFileIncluded();
    PickedTwo(["a"], "x.py", "y.md");
    assert ["a"] + ["x.py"] == ["a", "x.py"];
    assert ["a"] + ["y.md"] == ["a", "y.md"];
  }

  /** The walk keeps both files of `a`, in sorted order, and never enters `node_modules`. */
  lemma SampleCollected()
    ensures Collected(SampleWalk()) == [["a", "x.py"], ["a", "y.md"]]
  {
    var root, a, skipped := Listing([], []), Listing(["a"], ["y.md", "x.py"]), Listing(["node_modules"], ["ignored.js"]);
    CollectedThree(root, a, skipped);
    SampleDescended();
    assert Taken(root) == [] by {
      assert Sort([], StrLt) == [];
    }
    assert Taken(skipped) == [];
    SampleTaken();
  }

  /** `sorted()` keeps the two paths as they are. */
  lemma SamplePathsSorted()
    ensures Sort([["a", "x.py"], ["a", "y.md"]], PathLt) == [["a", "x.py"], ["a", "y.md"]]
  {
    SortTwo(["a", "x.py"], ["a", "y.md"], PathLt);
    XBeforeY();
    assert ["a", "y.md"][1..] == ["y.md"] && ["a", "x.py"][1..] == ["x.py"];
    assert !PathLt(["a", "y.md"], ["a", "x.py"]);
  }

  /** The tree of the sample: one directory `a` holding the two files. */
  lemma SampleTree()
    ensures InsertAll(Empty(), [["a", "x.py"], ["a", "y.md"]]) == Dir(map["a" := Dir(map[], ["x.py", "y.md"])], [])
  {
    InsertAllTwo(Empty(), ["a", "x.py"], ["a", "y.md"]);
    assert ["a", "x.py"][1..] == ["x.py"];
    assert ["a", "y.md"][1..] == ["y.md"];
    assert Insert(Empty(), ["x.py"]) == Dir(map[], ["x.py"]) by {
      assert Empty().files + ["x.py"] == ["x.py"];
    }
    var first := Insert(Empty(), ["a", "x.py"]);
    assert first == Dir(map["a" := Dir(map[], ["x.py"])], []);
    assert "y.md" != "x.py" by {
      XBeforeY();
    }
    assert Insert(first.dirs["a"], ["y.md"]) == Dir(map[], ["x.py", "y.md"]);
    assert first.dirs["a" := Dir(map[], ["x.py", "y.md"])] == map["a" := Dir(map[], ["x.py", "y.md"])];
  }

  lemma SampleSubOutline()
    ensures RenderDir(Dir(map[], ["x.py", "y.md"]), 2) == [FileLine(2, "x.py"), FileLine(2, "y.md")]
  {
    var sub := Dir(map[], ["x.py", "y.md"]);
    assert |DirNames(sub)| == 0;
    XBeforeY();
    SortTwo("x.py", "y.md", StrLt);
    assert FileNames(sub) == ["x.py", "y.md"];
    assert ["x.py", "y.md"][..1] == ["x.py"];
    assert ["x.py"][..0] == [];
  }

  /** A directory without files: its outline is the blocks of its sub-directories. */
  lemma NoFilesOutline(d: Dir, indent: nat)
    requires d.files == []
    ensures RenderDir(d, indent) == DirBlocks(d, DirNames(d), indent)
  {
    assert FileNames(d) == [];
    assert FileLines([], indent) == [];
  }

  lemma SingleDirNames(name: string, sub: Dir)
    ensures DirNames(Dir(map[name := sub], [])) == [name]
  {
    var names := DirNames(Dir(map[name := sub], []));
    assert Dir(map[name := sub], []).dirs.Keys == {name};
    assert |names| == 1 && name in names;
  }

  /** A directory holding one sub-directory and no files: its line, then the sub-directory's outline. */
  lemma SingleDirOutline(name: string, sub: Dir, indent: nat)
    ensures RenderDir(Dir(map[name := sub], []), indent) == [DirLine(indent, name)] + RenderDir(sub, indent + 1)
  {
    var d := Dir(map[name := sub], []);
    NoFilesOutline(d, indent);
    SingleDirNames(name, sub);
    var names := [name];
    assert names[..0] == [] && names[..1] == names;
    DirBlocksUnfold(d, names, 0, indent);
    assert DirBlocks(d, [], indent) == [];
  }

  lemma SampleOutline()
    ensures RenderDir(Dir(map["a" := Dir(map[], ["x.py", "y.md"])], []), 1)
         == [DirLine(1, "a"), FileLine(2, "x.py"), FileLine(2, "y.md")]
  {
    var sub := Dir(map[], ["x.py", "y.md"]);
    var files := [FileLine(2, "x.py"), FileLine(2, "y.md")];
    assert RenderDir(Dir(map["a" := sub], []), 1) == [DirLine(1, "a")] + files by {
      SingleDirOutline("a", sub, 1);
      SampleSubOutline();
    }
    assert [DirLine(1, "a")] + files == [DirLine(1, "a"), FileLine(2, "x.py"), FileLine(2, "y.md")];
  }

  lemma SampleLines()
    ensures DirLine(1, "a") == "  - `a/`"
    ensures FileLine(2, "x.py") == "    - `x.py`"
    ensures FileLine(2, "y.md") == "    - `y.md`"
  {
    assert Spacer(1) == "  ";
    assert Spacer(2) == "    ";
  }

  /** The outline of the sample, line by line. */
  lemma SampleStructure()
    ensures StructureLines(Dir(map["a" := Dir(map[], ["x.py", "y.md"])], []))
         == ["# Repository structure", "- `/`", "  - `a/`", "    - `x.py`", "    - `y.md`"]
  {
    SampleOutline();
    SampleLines();
  }

  /** The document for the sample: the outline above, then the two files in path order. */
  lemma SampleOutput(read: seq<string> -> ReadOutcome)
    ensures Output(SampleWalk(), read) == Document(
      ["# Repository structure", "- `/`", "  - `a/`", "    - `x.py`", "    - `y.md`"],
      ContentLines([["a", "x.py"], ["a", "y.md"]], read))
  {
    SampleCollected();
    SampleTree();
    SampleStructure();
    SamplePathsSorted();
  }
}

/**
 * `render_structure`: the indented outline of the tree. At every level the
 * sub-directories come first, in ascending name order, each followed by its
 * own outline one level deeper; then the files, in ascending name order.
 */
module Structure {
  import opened Ordering
  import opened Sorting
  import opened Tree

  /** The two fixed lines the outline starts with. */
  const Header: seq<string> := ["# Repository structure", "- `/`"]

  /** `"  " * indent`. */
  function Spacer(indent: nat): (s: string)
    ensures |s| == 2 * indent
    ensures forall i :: 0 <= i < |s| ==> s[i] == ' '
  {
    if indent == 0 then "" else Spacer(indent - 1) + "  "
  }

  function DirLine(indent: nat, name: string): string {
    Spacer(indent) + "- `" + name + "/`"
  }

  function FileLine(indent: nat, name: string): string {
    Spacer(indent) + "- `" + name + "`"
  }

  /** The outline of `d` at depth `indent`: what `_render(node, indent)` appends. */
  ghost function RenderDir(d: Dir, indent: nat): seq<string>
    decreases d, 1
  {
    DirBlocks(d, DirNames(d), indent) + FileLines(FileNames(d), indent)
  }

  /** `sorted(node.children)`: the sub-directory names in ascending order. */
  ghost function DirNames(d: Dir): (r: seq<string>)
    ensures forall n :: n in r <==> n in d.dirs
  {
    SortedNameSet(d.dirs.Keys)
  }

  /** `sorted(node.files)`. */
  ghost function FileNames(d: Dir): seq<string> {
    Sort(d.files, StrLt)
  }

  /** `sorted(names)` for a set of strings. */
  ghost function SortedNameSet(names: set<string>): (r: seq<string>)
    ensures forall n :: n in r <==> n in names
    ensures |r| == |names|
  {
    StrLtStrictTotal();
    SortedSet(names, StrLt)
  }

  method ListNames(names: set<string>) returns (r: seq<string>)
    ensures r == SortedNameSet(names)
  {
    StrLtStrictTotal();
    r := SortedElements(names, StrLt);
  }

  /** For each name in `names`: its directory line, then the outline below it. */
  ghost function DirBlocks(d: Dir, names: seq<string>, indent: nat): seq<string>
    requires forall n :: n in names ==> n in d.dirs
    decreases d, 0, |names|
  {
    if names == [] then []
    else
      var last := names[|names| - 1];
      DirBlocks(d, names[..|names| - 1], indent) + [DirLine(indent, last)] + RenderDir(d.dirs[last], indent + 1)
  }

  function FileLines(names: seq<string>, indent: nat): seq<string>
    decreases |names|
  {
    if names == [] then []
    else FileLines(names[..|names| - 1], indent) + [FileLine(indent, names[|names| - 1])]
  }

  /** The whole result of `render_structure` for a tree whose value is `d`. */
  ghost function StructureLines(d: Dir): seq<string> {
    Header + RenderDir(d, 1)
  }

  lemma DirBlocksUnfold(d: Dir, names: seq<string>, i: nat, indent: nat)
    requires i < |names| && forall n :: n in names ==> n in d.dirs
    ensures DirBlocks(d, names[..i + 1], indent)
         == DirBlocks(d, names[..i], indent) + [DirLine(indent, names[i])] + RenderDir(d.dirs[names[i]], indent + 1)
  {
    assert names[..i + 1][..i] == names[..i];
  }

  /**
   * Regrouping a concatenation. Stated for any sequences so that the outline
   * proofs use it without unfolding the outline functions in the terms.
   */
  lemma Append3Assoc<T>(a: seq<T>, b: seq<T>, c: seq<T>)
    ensures a + b + c == a + (b + c)
  {
  }

  lemma AppendAssoc<T>(a: seq<T>, b: seq<T>, c: seq<T>, e: seq<T>)
    ensures a + b + c + e == a + (b + c + e)
  {
  }

  lemma DirBlocksStep(d: Dir, names: seq<string>, i: nat, indent: nat, lines: seq<string>, before: seq<string>, after: seq<string>)
    requires i < |names| && forall n :: n in names ==> n in d.dirs
    requires before == lines + DirBlocks(d, names[..i], indent)
    requires after == before + [DirLine(indent, names[i])] + RenderDir(d.dirs[names[i]], indent + 1)
    ensures after == lines + DirBlocks(d, names[..i + 1], indent)
  {
    DirBlocksUnfold(d, names, i, indent);
    AppendAssoc(lines, DirBlocks(d, names[..i], indent), [DirLine(indent, names[i])], RenderDir(d.dirs[names[i]], indent + 1));
  }

  lemma FileLinesStep(names: seq<string>, j: nat, indent: nat, lines: seq<string>, before: seq<string>, after: seq<string>)
    requires j < |names|
    requires before == lines + FileLines(names[..j], indent)
    requires after == before + [FileLine(indent, names[j])]
    ensures after == lines + FileLines(names[..j + 1], indent)
  {
    assert names[..j + 1][..j] == names[..j];
  }

  /** `render_structure(tree)`. */
  method RenderStructure(tree: TreeNode) returns (lines: seq<string>)
    requires tree.Valid()
    ensures lines == StructureLines(tree.model)
  {
    lines := ["# Repository structure", "- `/`"];
    lines := RenderNode(tree, 1, lines);
  }

  /** The nested `_render(node, indent)`, appending to `lines`. */
  method RenderNode(node: TreeNode, indent: nat, lines: seq<string>) returns (out: seq<string>)
    requires node.Valid()
    ensures out == lines + RenderDir(node.model, indent)
    decreases node.Repr, 2
  {
    out := RenderChildren(node, indent, lines);
    var files := Sort(node.files, StrLt);
    assert files == FileNames(node.model);
    out := RenderFiles(files, indent, out);
    Append3Assoc(lines, DirBlocks(node.model, DirNames(node.model), indent), FileLines(files, indent));
  }

  /** The first loop of `_render`: each sub-directory line followed by its outline. */
  method RenderChildren(node: TreeNode, indent: nat, lines: seq<string>) returns (out: seq<string>)
    requires node.Valid()
    ensures out == lines + DirBlocks(node.model, DirNames(node.model), indent)
    decreases node.Repr, 1
  {
    var spacer := Spacer(indent);
    out := lines;
    var names := ListNames(node.dirs.Keys);
    var i := 0;
    while i < |names|
      invariant 0 <= i <= |names|
      invariant out == lines + DirBlocks(node.model, names[..i], indent)
    {
      ghost var before := out;
      out := RenderChild(node, names[i], spacer, indent, out);
      DirBlocksStep(node.model, names, i, indent, lines, before, out);
      i := i + 1;
    }
    assert names[..i] == names;
  }

  /** One turn of that loop: the line of `directory`, then its outline one level deeper. */
  method RenderChild(node: TreeNode, directory: string, spacer: string, indent: nat, lines: seq<string>)
    returns (out: seq<string>)
    requires node.Valid() && directory in node.dirs
    requires spacer == Spacer(indent)
    ensures out == lines + [DirLine(indent, directory)] + RenderDir(node.model.dirs[directory], indent + 1)
    decreases node.Repr, 0
  {
    assert node.ChildValid(directory);
    out := lines + [spacer + "- `" + directory + "/`"];
    out := RenderNode(node.dirs[directory], indent + 1, out);
  }

  /** The second loop of `_render`: one line per file, in the order given. */
  method RenderFiles(files: seq<string>, indent: nat, lines: seq<string>) returns (out: seq<string>)
    ensures out == lines + FileLines(files, indent)
  {
    var spacer := Spacer(indent);
    out := lines;
    var j := 0;
    while j < |files|
      invariant 0 <= j <= |files|
      invariant out == lines + FileLines(files[..j], indent)
    {
      ghost var before := out;
      out := out + [spacer + "- `" + files[j] + "`"];
      FileLinesStep(files, j, indent, lines, before, out);
      j := j + 1;
    }
    assert files[..j] == files;
  }

  // ---------------------------------------------------------------------------
  // The outline depends only on which files the tree holds.

  lemma {:induction false} NoDuplicatesCount(s: seq<string>, x: string)
    requires NoDuplicates(s)
    ensures multiset(s)[x] == if x in s then 1 else 0
    decreases |s|
  {
    if s != [] {
      assert s == s[..|s| - 1] + [s[|s| - 1]];
      assert NoDuplicates(s[..|s| - 1]);
      NoDuplicatesCount(s[..|s| - 1], x);
    }
  }

  /** Two duplicate-free lists with the same members sort to the same list. */
  lemma SameFileNames(a: Dir, b: Dir)
    requires NoDuplicates(a.files) && NoDuplicates(b.files)
    requires forall f :: f in a.files <==> f in b.files
    ensures FileNames(a) == FileNames(b)
  {
    forall x ensures multiset(a.files)[x] == multiset(b.files)[x] {
      NoDuplicatesCount(a.files, x);
      NoDuplicatesCount(b.files, x);
    }
    assert multiset(a.files) == multiset(b.files);
    StrLtStrictTotal();
    SortPermutationInvariant(a.files, b.files, StrLt);
  }

  lemma ContainsBelow(d: Dir, k: string, q: seq<string>)
    requires |q| > 0
    ensures Contains(d, [k] + q) <==> k in d.dirs && Contains(d.dirs[k], q)
  {
    assert ([k] + q)[1..] == q;
  }

  /** In a well-formed tree a name is a sub-directory exactly when some file lies below it. */
  lemma DirIsOnSomePath(d: Dir, k: string) returns (q: seq<string>)
    requires WellFormed(d) && k in d.dirs
    ensures |q| > 0 && Contains(d, [k] + q)
  {
    q := HasFileWitness(d.dirs[k]);
    if |q| == 0 {
      assert false;
    }
    ContainsBelow(d, k, q);
  }

  lemma {:induction false} DirBlocksAgree(a: Dir, b: Dir, names: seq<string>, indent: nat)
    requires forall n :: n in names ==> n in a.dirs && n in b.dirs
    requires forall n :: n in names ==> RenderDir(a.dirs[n], indent + 1) == RenderDir(b.dirs[n], indent + 1)
    ensures DirBlocks(a, names, indent) == DirBlocks(b, names, indent)
    decreases |names|
  {
    if names != [] {
      DirBlocksAgree(a, b, names[..|names| - 1], indent);
    }
  }

  /**
   * Well-formed trees holding the same files render the same outline, whatever
   * order their files were added in.
   */
  lemma {:induction false} RenderDependsOnlyOnFiles(a: Dir, b: Dir, indent: nat)
    requires WellFormed(a) && WellFormed(b)
    requires forall q :: Contains(a, q) <==> Contains(b, q)
    ensures RenderDir(a, indent) == RenderDir(b, indent)
    decreases a
  {
    forall f ensures f in a.files <==> f in b.files {
      assert Contains(a, [f]) <==> Contains(b, [f]);
    }
    SameFileNames(a, b);
    forall k | k in a.dirs ensures k in b.dirs {
      var q := DirIsOnSomePath(a, k);
      ContainsBelow(b, k, q);
    }
    forall k | k in b.dirs ensures k in a.dirs {
      var q := DirIsOnSomePath(b, k);
      ContainsBelow(a, k, q);
    }
    assert a.dirs.Keys == b.dirs.Keys;
    forall k | k in a.dirs ensures RenderDir(a.dirs[k], indent + 1) == RenderDir(b.dirs[k], indent + 1) {
      forall q ensures Contains(a.dirs[k], q) <==> Contains(b.dirs[k], q) {
        if |q| > 0 {
          ContainsBelow(a, k, q);
          ContainsBelow(b, k, q);
        }
      }
      RenderDependsOnlyOnFiles(a.dirs[k], b.dirs[k], indent + 1);
    }
    DirBlocksAgree(a, b, DirNames(a), indent);
  }

  /**
   * The outline of the tree built from a list of paths depends only on which
   * paths it holds, not on their order or repetitions.
   */
  lemma StructureDependsOnlyOnPaths(ps: seq<seq<string>>, qs: seq<seq<string>>)
    requires forall p :: p in ps ==> |p| > 0
    requires forall q :: q in qs ==> |q| > 0
    requires forall p :: p in ps <==> p in qs
    ensures StructureLines(InsertAll(Empty(), ps)) == StructureLines(InsertAll(Empty(), qs))
  {
    InsertAllContains(ps);
    InsertAllContains(qs);
    RenderDependsOnlyOnFiles(InsertAll(Empty(), ps), InsertAll(Empty(), qs), 1);
  }

  // ---------------------------------------------------------------------------
  // Every recorded file, and every directory on its path, is listed at its depth.

  lemma {:induction false} FileLinesMember(names: seq<string>, x: string, indent: nat)
    requires x in names
    ensures FileLine(indent, x) in FileLines(names, indent)
    decreases |names|
  {
    if names[|names| - 1] != x {
      assert x in names[..|names| - 1] by {
        assert names == names[..|names| - 1] + [names[|names| - 1]];
      }
      FileLinesMember(names[..|names| - 1], x, indent);
    }
  }

  /**
   * `lines` shows the file at path `q` below depth `indent`. A one-part path is
   * a file line at this depth. A longer one has the line of its first directory,
   * followed by a run of lines all indented one level deeper, that directory's
   * block, within which the rest of the path is shown one level down.
   */
  ghost predicate ListsPath(lines: seq<string>, q: seq<string>, indent: nat)
    requires |q| > 0
    decreases |q|
  {
    if |q| == 1 then FileLine(indent, q[0]) in lines
    else
      exists i, j :: 0 < i <= j <= |lines| && lines[i - 1] == DirLine(indent, q[0])
        && AllIndented(lines[i..j], indent + 1) && ListsPath(lines[i..j], q[1..], indent + 1)
  }

  /** The line and block of each sub-directory form one contiguous run of the directory blocks. */
  lemma {:induction false} DirBlockSlice(d: Dir, names: seq<string>, n: string, indent: nat)
    returns (pre: seq<string>, post: seq<string>)
    requires forall m :: m in names ==> m in d.dirs
    requires n in names
    ensures DirBlocks(d, names, indent) == pre + [DirLine(indent, n)] + RenderDir(d.dirs[n], indent + 1) + post
    decreases |names|
  {
    var i := |names| - 1;
    DirBlocksUnfold(d, names, i, indent);
    assert names[..i + 1] == names;
    if names[i] == n {
      pre, post := DirBlocks(d, names[..i], indent), [];
    } else {
      InInit(names, n);
      var pre', post' := DirBlockSlice(d, names[..i], n, indent);
      pre, post := pre', post' + [DirLine(indent, names[i])] + RenderDir(d.dirs[names[i]], indent + 1);
      AppendAssoc(pre' + [DirLine(indent, n)] + RenderDir(d.dirs[n], indent + 1), post',
                  [DirLine(indent, names[i])], RenderDir(d.dirs[names[i]], indent + 1));
    }
  }

  lemma InInit<T>(s: seq<T>, x: T)
    requires x in s && x != s[|s| - 1]
    ensures x in s[..|s| - 1]
  {
    var k :| 0 <= k < |s| && s[k] == x;
    assert s[..|s| - 1][k] == x;
  }

  /** A directory line followed by a deeper block showing the rest of a path shows the path. */
  lemma DirLineThenBlock(block: seq<string>, q: seq<string>, indent: nat)
    requires |q| > 1 && AllIndented(block, indent + 1) && ListsPath(block, q[1..], indent + 1)
    ensures ListsPath([DirLine(indent, q[0])] + block, q, indent)
  {
    var lines := [DirLine(indent, q[0])] + block;
    assert lines[0] == DirLine(indent, q[0]);
    assert lines[1..|lines|] == block;
  }

  /** Lines around a listing leave it in place. */
  lemma ListsPathInContext(pre: seq<string>, a: seq<string>, post: seq<string>, q: seq<string>, indent: nat)
    requires |q| > 0 && ListsPath(a, q, indent)
    ensures ListsPath(pre + a + post, q, indent)
  {
    var b := pre + a + post;
    if |q| > 1 {
      var i, j :| 0 < i <= j <= |a| && a[i - 1] == DirLine(indent, q[0])
        && AllIndented(a[i..j], indent + 1) && ListsPath(a[i..j], q[1..], indent + 1);
      assert b[|pre| + i - 1] == a[i - 1];
      assert b[|pre| + i..|pre| + j] == a[i..j];
    } else {
      assert FileLine(indent, q[0]) in a;
    }
  }

  /** Every file the tree records is shown in its outline, nested in the blocks of its directories. */
  lemma {:induction false} RenderListsFile(d: Dir, q: seq<string>, indent: nat)
    requires Contains(d, q)
    ensures ListsPath(RenderDir(d, indent), q, indent)
    decreases |q|
  {
    if |q| == 1 {
      assert q[0] in multiset(Sort(d.files, StrLt));
      FileLinesMember(FileNames(d), q[0], indent);
    } else {
      var child := d.dirs[q[0]];
      var block := RenderDir(child, indent + 1);
      RenderListsFile(child, q[1..], indent + 1);
      RenderIndented(child, indent + 1);
      DirLineThenBlock(block, q, indent);
      var pre, post := DirOutlineSlice(d, q[0], indent);
      ListsPathInContext(pre, [DirLine(indent, q[0])] + block, post, q, indent);
    }
  }

  /** The outline of a directory holds the line and block of each of its sub-directories as one run. */
  lemma DirOutlineSlice(d: Dir, n: string, indent: nat) returns (pre: seq<string>, post: seq<string>)
    requires n in d.dirs
    ensures RenderDir(d, indent) == pre + ([DirLine(indent, n)] + RenderDir(d.dirs[n], indent + 1)) + post
  {
    var pre', post' := DirBlockSlice(d, DirNames(d), n, indent);
    var files := FileLines(FileNames(d), indent);
    pre, post := pre', post' + files;
    Regroup(pre', [DirLine(indent, n)], RenderDir(d.dirs[n], indent + 1), post', files);
  }

  lemma Regroup<T>(a: seq<T>, b: seq<T>, c: seq<T>, e: seq<T>, f: seq<T>)
    ensures a + b + c + e + f == a + (b + c) + (e + f)
  {
  }

  /** The outline of a tree built from `ps` shows every one of those paths. */
  lemma StructureListsEveryPath(ps: seq<seq<string>>, p: seq<string>)
    requires forall q :: q in ps ==> |q| > 0
    requires p in ps
    ensures ListsPath(StructureLines(InsertAll(Empty(), ps)), p, 1)
  {
    InsertAllContains(ps);
    var lines := RenderDir(InsertAll(Empty(), ps), 1);
    RenderListsFile(InsertAll(Empty(), ps), p, 1);
    ListsPathInContext(Header, lines, [], p, 1);
    assert Header + lines + [] == Header + lines;
  }

  // ---------------------------------------------------------------------------
  // Reading one level: the sub-directories in ascending order, then the files.

  /** The entry marker `-` of `line` sits at the column of depth `indent`. */
  predicate IsAtDepth(line: string, indent: nat) {
    |line| > 2 * indent && line[2 * indent] == '-'
  }

  /** The lines of depth `indent` among `lines`, in order. */
  ghost function AtDepth(lines: seq<string>, indent: nat): seq<string>
    decreases |lines|
  {
    if lines == [] then []
    else
      var last := lines[|lines| - 1];
      AtDepth(lines[..|lines| - 1], indent) + (if IsAtDepth(last, indent) then [last] else [])
  }

  function DirLines(names: seq<string>, indent: nat): seq<string>
    decreases |names|
  {
    if names == [] then []
    else DirLines(names[..|names| - 1], indent) + [DirLine(indent, names[|names| - 1])]
  }

  lemma {:induction false} AtDepthAppend(a: seq<string>, b: seq<string>, indent: nat)
    ensures AtDepth(a + b, indent) == AtDepth(a, indent) + AtDepth(b, indent)
    decreases |b|
  {
    if b == [] {
      assert a + b == a;
    } else {
      var b' := b[..|b| - 1];
      assert (a + b)[..|a + b| - 1] == a + b';
      AtDepthAppend(a, b', indent);
    }
  }

  /** `line` starts with the `2 * indent` spaces of depth `indent` and goes on after them. */
  predicate Indented(line: string, indent: nat) {
    |line| > 2 * indent && forall c :: 0 <= c < 2 * indent ==> line[c] == ' '
  }

  ghost predicate AllIndented(lines: seq<string>, indent: nat) {
    forall l :: l in lines ==> Indented(l, indent)
  }

  lemma EntryIndented(indent: nat, name: string)
    ensures Indented(DirLine(indent, name), indent) && IsAtDepth(DirLine(indent, name), indent)
    ensures Indented(FileLine(indent, name), indent) && IsAtDepth(FileLine(indent, name), indent)
  {
  }

  lemma DeeperIndented(lines: seq<string>, indent: nat)
    requires AllIndented(lines, indent + 1)
    ensures AllIndented(lines, indent)
    ensures forall l :: l in lines ==> !IsAtDepth(l, indent)
  {
    forall l | l in lines ensures Indented(l, indent) && !IsAtDepth(l, indent) {
      assert l[2 * indent] == ' ';
    }
  }

  /** Every line of the outline at depth `indent` is indented at least that far. */
  lemma {:induction false} RenderIndented(d: Dir, indent: nat)
    ensures AllIndented(RenderDir(d, indent), indent)
    decreases d, 1
  {
    DirBlocksIndented(d, DirNames(d), indent);
    FileLinesIndented(FileNames(d), indent);
  }

  lemma {:induction false} DirBlocksIndented(d: Dir, names: seq<string>, indent: nat)
    requires forall n :: n in names ==> n in d.dirs
    ensures AllIndented(DirBlocks(d, names, indent), indent)
    decreases d, 0, |names|
  {
    if names != [] {
      var last := names[|names| - 1];
      DirBlocksIndented(d, names[..|names| - 1], indent);
      RenderIndented(d.dirs[last], indent + 1);
      DeeperIndented(RenderDir(d.dirs[last], indent + 1), indent);
      EntryIndented(indent, last);
    }
  }

  lemma {:induction false} FileLinesIndented(names: seq<string>, indent: nat)
    ensures AllIndented(FileLines(names, indent), indent)
    decreases |names|
  {
    if names != [] {
      FileLinesIndented(names[..|names| - 1], indent);
      EntryIndented(indent, names[|names| - 1]);
    }
  }

  lemma {:induction false} AtDepthNone(lines: seq<string>, indent: nat)
    requires forall l :: l in lines ==> !IsAtDepth(l, indent)
    ensures AtDepth(lines, indent) == []
    decreases |lines|
  {
    if lines != [] {
      assert lines[|lines| - 1] in lines;
      AtDepthNone(lines[..|lines| - 1], indent);
    }
  }

  lemma AtDepthSingle(line: string, indent: nat)
    requires IsAtDepth(line, indent)
    ensures AtDepth([line], indent) == [line]
  {
    assert [line][..0] == [];
  }

  lemma {:induction false} AtDepthDirBlocks(d: Dir, names: seq<string>, indent: nat)
    requires forall n :: n in names ==> n in d.dirs
    ensures AtDepth(DirBlocks(d, names, indent), indent) == DirLines(names, indent)
    decreases |names|
  {
    if names != [] {
      var init, last := names[..|names| - 1], names[|names| - 1];
      var blocks, line, below := DirBlocks(d, init, indent), [DirLine(indent, last)], RenderDir(d.dirs[last], indent + 1);
      AtDepthDirBlocks(d, init, indent);
      AtDepthAppend(blocks, line, indent);
      AtDepthAppend(blocks + line, below, indent);
      RenderIndented(d.dirs[last], indent + 1);
      DeeperIndented(below, indent);
      AtDepthNone(below, indent);
      EntryIndented(indent, last);
      AtDepthSingle(DirLine(indent, last), indent);
    }
  }

  lemma {:induction false} AtDepthFileLines(names: seq<string>, indent: nat)
    ensures AtDepth(FileLines(names, indent), indent) == FileLines(names, indent)
    decreases |names|
  {
    if names != [] {
      var init, last := names[..|names| - 1], names[|names| - 1];
      AtDepthFileLines(init, indent);
      AtDepthAppend(FileLines(init, indent), [FileLine(indent, last)], indent);
      EntryIndented(indent, last);
      AtDepthSingle(FileLine(indent, last), indent);
    }
  }

  /**
   * The entries directly inside a directory, read off its outline, are its
   * sub-directories in strictly ascending order followed by its files in
   * ascending order; every sub-directory and every file is there.
   */
  lemma OneLevel(d: Dir, indent: nat)
    ensures AtDepth(RenderDir(d, indent), indent) == DirLines(DirNames(d), indent) + FileLines(FileNames(d), indent)
    ensures StrictlySorted(DirNames(d), StrLt) && forall n :: n in DirNames(d) <==> n in d.dirs
    ensures Sorted(FileNames(d), StrLt) && multiset(FileNames(d)) == multiset(d.files)
  {
    AtDepthAppend(DirBlocks(d, DirNames(d), indent), FileLines(FileNames(d), indent), indent);
    AtDepthDirBlocks(d, DirNames(d), indent);
    AtDepthFileLines(FileNames(d), indent);
    StrLtStrictTotal();
    SortedSetStrictlySorted(d.dirs.Keys, StrLt);
    SortSorted(d.files, StrLt);
  }
}

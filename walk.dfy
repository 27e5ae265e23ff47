/**
 * `walk_repository`: the included files, recorded in the tree and listed in
 * path order. The traversal itself is an input: the listings `os.walk(root)`
 * would produce top-down without pruning, each a directory (as parts relative
 * to the root) with the names of the files in it.
 */
module Walk {
  import opened Ordering
  import opened Sorting
  import opened PathFilter
  import opened Tree

  datatype Listing = Listing(dir: seq<string>, filenames: seq<string>)

  /** The paths taken from one directory whose file names, in the order visited, are `names`. */
  function Picked(dir: seq<string>, names: seq<string>): seq<seq<string>>
    decreases |names|
  {
    if names == [] then []
    else
      var name := names[|names| - 1];
      Picked(dir, names[..|names| - 1]) + (if Included(name) then [dir + [name]] else [])
  }

  /** The paths taken from one listing: none below a skipped directory, else its names in sorted order. */
  function Taken(listing: Listing): seq<seq<string>> {
    if Descended(listing.dir) then Picked(listing.dir, Sort(listing.filenames, StrLt)) else []
  }

  /** The paths the walk takes, in the order it takes them. */
  function Collected(walk: seq<Listing>): seq<seq<string>>
    decreases |walk|
  {
    if walk == [] then [] else Collected(walk[..|walk| - 1]) + Taken(walk[|walk| - 1])
  }

  lemma PickedStep(dir: seq<string>, names: seq<string>, j: nat)
    requires j < |names|
    ensures Picked(dir, names[..j + 1]) == Picked(dir, names[..j]) + (if Included(names[j]) then [dir + [names[j]]] else [])
  {
    assert names[..j + 1][..j] == names[..j];
  }

  lemma CollectedStep(walk: seq<Listing>, i: nat)
    requires i < |walk|
    ensures Collected(walk[..i + 1]) == Collected(walk[..i]) + Taken(walk[i])
  {
    assert walk[..i + 1][..i] == walk[..i];
  }

  /** One more name of a directory: the paths taken so far grow by that name's path exactly when it passes both checks. */
  lemma TakeStep(dir: seq<string>, names: seq<string>, j: nat, allowed: seq<seq<string>>, taken: seq<seq<string>>)
    requires j < |names| && taken == allowed + Picked(dir, names[..j])
    ensures Included(names[j]) ==> taken + [dir + [names[j]]] == allowed + Picked(dir, names[..j + 1])
    ensures !Included(names[j]) ==> taken == allowed + Picked(dir, names[..j + 1])
  {
    PickedStep(dir, names, j);
    assert allowed + Picked(dir, names[..j]) + (if Included(names[j]) then [dir + [names[j]]] else [])
      == allowed + (Picked(dir, names[..j]) + (if Included(names[j]) then [dir + [names[j]]] else []));
  }

  /** `walk_repository(root)`. */
  method WalkRepository(walk: seq<Listing>) returns (tree: TreeNode, files: seq<seq<string>>)
    ensures tree.Valid() && fresh(tree.Repr)
    ensures tree.model == InsertAll(Empty(), Collected(walk))
    ensures files == Sort(Collected(walk), PathLt)
  {
    tree := new TreeNode();
    var allowed: seq<seq<string>> := [];
    for i := 0 to |walk|
      invariant tree.Valid() && fresh(tree.Repr)
      invariant tree.model == InsertAll(Empty(), allowed)
      invariant allowed == Collected(walk[..i])
    {
      var listing := walk[i];
      ghost var before := allowed;
      if Descended(listing.dir) {
        var names := Sort(listing.filenames, StrLt);
        allowed := WalkDirectory(tree, listing.dir, names, allowed);
      } else {
        assert allowed == before + [];
      }
      CollectedStep(walk, i);
    }
    assert walk[..|walk|] == walk;
    files := Sort(allowed, PathLt);
  }

  /** The inner loop of `walk_repository`: the checks on each name of one directory. */
  method WalkDirectory(tree: TreeNode, dir: seq<string>, names: seq<string>, allowed: seq<seq<string>>)
    returns (taken: seq<seq<string>>)
    requires tree.Valid() && tree.model == InsertAll(Empty(), allowed)
    modifies tree.Repr
    ensures tree.Valid() && fresh(tree.Repr - old(tree.Repr))
    ensures taken == allowed + Picked(dir, names)
    ensures tree.model == InsertAll(Empty(), taken)
  {
    taken := allowed;
    for j := 0 to |names|
      invariant tree.Valid() && fresh(tree.Repr - old(tree.Repr))
      invariant taken == allowed + Picked(dir, names[..j])
      invariant tree.model == InsertAll(Empty(), taken)
    {
      var name := names[j];
      TakeStep(dir, names, j, allowed, taken);
      if name == OutputFilename {
        continue;
      }
      if !ShouldIncludeFile(name) {
        continue;
      }
      var relPath := dir + [name];
      tree.AddPath(relPath);
      assert (taken + [relPath])[..|taken|] == taken;
      taken := taken + [relPath];
    }
    assert names[..|names|] == names;
  }

  // ---------------------------------------------------------------------------
  // Which paths are taken.

  lemma {:induction false} PickedMembership(dir: seq<string>, names: seq<string>, p: seq<string>)
    ensures p in Picked(dir, names) <==>
      |p| == |dir| + 1 && p[..|dir|] == dir && p[|dir|] in names && Included(p[|dir|])
    decreases |names|
  {
    if names != [] {
      var init, name := names[..|names| - 1], names[|names| - 1];
      PickedMembership(dir, init, p);
      assert names == init + [name];
      if p == dir + [name] {
        assert p[..|dir|] == dir;
      }
      if |p| == |dir| + 1 && p[..|dir|] == dir && p[|dir|] == name {
        assert p == dir + [name];
      }
    }
  }

  /** Listing `l` shows file `p`: a directory the walk reaches lists `p`'s name, which passes both checks. */
  predicate Shows(l: Listing, p: seq<string>) {
    Descended(l.dir) && |p| == |l.dir| + 1 && p[..|l.dir|] == l.dir
      && p[|l.dir|] in l.filenames && Included(p[|l.dir|])
  }

  /** A name is in a directory's sorted listing exactly when it is in the listing. */
  lemma SortedNamesMember(names: seq<string>, name: string)
    ensures name in Sort(names, StrLt) <==> name in names
  {
    assert name in multiset(Sort(names, StrLt)) <==> name in multiset(names);
  }

  lemma PickedShows(l: Listing, p: seq<string>)
    requires Descended(l.dir)
    ensures p in Picked(l.dir, Sort(l.filenames, StrLt)) <==> Shows(l, p)
  {
    PickedMembership(l.dir, Sort(l.filenames, StrLt), p);
    if |p| == |l.dir| + 1 {
      SortedNamesMember(l.filenames, p[|l.dir|]);
    }
  }

  /** A listing takes exactly the paths it shows. */
  lemma TakenShows(l: Listing, p: seq<string>)
    ensures p in Taken(l) <==> Shows(l, p)
  {
    if Descended(l.dir) {
      PickedShows(l, p);
    }
  }

  /** Each path taken is taken from some listing of the walk. */
  lemma {:induction false} CollectedTaken(walk: seq<Listing>, p: seq<string>) returns (i: nat)
    requires p in Collected(walk)
    ensures i < |walk| && p in Taken(walk[i])
    decreases |walk|
  {
    var init := walk[..|walk| - 1];
    if p in Collected(init) {
      i := CollectedTaken(init, p);
      assert walk[i] == init[i];
    } else {
      i := |walk| - 1;
    }
  }

  /** Each path some listing of the walk takes is in the result. */
  lemma {:induction false} TakenCollected(walk: seq<Listing>, i: nat, p: seq<string>)
    requires i < |walk| && p in Taken(walk[i])
    ensures p in Collected(walk)
    decreases |walk|
  {
    var init, last := walk[..|walk| - 1], walk[|walk| - 1];
    assert Collected(walk) == Collected(init) + Taken(last);
    if i < |init| {
      assert init[i] == walk[i];
      TakenCollected(init, i, p);
    } else {
      assert walk[i] == last;
    }
  }

  /**
   * The walk takes a path exactly when it names a file listed in a directory
   * it reaches, and that file passes both checks.
   */
  lemma CollectedMembership(walk: seq<Listing>, p: seq<string>)
    ensures p in Collected(walk) <==> (exists i :: 0 <= i < |walk| && Shows(walk[i], p))
  {
    if p in Collected(walk) {
      var i := CollectedTaken(walk, p);
      TakenShows(walk[i], p);
    }
    if exists i :: 0 <= i < |walk| && Shows(walk[i], p) {
      var i :| 0 <= i < |walk| && Shows(walk[i], p);
      TakenShows(walk[i], p);
      TakenCollected(walk, i, p);
    }
  }

  /**
   * No path taken runs through a skipped directory or names the output file,
   * and every one has a file name with an allowed extension.
   */
  lemma NeverSkippedOrOutput(walk: seq<Listing>, p: seq<string>)
    requires p in Collected(walk)
    ensures |p| > 0 && p[|p| - 1] != OutputFilename && ShouldIncludeFile(p[|p| - 1])
    ensures forall j :: 0 <= j < |p| - 1 ==> p[j] !in SkipDirectories
  {
    CollectedMembership(walk, p);
    var i :| 0 <= i < |walk| && Shows(walk[i], p);
    forall j | 0 <= j < |p| - 1 ensures p[j] !in SkipDirectories {
      assert p[j] == walk[i].dir[j];
    }
  }

  /**
   * What the walk returns: the tree holds exactly the listed files, the list
   * is those same paths in ascending path order, each once per listing.
   */
  lemma WalkResult(walk: seq<Listing>)
    ensures WellFormed(InsertAll(Empty(), Collected(walk)))
    ensures Sorted(Sort(Collected(walk), PathLt), PathLt)
    ensures multiset(Sort(Collected(walk), PathLt)) == multiset(Collected(walk))
    ensures forall q :: Contains(InsertAll(Empty(), Collected(walk)), q) <==> q in Sort(Collected(walk), PathLt)
  {
    var ps := Collected(walk);
    forall p | p in ps ensures |p| > 0 {
      NeverSkippedOrOutput(walk, p);
    }
    InsertAllContains(ps);
    PathLtStrictTotal();
    SortSorted(ps, PathLt);
    forall q ensures q in ps <==> q in Sort(ps, PathLt) {
      assert q in multiset(ps) <==> q in multiset(Sort(ps, PathLt));
    }
  }
}

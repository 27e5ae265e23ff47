/**
 * The directory tree the flattener builds from the included paths
 * (class `TreeNode` and its method `add_path`).
 *
 * `Dir` is the value a node stands for: its sub-directories by name and the
 * names of the files directly inside it, in insertion order. `Insert` is what
 * `add_path` does to that value; the class `TreeNode` below is the mutable
 * object graph of the source, proved to follow `Insert`.
 */
module Tree {

  datatype Dir = Dir(dirs: map<string, Dir>, files: seq<string>)

  /** A fresh `TreeNode()`: no sub-directories, no files. */
  function Empty(): Dir {
    Dir(map[], [])
  }

  ghost predicate NoDuplicates<T>(s: seq<T>) {
    forall i, j :: 0 <= i < j < |s| ==> s[i] != s[j]
  }

  /** `add_path(parts)` on the value of a node. */
  function Insert(d: Dir, parts: seq<string>): Dir
    decreases |parts|
  {
    if |parts| == 0 then d
    else if |parts| == 1 then
      if parts[0] in d.files then d else Dir(d.dirs, d.files + [parts[0]])
    else
      var child := if parts[0] in d.dirs then d.dirs[parts[0]] else Empty();
      Dir(d.dirs[parts[0] := Insert(child, parts[1..])], d.files)
  }

  /** Inserting the paths of `ps` one after the other, as the walk does. */
  function InsertAll(d: Dir, ps: seq<seq<string>>): Dir
    decreases |ps|
  {
    if ps == [] then d else Insert(InsertAll(d, ps[..|ps| - 1]), ps[|ps| - 1])
  }

  /** The tree records the file at path `p` (directory names, then a file name). */
  ghost predicate Contains(d: Dir, p: seq<string>)
    decreases |p|
  {
    if |p| == 0 then false
    else if |p| == 1 then p[0] in d.files
    else p[0] in d.dirs && Contains(d.dirs[p[0]], p[1..])
  }

  /** Some file lies somewhere below `d`. */
  ghost predicate HasFile(d: Dir) {
    |d.files| > 0 || exists k :: k in d.dirs && HasFile(d.dirs[k])
  }

  /**
   * The shape every tree built by `add_path` from the empty tree has: no file
   * name listed twice in a directory, and no directory without a file below it.
   */
  ghost predicate WellFormed(d: Dir) {
    && NoDuplicates(d.files)
    && forall k :: k in d.dirs ==> HasFile(d.dirs[k]) && WellFormed(d.dirs[k])
  }

  lemma {:induction false} ContainsHasFile(d: Dir, p: seq<string>)
    requires Contains(d, p)
    ensures HasFile(d)
    decreases |p|
  {
    if |p| > 1 {
      ContainsHasFile(d.dirs[p[0]], p[1..]);
    }
  }

  lemma {:induction false} HasFileWitness(d: Dir) returns (p: seq<string>)
    requires HasFile(d)
    ensures Contains(d, p)
    decreases d
  {
    if |d.files| > 0 {
      p := [d.files[0]];
    } else {
      var k :| k in d.dirs && HasFile(d.dirs[k]);
      var q := HasFileWitness(d.dirs[k]);
      p := [k] + q;
      assert p[1..] == q;
      if |q| == 0 {
        assert false;
      }
    }
  }

  /** `add_path([])` returns without touching the node. */
  lemma InsertEmptyPath(d: Dir)
    ensures Insert(d, []) == d
  {
  }

  /**
   * `add_path([name])` leaves the sub-directories alone and records `name`
   * among the files exactly once: appended if absent, nothing otherwise.
   */
  lemma InsertFile(d: Dir, name: string)
    ensures Insert(d, [name]).dirs == d.dirs
    ensures name in Insert(d, [name]).files
    ensures forall f :: f in Insert(d, [name]).files <==> f in d.files || f == name
    ensures Insert(d, [name]).files[..|d.files|] == d.files
    ensures NoDuplicates(d.files) ==> NoDuplicates(Insert(d, [name]).files)
  {
  }

  /**
   * `add_path(parts)` with two or more parts: the files of the node stay, the
   * directory `parts[0]` exists afterwards (created empty only if absent), every
   * other sub-directory is untouched, and the rest of the path is recorded below
   * `parts[0]`.
   */
  lemma InsertDescends(d: Dir, parts: seq<string>)
    requires |parts| >= 2
    ensures Insert(d, parts).files == d.files
    ensures Insert(d, parts).dirs.Keys == d.dirs.Keys + {parts[0]}
    ensures forall k :: k in d.dirs && k != parts[0] ==> Insert(d, parts).dirs[k] == d.dirs[k]
    ensures parts[0] in d.dirs ==> Insert(d, parts).dirs[parts[0]] == Insert(d.dirs[parts[0]], parts[1..])
    ensures parts[0] !in d.dirs ==> Insert(d, parts).dirs[parts[0]] == Insert(Empty(), parts[1..])
    ensures Contains(Insert(d, parts).dirs[parts[0]], parts[1..])
  {
    var child := if parts[0] in d.dirs then d.dirs[parts[0]] else Empty();
    InsertContains(child, parts[1..], parts[1..]);
  }

  /** After `add_path(p)` the tree holds exactly the files it held before, plus `p`. */
  lemma {:induction false} InsertContains(d: Dir, p: seq<string>, q: seq<string>)
    ensures Contains(Insert(d, p), q) <==> Contains(d, q) || (q == p && |p| > 0)
    decreases |p|
  {
    if |p| >= 2 && |q| >= 2 && q[0] == p[0] {
      var child := if p[0] in d.dirs then d.dirs[p[0]] else Empty();
      InsertContains(child, p[1..], q[1..]);
      assert q == p <==> q[1..] == p[1..] by {
        assert q == [q[0]] + q[1..] && p == [p[0]] + p[1..];
      }
    }
  }

  /** Inserting a path a second time changes nothing: `add_path` is idempotent. */
  lemma {:induction false} InsertIdempotent(d: Dir, p: seq<string>)
    ensures Insert(Insert(d, p), p) == Insert(d, p)
    decreases |p|
  {
    if |p| >= 2 {
      var child := if p[0] in d.dirs then d.dirs[p[0]] else Empty();
      InsertIdempotent(child, p[1..]);
      assert Insert(d, p).dirs[p[0]] == Insert(child, p[1..]);
    }
  }

  /** `add_path` of a non-empty path keeps a tree well formed. */
  lemma {:induction false} InsertWellFormed(d: Dir, p: seq<string>)
    requires WellFormed(d)
    requires |p| > 0
    ensures WellFormed(Insert(d, p))
    decreases |p|
  {
    if |p| >= 2 {
      var child := if p[0] in d.dirs then d.dirs[p[0]] else Empty();
      InsertWellFormed(child, p[1..]);
      InsertContains(child, p[1..], p[1..]);
      ContainsHasFile(Insert(child, p[1..]), p[1..]);
    }
  }

  /**
   * Folding any list of non-empty paths into the empty tree gives a well formed
   * tree holding exactly the paths of the list.
   */
  lemma {:induction false} InsertAllContains(ps: seq<seq<string>>)
    requires forall i :: 0 <= i < |ps| ==> |ps[i]| > 0
    ensures WellFormed(InsertAll(Empty(), ps))
    ensures forall q :: Contains(InsertAll(Empty(), ps), q) <==> q in ps
    decreases |ps|
  {
    if ps != [] {
      var init := ps[..|ps| - 1];
      InsertAllContains(init);
      InsertWellFormed(InsertAll(Empty(), init), ps[|ps| - 1]);
      forall q ensures Contains(InsertAll(Empty(), ps), q) <==> q in ps {
        InsertContains(InsertAll(Empty(), init), ps[|ps| - 1], q);
        assert ps == init + [ps[|ps| - 1]];
      }
    }
  }

  /** `add_path` with two or more parts when the directory `parts[0]` already exists. */
  lemma InsertIntoExisting(d: Dir, parts: seq<string>)
    requires |parts| >= 2 && parts[0] in d.dirs
    ensures Insert(d, parts) == Dir(d.dirs[parts[0] := Insert(d.dirs[parts[0]], parts[1..])], d.files)
  {
  }

  /** `add_path` with two or more parts when the directory `parts[0]` is created first. */
  lemma InsertIntoCreated(d: Dir, parts: seq<string>)
    requires |parts| >= 2 && parts[0] !in d.dirs
    ensures Insert(d, parts) == Dir(d.dirs[parts[0] := Empty()][parts[0] := Insert(Empty(), parts[1..])], d.files)
  {
    var below := Insert(Empty(), parts[1..]);
    assert d.dirs[parts[0] := Empty()][parts[0] := below] == d.dirs[parts[0] := below];
  }

  /**
   * `add_path` with two or more parts, seen in two steps: first make sure the
   * directory `parts[0]` exists (giving `mid`), then insert the rest below it.
   */
  lemma InsertBelow(d: Dir, parts: seq<string>, mid: Dir)
    requires |parts| >= 2
    requires mid == if parts[0] in d.dirs then d else Dir(d.dirs[parts[0] := Empty()], d.files)
    ensures parts[0] in mid.dirs
    ensures Insert(d, parts) == Dir(mid.dirs[parts[0] := Insert(mid.dirs[parts[0]], parts[1..])], mid.files)
  {
    if parts[0] in d.dirs {
      InsertIntoExisting(d, parts);
    } else {
      InsertIntoCreated(d, parts);
    }
  }

  /** A node whose objects were left alone is as valid as it was. */
  twostate lemma StaysValid(n: TreeNode)
    requires old(n.Valid())
    requires unchanged(old(n.Repr))
    ensures n.Valid() && n.Repr == old(n.Repr) && n.model == old(n.model)
  {
  }

  /**
   * One directory level of the source's tree: `dirs` maps a directory name to
   * its node, `files` lists the file names in the order they were added.
   * `model` is the value the node and everything below it stand for.
   */
  class TreeNode {
    var dirs: map<string, TreeNode>
    var files: seq<string>
    ghost var model: Dir
    ghost var Repr: set<object>

    ghost predicate Valid()
      reads this, Repr
      decreases Repr, 1
    {
      && this in Repr
      && model.files == files
      && model.dirs.Keys == dirs.Keys
      && (forall k :: k in dirs ==> ChildValid(k))
      && ChildrenDisjoint()
    }

    /** The node under `k` lies inside this node's objects, not containing this node, and is valid. */
    ghost predicate ChildValid(k: string)
      reads this, Repr
      requires this in Repr && model.dirs.Keys == dirs.Keys && k in dirs
      decreases Repr, 0
    {
      && dirs[k] in Repr
      && dirs[k].Repr <= Repr
      && this !in dirs[k].Repr
      && dirs[k].model == model.dirs[k]
      && dirs[k].Valid()
    }

    /** Different sub-directories share no objects. */
    ghost predicate ChildrenDisjoint()
      reads this, Repr
      requires forall k :: k in dirs ==> dirs[k] in Repr
    {
      forall k, k' :: k in dirs && k' in dirs && k != k' ==> dirs[k].Repr !! dirs[k'].Repr
    }

    constructor ()
      ensures Valid() && fresh(Repr)
      ensures model == Empty()
    {
      dirs := map[];
      files := [];
      model := Empty();
      Repr := {this};
    }

    /** `add_path(parts)`: records the file `parts` below this node. */
    method AddPath(parts: seq<string>)
      requires Valid()
      modifies Repr
      ensures Valid() && fresh(Repr - old(Repr))
      ensures model == Insert(old(model), parts)
      decreases |parts|, 1
    {
      if |parts| == 0 {
        return;
      }
      if |parts| == 1 {
        if parts[0] !in files {
          files := files + [parts[0]];
          model := Dir(model.dirs, files);
        }
        return;
      }
      var head, tail := parts[0], parts[1..];
      ghost var start := model;
      SubDirectory(head);
      InsertBelow(start, parts, model);
      AddBelow(head, tail);
    }

    /** `self.dirs[head].add_path(tail)`, the sub-directory `head` being there already. */
    method AddBelow(head: string, tail: seq<string>)
      requires Valid() && head in dirs
      modifies Repr
      ensures Valid() && fresh(Repr - old(Repr))
      ensures model == Dir(old(model).dirs[head := Insert(old(model).dirs[head], tail)], old(model).files)
      decreases |tail| + 1, 0
    {
      var child := dirs[head];
      child.AddPath(tail);
      Repr := Repr + child.Repr;
      model := Dir(model.dirs[head := child.model], model.files);
      Adopt(head);
    }

    /**
     * After the sub-directory `head` was updated in place, and only it and
     * this node's own ghost state changed, this node is valid again.
     */
    twostate lemma Adopt(head: string)
      requires old(Valid()) && head in old(dirs)
      requires dirs == old(dirs) && files == old(files)
      requires dirs[head].Valid() && this !in dirs[head].Repr
      requires fresh(dirs[head].Repr - old(dirs[head].Repr))
      requires unchanged(old(Repr) - old(dirs[head].Repr) - {this})
      requires Repr == old(Repr) + dirs[head].Repr
      requires model == Dir(old(model).dirs[head := dirs[head].model], old(model).files)
      ensures Valid()
    {
      forall k | k in dirs && k != head
        ensures dirs[k].Valid() && dirs[k].Repr == old(dirs[k].Repr) && dirs[k].model == old(dirs[k].model)
      {
        StaysValid(dirs[k]);
      }
      KeepsDisjoint(head);
    }

    /** Only the sub-directory `head` gained objects, all fresh: the sub-directories still share none. */
    twostate lemma KeepsDisjoint(head: string)
      requires old(Valid()) && head in old(dirs) && dirs == old(dirs)
      requires fresh(dirs[head].Repr - old(dirs[head].Repr))
      requires forall k :: k in dirs && k != head ==> dirs[k].Repr == old(dirs[k].Repr)
      ensures forall k, k' :: k in dirs && k' in dirs && k != k' ==> dirs[k].Repr !! dirs[k'].Repr
    {
      assert old(ChildrenDisjoint());
    }

    /** `if head not in self.dirs: self.dirs[head] = TreeNode()`. */
    method SubDirectory(head: string)
      requires Valid()
      modifies this
      ensures Valid() && fresh(Repr - old(Repr))
      ensures head in dirs
      ensures model == if head in old(model).dirs then old(model) else Dir(old(model).dirs[head := Empty()], old(model).files)
    {
      if head !in dirs {
        var node := new TreeNode();
        dirs := dirs[head := node];
        Repr := Repr + node.Repr;
        model := Dir(model.dirs[head := node.model], model.files);
      }
    }
  }
}

# flatten_repo_to_md, modelled in Dafny

`flatten_repo_to_md.py` walks a repository and writes one Markdown document,
`repo_context.md`. The document has two parts:

- **An outline.** "# Repository structure" starts an indented tree of the kept
  files.
- **The file contents.** "# File contents" starts one fenced block per kept
  file, in path order.

The files kept are those whose lower-cased suffix is allowed and whose name is
not the output file's. Directories listed in `SKIP_DIRECTORIES` are never
entered.

This project models the pipeline between the filesystem walk and the final
write:

- **Tree** (`tree.dfy`):
  - the file tree `TreeNode` and its method `add_path`;
  - `Dir`, the value a node stands for;
  - `Insert`, the pure form of `add_path`;
  - the class `TreeNode`, an object graph with a `Valid()` invariant and a
    `Repr` footprint. Its `AddPath` is proved to follow `Insert`.
- **File filter** (`pathfilter.dfy`):
  - `should_include_file`, with the suffix rule of `Path.suffix`;
  - the output-file check;
  - the pruning of skipped directories.
- **Walk** (`walk.dfy`): `walk_repository`. The traversal is an input, a
  sequence of `Listing`s. Each listing is a directory, as parts relative to the
  root, with its file names, in the order `os.walk` visits them. Two loops,
  `WalkRepository` and `WalkDirectory`, are proved against the specification
  functions `Picked`, `Taken` and `Collected`.
- **Outline** (`structure.dfy`): `render_structure`. The recursive `_render`
  becomes four methods: `RenderNode`, `RenderChildren`, `RenderChild` and
  `RenderFiles`. They thread the shared `lines` list through as a sequence and
  are proved equal to `RenderDir`.
- **Contents** (`contents.dfy`):
  - `language_for_extension`, as a map lookup on the lower-cased suffix;
  - `render_file_contents`, as the loop `RenderFileContents`. It is proved
    equal to `ContentLines`, the section generic over the tagging function
    instantiated with `LanguageFor`.
- **Document** (`flatten.dfy`):
  - the line combination in `write_output`, as `Document`;
  - `main` with the walk and the file reads as inputs, as `Run`;
  - a worked example.
- **Support:**
  - orderings (`ordering.dfy`): Python's `<` on strings and on relative paths;
  - sorting (`sorting.dfy`): `sorted`, `list.sort()`, and `sorted` over the keys
    of a dict;
  - strings (`strings.dfy`): `"sep".join` and `str.split`.

`walk_repository` inserts each path into the tree in walk order, before
`allowed_files.sort()`. `Flatten.SortedTreeSameOutline` proves that building
the tree from the sorted list gives the same outline. The tag lookup is
`LANGUAGE_BY_EXTENSION.get(suffix.lower(), "")` on the relative path's last
part, so tags do not depend on letter case.

## Model

| member | source | states |
|---|---|---|
| Tree.Empty | flatten_repo_to_md.py:68-70 | the value of a new node: no sub-directories and no files |
| Tree.Insert | flatten_repo_to_md.py:72-82 | `Insert(d, parts)` is `add_path(parts)` on the node's value |
| Tree.InsertAll | flatten_repo_to_md.py:108-110 | `InsertAll(d, ps)` is `add_path` of each path of `ps` in turn, as the walk calls it |
| Tree.TreeNode.Valid | flatten_repo_to_md.py:67-70 | a node's `dirs` and `files` stand for its value `model`, its sub-nodes are valid and share no objects |
| PathFilter.Suffix | flatten_repo_to_md.py:94 | `Suffix(name)` is `Path(name).suffix` |
| PathFilter.Lower | flatten_repo_to_md.py:94 | `Lower(s)` is `s.lower()` on ASCII letters |
| PathFilter.ShouldIncludeFile | flatten_repo_to_md.py:93-94 | `should_include_file(name)` |
| PathFilter.Included | flatten_repo_to_md.py:104-107 | the two checks the walk makes on a file name, in their order |
| PathFilter.Descended | flatten_repo_to_md.py:101 | the walk reaches a directory: no part of its relative path is in `SKIP_DIRECTORIES` |
| PathFilter.SkipDirectories | flatten_repo_to_md.py:15-23 | the seven directory names the walk prunes |
| PathFilter.AllowedExtensions | flatten_repo_to_md.py:25-44 | the eighteen suffixes a kept file may have |
| PathFilter.OutputFilename | flatten_repo_to_md.py:64 | the name of the output file, which the walk skips |
| Ordering.StrLt | flatten_repo_to_md.py:103 | Python's `<` on names, the order of `sorted(filenames)` and `sorted(node.dirs)` |
| Ordering.PathLt | flatten_repo_to_md.py:112 | the order of `allowed_files.sort()`: paths compared part by part |
| Walk.Picked | flatten_repo_to_md.py:103-111 | the paths the inner loop appends for one directory whose sorted names are given |
| Walk.Taken | flatten_repo_to_md.py:101-111 | the paths taken from one listing: none from a pruned directory |
| Walk.Collected | flatten_repo_to_md.py:100-111 | `allowed_files` before the final sort: the paths taken, in walk order |
| Structure.Header | flatten_repo_to_md.py:117 | the two lines `render_structure` starts from |
| Structure.FileNames | flatten_repo_to_md.py:124 | a node's file names in the order of `sorted(node.files)` |
| Structure.DirLine | flatten_repo_to_md.py:122 | the line of a directory: spacer, then `` - `name/` `` |
| Structure.FileLine | flatten_repo_to_md.py:125 | the line of a file: spacer, then `` - `name` `` |
| Structure.RenderDir | flatten_repo_to_md.py:119-125 | what `_render(node, indent)` appends for a node whose value is given |
| Structure.DirBlocks | flatten_repo_to_md.py:121-123 | what the first loop of `_render` appends for the given directory names |
| Structure.FileLines | flatten_repo_to_md.py:124-125 | what the second loop of `_render` appends for the given file names |
| Structure.StructureLines | flatten_repo_to_md.py:116-128 | `render_structure(tree)` for a tree whose value is given |
| Contents.LanguageByExtension | flatten_repo_to_md.py:46-62 | the fifteen suffixes that have a language tag, each with its tag |
| Contents.Name | flatten_repo_to_md.py:132 | the last part of a relative path, whose suffix `path.suffix` takes |
| Contents.LanguageFor | flatten_repo_to_md.py:131-132 | `language_for_extension(path)` |
| Contents.Body | flatten_repo_to_md.py:139-140 | the body line: the text read, or the error marker with the exception's message |
| Contents.Fence | flatten_repo_to_md.py:148 | the opening fence for a tag |
| Contents.ContentsHeader | flatten_repo_to_md.py:144 | the line the contents section starts with |
| Contents.AsPosix | flatten_repo_to_md.py:149 | `rel_path.as_posix()`: the parts joined by `/` |
| Contents.ClosingFence | flatten_repo_to_md.py:152 | the bare fence closing each file |
| Contents.Heading | flatten_repo_to_md.py:149 | the heading line of a file: its posix path in backticks after `## ` |
| Contents.Block | flatten_repo_to_md.py:149-152 | the four lines appended for one file |
| Contents.Section | flatten_repo_to_md.py:143-153 | `render_file_contents` for any tagging function |
| Contents.ContentLines | flatten_repo_to_md.py:143-153 | `render_file_contents(root, files)` with `language_for_extension` tags |
| Strings.Join | flatten_repo_to_md.py:159 | `sep.join(parts)` |
| Flatten.Document | flatten_repo_to_md.py:158-159 | the text `write_output` writes: outline, `""` and contents, joined by newlines |
| Flatten.Output | flatten_repo_to_md.py:163-168 | what `main()` writes for a walk, the files read with `read` |
| PathFilter.LastDot | flatten_repo_to_md.py:94 | the index `Path.suffix` starts from: -1, or a position holding a dot |
| PathFilter.LastDotIsLast | flatten_repo_to_md.py:94 | no dot follows the one `LastDot` finds, so it is `rfind('.')` |
| PathFilter.SuffixShape | flatten_repo_to_md.py:94 | a suffix is empty, or a dot-led extension with no other dot that ends the name after a non-empty stem |
| PathFilter.SuffixOfStemAndExtension | flatten_repo_to_md.py:94 | conversely, a name made of a non-empty stem and an extension has exactly that extension as its suffix |
| PathFilter.LastDotAfter | flatten_repo_to_md.py:94 | appending dot-free text leaves the last dot where it was |
| PathFilter.HiddenNameHasNoSuffix | flatten_repo_to_md.py:94 | a name whose only dot is its first character has no suffix |
| PathFilter.LastDotLower | flatten_repo_to_md.py:94 | lower-casing does not move the last dot |
| PathFilter.SuffixLower | flatten_repo_to_md.py:94 | taking the suffix commutes with lower-casing |
| PathFilter.LowerUpper | flatten_repo_to_md.py:94 | lower-casing an upper-cased name gives its lower-case form |
| PathFilter.CaseInsensitive | flatten_repo_to_md.py:93-94 | names equal up to letter case are treated alike by `should_include_file` |
| PathFilter.UpperCaseKept | flatten_repo_to_md.py:93-94 | upper-casing a name never changes whether it is included |
| PathFilter.IncludedByExtension | flatten_repo_to_md.py:93-94 | a name `stem + ext` is kept exactly when it is not `repo_context.md` and the lower-cased `ext` is allowed |
| PathFilter.IncludedHasExtension | flatten_repo_to_md.py:93-94 | every kept name splits into a non-empty stem and an allowed extension, and is not the output file |
| PathFilter.OutputFileExcludedByName | flatten_repo_to_md.py:64 | `repo_context.md` has an allowed suffix; only the name check at line 104 keeps it out |
| PathFilter.PythonFileIncluded | flatten_repo_to_md.py:93-94 | `x.py` is kept |
| PathFilter.UpperCaseExtensionIncluded | flatten_repo_to_md.py:93-94 | `README.MD` is kept: the suffix is lower-cased before the lookup |
| PathFilter.LastSuffixCounts | flatten_repo_to_md.py:93-94 | `a.b.json` is kept: only the last suffix counts |
| PathFilter.CompressedArchiveExcluded | flatten_repo_to_md.py:93-94 | `archive.tar.gz` is dropped: its suffix is `.gz` |
| PathFilter.UnknownExtensionExcluded | flatten_repo_to_md.py:93-94 | `data.bin` is dropped |
| PathFilter.NamesWithoutSuffixExcluded | flatten_repo_to_md.py:93-94 | `.bashrc`, `Makefile` and `notes.` have no suffix and are dropped |
| PathFilter.DescendedChild | flatten_repo_to_md.py:101 | a directory is entered exactly when its parent is and its own name is not skipped |
| PathFilter.SkippedSubtree | flatten_repo_to_md.py:101 | nothing below a skipped directory is entered |
| Tree.InsertEmptyPath | flatten_repo_to_md.py:73-74 | `add_path([])` leaves the node as it was |
| Tree.InsertFile | flatten_repo_to_md.py:75-78 | a one-part path leaves `dirs` alone, keeps `files` as a prefix, adds the name exactly when it is absent, and never creates a duplicate |
| Tree.InsertDescends | flatten_repo_to_md.py:79-82 | a longer path keeps `files` and every other sub-directory. It creates `dirs[head]` empty only when absent and records the tail below it |
| Tree.InsertIntoExisting | flatten_repo_to_md.py:80-82 | with `head` present, the tail is inserted into the existing child |
| Tree.InsertIntoCreated | flatten_repo_to_md.py:80-82 | with `head` absent, a new empty child is made first, then the tail inserted into it |
| Tree.InsertBelow | flatten_repo_to_md.py:79-82 | the two steps, making sure the child exists and then inserting below it, compose to `add_path` |
| Tree.InsertContains | flatten_repo_to_md.py:72-82 | afterwards the tree records exactly the old files plus the inserted path, if non-empty |
| Tree.InsertIdempotent | flatten_repo_to_md.py:76-82 | inserting a path twice gives the same tree as inserting it once |
| Tree.InsertWellFormed | flatten_repo_to_md.py:72-82 | inserting a non-empty path keeps files duplicate-free and leaves no directory without a file below it |
| Tree.InsertAllContains | flatten_repo_to_md.py:108-110 | inserting any list of non-empty paths into a fresh node gives a well-formed tree holding exactly those paths |
| Tree.ContainsHasFile | flatten_repo_to_md.py:72-82 | a tree that records a path holds some file |
| Tree.HasFileWitness | flatten_repo_to_md.py:72-82 | a tree holding some file records some path |
| Tree.StaysValid | flatten_repo_to_md.py:67-70 | a node whose objects were not touched stays valid, with the same footprint and value |
| Tree.TreeNode.constructor | flatten_repo_to_md.py:68-70 | a new node is valid, fresh and empty |
| Tree.TreeNode.AddPath | flatten_repo_to_md.py:72-82 | `add_path` changes only the node's own objects and new ones, keeps the node valid, and turns its value into `Insert(old value, parts)` |
| Tree.TreeNode.AddBelow | flatten_repo_to_md.py:82 | the recursive call replaces the value of `dirs[head]` by its insert of the tail, and nothing else changes |
| Tree.TreeNode.SubDirectory | flatten_repo_to_md.py:80-81 | afterwards `head` is a sub-directory. The value gains an empty child only when `head` was absent |
| Tree.TreeNode.Adopt | flatten_repo_to_md.py:82 | after the child under `head` was updated in place, the node is valid again |
| Tree.TreeNode.KeepsDisjoint | flatten_repo_to_md.py:82 | growing one child by fresh objects keeps sibling sub-trees disjoint |
| Ordering.LexLtIrreflexive | flatten_repo_to_md.py:103 | no string or path sorts before itself |
| Ordering.LexLtTransitive | flatten_repo_to_md.py:103 | lexicographic order is transitive |
| Ordering.LexLtConnected | flatten_repo_to_md.py:103 | any two distinct sequences are ordered one way or the other |
| Ordering.LexLtStrictTotal | flatten_repo_to_md.py:103 | lexicographic order over a strict total order is a strict total order |
| Ordering.StrLtStrictTotal | flatten_repo_to_md.py:103 | comparing names is a strict total order |
| Ordering.PathLtStrictTotal | flatten_repo_to_md.py:112 | comparing relative paths part by part is a strict total order |
| Sorting.InsertSorted | flatten_repo_to_md.py:103 | inserting into a list adds exactly one occurrence of the element |
| Sorting.InsertSortedSorted | flatten_repo_to_md.py:103 | inserting into an ascending list keeps it ascending |
| Sorting.Sort | flatten_repo_to_md.py:103 | `sorted(...)` is a permutation of its input |
| Sorting.SortSorted | flatten_repo_to_md.py:103 | `sorted(...)` is ascending |
| Sorting.SortedUnique | flatten_repo_to_md.py:112 | two ascending lists with the same elements are equal, so the sorted result is determined |
| Sorting.SortedHeadsEqual | flatten_repo_to_md.py:112 | two ascending lists with the same non-empty contents start with the same element |
| Sorting.SortPermutationInvariant | flatten_repo_to_md.py:112 | sorting depends only on the elements, not on their order |
| Sorting.LeastExists | flatten_repo_to_md.py:121 | every non-empty set of names has a least element |
| Sorting.LeastUnique | flatten_repo_to_md.py:121 | that least element is unique |
| Sorting.SortedSet | flatten_repo_to_md.py:121 | `sorted(node.dirs)` holds exactly the keys, each once |
| Sorting.SortedSetStrictlySorted | flatten_repo_to_md.py:121 | `sorted(node.dirs)` is strictly ascending |
| Sorting.SortedSetUnfold | flatten_repo_to_md.py:121 | the sorted keys start with the least key |
| Sorting.SortedElements | flatten_repo_to_md.py:121 | taking the least remaining key repeatedly lists the keys in sorted order |
| Sorting.TakeLeast | flatten_repo_to_md.py:121 | taking the least key extends the listing by one and shrinks what is left |
| Walk.PickedStep | flatten_repo_to_md.py:103-111 | one more name adds its path exactly when it passes both checks |
| Walk.CollectedStep | flatten_repo_to_md.py:100-111 | one more listing adds what that listing takes |
| Walk.TakeStep | flatten_repo_to_md.py:104-111 | a `continue` leaves the list equal to `Picked` of the names so far, and an append extends it by the new path |
| Walk.WalkRepository | flatten_repo_to_md.py:97-113 | the tree is valid and holds the value of inserting, in walk order, every path taken. `files` is those paths sorted |
| Walk.WalkDirectory | flatten_repo_to_md.py:103-111 | for one directory, the names that pass both checks are added to the tree and appended to the list, in sorted-name order |
| Walk.PickedMembership | flatten_repo_to_md.py:103-108 | a path is taken from a directory exactly when it is that directory plus a listed name that passes both checks |
| Walk.SortedNamesMember | flatten_repo_to_md.py:103 | a name is in the sorted listing exactly when it is in the listing |
| Walk.PickedShows | flatten_repo_to_md.py:103-108 | an entered directory takes exactly the paths it shows |
| Walk.TakenShows | flatten_repo_to_md.py:101-108 | a listing takes a path exactly when its directory is entered and lists the path's name as a kept file |
| Walk.CollectedTaken | flatten_repo_to_md.py:100-111 | every path collected comes from some listing |
| Walk.TakenCollected | flatten_repo_to_md.py:100-111 | every path some listing takes is collected |
| Walk.CollectedMembership | flatten_repo_to_md.py:100-111 | the walk collects a path exactly when some entered directory lists its name as a file that passes both checks |
| Walk.NeverSkippedOrOutput | flatten_repo_to_md.py:101-107 | no collected path runs through a skipped directory or names the output file, and every one has an allowed extension |
| Walk.WalkResult | flatten_repo_to_md.py:110-113 | the tree is well formed and holds exactly the files listed. The list is ascending and a permutation of the paths taken |
| Structure.Spacer | flatten_repo_to_md.py:120 | `"  " * indent` is `2 * indent` spaces |
| Structure.DirNames | flatten_repo_to_md.py:121 | the names iterated are exactly the sub-directories |
| Structure.SortedNameSet | flatten_repo_to_md.py:121 | the sorted names are exactly the set, each once |
| Structure.ListNames | flatten_repo_to_md.py:121 | `sorted(node.dirs)` as computed equals the sorted key listing |
| Structure.DirBlocksUnfold | flatten_repo_to_md.py:121-123 | one more directory appends its line and its outline one level deeper |
| Structure.DirBlocksStep | flatten_repo_to_md.py:121-123 | one turn of the first loop extends `lines` by the next directory's block |
| Structure.FileLinesStep | flatten_repo_to_md.py:124-125 | one turn of the second loop extends `lines` by the next file line |
| Structure.RenderStructure | flatten_repo_to_md.py:116-128 | the result is the two header lines followed by the outline of the tree at depth 1 |
| Structure.RenderNode | flatten_repo_to_md.py:119-125 | `_render(node, indent)` appends exactly the outline `RenderDir` of the node's value |
| Structure.RenderChildren | flatten_repo_to_md.py:121-123 | the first loop appends every directory line, each followed by its subtree, in sorted order |
| Structure.RenderChild | flatten_repo_to_md.py:122-123 | one directory: its line, then its outline one level deeper |
| Structure.RenderFiles | flatten_repo_to_md.py:124-125 | the second loop appends one file line per name, in the order given |
| Structure.NoDuplicatesCount | flatten_repo_to_md.py:76-77 | in a duplicate-free file list every name occurs at most once |
| Structure.SameFileNames | flatten_repo_to_md.py:124 | duplicate-free file lists with the same members sort to the same list |
| Structure.ContainsBelow | flatten_repo_to_md.py:79-82 | a path below `k` is recorded exactly when `k` is a sub-directory recording the rest |
| Structure.DirIsOnSomePath | flatten_repo_to_md.py:79-82 | in a tree built by `add_path` every sub-directory has a file below it |
| Structure.DirBlocksAgree | flatten_repo_to_md.py:121-123 | directory blocks agree when the sub-outlines agree |
| Structure.RenderDependsOnlyOnFiles | flatten_repo_to_md.py:116-128 | two well-formed trees recording the same files have the same outline |
| Structure.StructureDependsOnlyOnPaths | flatten_repo_to_md.py:116-128 | the outline depends only on the set of paths inserted, not on their order or repetitions |
| Structure.FileLinesMember | flatten_repo_to_md.py:124-125 | every file name gets its line |
| Structure.DirBlockSlice | flatten_repo_to_md.py:121-123 | each sub-directory's line is followed at once by its whole outline one level deeper, as one run of the blocks |
| Structure.DirOutlineSlice | flatten_repo_to_md.py:119-125 | the outline of a node holds that run for each of its sub-directories |
| Structure.DirLineThenBlock | flatten_repo_to_md.py:122-123 | a directory's line followed by a deeper block showing the rest of a path shows the whole path |
| Structure.ListsPath | flatten_repo_to_md.py:119-125 | where a path shows in an outline: its file line at its depth, each directory's line followed by a run of deeper lines holding the rest |
| Structure.RenderListsFile | flatten_repo_to_md.py:119-125 | every recorded file appears at its depth, nested in the block of each directory on its path: the directory's line, then a run of deeper lines holding the rest of the path |
| Structure.StructureListsEveryPath | flatten_repo_to_md.py:116-128 | the outline of the tree built from the paths lists every path |
| Structure.ListsPathInContext | flatten_repo_to_md.py:116-128 | lines added before or after a listing leave the path listed |
| Structure.AtDepthAppend | flatten_repo_to_md.py:119-125 | the lines at a depth of two concatenated parts are those of each part |
| Structure.EntryIndented | flatten_repo_to_md.py:120-125 | directory and file lines start with the two-space indent of their depth |
| Structure.DeeperIndented | flatten_repo_to_md.py:123 | lines one level deeper are indented at this level too, but are not entries of it |
| Structure.RenderIndented | flatten_repo_to_md.py:119-125 | every outline line at depth `indent` is indented at least `2 * indent` spaces |
| Structure.DirBlocksIndented | flatten_repo_to_md.py:121-123 | the same for the directory blocks |
| Structure.FileLinesIndented | flatten_repo_to_md.py:124-125 | the same for the file lines |
| Structure.AtDepthNone | flatten_repo_to_md.py:123 | lines with no entry at a depth contribute nothing at that depth |
| Structure.AtDepthSingle | flatten_repo_to_md.py:122 | an entry line at a depth is its own contribution there |
| Structure.AtDepthDirBlocks | flatten_repo_to_md.py:121-123 | at their own depth, the directory blocks show just the directory lines, in order |
| Structure.AtDepthFileLines | flatten_repo_to_md.py:124-125 | at their own depth, the file lines are all shown |
| Structure.OneLevel | flatten_repo_to_md.py:119-125 | the entries at one depth are all sub-directory lines, strictly ascending and covering `dirs`, then all file lines, ascending and a permutation of `files` |
| Strings.Split | flatten_repo_to_md.py:159 | splitting always gives at least one piece |
| Strings.JoinAppend | flatten_repo_to_md.py:158-159 | joining two non-empty lists puts one separator between their joins |
| Strings.SplitSnoc | flatten_repo_to_md.py:159 | one more character starts a new piece at a separator and extends the last piece otherwise |
| Strings.SplitExtendLast | flatten_repo_to_md.py:159 | text without the separator extends the last piece |
| Strings.SplitAfterSeparator | flatten_repo_to_md.py:159 | a separator followed by plain text adds that text as one piece |
| Strings.SplitOfPlain | flatten_repo_to_md.py:159 | text without the separator is one piece |
| Strings.JoinLast | flatten_repo_to_md.py:159 | a join of two or more parts ends with the separator and the last part |
| Strings.SplitJoin | flatten_repo_to_md.py:159 | splitting undoes joining when no part holds the separator |
| Contents.FenceShape | flatten_repo_to_md.py:148 | the fence is three backticks followed by the tag, and is bare exactly when the tag is empty |
| Contents.ConcatLength | flatten_repo_to_md.py:145-152 | four lines per file |
| Contents.ConcatLine | flatten_repo_to_md.py:145-152 | line `r` of file `k`'s block sits at position `4k + r` |
| Contents.SectionStep | flatten_repo_to_md.py:145-152 | one more file appends its block |
| Contents.AppendBlock | flatten_repo_to_md.py:149-152 | the four appends of one turn extend the section by that file's block |
| Contents.OpeningFence | flatten_repo_to_md.py:147-148 | the fence is three backticks followed by the tag `language_for_extension` gives the file, nothing more when there is none |
| Contents.FenceDetermined | flatten_repo_to_md.py:148 | three backticks followed by a tag are the fence of that tag and no other |
| Contents.RenderFileContents | flatten_repo_to_md.py:143-153 | the loop's lines are the section of the given files, in the given order |
| Contents.SectionLine | flatten_repo_to_md.py:144-152 | the section has `1 + 4n` lines, and its line `1 + 4k + r` is line `r` of file `k`'s block |
| Contents.SectionLayout | flatten_repo_to_md.py:144-152 | for any tagging: header, then per file its heading, fence, body and closing fence at `1 + 4k` to `4 + 4k` |
| Contents.ContentLayout | flatten_repo_to_md.py:144-152 | the same layout with fences tagged by `language_for_extension` |
| Contents.FailedReadShowsMarker | flatten_repo_to_md.py:139-140 | an unreadable file still gets its heading, and its body line is the error marker with the reason |
| Contents.HeadingNamesPath | flatten_repo_to_md.py:149 | the heading's path text splits back into the path's parts |
| Contents.TagTableCoversAllowed | flatten_repo_to_md.py:46-62 | every mapped extension is allowed; exactly `.md`, `.txt` and `.toml` are allowed but untagged |
| Contents.UntaggedExtensions | flatten_repo_to_md.py:46-62 | `.md`, `.txt` and `.toml` have no entry |
| Contents.LanguageOfExtension | flatten_repo_to_md.py:131-132 | a file `stem + ext` gets the entry of the lower-cased `ext`, or `""` when there is none |
| Contents.TaggedFilesAreIncludedKinds | flatten_repo_to_md.py:131-132 | a file with a tag always passes `should_include_file` |
| Contents.LanguageCaseInsensitive | flatten_repo_to_md.py:132 | names equal up to case get the same tag |
| Contents.TagOfName | flatten_repo_to_md.py:131-132 | the tag of `dirs + [stem + ext]` is the entry of the lower-cased `ext`, else `""` |
| Contents.ShellTag | flatten_repo_to_md.py:52 | `.sh` files are tagged `bash` |
| Contents.BashTag | flatten_repo_to_md.py:53 | `.bash` files are tagged `bash` |
| Contents.YmlTag | flatten_repo_to_md.py:55 | `.yml` files are tagged `yaml` |
| Contents.UpperYamlTag | flatten_repo_to_md.py:56 | `.YAML` files are tagged `yaml` too |
| Contents.MarkdownUntagged | flatten_repo_to_md.py:148 | Markdown files get a bare fence |
| Contents.TextUntagged | flatten_repo_to_md.py:131-132 | `.txt` files get no tag |
| Contents.TomlUntagged | flatten_repo_to_md.py:131-132 | `.toml` files get no tag |
| Flatten.DocumentSections | flatten_repo_to_md.py:158-159 | the outline and the contents are separated by exactly one blank line |
| Flatten.DocumentLines | flatten_repo_to_md.py:158-159 | when no line holds a newline, splitting the document at newlines gives back outline, `""`, contents |
| Flatten.Run | flatten_repo_to_md.py:163-168 | `main` writes the document of the outline of the walk's tree and of the contents of the sorted paths |
| Flatten.OutputShape | flatten_repo_to_md.py:156-159 | the document opens with the outline header; the contents section starts with its header after one blank line |
| Flatten.WalkOrderIrrelevant | flatten_repo_to_md.py:110-112 | the outline depends only on which paths were taken. The whole document does not depend on the order they were taken in |
| Flatten.SortedTreeSameOutline | flatten_repo_to_md.py:110-112 | building the tree from the sorted list gives the same outline as building it in walk order |
| Flatten.MarkdownFileIncluded | flatten_repo_to_md.py:93-94 | `y.md` is kept |
| Flatten.SortTwo | flatten_repo_to_md.py:103 | sorting two elements swaps them exactly when the second is smaller |
| Flatten.PickedTwo | flatten_repo_to_md.py:103-111 | two kept names of a directory give their two paths in order |
| Flatten.CollectedThree | flatten_repo_to_md.py:100-111 | a three-listing walk collects the three listings' paths in order |
| Flatten.InsertAllTwo | flatten_repo_to_md.py:110 | two paths are inserted one after the other |
| Flatten.XBeforeY | flatten_repo_to_md.py:103 | `x.py` sorts before `y.md` |
| Flatten.SampleDescended | flatten_repo_to_md.py:101 | the walk enters the root and `a`, never `node_modules` |
| Flatten.SampleTaken | flatten_repo_to_md.py:103-111 | from `a` listing `y.md, x.py` the walk takes `a/x.py`, then `a/y.md` |
| Flatten.SampleCollected | flatten_repo_to_md.py:100-111 | the sample walk collects `a/x.py` and `a/y.md` and nothing from `node_modules` |
| Flatten.SamplePathsSorted | flatten_repo_to_md.py:112 | sorting keeps those two paths in place |
| Flatten.SampleTree | flatten_repo_to_md.py:110 | the sample tree is one directory `a` holding `x.py` and `y.md` |
| Flatten.SampleSubOutline | flatten_repo_to_md.py:124-125 | the outline of `a` at depth 2 is its two file lines |
| Flatten.NoFilesOutline | flatten_repo_to_md.py:119-125 | a directory without files shows only its sub-directory blocks |
| Flatten.SingleDirNames | flatten_repo_to_md.py:121 | a single sub-directory is the only name iterated |
| Flatten.SingleDirOutline | flatten_repo_to_md.py:121-123 | a directory holding one sub-directory and no files shows that directory's line and then its outline |
| Flatten.SampleOutline | flatten_repo_to_md.py:119-125 | the sample's outline at depth 1 is `a/` followed by its two files at depth 2 |
| Flatten.SampleLines | flatten_repo_to_md.py:120-125 | the exact text of those three lines |
| Flatten.SampleStructure | flatten_repo_to_md.py:116-128 | the sample's whole outline, line by line |
| Flatten.SampleOutput | flatten_repo_to_md.py:156-168 | the sample's document: that outline, a blank line, then the two files' blocks in path order |

## Left out

- `os.walk`, `Path.relative_to` and `Path.resolve` are not modelled. The walk is
  an input: a sequence of listings, each a directory as parts relative to the
  root together with its file names, in top-down order and without pruning.
  Pruning (`dirnames[:] = ...`) is modelled as dropping every listing whose
  directory path has a skipped segment, which is what `os.walk` then never
  visits. The order in which `os.walk` lists directories is whatever the input
  says. Hence `WalkOrderIrrelevant` and `SortedTreeSameOutline`, which show the
  result does not depend on it.
- `os.walk` error handling (unreadable directories are silently skipped) is not
  modelled: such a directory is simply absent from the input.
- Symbolic links: the walk does not follow directory links, but that belongs to
  the traversal, which is an input.
- Reading files (`read_file_contents`: opening, UTF-8 decoding with `errors="replace"`)
  is not modelled. Each file's outcome is an input function `read` from the
  relative path to either the text or the exception's message. The model keeps
  the marker `[ERROR READING FILE: …]`. The join `root / rel_path` only locates
  the file and is left out.
- Names are assumed to be valid Unicode. `os.walk` turns name bytes that are not
  UTF-8 into lone surrogates, which a Dafny `string` cannot hold. For such a kept
  name (say the bytes `\xff.py`), `write_text(..., encoding="utf-8")` opens the
  output in mode `'w'` and then raises `UnicodeEncodeError` while encoding, so
  an existing `repo_context.md` is left truncated to empty. `Run` always returns
  a document.
- The `root` parameter of `render_file_contents` and `write_output` is left out.
  It only locates files and the output on disk.
- `parse_arguments` (`sys.argv`, the usage message, `sys.exit`), `write_text` and
  the final `print` are process and I/O plumbing and are not modelled.
  `Run` returns the text that would be written.
- PathFilter.Lower: lower-cases ASCII letters only. Python's `str.lower` also
  maps other letters, but the only non-ASCII character that lowers to an ASCII
  letter is the Kelvin sign, which becomes `k`. No allowed or mapped extension
  contains `k`, so membership tests agree.
- PathFilter.Suffix: follows the classic `Path.suffix` rule: the part from the
  last dot, unless that dot is the first or the last character of the name.
  Newer Python versions treat a trailing dot differently, which only affects
  names ending in `.`; these are excluded under both rules.
- Ordering.StrLt: strings are compared by code point, which is Python's `<` on
  `str`. Relative paths are compared part by part. This matches `PurePosixPath`,
  not Windows paths, which compare case-insensitively.
- Sorting.Sort: Python's own sort (Timsort) is not reproduced. Any sort gives
  the same result here, because the lists sorted have a strict total order and
  `SortedUnique` shows the sorted result is determined.
- The walk's per-name `str(rel_dir) != "."` test (line 108): the root directory
  is the empty parts sequence, so `rel_dir / name` and `Path(name)` both give
  `[name]`. The model uses `dir + [name]` throughout.

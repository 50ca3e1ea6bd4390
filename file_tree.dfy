/** `TerminalService.get_file_tree`: a depth-bounded listing of a directory,
    children in name order, names matching an ignore pattern left out. The
    filesystem is an abstract tree of entries; a directory whose listing is
    refused is one with no listing. */
module FileTree {
  import opened Wrappers
  import opened PyStr

  /** What `stat` reports for a file: its size and its modification time, already formatted. */
  datatype FileStat = FileStat(size: int, modified: string)

  /** An entry on disk. A file's stat is None when `stat` fails; a directory's
      listing is None when iterating it raises `PermissionError`. */
  datatype FsNode =
    | FsFile(name: string, stat: Option<FileStat>)
    | FsDir(name: string, listing: Option<seq<FsNode>>)

  /** The dictionary `build_tree` returns for one entry. */
  datatype TreeNode =
    | FileEntry(name: string, path: string, stat: Option<FileStat>)
    | DirEntry(name: string, path: string, children: seq<TreeNode>, error: Option<string>)

  /** What `get_file_tree` returns: a tree, None (no level allowed), or an error dictionary. */
  datatype TreeResult = Tree(root: TreeNode) | NoTree | TreeError(message: string)

  const PermissionDenied: string := "Permission denied"
  const PathMissing: string := "Path does not exist"
  const DefaultIgnorePatterns: seq<string> := ["__pycache__", ".git", "node_modules", ".venv", "venv"]

  /** `ignore_patterns or [...]`: a missing or empty list takes the defaults. */
  function IgnoreList(patterns: Option<seq<string>>): (r: seq<string>)
    ensures patterns.Some? && patterns.value != [] ==> r == patterns.value
    ensures patterns.None? || patterns.value == [] ==> r == DefaultIgnorePatterns
  {
    if patterns.None? || patterns.value == [] then DefaultIgnorePatterns else patterns.value
  }

  /** A name is ignored when some pattern occurs in it as a substring. */
  predicate Ignored(name: string, patterns: seq<string>) {
    exists i :: 0 <= i < |patterns| && Contains(name, patterns[i])
  }

  /** `should_ignore`: the scan over the patterns. */
  method ShouldIgnore(name: string, patterns: seq<string>) returns (b: bool)
    ensures b <==> Ignored(name, patterns)
  {
    var i := 0;
    while i < |patterns|
      invariant 0 <= i <= |patterns|
      invariant forall j :: 0 <= j < i ==> !Contains(name, patterns[j])
    {
      if Contains(name, patterns[i]) {
        return true;
      }
      i := i + 1;
    }
    return false;
  }

  /** Python's `str` ordering: lexicographic by code point. */
  predicate NameLe(a: string, b: string)
    decreases |a|
  {
    |a| == 0 || (|b| > 0 && (a[0] < b[0] || (a[0] == b[0] && NameLe(a[1..], b[1..]))))
  }

  lemma {:induction false} NameLeTotal(a: string, b: string)
    ensures NameLe(a, b) || NameLe(b, a)
    decreases |a|
  {
    if |a| > 0 && |b| > 0 && a[0] == b[0] {
      NameLeTotal(a[1..], b[1..]);
    }
  }

  lemma {:induction false} NameLeTrans(a: string, b: string, c: string)
    requires NameLe(a, b) && NameLe(b, c)
    ensures NameLe(a, c)
    decreases |a|
  {
    if |a| > 0 && a[0] == b[0] && b[0] == c[0] {
      NameLeTrans(a[1..], b[1..], c[1..]);
    }
  }

  predicate SortedByName(items: seq<FsNode>) {
    forall i, j :: 0 <= i < j < |items| ==> NameLe(items[i].name, items[j].name)
  }

  /** Inserts an entry into a listing before the first entry whose name it does not exceed. */
  function InsertByName(x: FsNode, items: seq<FsNode>): (r: seq<FsNode>)
    ensures multiset(r) == multiset(items) + multiset{x}
  {
    if |items| == 0 then [x]
    else if NameLe(x.name, items[0].name) then [x] + items
    else
      assert items == [items[0]] + items[1..];
      [items[0]] + InsertByName(x, items[1..])
  }

  /** A name below the inserted entry and below every listed one stays below every entry after insertion. */
  lemma {:induction false} InsertLowerBound(b: string, x: FsNode, items: seq<FsNode>)
    requires NameLe(b, x.name)
    requires forall j :: 0 <= j < |items| ==> NameLe(b, items[j].name)
    ensures forall k :: 0 <= k < |InsertByName(x, items)| ==> NameLe(b, InsertByName(x, items)[k].name)
    decreases |items|
  {
    if |items| > 0 && !NameLe(x.name, items[0].name) {
      InsertLowerBound(b, x, items[1..]);
      assert InsertByName(x, items) == [items[0]] + InsertByName(x, items[1..]);
    }
  }

  /** Insertion keeps a name-ordered listing in name order. */
  lemma {:induction false} InsertSorted(x: FsNode, items: seq<FsNode>)
    requires SortedByName(items)
    ensures SortedByName(InsertByName(x, items))
    decreases |items|
  {
    if |items| == 0 {
    } else if NameLe(x.name, items[0].name) {
      forall j | 0 <= j < |items|
        ensures NameLe(x.name, items[j].name)
      {
        if j > 0 { NameLeTrans(x.name, items[0].name, items[j].name); }
      }
    } else {
      var tail := items[1..];
      var rest := InsertByName(x, tail);
      InsertSorted(x, tail);
      NameLeTotal(x.name, items[0].name);
      assert forall j :: 0 <= j < |tail| ==> tail[j] == items[j + 1];
      InsertLowerBound(items[0].name, x, tail);
      ConsSorted(items[0], rest);
      assert InsertByName(x, items) == [items[0]] + rest;
    }
  }

  /** An entry below every entry of a sorted listing can be put in front of it. */
  lemma ConsSorted(h: FsNode, rest: seq<FsNode>)
    requires SortedByName(rest)
    requires forall k :: 0 <= k < |rest| ==> NameLe(h.name, rest[k].name)
    ensures SortedByName([h] + rest)
  {
    var r := [h] + rest;
    forall i, j | 0 <= i < j < |r|
      ensures NameLe(r[i].name, r[j].name)
    {
      assert r[j] == rest[j - 1];
      if i > 0 {
        assert r[i] == rest[i - 1];
      }
    }
  }

  /** `sorted(current_path.iterdir())`: siblings ordered by name. */
  function SortByName(items: seq<FsNode>): (r: seq<FsNode>)
    ensures SortedByName(r)
    ensures multiset(r) == multiset(items)
  {
    if |items| == 0 then []
    else
      assert items == [items[0]] + items[1..];
      InsertSorted(items[0], SortByName(items[1..]));
      InsertByName(items[0], SortByName(items[1..]))
  }

  /** The path of an entry inside a directory. */
  function ChildPath(parent: string, name: string): (p: string)
    ensures IsPrefix(parent, p) && |p| >= |parent| + |name| && p[|p| - |name|..] == name
  {
    if parent == "/" then parent + name else parent + "/" + name
  }

  /** The entries that `should_ignore` lets through, in their order. */
  function Visible(items: seq<FsNode>, ignore: seq<string>): (r: seq<FsNode>)
    ensures |r| <= |items|
  {
    if |items| == 0 then []
    else
      var init := Visible(items[..|items| - 1], ignore);
      if Ignored(items[|items| - 1].name, ignore) then init else init + [items[|items| - 1]]
  }

  /** `build_tree(current_path, depth)`: None once `depth` reaches `maxDepth`. */
  function Build(node: FsNode, path: string, depth: int, maxDepth: int, ignore: seq<string>): (r: Option<TreeNode>)
    decreases maxDepth - depth + 1, 0
    ensures r.None? <==> depth >= maxDepth
    ensures r.Some? ==> r.value.name == node.name && r.value.path == path && (r.value.DirEntry? <==> node.FsDir?)
    ensures r.Some? && r.value.FileEntry? ==> r.value.stat == node.stat
    ensures r.Some? && r.value.DirEntry? ==> (r.value.error.Some? <==> node.listing.None?)
    ensures r.Some? && r.value.DirEntry? && node.listing.None? ==> r.value.children == [] && r.value.error == Some(PermissionDenied)
  {
    if depth >= maxDepth then None
    else match node
      case FsFile(name, stat) => Some(FileEntry(name, path, stat))
      case FsDir(name, listing) =>
        if listing.None? then Some(DirEntry(name, path, [], Some(PermissionDenied)))
        else Some(DirEntry(name, path, BuildChildren(SortByName(listing.value), path, depth, maxDepth, ignore), None))
  }

  /** The children list `build_tree` collects for a directory at `depth`:
      one tree per entry that is not ignored and that yields a tree. */
  function BuildChildren(items: seq<FsNode>, parent: string, depth: int, maxDepth: int, ignore: seq<string>): (r: seq<TreeNode>)
    requires depth < maxDepth
    decreases maxDepth - depth, |items|
    ensures |r| <= |items|
    ensures depth + 1 >= maxDepth ==> r == []
  {
    if |items| == 0 then []
    else
      var init := BuildChildren(items[..|items| - 1], parent, depth, maxDepth, ignore);
      var last := items[|items| - 1];
      if Ignored(last.name, ignore) then init
      else match Build(last, ChildPath(parent, last.name), depth + 1, maxDepth, ignore)
        case None => init
        case Some(t) => init + [t]
  }

  /** What the children of a directory are: every one has a name that is listed
      and not ignored, and the path of that name under the directory; below the
      last level there is exactly one child per visible entry, in listing order. */
  lemma {:induction false} BuildChildrenSpec(items: seq<FsNode>, parent: string, depth: int, maxDepth: int, ignore: seq<string>)
    requires depth < maxDepth
    ensures var r := BuildChildren(items, parent, depth, maxDepth, ignore);
            && (forall k :: 0 <= k < |r| ==> !Ignored(r[k].name, ignore) && r[k].path == ChildPath(parent, r[k].name))
            && (forall k :: 0 <= k < |r| ==> exists j :: 0 <= j < |items| && r[k].name == items[j].name)
    ensures var r := BuildChildren(items, parent, depth, maxDepth, ignore);
            depth + 1 < maxDepth ==> |r| == |Visible(items, ignore)|
                                     && forall k :: 0 <= k < |r| ==> r[k].name == Visible(items, ignore)[k].name
    decreases |items|
  {
    if |items| > 0 {
      var init := items[..|items| - 1];
      var last := items[|items| - 1];
      BuildChildrenSpec(init, parent, depth, maxDepth, ignore);
      var ci := BuildChildren(init, parent, depth, maxDepth, ignore);
      var r := BuildChildren(items, parent, depth, maxDepth, ignore);
      assert forall j :: 0 <= j < |init| ==> init[j] == items[j];
      if r != ci {
        var t := Build(last, ChildPath(parent, last.name), depth + 1, maxDepth, ignore);
        assert !Ignored(last.name, ignore) && t.Some? && r == ci + [t.value];
        assert r[|ci|].name == items[|items| - 1].name;
      }
    }
  }

  /** Below the last level, child `k` of a directory is the whole tree built
      from its `k`-th visible entry, one level deeper: kind, stat and
      grandchildren included. */
  lemma {:induction false} BuildChildrenAreTrees(items: seq<FsNode>, parent: string, depth: int, maxDepth: int, ignore: seq<string>)
    requires depth + 1 < maxDepth
    ensures var r := BuildChildren(items, parent, depth, maxDepth, ignore);
            var v := Visible(items, ignore);
            && |r| == |v|
            && forall k :: 0 <= k < |r| ==>
                 r[k] == Build(v[k], ChildPath(parent, v[k].name), depth + 1, maxDepth, ignore).value
    decreases |items|
  {
    if |items| > 0 {
      BuildChildrenAreTrees(items[..|items| - 1], parent, depth, maxDepth, ignore);
    }
  }

  /** `build_tree` as the recursive procedure with its loop over the sorted listing. */
  method BuildTree(node: FsNode, path: string, depth: int, maxDepth: int, ignore: seq<string>) returns (r: Option<TreeNode>)
    decreases maxDepth - depth
    ensures r == Build(node, path, depth, maxDepth, ignore)
  {
    if depth >= maxDepth {
      return None;
    }
    match node
    case FsFile(name, stat) =>
      r := Some(FileEntry(name, path, stat));
    case FsDir(name, listing) =>
      if listing.None? {
        return Some(DirEntry(name, path, [], Some(PermissionDenied)));
      }
      var items := SortByName(listing.value);
      var children: seq<TreeNode> := [];
      var i := 0;
      while i < |items|
        invariant 0 <= i <= |items|
        invariant children == BuildChildren(items[..i], path, depth, maxDepth, ignore)
      {
        var item := items[i];
        assert items[..i + 1][..i] == items[..i];
        var skip := ShouldIgnore(item.name, ignore);
        if !skip {
          var child := BuildTree(item, ChildPath(path, item.name), depth + 1, maxDepth, ignore);
          if child.Some? {
            children := children + [child.value];
          }
        }
        i := i + 1;
      }
      assert items[..|items|] == items;
      r := Some(DirEntry(name, path, children, None));
  }

  /** `get_file_tree` on an already resolved path; `root` is None when nothing exists there. */
  method GetFileTree(resolvedPath: string, root: Option<FsNode>, maxDepth: int, ignorePatterns: Option<seq<string>>)
    returns (r: TreeResult)
    ensures root.None? ==> r == TreeError(PathMissing)
    ensures root.Some? && maxDepth <= 0 ==> r == NoTree
    ensures root.Some? && maxDepth > 0 ==>
              r == Tree(Build(root.value, resolvedPath, 0, maxDepth, IgnoreList(ignorePatterns)).value)
  {
    if root.None? {
      return TreeError(PathMissing);
    }
    var tree := BuildTree(root.value, resolvedPath, 0, maxDepth, IgnoreList(ignorePatterns));
    if tree.None? {
      return NoTree;
    }
    r := Tree(tree.value);
  }

  /** The names of a list of trees are in name order. */
  predicate SortedTrees(ts: seq<TreeNode>) {
    forall i, j :: 0 <= i < j < |ts| ==> NameLe(ts[i].name, ts[j].name)
  }

  /** A directory's children come out in name order, whatever order the listing had. */
  lemma {:induction false} ChildrenSorted(items: seq<FsNode>, parent: string, depth: int, maxDepth: int, ignore: seq<string>)
    requires depth < maxDepth && SortedByName(items)
    ensures SortedTrees(BuildChildren(items, parent, depth, maxDepth, ignore))
    decreases |items|
  {
    if |items| > 0 {
      var init := items[..|items| - 1];
      assert SortedByName(init);
      ChildrenSorted(init, parent, depth, maxDepth, ignore);
      BuildChildrenSpec(init, parent, depth, maxDepth, ignore);
      var ci := BuildChildren(init, parent, depth, maxDepth, ignore);
      var r := BuildChildren(items, parent, depth, maxDepth, ignore);
      if r != ci {
        forall i, j | 0 <= i < j < |r|
          ensures NameLe(r[i].name, r[j].name)
        {
          if j == |r| - 1 {
            var m :| 0 <= m < |init| && ci[i].name == init[m].name;
            assert r[i] == ci[i];
            assert NameLe(items[m].name, items[|items| - 1].name);
          } else {
            assert r[i] == ci[i] && r[j] == ci[j];
          }
        }
      }
    }
  }

  /** Every tree built at `depth` is at most `height` levels deep. */
  predicate HeightAtMost(t: TreeNode, height: int) {
    height >= 1 && (t.DirEntry? ==> forall c :: c in t.children ==> HeightAtMost(c, height - 1))
  }

  /** No tree reaches below `max_depth` levels: one built at `depth` has at most `maxDepth - depth` levels. */
  lemma {:induction false} BuildHeight(node: FsNode, path: string, depth: int, maxDepth: int, ignore: seq<string>)
    requires depth < maxDepth
    ensures HeightAtMost(Build(node, path, depth, maxDepth, ignore).value, maxDepth - depth)
    decreases maxDepth - depth + 1, 0
  {
    if node.FsDir? && node.listing.Some? {
      BuildChildrenHeight(SortByName(node.listing.value), path, depth, maxDepth, ignore);
    }
  }

  lemma {:induction false} BuildChildrenHeight(items: seq<FsNode>, parent: string, depth: int, maxDepth: int, ignore: seq<string>)
    requires depth < maxDepth
    ensures forall c :: c in BuildChildren(items, parent, depth, maxDepth, ignore) ==> HeightAtMost(c, maxDepth - depth - 1)
    decreases maxDepth - depth, |items|
  {
    if |items| > 0 {
      var last := items[|items| - 1];
      var init := BuildChildren(items[..|items| - 1], parent, depth, maxDepth, ignore);
      var r := BuildChildren(items, parent, depth, maxDepth, ignore);
      BuildChildrenHeight(items[..|items| - 1], parent, depth, maxDepth, ignore);
      if r != init {
        var t := Build(last, ChildPath(parent, last.name), depth + 1, maxDepth, ignore);
        assert t.Some? && r == init + [t.value];
        BuildHeight(last, ChildPath(parent, last.name), depth + 1, maxDepth, ignore);
        forall c | c in r
          ensures HeightAtMost(c, maxDepth - depth - 1)
        {
          if c != t.value {
            assert c in init;
          }
        }
      }
    }
  }

  /** With the default patterns, substring matching also hides `.gitignore` and `.github`. */
  lemma DefaultsHideDotfiles()
    ensures Ignored(".gitignore", DefaultIgnorePatterns)
    ensures Ignored(".github", DefaultIgnorePatterns)
    ensures !Ignored("src", DefaultIgnorePatterns)
  {
    assert IsPrefix(DefaultIgnorePatterns[1], ".gitignore");
    assert IsPrefix(DefaultIgnorePatterns[1], ".github");
    forall i | 0 <= i < |DefaultIgnorePatterns|
      ensures !Contains("src", DefaultIgnorePatterns[i])
    {
      if Contains("src", DefaultIgnorePatterns[i]) {
        ContainsNoLonger("src", DefaultIgnorePatterns[i]);
      }
    }
  }
}

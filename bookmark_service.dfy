/**
 * Flattening the browser's bookmark tree into the list the popup searches:
 * a pre-order walk that emits every node carrying a url, each with the titles
 * of the folders above it.
 */
module BookmarkService {
  import opened Wrappers
  import opened Types

  /** A node of the browser's bookmark tree. */
  datatype Node = Node(
    id: string,
    title: string,
    url: Option<string>,
    parentId: Option<string>,
    dateAdded: Option<int>,
    children: Children)

  /** The `children` field of a node: absent, or an array of nodes. */
  datatype Children = Absent | Present(nodes: seq<Node>)

  /** `if (node.url)`: a url that is present and not empty. */
  predicate HasUrl(n: Node) {
    n.url.Some? && n.url.value != ""
  }

  /** Folder names kept in a bookmark's path: not empty, not "root", not "Roots". */
  predicate KeepInPath(p: string) {
    p != "" && p != "root" && p != "Roots"
  }

  /** `path.filter(p => p && p !== 'root' && p !== 'Roots')` */
  function FolderPath(path: seq<string>): (r: seq<string>)
    ensures forall p :: p in r ==> KeepInPath(p)
    ensures forall p :: p in path && KeepInPath(p) ==> p in r
    ensures forall p :: p in r ==> p in path
  {
    if path == [] then []
    else (if KeepInPath(path[0]) then [path[0]] else []) + FolderPath(path[1..])
  }

  /** The filter keeps the folders' order: it works on each part of a path separately. */
  lemma {:induction false} FolderPathAppend(a: seq<string>, b: seq<string>)
    ensures FolderPath(a + b) == FolderPath(a) + FolderPath(b)
  {
    if a == [] {
      assert a + b == b;
    } else {
      assert (a + b)[1..] == a[1..] + b;
      FolderPathAppend(a[1..], b);
    }
  }

  /** Filtering a filtered path changes nothing. */
  lemma {:induction false} FolderPathIdempotent(path: seq<string>)
    ensures FolderPath(FolderPath(path)) == FolderPath(path)
  {
    if path != [] {
      var head := if KeepInPath(path[0]) then [path[0]] else [];
      FolderPathAppend(head, FolderPath(path[1..]));
      FolderPathIdempotent(path[1..]);
    }
  }

  /** `node.title ? [...path, node.title] : path`: the path grows by a title only when it is not empty. */
  function NextPath(n: Node, path: seq<string>): (r: seq<string>)
    ensures |r| == |path| + (if n.title != "" then 1 else 0)
    ensures r[..|path|] == path
    ensures |r| > |path| ==> r[|path|] == n.title
  {
    if n.title != "" then path + [n.title] else path
  }

  /** The bookmark made for a node with a url, under the ancestor path `path`. */
  function ToBookmark(n: Node, path: seq<string>): (b: Bookmark)
    requires HasUrl(n)
    ensures b.id == n.id && b.url == n.url.value
    ensures b.title != ""
    ensures b.title == n.title || (n.title == "" && b.title == n.url.value)
    ensures b.folderPath == Some(FolderPath(path))
    ensures b.parentId == n.parentId && b.dateAdded == n.dateAdded
  {
    Bookmark(n.id, if n.title != "" then n.title else n.url.value, n.url.value, n.parentId, n.dateAdded,
             Some(FolderPath(path)))
  }

  /** The bookmarks of a list of sibling nodes, each followed by those of its descendants. */
  function Flattened(nodes: seq<Node>, path: seq<string>): seq<Bookmark>
    decreases nodes
  {
    if nodes == [] then [] else NodeEntries(nodes[0], path) + Flattened(nodes[1..], path)
  }

  /** The bookmarks of one node and its descendants: its own entry first. */
  function NodeEntries(n: Node, path: seq<string>): seq<Bookmark>
    decreases n
  {
    (if HasUrl(n) then [ToBookmark(n, path)] else [])
    + (if n.children.Present? then Flattened(n.children.nodes, NextPath(n, path)) else [])
  }

  /** Siblings are flattened one after the other, in their input order. */
  lemma {:induction false} FlattenedAppend(a: seq<Node>, b: seq<Node>, path: seq<string>)
    ensures Flattened(a + b, path) == Flattened(a, path) + Flattened(b, path)
  {
    if a == [] {
      assert a + b == b;
    } else {
      assert (a + b)[1..] == a[1..] + b;
      FlattenedAppend(a[1..], b, path);
    }
  }

  /** Flattening one more sibling appends its entries. */
  lemma FlattenedSnoc(nodes: seq<Node>, i: nat, path: seq<string>)
    requires i < |nodes|
    ensures Flattened(nodes[..i + 1], path) == Flattened(nodes[..i], path) + NodeEntries(nodes[i], path)
  {
    assert nodes[..i + 1] == nodes[..i] + [nodes[i]];
    FlattenedAppend(nodes[..i], [nodes[i]], path);
    assert [nodes[i]][1..] == [];
  }

  /**
   * `flattenBookmarks(nodes, path)`: walks the siblings in order, pushes a
   * bookmark for each node with a url and appends what the recursive call
   * returns for its children.
   */
  method FlattenBookmarks(nodes: seq<Node>, path: seq<string>) returns (results: seq<Bookmark>)
    ensures results == Flattened(nodes, path)
    decreases nodes
  {
    results := [];
    for i := 0 to |nodes|
      invariant results == Flattened(nodes[..i], path)
    {
      var node := nodes[i];
      var own: seq<Bookmark> := [];
      if HasUrl(node) {
        own := [ToBookmark(node, path)];
      }
      var nested: seq<Bookmark> := [];
      if node.children.Present? {
        var nextPath := NextPath(node, path);
        assert node.children < node;
        nested := FlattenBookmarks(node.children.nodes, nextPath);
      }
      assert own + nested == NodeEntries(node, path);
      FlattenedSnoc(nodes, i, path);
      results := results + own + nested;
    }
    assert nodes[..|nodes|] == nodes;
  }

  /** A node visited by the walk, with the ancestor path it is visited under. */
  datatype Visit = Visit(node: Node, path: seq<string>)

  /** Every node of the forest in pre-order: a node before its descendants, siblings in order. */
  function PreOrder(nodes: seq<Node>, path: seq<string>): seq<Visit>
    decreases nodes
  {
    if nodes == [] then [] else NodeVisits(nodes[0], path) + PreOrder(nodes[1..], path)
  }

  function NodeVisits(n: Node, path: seq<string>): seq<Visit>
    decreases n
  {
    [Visit(n, path)] + (if n.children.Present? then PreOrder(n.children.nodes, NextPath(n, path)) else [])
  }

  /** The bookmarks of the url-bearing visits, in visit order. */
  function Emitted(visits: seq<Visit>): (r: seq<Bookmark>)
    ensures |r| <= |visits|
  {
    if visits == [] then []
    else (if HasUrl(visits[0].node) then [ToBookmark(visits[0].node, visits[0].path)] else []) + Emitted(visits[1..])
  }

  /** The bookmarks emitted are exactly those of the url-bearing visits. */
  lemma {:induction false} EmittedSoundComplete(visits: seq<Visit>)
    ensures forall v :: v in visits && HasUrl(v.node) ==> ToBookmark(v.node, v.path) in Emitted(visits)
    ensures forall b :: b in Emitted(visits) ==>
              exists v :: v in visits && HasUrl(v.node) && b == ToBookmark(v.node, v.path)
  {
    if visits != [] {
      EmittedSoundComplete(visits[1..]);
      assert visits == [visits[0]] + visits[1..];
    }
  }

  /** Emitting works visit by visit. */
  lemma {:induction false} EmittedAppend(a: seq<Visit>, b: seq<Visit>)
    ensures Emitted(a + b) == Emitted(a) + Emitted(b)
  {
    if a == [] {
      assert a + b == b;
    } else {
      var ab := a + b;
      assert ab[0] == a[0];
      assert ab[1..] == a[1..] + b;
      EmittedAppend(a[1..], b);
      var head := if HasUrl(a[0].node) then [ToBookmark(a[0].node, a[0].path)] else [];
      assert Emitted(ab) == head + Emitted(ab[1..]);
      assert Emitted(a) == head + Emitted(a[1..]);
    }
  }

  /**
   * The flattened list is the pre-order walk of the tree with every node
   * that has no url left out: each bookmark comes from a url-bearing node,
   * every such node gives exactly one bookmark, a node's entry comes before
   * its descendants' and siblings keep their order.
   */
  lemma {:induction false} FlattenedIsPreOrder(nodes: seq<Node>, path: seq<string>)
    ensures Flattened(nodes, path) == Emitted(PreOrder(nodes, path))
    decreases nodes
  {
    if nodes != [] {
      NodeEntriesArePreOrder(nodes[0], path);
      FlattenedIsPreOrder(nodes[1..], path);
      EmittedAppend(NodeVisits(nodes[0], path), PreOrder(nodes[1..], path));
    }
  }

  lemma {:induction false} NodeEntriesArePreOrder(n: Node, path: seq<string>)
    ensures NodeEntries(n, path) == Emitted(NodeVisits(n, path))
    decreases n
  {
    var own := [Visit(n, path)];
    var below := if n.children.Present? then PreOrder(n.children.nodes, NextPath(n, path)) else [];
    if n.children.Present? {
      assert n.children < n;
      FlattenedIsPreOrder(n.children.nodes, NextPath(n, path));
    }
    EmittedAppend(own, below);
    assert own[1..] == [];
  }

  /** The number of nodes with a url in a forest, counted independently of the walk. */
  function UrlCount(nodes: seq<Node>): nat
    decreases nodes
  {
    if nodes == [] then 0 else NodeUrlCount(nodes[0]) + UrlCount(nodes[1..])
  }

  function NodeUrlCount(n: Node): nat
    decreases n
  {
    (if HasUrl(n) then 1 else 0) + (if n.children.Present? then UrlCount(n.children.nodes) else 0)
  }

  /** Exactly one bookmark per node that has a url, whatever the starting path. */
  lemma {:induction false} FlattenedCount(nodes: seq<Node>, path: seq<string>)
    ensures |Flattened(nodes, path)| == UrlCount(nodes)
    decreases nodes
  {
    if nodes != [] {
      NodeEntriesCount(nodes[0], path);
      FlattenedCount(nodes[1..], path);
    }
  }

  lemma {:induction false} NodeEntriesCount(n: Node, path: seq<string>)
    ensures |NodeEntries(n, path)| == NodeUrlCount(n)
    decreases n
  {
    if n.children.Present? {
      assert n.children < n;
      FlattenedCount(n.children.nodes, NextPath(n, path));
    }
  }

  /** Every emitted folder path is present and free of empty, "root" and "Roots" entries. */
  lemma FlattenedFolderPathsClean(nodes: seq<Node>, path: seq<string>)
    ensures forall b :: b in Flattened(nodes, path) ==>
              b.folderPath.Some? && forall p :: p in b.folderPath.value ==> KeepInPath(p)
  {
    FlattenedIsPreOrder(nodes, path);
    EmittedSoundComplete(PreOrder(nodes, path));
  }

  /** Every emitted bookmark has a non-empty title: the node's title, or else its url. */
  lemma FlattenedTitles(nodes: seq<Node>, path: seq<string>)
    ensures forall b :: b in Flattened(nodes, path) ==>
              exists v :: v in PreOrder(nodes, path) && HasUrl(v.node) && b.url == v.node.url.value
                && b.title == (if v.node.title != "" then v.node.title else v.node.url.value)
  {
    FlattenedIsPreOrder(nodes, path);
    EmittedSoundComplete(PreOrder(nodes, path));
    forall b | b in Flattened(nodes, path)
      ensures exists v :: v in PreOrder(nodes, path) && HasUrl(v.node) && b.url == v.node.url.value
                && b.title == (if v.node.title != "" then v.node.title else v.node.url.value)
    {
      var v :| v in PreOrder(nodes, path) && HasUrl(v.node) && b == ToBookmark(v.node, v.path);
    }
  }
}

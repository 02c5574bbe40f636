/**
 The JSON file provider on its mutable nodes.  `shape` gives every node the tree
 below it; `Valid` ties it to the nodes' own fields, and says that the saved
 document, once there is one, is that of the root.  Each operation is proved to
 do what FileTree says, and nothing when it fails.
 */
module JsonFiles {
  import opened Wrappers
  import opened FileTree
  import opened FileDoc
  import opened FileLaws

  /** Position of the first node with a name, -1 without one. */
  function NodeIndex(nodes: seq<FileNode>, name: string): (k: int)
    ensures -1 <= k < |nodes|
    ensures k >= 0 ==> nodes[k].name == name
    ensures forall i :: 0 <= i < (if k == -1 then |nodes| else k) ==> nodes[i].name != name
  {
    if nodes == [] then -1
    else if nodes[0].name == name then 0
    else
      var k := NodeIndex(nodes[1..], name);
      if k == -1 then -1 else k + 1
  }

  lemma NodeIndexIs(nodes: seq<FileNode>, name: string, k: nat)
    requires k < |nodes| && nodes[k].name == name
    requires forall i :: 0 <= i < k ==> nodes[i].name != name
    ensures NodeIndex(nodes, name) == k
  {
  }

  class FileNode {
    const name: string
    const kind: string
    var content: string
    var children: seq<FileNode>

    constructor (name: string, kind: string, content: string)
      ensures this.name == name && this.kind == kind && this.content == content && children == []
    {
      this.name, this.kind, this.content := name, kind, content;
      children := [];
    }

    /** The first child with a name. */
    method GetChild(name: string) returns (child: FileNode?)
      ensures var k := NodeIndex(children, name);
        if k == -1 then child == null else child == children[k]
    {
      for n := 0 to |children|
        invariant forall i :: 0 <= i < n ==> children[i].name != name
      {
        if children[n].name == name {
          NodeIndexIs(children, name, n);
          return children[n];
        }
      }
      return null;
    }
  }

  /** A node's children without those of a name. */
  function Others(nodes: seq<FileNode>, name: string): seq<FileNode> {
    if nodes == [] then []
    else (if nodes[0].name == name then [] else [nodes[0]]) + Others(nodes[1..], name)
  }

  /** The first node of a name is the same in both lists. */
  ghost predicate SameChild(nodes: seq<FileNode>, others: seq<FileNode>, name: string) {
    var k, j := NodeIndex(nodes, name), NodeIndex(others, name);
    if k == -1 then j == -1 else j != -1 && others[j] == nodes[k]
  }

  lemma NodeIndexCons(first: FileNode, rest: seq<FileNode>, name: string)
    ensures NodeIndex([first] + rest, name) ==
      if first.name == name then 0 else if NodeIndex(rest, name) == -1 then -1 else NodeIndex(rest, name) + 1
  {
    assert ([first] + rest)[1..] == rest;
  }

  lemma {:induction false} OthersIndex(nodes: seq<FileNode>, name: string, other: string)
    requires other != name
    ensures SameChild(nodes, Others(nodes, name), other)
  {
    hide NodeIndex, Others;
    OthersCons(nodes, name);
    if nodes != [] {
      var tail, rest := nodes[1..], Others(nodes[1..], name);
      OthersIndex(tail, name, other);
      assert nodes == [nodes[0]] + tail;
      NodeIndexCons(nodes[0], tail, other);
      NodeIndexCons(nodes[0], rest, other);
    }
  }

  lemma OthersCons(nodes: seq<FileNode>, name: string)
    ensures Others(nodes, name) ==
      if nodes == [] then []
      else if nodes[0].name == name then Others(nodes[1..], name)
      else [nodes[0]] + Others(nodes[1..], name)
  {
  }

  ghost predicate NoDuplicates(nodes: seq<FileNode>) {
    forall i, j :: 0 <= i < j < |nodes| ==> nodes[i] != nodes[j]
  }

  lemma {:induction false} OthersMembers(nodes: seq<FileNode>, name: string)
    ensures forall c | c in Others(nodes, name) :: c in nodes && c.name != name
    ensures NoDuplicates(nodes) ==> NoDuplicates(Others(nodes, name))
  {
    if nodes != [] {
      OthersMembers(nodes[1..], name);
      var rest := Others(nodes[1..], name);
      if NoDuplicates(nodes) {
        assert forall c | c in rest :: c in nodes[1..];
        forall j | 0 <= j < |rest| ensures rest[j] != nodes[0] {
          assert rest[j] in rest;
          var i :| 0 <= i < |nodes[1..]| && nodes[1..][i] == rest[j];
          assert nodes[i + 1] == rest[j];
        }
      }
    }
  }

  /** `trees` are the trees of `nodes` under `shape`. */
  ghost predicate TreesOf(shape: map<FileNode, Tree>, nodes: seq<FileNode>, trees: seq<Tree>) {
    && |nodes| == |trees|
    && forall i :: 0 <= i < |nodes| ==> nodes[i] in shape && shape[nodes[i]] == trees[i]
  }

  lemma {:induction false} OthersMirror(shape: map<FileNode, Tree>, nodes: seq<FileNode>, trees: seq<Tree>,
                                        name: string)
    requires TreesOf(shape, nodes, trees)
    requires forall n | n in nodes :: shape[n].name == n.name
    ensures TreesOf(shape, Others(nodes, name), RemoveNamed(trees, name))
  {
    if nodes != [] {
      assert nodes[0] in nodes;
      assert forall n | n in nodes[1..] :: n in nodes;
      OthersMirror(shape, nodes[1..], trees[1..], name);
    }
  }

  /** `t` is what node `n` shows: its own fields and, under `shape`, the trees of its children. */
  ghost predicate ShowsIn(shape: map<FileNode, Tree>, n: FileNode, t: Tree)
    reads n
  {
    && t.name == n.name && t.kind == n.kind && t.content == n.content
    && TreesOf(shape, n.children, t.children)
  }

  /** Position of a node on a trail. */
  ghost function Place(trail: seq<FileNode>, n: FileNode): (k: nat)
    requires n in trail
    ensures k < |trail| && trail[k] == n
  {
    if trail[0] == n then 0 else Place(trail[1..], n) + 1
  }

  ghost predicate Kept(before: map<FileNode, Tree>, now: map<FileNode, Tree>) {
    forall n | n in before :: n in now && now[n] == before[n]
  }

  class JsonFileStorageProvider {
    var root: FileNode
    /** The document on disk, once one was saved. */
    var saved: Option<Json>
    ghost var shape: map<FileNode, Tree>

    /** Nodes form a tree below the root: every child has one parent and one place there. */
    ghost predicate Linked()
      reads this, shape.Keys
    {
      && root in shape
      && (forall n | n in shape :: NoDuplicates(n.children) && root !in n.children)
      && (forall n, c | n in shape && c in n.children :: c in shape)
      && (forall n, m, c | n in shape && m in shape && c in n.children && c in m.children :: n == m)
    }

    ghost predicate Shows(n: FileNode, t: Tree)
      reads this, n
    {
      ShowsIn(shape, n, t)
    }

    ghost predicate Consistent(): (yes: bool)
      reads this, shape.Keys
      ensures yes ==> root in shape
    {
      Linked() && forall n | n in shape :: Shows(n, shape[n])
    }

    ghost function Contents(): Tree
      requires root in shape
      reads this
    {
      shape[root]
    }

    ghost predicate Valid()
      reads this, shape.Keys
    {
      && Consistent() && RootFormed(Contents())
      && (saved.Some? ==> saved.value == ToDoc(Contents()))
    }

    // -------------------------------------------------------------------
    // Trails: the nodes met on the way down a path
    // -------------------------------------------------------------------

    ghost predicate IsTrail(trail: seq<FileNode>, path: Path): (yes: bool)
      reads this, shape.Keys
      ensures yes ==> |trail| == |path| + 1 && trail[0] == root && trail[|path|] in shape
    {
      && |trail| == |path| + 1 && trail[0] == root
      && (forall j :: 0 <= j < |trail| ==> trail[j] in shape)
      && (forall j :: 0 <= j < |path| ==> StepsDown(trail[j], path[j], trail[j + 1]))
    }

    /** `child` is the first child of that name of the directory `n`. */
    ghost predicate StepsDown(n: FileNode, name: string, child: FileNode)
      reads n
    {
      var k := NodeIndex(n.children, name);
      k != -1 && n.kind == "directory" && n.children[k] == child
    }

    lemma {:induction false} TrailIsDistinct(trail: seq<FileNode>, path: Path, i: nat, j: nat)
      requires Linked() && IsTrail(trail, path) && i < j < |trail|
      ensures trail[i] != trail[j]
      decreases i
    {
      assert StepsDown(trail[j - 1], path[j - 1], trail[j]);
      assert trail[j] in trail[j - 1].children;
      if i > 0 {
        assert StepsDown(trail[i - 1], path[i - 1], trail[i]);
        assert trail[i] in trail[i - 1].children;
        TrailIsDistinct(trail, path, i - 1, j - 1);
      }
    }

    lemma {:induction false} TrailResolves(trail: seq<FileNode>, path: Path, j: nat)
      requires Consistent() && IsTrail(trail, path) && j < |trail|
      ensures Resolve(shape[trail[j]], path[j..]) == Some(shape[trail[|path|]])
      decreases |trail| - j
    {
      if j < |path| {
        assert StepsDown(trail[j], path[j], trail[j + 1]);
        assert Shows(trail[j], shape[trail[j]]);
        SameIndex(trail[j], path[j]);
        TrailResolves(trail, path, j + 1);
        assert path[j..][1..] == path[j + 1..];
      }
    }

    lemma TrailGrows(trail: seq<FileNode>, path: Path, name: string, child: FileNode)
      requires IsTrail(trail, path) && child in shape && StepsDown(trail[|path|], name, child)
      ensures IsTrail(trail + [child], path + [name])
    {
      var trail', path' := trail + [child], path + [name];
      forall j | 0 <= j < |path'| ensures StepsDown(trail'[j], path'[j], trail'[j + 1]) {
        if j < |path| {
          assert StepsDown(trail[j], path[j], trail[j + 1]);
        }
      }
    }

    /** Names never change, so a child stands at the same place in the node and in its tree. */
    lemma SameIndex(n: FileNode, name: string)
      requires Linked() && n in shape && Shows(n, shape[n])
      requires forall c | c in n.children :: shape[c].name == c.name
      ensures ChildIndex(shape[n].children, name) == NodeIndex(n.children, name)
    {
      var k := NodeIndex(n.children, name);
      forall i | 0 <= i < |n.children| ensures shape[n].children[i].name == n.children[i].name {
        assert n.children[i] in n.children;
      }
      if k != -1 {
        ChildIndexUnique(shape[n].children, name, k);
      }
    }

    ghost predicate NamesKept()
      reads this
    {
      forall n | n in shape :: shape[n].name == n.name
    }

    // -------------------------------------------------------------------
    // After a node has changed: the trees of it and of those above it
    // -------------------------------------------------------------------

    ghost function Refreshed(trail: seq<FileNode>, path: Path, f: Tree -> Tree): map<FileNode, Tree>
      requires |trail| == |path| + 1
      reads this
    {
      map n | n in shape :: if n in trail then UpdateAt(shape[n], path[Place(trail, n)..], f) else shape[n]
    }

    lemma OffTrail(trail: seq<FileNode>, path: Path, n: FileNode, c: FileNode)
      requires Linked() && IsTrail(trail, path) && n in shape && c in n.children && c in trail
      ensures 0 < Place(trail, c) && n == trail[Place(trail, c) - 1]
    {
      var m := Place(trail, c);
      assert StepsDown(trail[m - 1], path[m - 1], trail[m]);
    }

    lemma PlaceIs(trail: seq<FileNode>, path: Path, j: nat)
      requires Linked() && IsTrail(trail, path) && j < |trail|
      ensures Place(trail, trail[j]) == j
    {
      var k := Place(trail, trail[j]);
      if k < j {
        TrailIsDistinct(trail, path, k, j);
      } else if j < k {
        TrailIsDistinct(trail, path, j, k);
      }
    }

    lemma RefreshedOff(trail: seq<FileNode>, path: Path, f: Tree -> Tree, n: FileNode)
      requires Linked() && IsTrail(trail, path) && n in shape && n !in trail && Shows(n, shape[n])
      ensures var next := Refreshed(trail, path, f); next[n] == shape[n] && ShowsIn(next, n, next[n])
    {
      forall i | 0 <= i < |n.children| ensures n.children[i] !in trail {
        if n.children[i] in trail {
          OffTrail(trail, path, n, n.children[i]);
        }
      }
    }

    lemma RefreshedOn(trail: seq<FileNode>, path: Path, f: Tree -> Tree, j: nat)
      requires Linked() && NamesKept() && IsTrail(trail, path) && j < |path| && Shows(trail[j], shape[trail[j]])
      ensures var next, n := Refreshed(trail, path, f), trail[j];
        && next[n] == UpdateAt(shape[n], path[j..], f)
        && ShowsIn(next, n, next[n])
    {
      var n := trail[j];
      var next := Refreshed(trail, path, f);
      PlaceIs(trail, path, j);
      PlaceIs(trail, path, j + 1);
      assert StepsDown(n, path[j], trail[j + 1]);
      SameIndex(n, path[j]);
      assert path[j..][0] == path[j] && path[j..][1..] == path[j + 1..];
      var k := NodeIndex(n.children, path[j]);
      forall i | 0 <= i < |n.children| && i != k ensures n.children[i] !in trail {
        if n.children[i] in trail {
          OffTrail(trail, path, n, n.children[i]);
          PlaceIs(trail, path, Place(trail, n.children[i]) - 1);
        }
      }
    }

    lemma RefreshedLast(trail: seq<FileNode>, path: Path, f: Tree -> Tree)
      requires Linked() && IsTrail(trail, path) && Shows(trail[|path|], f(shape[trail[|path|]]))
      ensures var next, n := Refreshed(trail, path, f), trail[|path|];
        && next[n] == f(shape[n])
        && ShowsIn(next, n, next[n])
    {
      var n := trail[|path|];
      PlaceIs(trail, path, |path|);
      assert path[|path|..] == [];
      forall i | 0 <= i < |n.children| ensures n.children[i] !in trail {
        if n.children[i] in trail {
          OffTrail(trail, path, n, n.children[i]);
          PlaceIs(trail, path, Place(trail, n.children[i]) - 1);
        }
      }
    }

    ghost method Refresh(trail: seq<FileNode>, path: Path, f: Tree -> Tree)
      requires Linked() && NamesKept() && IsTrail(trail, path)
      requires forall n | n in shape && n != trail[|path|] :: Shows(n, shape[n])
      requires Shows(trail[|path|], f(shape[trail[|path|]]))
      modifies this`shape
      ensures shape.Keys == old(shape.Keys)
      ensures Consistent()
      ensures Contents() == UpdateAt(old(shape[root]), path, f)
      ensures shape[trail[|path|]] == f(old(shape[trail[|path|]]))
      ensures forall n | n in shape && n !in trail :: shape[n] == old(shape)[n]
    {
      hide UpdateAt, TreesOf, StepsDown;
      var next := Refreshed(trail, path, f);
      RefreshedLast(trail, path, f);
      PlaceIs(trail, path, |path|);
      forall n | n in shape ensures ShowsIn(next, n, next[n]) {
        if n !in trail {
          RefreshedOff(trail, path, f, n);
        } else {
          var j := Place(trail, n);
          if j < |path| {
            RefreshedOn(trail, path, f, j);
          }
        }
      }
      PlaceIs(trail, path, 0);
      assert path[0..] == path;
      shape := next;
    }

    // -------------------------------------------------------------------
    // Changing one node in place
    // -------------------------------------------------------------------

    /** A node of its own: nobody's child, and not the root. */
    ghost predicate Orphan(c: FileNode)
      reads this, shape.Keys
    {
      c in shape && c != root && forall n | n in shape :: c !in n.children
    }

    ghost predicate Orphans(nodes: set<FileNode>): (yes: bool)
      reads this, shape.Keys
      ensures yes ==> nodes <= shape.Keys
    {
      forall c | c in nodes :: Orphan(c)
    }

    lemma FewerOrphans(some: set<FileNode>, all: set<FileNode>)
      requires Orphans(all) && some <= all
      ensures Orphans(some)
    {
    }

    lemma OrphanOffTrail(trail: seq<FileNode>, path: Path, c: FileNode)
      requires IsTrail(trail, path) && Orphan(c)
      ensures c !in trail
    {
      forall j | 0 <= j < |trail| ensures trail[j] != c {
        if j > 0 {
          assert StepsDown(trail[j - 1], path[j - 1], trail[j]);
        }
      }
    }

    lemma AddKeepsIndex(nodes: seq<FileNode>, child: FileNode, name: string)
      ensures NodeIndex(nodes, name) != -1 ==> NodeIndex(nodes + [child], name) == NodeIndex(nodes, name)
      ensures NodeIndex(nodes, child.name) == -1 ==> NodeIndex(nodes + [child], child.name) == |nodes|
    {
      var k := NodeIndex(nodes, name);
      if k != -1 {
        NodeIndexIs(nodes + [child], name, k);
      }
      if NodeIndex(nodes, child.name) == -1 {
        NodeIndexIs(nodes + [child], child.name, |nodes|);
      }
    }

    lemma OneMoreShown(node: FileNode, child: FileNode)
      requires Consistent() && node in shape && Orphan(child)
      ensures shape[node] == Tree(node.name, node.kind, node.content, shape[node].children)
      ensures TreesOf(shape, node.children + [child], shape[node].children + [shape[child]])
      ensures NoDuplicates(node.children + [child])
    {
      assert Shows(node, shape[node]) && child !in node.children;
    }

    /** `add_child`.  `keep` is any trail: it stays one. */
    method AddChild(node: FileNode, child: FileNode, ghost trail: seq<FileNode>, ghost path: Path,
                    ghost keep: seq<FileNode>, ghost keepPath: Path)
      requires Consistent() && IsTrail(trail, path) && trail[|path|] == node && Orphan(child)
      modifies node`children, this`shape
      ensures Consistent() && shape.Keys == old(shape.Keys)
      ensures Contents() == AddAt(old(Contents()), path, old(shape[child]))
      ensures shape[node] == WithChild(old(shape[node]), old(shape[child]))
      ensures node.children == old(node.children) + [child]
      ensures forall n | n in shape && n !in trail :: shape[n] == old(shape)[n]
      ensures IsTrail(trail, path)
      ensures old(IsTrail(keep, keepPath)) ==> IsTrail(keep, keepPath)
    {
      hide UpdateAt, NodeIndex, TreesOf, NoDuplicates;
      ghost var siblings := node.children;
      TrailNodesDiffer(trail, path);
      OneMoreShown(node, child);
      node.children := node.children + [child];
      forall name
        ensures NodeIndex(siblings, name) != -1 ==> NodeIndex(node.children, name) == NodeIndex(siblings, name)
      {
        AddKeepsIndex(siblings, child, name);
      }
      Refresh(trail, path, Adding(shape[child]));
    }

    lemma TrailNodesDiffer(trail: seq<FileNode>, path: Path)
      requires Linked() && IsTrail(trail, path)
      ensures forall j :: 0 <= j < |path| ==> trail[j] != trail[|path|]
    {
      forall j | 0 <= j < |path| ensures trail[j] != trail[|path|] {
        TrailIsDistinct(trail, path, j, |path|);
      }
    }

    lemma OthersShown(node: FileNode, name: string)
      requires Consistent() && node in shape
      ensures shape[node] == Tree(node.name, node.kind, node.content, shape[node].children)
      ensures var others := Others(node.children, name);
        && TreesOf(shape, others, RemoveNamed(shape[node].children, name))
        && NoDuplicates(others)
        && forall c | c in others :: c in node.children
    {
      OthersMembers(node.children, name);
      assert Shows(node, shape[node]);
      OthersMirror(shape, node.children, shape[node].children, name);
    }

    /** `remove_child`. */
    method RemoveChild(node: FileNode, name: string, ghost trail: seq<FileNode>, ghost path: Path,
                       ghost keep: seq<FileNode>, ghost keepPath: Path)
      requires Consistent() && IsTrail(trail, path) && trail[|path|] == node
      modifies node`children, this`shape
      ensures Consistent() && shape.Keys == old(shape.Keys)
      ensures Contents() == UpdateAt(old(Contents()), path, Removing(name))
      ensures node.children == Others(old(node.children), name)
      ensures forall n | n in shape && n !in trail :: shape[n] == old(shape)[n]
      ensures IsTrail(trail, path)
      ensures old(IsTrail(keep, keepPath)) && !(path + [name] <= keepPath) ==> IsTrail(keep, keepPath)
    {
      hide UpdateAt, NodeIndex, Others, TreesOf, NoDuplicates;
      TrailNodesDiffer(trail, path);
      ghost var siblings := node.children;
      OthersShown(node, name);
      if IsTrail(keep, keepPath) && !(path + [name] <= keepPath) {
        LeavesByOtherNames(trail, path, name, keep, keepPath);
      }
      node.children := Others(node.children, name);
      if old(IsTrail(keep, keepPath)) && !(path + [name] <= keepPath) {
        forall j | 0 <= j < |keepPath| ensures StepsDown(keep[j], keepPath[j], keep[j + 1]) {
          assert old(StepsDown(keep[j], keepPath[j], keep[j + 1]));
          if keep[j] == node {
            OthersIndex(siblings, name, keepPath[j]);
          }
        }
      }
      Refresh(trail, path, Removing(name));
    }

    /** A trail that does not go on below `path` by `name` leaves its node by another name. */
    lemma LeavesByOtherNames(trail: seq<FileNode>, path: Path, name: string, keep: seq<FileNode>, keepPath: Path)
      requires Linked() && IsTrail(trail, path) && IsTrail(keep, keepPath) && !(path + [name] <= keepPath)
      ensures forall j :: 0 <= j < |keepPath| && keep[j] == trail[|path|] ==> keepPath[j] != name
    {
      forall j | 0 <= j < |keepPath| && keep[j] == trail[|path|] ensures keepPath[j] != name {
        TrailsAgree(keep, keepPath, j, trail, path, |path|);
        assert path[..|path|] == path;
        assert path + [keepPath[j]] == keepPath[..j + 1] <= keepPath;
      }
    }

    method SetContent(node: FileNode, text: string, ghost trail: seq<FileNode>, ghost path: Path)
      requires Consistent() && IsTrail(trail, path) && trail[|path|] == node
      modifies node`content, this`shape
      ensures Consistent() && shape.Keys == old(shape.Keys)
      ensures Contents() == SetContentAt(old(Contents()), path, text)
    {
      node.content := text;
      Refresh(trail, path, Writing(text));
    }

    /** A node of its own.  `loose` are others, which stay so. */
    method NewNode(name: string, kind: string, content: string, ghost loose: set<FileNode>) returns (node: FileNode)
      requires Consistent() && Orphans(loose)
      modifies this`shape
      ensures Consistent() && fresh(node) && Orphan(node)
      ensures node.name == name && node.kind == kind && node.children == []
      ensures Orphans(loose + {node})
      ensures shape == old(shape)[node := Tree(name, kind, content, [])]
    {
      node := new FileNode(name, kind, content);
      shape := shape[node := Tree(name, kind, content, [])];
    }

    // -------------------------------------------------------------------
    // Walking down
    // -------------------------------------------------------------------

    /** `_resolve`. */
    method ResolveNode(path: Path) returns (node: FileNode?, ghost trail: seq<FileNode>)
      requires Consistent()
      ensures node == null <==> Resolve(Contents(), path).None?
      ensures node != null ==>
        IsTrail(trail, path) && trail[|path|] == node && Resolve(Contents(), path) == Some(shape[node])
    {
      hide NodeIndex, ChildIndex, NoDuplicates;
      node := root;
      trail := [root];
      assert path[0..] == path;
      for n := 0 to |path|
        invariant node != null && IsTrail(trail, path[..n]) && trail[n] == node
        invariant Resolve(Contents(), path) == Resolve(shape[node], path[n..])
      {
        var child := node.GetChild(path[n]);
        assert Shows(node, shape[node]);
        SameIndex(node, path[n]);
        assert path[n..][0] == path[n] && path[n..][1..] == path[n + 1..];
        if child == null || node.kind != "directory" {
          return null, [];
        }
        TrailGrows(trail, path[..n], path[n], child);
        assert path[..n + 1] == path[..n] + [path[n]];
        node := child;
        trail := trail + [child];
      }
      assert path[..|path|] == path;
    }

    /** The trail that ends at a node is the only one: its path is the node's. */
    lemma {:induction false} TrailsAgree(trail1: seq<FileNode>, path1: Path, i: nat,
                                         trail2: seq<FileNode>, path2: Path, j: nat)
      requires Linked() && IsTrail(trail1, path1) && IsTrail(trail2, path2)
      requires i < |trail1| && j < |trail2| && trail1[i] == trail2[j]
      ensures i == j && path1[..i] == path2[..j]
      decreases i
    {
      if i > 0 {
        assert StepsDown(trail1[i - 1], path1[i - 1], trail1[i]);
        assert trail1[i] in trail1[i - 1].children;
      }
      if j > 0 {
        assert StepsDown(trail2[j - 1], path2[j - 1], trail2[j]);
        assert trail2[j] in trail2[j - 1].children;
      }
      if i > 0 && j > 0 {
        TrailsAgree(trail1, path1, i - 1, trail2, path2, j - 1);
        assert path1[..i] == path1[..i - 1] + [path1[i - 1]] && path2[..j] == path2[..j - 1] + [path2[j - 1]];
      }
    }

    /** Progress of creating parents: what is still to do from `now` ends where it would have from `before`. */
    ghost predicate OnTheWay(before: Tree, parts: Path, create: bool, made: bool)
      reads this
    {
      && root in shape
      && IsDir(Contents())
      && EnsureParents(Contents(), parts, create) == EnsureParents(before, parts, create)
      && (made ==> create && Resolve(before, parts).None?)
      && (!made ==> Contents() == before)
    }

    /** Makes a directory in place, as the last child. */
    method AddNew(current: FileNode, name: string, kind: string, content: string,
                  ghost trail: seq<FileNode>, ghost path: Path,
                  ghost keep: seq<FileNode>, ghost keepPath: Path)
      returns (child: FileNode)
      requires Consistent() && IsTrail(trail, path) && trail[|path|] == current
      modifies this`shape, current`children
      ensures Consistent() && old(shape.Keys) <= shape.Keys && fresh(shape.Keys - old(shape.Keys))
      ensures Contents() == AddAt(old(Contents()), path, Tree(name, kind, content, []))
      ensures child in shape && child.name == name && child.kind == kind
      ensures shape[child] == Tree(name, kind, content, [])
      ensures current.children == old(current.children) + [child]
      ensures IsTrail(trail, path)
      ensures old(IsTrail(keep, keepPath)) ==> IsTrail(keep, keepPath)
    {
      hide UpdateAt, StepsDown, Consistent, Orphan;
      child := NewNode(name, kind, content, {});
      assert IsTrail(trail, path);
      OrphanOffTrail(trail, path, child);
      AddChild(current, child, trail, path, keep, keepPath);
    }

    /** Makes a missing directory in place; `keep` is any other trail, which stays one. */
    method MakeDirectory(current: FileNode, name: string, ghost trail: seq<FileNode>, ghost path: Path,
                         ghost keep: seq<FileNode>, ghost keepPath: Path)
      returns (child: FileNode)
      requires Consistent() && IsTrail(trail, path) && trail[|path|] == current && current.kind == "directory"
      requires NodeIndex(current.children, name) == -1
      modifies this`shape, current`children
      ensures Consistent() && old(shape.Keys) <= shape.Keys && fresh(shape.Keys - old(shape.Keys))
      ensures Contents() == AddAt(old(Contents()), path, NewDir(name))
      ensures IsTrail(trail + [child], path + [name])
      ensures child in shape && shape[child] == NewDir(name)
      ensures old(IsTrail(keep, keepPath)) ==> IsTrail(keep, keepPath)
    {
      hide UpdateAt, NoDuplicates, NodeIndex;
      ghost var siblings := current.children;
      child := AddNew(current, name, "directory", "", trail, path, keep, keepPath);
      AddKeepsIndex(siblings, child, name);
      TrailGrows(trail, path, name, child);
    }

    /** What the next segment of `parts` means for where creating parents ends. */
    lemma NextSegment(parts: Path, n: nat, create: bool, trail: seq<FileNode>)
      requires n < |parts| && Consistent() && IsDir(Contents())
      requires IsTrail(trail, parts[..n]) && IsDir(shape[trail[n]])
      ensures var t, current := Contents(), trail[n];
        var k := NodeIndex(current.children, parts[n]);
        && (k == -1 && !create ==> EnsureParents(t, parts, create) == Err(NotFound))
        && (k == -1 ==>
             && var u := AddAt(t, parts[..n], NewDir(parts[n]));
             IsDir(u) && EnsureParents(u, parts, true) == EnsureParents(t, parts, true) && Resolve(t, parts).None?)
        && (k != -1 ==>
             var child := current.children[k];
             && child in shape && shape[child].kind == child.kind
             && (child.kind != "directory" ==> EnsureParents(t, parts, create) == Err(NotADirectory))
             && (child.kind == "directory" ==> IsTrail(trail + [child], parts[..n] + [parts[n]])))
    {
      hide UpdateAt, EnsureParents, NodeIndex;
      var current, p, name, rest := trail[n], parts[..n], parts[n], parts[n + 1..];
      assert parts == p + [name] + rest;
      TrailResolves(trail, p, 0);
      assert p[0..] == p;
      assert Shows(current, shape[current]);
      SameIndex(current, name);
      EnsureStops(Contents(), p, name, rest, create);
      var k := NodeIndex(current.children, name);
      if k == -1 {
        EnsureProgress(Contents(), p, name, rest);
        NothingBelow(Contents(), p, name, rest);
      } else {
        var child := current.children[k];
        assert child in current.children;
        assert Shows(child, shape[child]);
        if child.kind == "directory" {
          TrailGrows(trail, p, name, child);
        }
      }
    }

    /** One segment of `_ensure_parents`: the child is there, or it is made. */
    method EnsureChild(parts: Path, n: nat, create: bool, current: FileNode, ghost trail: seq<FileNode>,
                       ghost before: Tree, ghost made: bool, ghost keep: seq<FileNode>, ghost keepPath: Path)
      returns (child: FileNode?, error: Option<Error>, ghost nowMade: bool)
      requires n < |parts| && Consistent()
      requires IsTrail(trail, parts[..n]) && trail[n] == current && current in shape && IsDir(shape[current])
      requires OnTheWay(before, parts, create, made) && (made ==> shape[current].children == [])
      modifies this`shape, current`children
      ensures Consistent() && old(shape.Keys) <= shape.Keys && fresh(shape.Keys - old(shape.Keys))
      ensures old(IsTrail(keep, keepPath)) ==> IsTrail(keep, keepPath)
      ensures error.Some? <==> child == null
      ensures error.Some? ==> EnsureParents(before, parts, create) == Err(error.value) && !nowMade
      ensures child != null ==>
        IsTrail(trail + [child], parts[..n] + [parts[n]]) && child in shape && IsDir(shape[child])
      ensures OnTheWay(before, parts, create, nowMade) && (made ==> nowMade)
      ensures nowMade && child != null ==> shape[child].children == []
      ensures !nowMade ==> shape == old(shape)
    {
      hide UpdateAt, EnsureParents, NodeIndex, IsTrail, NoDuplicates;
      nowMade := made;
      error := None;
      NextSegment(parts, n, create, trail);
      assert Shows(current, shape[current]);
      child := current.GetChild(parts[n]);
      if child == null {
        if !create {
          return null, Some(NotFound), nowMade;
        }
        child := MakeDirectory(current, parts[n], trail, parts[..n], keep, keepPath);
        nowMade := true;
      } else if child.kind != "directory" {
        return null, Some(NotADirectory), nowMade;
      }
    }

    lemma NothingBelow(t: Tree, p: Path, name: string, rest: Path)
      requires Resolve(t, p).Some? && ChildIndex(Resolve(t, p).value.children, name) == -1
      ensures Resolve(t, p + [name] + rest).None?
    {
      ResolveSplit(t, p, [name] + rest);
      assert p + [name] + rest == p + ([name] + rest);
    }

    /**
     `_ensure_parents`.  Once a directory has been made nothing can fail: the
     next segments are missing too.  A failure therefore leaves every node as it was.
     */
    method EnsureParentsNode(parts: Path, create: bool, ghost keep: seq<FileNode>, ghost keepPath: Path)
      returns (node: FileNode?, error: Option<Error>, ghost trail: seq<FileNode>, ghost made: bool)
      requires Consistent() && IsDir(Contents())
      modifies this`shape, shape.Keys`children
      ensures Consistent() && old(shape.Keys) <= shape.Keys && fresh(shape.Keys - old(shape.Keys))
      ensures old(IsTrail(keep, keepPath)) ==> IsTrail(keep, keepPath)
      ensures var r := EnsureParents(old(Contents()), parts, create);
        && error == (if r.Ok? then None else Some(r.error))
        && Contents() == (if r.Ok? then r.value else old(Contents()))
      ensures !made ==> shape == old(shape) && Contents() == old(Contents())
      ensures made ==> create && Resolve(old(Contents()), parts).None?
      ensures error.Some? ==> !made
      ensures node == null <==> error.Some?
      ensures made ==> node != null && node in shape && shape[node].children == []
      ensures node != null ==> IsTrail(trail, parts) && trail[|parts|] == node && node in shape && IsDir(shape[node])
    {
      hide UpdateAt, EnsureParents, NodeIndex, NoDuplicates, Resolve, StepsDown, Shows;
      node := root;
      trail := [root];
      made := false;
      ghost var before := Contents();
      for n := 0 to |parts|
        invariant Consistent() && old(shape.Keys) <= shape.Keys && fresh(shape.Keys - old(shape.Keys))
        invariant old(IsTrail(keep, keepPath)) ==> IsTrail(keep, keepPath)
        invariant node != null && IsTrail(trail, parts[..n]) && trail[n] == node
        invariant node in shape && IsDir(shape[node])
        invariant OnTheWay(before, parts, create, made)
        invariant made ==> shape[node].children == []
        invariant !made ==> shape == old(shape)
      {
        var child;
        child, error, made := EnsureChild(parts, n, create, node, trail, before, made, keep, keepPath);
        if child == null {
          return null, error, trail, made;
        }
        node := child;
        trail := trail + [child];
        assert parts[..n + 1] == parts[..n] + [parts[n]];
      }
      assert parts[..|parts|] == parts;
      AllThere(parts, create, trail);
      error := None;
    }

    lemma AllThere(parts: Path, create: bool, trail: seq<FileNode>)
      requires Consistent() && IsDir(Contents()) && IsTrail(trail, parts) && IsDir(shape[trail[|parts|]])
      ensures EnsureParents(Contents(), parts, create) == Ok(Contents())
    {
      TrailResolves(trail, parts, 0);
      assert parts[0..] == parts;
      EnsureExisting(Contents(), parts, create);
    }

    // -------------------------------------------------------------------
    // Building subtrees: copies and loaded documents
    // -------------------------------------------------------------------

    /** What building a subtree leaves alone: every node there was. */
    twostate predicate OnlyGrows()
      reads this, shape.Keys
    {
      Kept(old(shape), shape) && old(shape.Keys) <= shape.Keys && fresh(shape.Keys - old(shape.Keys))
    }

    /** `add_child` on a node that hangs nowhere yet. */
    method Attach(node: FileNode, child: FileNode, ghost loose: set<FileNode>)
      requires Consistent() && Orphans(loose + {node} + {child}) && child !in loose && node != child
      modifies node`children, this`shape
      ensures Consistent()
      ensures Orphans(loose + {node})
      ensures node.children == old(node.children) + [child]
      ensures shape == old(shape)[node := WithChild(old(shape[node]), old(shape[child]))]
    {
      hide NodeIndex, TreesOf, NoDuplicates;
      ghost var next := shape[node := WithChild(shape[node], shape[child])];
      forall n | n in shape && n != node ensures ShowsIn(next, n, next[n]) {
        ShowsElsewhere(node, next[node], n);
      }
      ShowsMore(node, child);
      node.children := node.children + [child];
      shape := next;
    }

    lemma ShowsElsewhere(node: FileNode, t: Tree, n: FileNode)
      requires Consistent() && Orphan(node) && n in shape && n != node
      ensures ShowsIn(shape[node := t], n, shape[n])
    {
      assert Shows(n, shape[n]) && node !in n.children;
    }

    lemma ShowsMore(node: FileNode, child: FileNode)
      requires Consistent() && Orphan(node) && Orphan(child) && node != child
      ensures var t := WithChild(shape[node], shape[child]);
        && TreesOf(shape[node := t], node.children + [child], t.children)
        && t.name == node.name && t.kind == node.kind && t.content == node.content
        && NoDuplicates(node.children + [child])
    {
      assert Shows(node, shape[node]) && node !in node.children;
    }

    lemma OneMore(ts: seq<Tree>, i: nat)
      requires i < |ts|
      ensures ts[..i] + [ts[i]] == ts[..i + 1]
    {
    }

    lemma StillThere(before: map<FileNode, Tree>, now: map<FileNode, Tree>, n: FileNode)
      requires Kept(before, now) && n in before
      ensures n in now && now[n] == before[n]
    {
    }

    lemma KeptSame(shape: map<FileNode, Tree>)
      ensures Kept(shape, shape)
    {
    }

    lemma KeptThrough(a: map<FileNode, Tree>, b: map<FileNode, Tree>, c: map<FileNode, Tree>, n: FileNode, t: Tree)
      requires (a == b || Kept(a, b)) && (b == c || Kept(b, c)) && n !in a
      ensures Kept(a, c[n := t])
      ensures n in b ==> n in c && c[n] == b[n]
    {
    }

    /** What one more child below `node` leaves alone: every other node there was. */
    twostate predicate OnlyFills(node: FileNode)
      reads this
    {
      Kept(old(shape) - {node}, shape) && old(shape.Keys) <= shape.Keys && fresh(shape.Keys - old(shape.Keys))
    }

    lemma KeptAround(a: map<FileNode, Tree>, b: map<FileNode, Tree>, n: FileNode, t: Tree)
      requires Kept(a, b)
      ensures Kept(a - {n}, b) && Kept(a - {n}, b[n := t])
      ensures n in a ==> n in b && b[n] == a[n]
    {
    }

    lemma KeptPast(a: map<FileNode, Tree>, b: map<FileNode, Tree>, c: map<FileNode, Tree>, n: FileNode)
      requires Kept(a, b) && Kept(b - {n}, c) && n !in a
      ensures Kept(a, c)
    {
    }

    lemma ShowsFields(n: FileNode)
      requires Consistent() && n in shape
      ensures shape[n] == Tree(shape[n].name, n.kind, n.content, shape[n].children)
      ensures |shape[n].children| == |n.children|
      ensures forall i :: 0 <= i < |n.children| ==>
        && n.children[i] in shape && shape[n.children[i]] == shape[n].children[i]
        && shape[n].children[i].name == n.children[i].name
    {
      assert Shows(n, shape[n]);
      forall i | 0 <= i < |n.children| ensures shape[n].children[i].name == n.children[i].name {
        assert n.children[i] in n.children;
        assert Shows(n.children[i], shape[n.children[i]]);
      }
    }

    /** `_deep_copy`: fresh nodes throughout, showing the same tree under the new name. */
    method DeepCopy(node: FileNode, newName: string, ghost loose: set<FileNode>) returns (copy: FileNode)
      requires Consistent() && node in shape && Orphans(loose)
      modifies this`shape
      ensures Consistent() && OnlyGrows() && Orphans(loose + {copy}) && copy in shape && copy !in old(shape)
      ensures shape[copy] == old(shape[node]).(name := newName)
      decreases shape[node], 0
    {
      hide Consistent, Orphans, Kept;
      ghost var source := shape[node];
      ShowsFields(node);
      copy := NewNode(newName, node.kind, node.content, loose);
      KeptThrough(old(shape), old(shape), old(shape), copy, shape[copy]);
      for i := 0 to |node.children|
        invariant Consistent() && OnlyGrows() && Orphans(loose + {copy}) && copy in shape && copy !in old(shape)
        invariant shape[copy] == Tree(newName, source.kind, source.content, source.children[..i])
      {
        assert node.children[i] in node.children;
        StillThere(old(shape), shape, node.children[i]);
        ghost var s1 := shape;
        AppendCopy(copy, node.children[i], loose);
        OneMore(source.children, i);
        KeptPast(old(shape), s1, shape, copy);
      }
    }

    /** A copy of `child`, as the next child of the node being built. */
    method AppendCopy(node: FileNode, child: FileNode, ghost loose: set<FileNode>)
      requires Consistent() && Orphans(loose + {node}) && node in shape
      requires child in shape && shape[child].name == child.name
      modifies this`shape, node`children
      ensures Consistent() && Orphans(loose + {node}) && OnlyFills(node) && node in shape
      ensures shape[node] == WithChild(old(shape[node]), old(shape[child]))
      decreases shape[child], 1
    {
      hide Consistent, Orphans, Kept;
      var copy := DeepCopy(child, child.name, loose + {node});
      ghost var s2 := shape;
      KeptAround(old(shape), s2, node, WithChild(s2[node], s2[copy]));
      Attach(node, copy, loose);
    }

    ghost function After(done: seq<Tree>, r: Result<seq<Tree>, DocError>): Result<seq<Tree>, DocError> {
      match r
      case Err(e) => Err(e)
      case Ok(rest) => Ok(done + rest)
    }

    lemma DocsStep(done: seq<Tree>, items: seq<Json>, i: nat)
      requires i < |items|
      ensures After(done, FromDocs(items[i..])) ==
        match FromDoc(items[i])
        case Err(e) => Err(e)
        case Ok(t) => After(done + [t], FromDocs(items[i + 1..]))
    {
      assert items[i..][0] == items[i] && items[i..][1..] == items[i + 1..];
      match FromDoc(items[i])
      case Err(_) =>
      case Ok(t) =>
        match FromDocs(items[i + 1..])
        case Err(_) =>
        case Ok(rest) => assert done + ([t] + rest) == done + [t] + rest;
    }

    lemma DocsEnds(done: seq<Tree>, items: seq<Json>)
      ensures After([], FromDocs(items)) == FromDocs(items[0..])
      ensures After(done, FromDocs(items[|items|..])) == Ok(done)
    {
      assert items[0..] == items && items[|items|..] == [] && done + [] == done;
      match FromDocs(items)
      case Err(_) =>
      case Ok(rest) => assert [] + rest == rest;
    }

    /** `from_dict`: fresh nodes that show the tree the document tells. */
    method FromDict(data: Json, ghost loose: set<FileNode>) returns (r: Result<FileNode, DocError>)
      requires Consistent() && Orphans(loose)
      modifies this`shape
      ensures Consistent() && OnlyGrows()
      ensures r.Err? ==> FromDoc(data) == Err(r.error) && Orphans(loose)
      ensures r.Ok? ==>
        && Orphans(loose + {r.value}) && r.value in shape && r.value !in old(shape)
        && FromDoc(data) == Ok(shape[r.value])
      decreases data, 0
    {
      hide Consistent, Orphans, Kept, FromDocs, HeadFromDoc;
      KeptSame(shape);
      if !data.JObject? {
        return Err(WrongType);
      }
      var head := HeadFromDoc(data.fields);
      if head.Err? {
        return Err(head.error);
      }
      var node := NewNode(head.value.name, head.value.kind, head.value.content, loose);
      KeptThrough(old(shape), old(shape), old(shape), node, shape[node]);
      if "children" !in data.fields {
        return Ok(node);
      } else if !data.fields["children"].JArray? {
        FewerOrphans(loose, loose + {node});
        return Err(WrongType);
      }
      var items := data.fields["children"].items;
      DocsEnds([], items);
      assert items[0..] == items;
      for i := 0 to |items|
        invariant Consistent() && OnlyGrows() && Orphans(loose + {node}) && node in shape && node !in old(shape)
        invariant shape[node] == head.value.(children := shape[node].children)
        invariant FromDocs(items) == After(shape[node].children, FromDocs(items[i..]))
      {
        DocsStep(shape[node].children, items, i);
        ghost var s1 := shape;
        var error := AppendFrom(node, items[i], loose);
        KeptPast(old(shape), s1, shape, node);
        if error.Some? {
          FewerOrphans(loose, loose + {node});
          return Err(error.value);
        }
      }
      DocsEnds(shape[node].children, items);
      return Ok(node);
    }

    /** The node a document tells, as the next child of the node being built. */
    method AppendFrom(node: FileNode, data: Json, ghost loose: set<FileNode>) returns (error: Option<DocError>)
      requires Consistent() && Orphans(loose + {node}) && node in shape
      modifies this`shape, node`children
      ensures Consistent() && Orphans(loose + {node}) && OnlyFills(node) && node in shape
      ensures error == (if FromDoc(data).Err? then Some(FromDoc(data).error) else None)
      ensures FromDoc(data).Ok? ==> shape[node] == WithChild(old(shape[node]), FromDoc(data).value)
      decreases data, 1
    {
      hide Consistent, Orphans, Kept, FromDoc;
      var child := FromDict(data, loose + {node});
      ghost var s2 := shape;
      KeptAround(old(shape), s2, node, s2[node]);
      if child.Err? {
        return Some(child.error);
      }
      KeptAround(old(shape), s2, node, WithChild(s2[node], s2[child.value]));
      Attach(node, child.value, loose);
      error := None;
    }

    /** An empty directory, nothing saved yet. */
    constructor ()
      ensures Valid() && Contents() == NewDir("") && saved == None && fresh(shape.Keys)
    {
      root := new FileNode("", "directory", "");
      saved := None;
      shape := map[];
      new;
      shape := map[root := NewDir("")];
    }

    /** `_load`: the tree of the file if there is one.  A document it cannot read changes nothing. */
    method Load(file: Option<Json>) returns (error: Option<DocError>)
      requires Valid() && Contents() == NewDir("") && saved == None
      modifies this
      ensures Consistent() && saved == None
      ensures var t := if file.Some? then FromDoc(file.value) else Ok(NewDir(""));
        && error == (if t.Ok? then None else Some(t.error))
        && Contents() == (if t.Ok? then t.value else old(Contents()))
      ensures RootFormed(Contents()) ==> Valid()
    {
      if file.None? {
        return None;
      }
      var r := FromDict(file.value, {});
      if r.Err? {
        return Some(r.error);
      }
      root := r.value;
      return None;
    }

    /** `to_dict`, and what `_save` writes. */
    function ToDict(n: FileNode): (d: Json)
      requires Consistent() && n in shape
      reads this, shape.Keys
      ensures d == ToDoc(shape[n])
      decreases shape[n], |n.children| + 1
    {
      ghost var t := shape[n];
      assert Shows(n, t);
      var children := ToDicts(n.children, t);
      assert ToDoc(t).fields["children"].items == children;
      JObject(map[
        "name" := JString(n.name),
        "type" := JString(n.kind),
        "content" := JString(n.content),
        "children" := JArray(children)])
    }

    function ToDicts(nodes: seq<FileNode>, ghost parent: Tree): (ds: seq<Json>)
      requires Consistent() && forall n | n in nodes :: n in shape && shape[n] < parent
      reads this, shape.Keys
      ensures |ds| == |nodes| && forall i :: 0 <= i < |nodes| ==> ds[i] == ToDoc(shape[nodes[i]])
      decreases parent, |nodes|
    {
      if nodes == [] then [] else [ToDict(nodes[0])] + ToDicts(nodes[1..], parent)
    }

    method Save()
      requires Consistent()
      modifies this`saved
      ensures Consistent() && saved == Some(ToDoc(Contents()))
    {
      saved := Some(ToDict(root));
    }

    // -------------------------------------------------------------------
    // The operations
    // -------------------------------------------------------------------

    /** The child of a directory, in the node and in the tree. */
    lemma ChildOnTrail(trail: seq<FileNode>, dir: Path, name: string)
      requires Consistent() && IsTrail(trail, dir) && IsDir(shape[trail[|dir|]])
      ensures var n := trail[|dir|];
        var k := NodeIndex(n.children, name);
        && Resolve(Contents(), dir) == Some(shape[n])
        && (shape[n].children == [] ==> k == -1)
        && (k == -1 ==> Resolve(Contents(), dir + [name]).None?)
        && (k != -1 ==>
             var child := n.children[k];
             && child in shape && child.kind == shape[child].kind
             && IsTrail(trail + [child], dir + [name])
             && Resolve(Contents(), dir + [name]) == Some(shape[child]))
    {
      hide NodeIndex;
      var n := trail[|dir|];
      TrailResolves(trail, dir, 0);
      assert dir[0..] == dir;
      assert Shows(n, shape[n]);
      SameIndex(n, name);
      ResolveSplit(Contents(), dir, [name]);
      var k := NodeIndex(n.children, name);
      if k != -1 {
        assert n.children[k] in n.children;
        assert Shows(n.children[k], shape[n.children[k]]);
        TrailGrows(trail, dir, name, n.children[k]);
      }
    }

    method WriteFile(path: Path, text: string) returns (error: Option<Error>)
      requires Valid()
      modifies this`shape, this`saved, shape.Keys
      ensures Valid() && fresh(shape.Keys - old(shape.Keys))
      ensures var r := FileTree.WriteFile(old(Contents()), path, text);
        && error == (if r.Ok? then None else Some(r.error))
        && Contents() == (if r.Ok? then r.value else old(Contents()))
      ensures saved == if error.None? then Some(ToDoc(Contents())) else old(saved)
    {
      hide UpdateAt, EnsureParents, Resolve, NodeIndex, Consistent, IsTrail;
      if path == [] {
        return Some(IsADirectory);
      }
      ghost var before := Contents();
      var dir, name := path[..|path| - 1], path[|path| - 1];
      assert path == dir + [name] && dir == Parent(path) && name == Last(path);
      var parent, failure, trail, made := EnsureParentsNode(dir, true, [], []);
      if parent == null {
        return failure;
      }
      var existing := parent.GetChild(name);
      ChildOnTrail(trail, dir, name);
      if existing != null && existing.kind == "directory" {
        return Some(IsADirectory);
      }
      if existing != null {
        SetContent(existing, text, trail + [existing], path);
      } else {
        var file := AddNew(parent, name, "file", text, trail, dir, [], []);
      }
      WriteFileLaw(before, path, text, []);
      Save();
      return None;
    }

    /** Whatever was done since, the document on disk loads as the very tree in memory. */
    lemma ReloadsTheSame()
      requires Valid() && saved.Some?
      ensures FromDoc(saved.value) == Ok(Contents())
    {
      WriteThenRead(Contents());
    }

    method ReadFile(path: Path) returns (r: Result<string, Error>)
      requires Valid()
      ensures r == match Lookup(Contents(), path)
                   case None => Err(NotFound)
                   case Some(Folder) => Err(IsADirectory)
                   case Some(File(text)) => Ok(text)
    {
      var node, trail := ResolveNode(path);
      if node == null {
        return Err(NotFound);
      }
      assert Shows(node, shape[node]);
      if node.kind == "directory" {
        return Err(IsADirectory);
      }
      return Ok(node.content);
    }

    /** Nothing is saved when the directory was there already and `recursive` was not asked for. */
    method Mkdir(path: Path, recursive: bool) returns (error: Option<Error>)
      requires Valid()
      modifies this`shape, this`saved, shape.Keys
      ensures Valid() && fresh(shape.Keys - old(shape.Keys))
      ensures var r := FileTree.Mkdir(old(Contents()), path, recursive);
        && error == (if r.Ok? then None else Some(r.error))
        && Contents() == (if r.Ok? then r.value else old(Contents()))
      ensures saved ==
        if error.None? && path != [] && (recursive || Contents() != old(Contents())) then Some(ToDoc(Contents()))
        else old(saved)
    {
      hide UpdateAt, EnsureParents, Resolve, NodeIndex, Consistent, IsTrail;
      if path == [] {
        return None;
      }
      ghost var before := Contents();
      MkdirIsRoot(before, path, recursive);
      if recursive {
        var node, failure, trail, made := EnsureParentsNode(path, true, [], []);
        if node == null {
          return failure;
        }
      } else {
        var dir, name := path[..|path| - 1], path[|path| - 1];
        assert path == dir + [name] && dir == Parent(path) && name == Last(path);
        var parent, failure, trail, made := EnsureParentsNode(dir, false, [], []);
        if parent == null {
          return failure;
        }
        var existing := parent.GetChild(name);
        ChildOnTrail(trail, dir, name);
        if existing != null {
          if existing.kind != "directory" {
            return Some(Exists);
          }
          return None;
        }
        var child := AddNew(parent, name, "directory", "", trail, dir, [], []);
      }
      Save();
      return None;
    }

    lemma MkdirIsRoot(t: Tree, path: Path, recursive: bool)
      requires RootFormed(t)
      ensures var r := FileTree.Mkdir(t, path, recursive);
        r.Ok? ==> RootFormed(r.value) && Lookup(r.value, path) == Some(Folder)
    {
      if FileTree.Mkdir(t, path, recursive).Ok? {
        MkdirLaw(t, path, recursive, []);
        MkdirLaw(t, path, recursive, path);
      }
    }

    /** As ChildOnTrail, on any node: in a well-formed tree a file has no children. */
    lemma ChildFound(n: FileNode, trail: seq<FileNode>, dir: Path, name: string)
      requires Consistent() && RootFormed(Contents()) && IsTrail(trail, dir) && trail[|dir|] == n
      ensures var k := NodeIndex(n.children, name);
        && (k == -1 ==> Resolve(Contents(), dir + [name]).None?)
        && (k != -1 ==>
             var child := n.children[k];
             && child in shape && Resolve(Contents(), dir + [name]) == Some(shape[child])
             && child.kind == shape[child].kind && (child.children == [] <==> shape[child].children == []))
    {
      TrailResolves(trail, dir, 0);
      assert dir[0..] == dir;
      ResolvedIsFormed(Contents(), dir);
      ResolveSplit(Contents(), dir, [name]);
      ShowsFields(n);
      if n.kind == "directory" {
        ChildOnTrail(trail, dir, name);
        var k := NodeIndex(n.children, name);
        if k != -1 {
          ShowsFields(n.children[k]);
        }
      }
    }

    method Remove(path: Path, recursive: bool) returns (error: Option<Error>)
      requires Valid()
      modifies this`shape, this`saved, shape.Keys
      ensures Valid() && shape.Keys == old(shape.Keys)
      ensures var r := FileTree.Remove(old(Contents()), path, recursive);
        && error == (if r.Ok? then None else Some(r.error))
        && Contents() == (if r.Ok? then r.value else old(Contents()))
      ensures saved == if error.None? then Some(ToDoc(Contents())) else old(saved)
    {
      hide UpdateAt, EnsureParents, Resolve, NodeIndex, Consistent, IsTrail;
      if path == [] {
        return Some(Permission);
      }
      var dir, name := path[..|path| - 1], path[|path| - 1];
      assert path == dir + [name] && dir == Parent(path) && name == Last(path);
      var parent, trail := ResolveNode(dir);
      ResolveSplit(Contents(), dir, [name]);
      if parent == null {
        return Some(NotFound);
      }
      var node := parent.GetChild(name);
      ChildFound(parent, trail, dir, name);
      if node == null {
        return Some(NotFound);
      }
      if node.kind == "directory" && node.children != [] && !recursive {
        return Some(NotADirectory);
      }
      RemoveLaw(Contents(), path, recursive, []);
      RemoveChild(parent, name, trail, dir, [], []);
      Save();
      return None;
    }

    /** A node at or below `dest` is off the way to the parent of `dest`, and needs no directory made there. */
    lemma SourceBelow(source: FileNode, src: Path, srcTrail: seq<FileNode>, dest: Path, trail: seq<FileNode>)
      requires Consistent() && IsTrail(srcTrail, src) && srcTrail[|src|] == source
      requires dest != [] && dest <= src && IsTrail(trail, Parent(dest))
      ensures source !in trail
    {
      forall j | 0 <= j < |trail| ensures trail[j] != source {
        if trail[j] == source {
          TrailsAgree(srcTrail, src, |src|, trail, Parent(dest), j);
        }
      }
    }

    lemma ParentThere(t: Tree, src: Path, dest: Path)
      requires dest != [] && dest <= src && Resolve(t, src).Some?
      ensures Resolve(t, Parent(dest)).Some?
    {
      ResolveSplit(t, Parent(dest), src[|dest| - 1..]);
      assert src == Parent(dest) + src[|dest| - 1..];
    }

    /** A copy of any node, as the last child of `parent`. */
    method AddCopy(parent: FileNode, source: FileNode, name: string, ghost trail: seq<FileNode>, ghost dir: Path)
      requires Consistent() && IsTrail(trail, dir) && trail[|dir|] == parent && source in shape
      modifies this`shape, parent`children
      ensures Consistent() && old(shape.Keys) <= shape.Keys && fresh(shape.Keys - old(shape.Keys))
      ensures Contents() == AddAt(old(Contents()), dir, old(shape[source]).(name := name))
    {
      hide UpdateAt, StepsDown, Consistent, Orphan;
      var copy := DeepCopy(source, name, {});
      AddChild(parent, copy, trail, dir, [], []);
    }

    /** What `copy` and `move` do once the node at `src` is found: `dest` becomes a copy of it. */
    method CopyOverNode(source: FileNode, ghost src: Path, ghost srcTrail: seq<FileNode>, dest: Path)
      returns (error: Option<Error>)
      requires Consistent() && RootFormed(Contents()) && dest != []
      requires IsTrail(srcTrail, src) && srcTrail[|src|] == source && Resolve(Contents(), src) == Some(shape[source])
      modifies this`shape, shape.Keys`children
      ensures Consistent() && old(shape.Keys) <= shape.Keys && fresh(shape.Keys - old(shape.Keys))
      ensures var r := CopyOver(old(Contents()), src, dest);
        && error == (if r.Ok? then None else Some(r.error))
        && Contents() == (if r.Ok? then r.value else old(Contents()))
    {
      hide UpdateAt, EnsureParents, Resolve, NodeIndex, Consistent, IsTrail;
      var dir, name := dest[..|dest| - 1], dest[|dest| - 1];
      assert dest == dir + [name] && dir == Parent(dest) && name == Last(dest);
      var parent, failure, trail, made := EnsureParentsNode(dir, true, srcTrail, src);
      if parent == null {
        return failure;
      }
      if dest <= src {
        ParentThere(old(Contents()), src, dest);
        SourceBelow(source, src, srcTrail, dest, trail);
      }
      RemoveChild(parent, name, trail, dir, srcTrail, src);
      if !(dest <= src) {
        TrailResolves(srcTrail, src, 0);
        assert src[0..] == src;
      }
      AddCopy(parent, source, name, trail, dir);
      return None;
    }

    method Copy(src: Path, dest: Path) returns (error: Option<Error>)
      requires Valid()
      modifies this`shape, this`saved, shape.Keys
      ensures Valid() && fresh(shape.Keys - old(shape.Keys))
      ensures var r := FileTree.Copy(old(Contents()), src, dest);
        && error == (if r.Ok? then None else Some(r.error))
        && Contents() == (if r.Ok? then r.value else old(Contents()))
      ensures saved == if error.None? then Some(ToDoc(Contents())) else old(saved)
    {
      hide UpdateAt, EnsureParents, Resolve, NodeIndex, Consistent, IsTrail;
      var source, trail := ResolveNode(src);
      if source == null {
        return Some(NotFound);
      } else if dest == [] {
        return Some(IsADirectory);
      }
      CopyLaw(Contents(), src, dest, []);
      error := CopyOverNode(source, src, trail, dest);
      if error.None? {
        Save();
      }
    }

    method Move(src: Path, dest: Path) returns (error: Option<Error>)
      requires Valid()
      modifies this`shape, this`saved, shape.Keys
      ensures Valid() && fresh(shape.Keys - old(shape.Keys))
      ensures var r := FileTree.Move(old(Contents()), src, dest);
        && error == (if r.Ok? then None else Some(r.error))
        && Contents() == (if r.Ok? then r.value else old(Contents()))
      ensures saved == if error.None? then Some(ToDoc(Contents())) else old(saved)
    {
      hide UpdateAt, EnsureParents, Resolve, NodeIndex, Consistent, IsTrail;
      if src == [] {
        return Some(Permission);
      }
      var source, trail := ResolveNode(src);
      if source == null {
        return Some(NotFound);
      } else if dest == [] {
        return Some(IsADirectory);
      }
      MoveGeneral(Contents(), src, dest, []);
      error := CopyOverNode(source, src, trail, dest);
      if error.Some? {
        return;
      }
      var parent, above := ResolveNode(src[..|src| - 1]);
      if parent != null {
        RemoveChild(parent, src[|src| - 1], above, Parent(src), [], []);
      } else {
        UpdateMissing(Contents(), Parent(src), Removing(Last(src)));
      }
      Save();
    }
  }
}

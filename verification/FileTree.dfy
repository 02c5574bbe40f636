/**
 The tree of the JSON file provider as a value: what resolving, creating parents,
 adding and removing do to it, and what each file operation does.  `Lookup` reads
 a tree as a map from paths to entries; the laws say what each operation does to
 that map.
 */
module FileTree {
  import opened Wrappers

  /** The segments of a normalised path; the root is the empty path. */
  type Path = seq<string>

  datatype Tree = Tree(name: string, kind: string, content: string, children: seq<Tree>)

  datatype Error = NotFound | NotADirectory | IsADirectory | Exists | Permission

  predicate IsDir(t: Tree) {
    t.kind == "directory"
  }

  function NewDir(name: string): Tree {
    Tree(name, "directory", "", [])
  }

  function NewFile(name: string, content: string): Tree {
    Tree(name, "file", content, [])
  }

  // ---------------------------------------------------------------------
  // Walking
  // ---------------------------------------------------------------------

  /** Position of the first child with a name (`get_child`), -1 without one. */
  function ChildIndex(children: seq<Tree>, name: string): (k: int)
    ensures -1 <= k < |children|
    ensures k >= 0 ==> children[k].name == name
    ensures forall i :: 0 <= i < (if k == -1 then |children| else k) ==> children[i].name != name
  {
    if children == [] then -1
    else if children[0].name == name then 0
    else
      var k := ChildIndex(children[1..], name);
      if k == -1 then -1 else k + 1
  }

  /** `_resolve`. */
  function Resolve(t: Tree, path: Path): Option<Tree>
    decreases |path|
  {
    if path == [] then Some(t)
    else
      var k := ChildIndex(t.children, path[0]);
      if k == -1 || !IsDir(t) then None else Resolve(t.children[k], path[1..])
  }

  datatype Entry = Folder | File(content: string)

  function EntryOf(t: Tree): Entry {
    if IsDir(t) then Folder else File(t.content)
  }

  /** The tree as a map from paths to entries. */
  function Lookup(t: Tree, path: Path): Option<Entry> {
    var r := Resolve(t, path);
    if r.Some? then Some(EntryOf(r.value)) else None
  }

  /** Sibling names are unique, and only directories have children. */
  ghost predicate WellFormed(t: Tree) {
    && (IsDir(t) || (t.kind == "file" && t.children == []))
    && UniqueNames(t.children)
    && (forall c :: c in t.children ==> WellFormed(c))
  }

  ghost predicate UniqueNames(children: seq<Tree>) {
    forall i, j :: 0 <= i < j < |children| ==> children[i].name != children[j].name
  }

  function Parent(path: Path): Path
    requires path != []
  {
    path[..|path| - 1]
  }

  function Last(path: Path): string
    requires path != []
  {
    path[|path| - 1]
  }

  // ---------------------------------------------------------------------
  // Changing one node
  // ---------------------------------------------------------------------

  /** The tree with `f` applied to the node at `path`, unchanged when there is none. */
  function UpdateAt(t: Tree, path: Path, f: Tree -> Tree): Tree
    decreases |path|
  {
    if path == [] then f(t)
    else
      var k := ChildIndex(t.children, path[0]);
      if k == -1 || !IsDir(t) then t
      else t.(children := t.children[k := UpdateAt(t.children[k], path[1..], f)])
  }

  function RemoveNamed(children: seq<Tree>, name: string): seq<Tree> {
    if children == [] then []
    else (if children[0].name == name then [] else [children[0]]) + RemoveNamed(children[1..], name)
  }

  /** `add_child` and `remove_child` on a node. */
  function WithChild(t: Tree, child: Tree): Tree {
    t.(children := t.children + [child])
  }

  function WithoutChild(t: Tree, name: string): Tree {
    t.(children := RemoveNamed(t.children, name))
  }

  function Adding(child: Tree): Tree -> Tree {
    (n: Tree) => WithChild(n, child)
  }

  function Removing(name: string): Tree -> Tree {
    (n: Tree) => WithoutChild(n, name)
  }

  function Writing(content: string): Tree -> Tree {
    (n: Tree) => n.(content := content)
  }

  function AddAt(t: Tree, dir: Path, child: Tree): Tree {
    UpdateAt(t, dir, Adding(child))
  }

  function RemoveAt(t: Tree, path: Path): Tree
    requires path != []
  {
    UpdateAt(t, Parent(path), Removing(Last(path)))
  }

  function SetContentAt(t: Tree, path: Path, content: string): Tree {
    UpdateAt(t, path, Writing(content))
  }

  /** `_ensure_parents`: walks down `path`, creating what is missing if `create`. */
  function EnsureParents(t: Tree, path: Path, create: bool): Result<Tree, Error>
    decreases |path|
  {
    if path == [] then Ok(t)
    else
      var k := ChildIndex(t.children, path[0]);
      if k == -1 then
        if !create then Err(NotFound)
        else
          match EnsureParents(NewDir(path[0]), path[1..], create)
          case Ok(sub) => Ok(WithChild(t, sub))
          case Err(e) => Err(e)
      else if !IsDir(t.children[k]) then Err(NotADirectory)
      else
        match EnsureParents(t.children[k], path[1..], create)
        case Ok(sub) => Ok(t.(children := t.children[k := sub]))
        case Err(e) => Err(e)
  }

  // ---------------------------------------------------------------------
  // The operations
  // ---------------------------------------------------------------------

  function WriteFile(t: Tree, path: Path, text: string): Result<Tree, Error> {
    if path == [] then Err(IsADirectory)
    else
      match EnsureParents(t, Parent(path), true)
      case Err(e) => Err(e)
      case Ok(u) =>
        match Lookup(u, path)
        case Some(Folder) => Err(IsADirectory)
        case Some(File(_)) => Ok(SetContentAt(u, path, text))
        case None => Ok(AddAt(u, Parent(path), NewFile(Last(path), text)))
  }

  function Mkdir(t: Tree, path: Path, recursive: bool): Result<Tree, Error> {
    if path == [] then Ok(t)
    else if recursive then EnsureParents(t, path, true)
    else
      match EnsureParents(t, Parent(path), false)
      case Err(e) => Err(e)
      case Ok(u) =>
        match Lookup(u, path)
        case Some(Folder) => Ok(u)
        case Some(File(_)) => Err(Exists)
        case None => Ok(AddAt(u, Parent(path), NewDir(Last(path))))
  }

  function Remove(t: Tree, path: Path, recursive: bool): Result<Tree, Error> {
    if path == [] then Err(Permission)
    else
      match Resolve(t, path)
      case None => Err(NotFound)
      case Some(n) =>
        if IsDir(n) && n.children != [] && !recursive then Err(NotADirectory) else Ok(RemoveAt(t, path))
  }

  /**
   `dest` replaced by a copy of the node at `src`.  The node is found before the
   tree changes and copied after the parents of `dest` exist and the old `dest`
   is gone; one taken out with the old `dest` is still copied.
   */
  function CopyOver(t: Tree, src: Path, dest: Path): Result<Tree, Error>
    requires Resolve(t, src).Some? && dest != []
  {
    match EnsureParents(t, Parent(dest), true)
    case Err(e) => Err(e)
    case Ok(u) =>
      var cleared := RemoveAt(u, dest);
      var source := if dest <= src then Resolve(t, src) else Resolve(cleared, src);
      if source.None? then Err(NotFound)
      else Ok(AddAt(cleared, Parent(dest), source.value.(name := Last(dest))))
  }

  function Copy(t: Tree, src: Path, dest: Path): Result<Tree, Error> {
    if Resolve(t, src).None? then Err(NotFound)
    else if dest == [] then Err(IsADirectory)
    else CopyOver(t, src, dest)
  }

  function Move(t: Tree, src: Path, dest: Path): Result<Tree, Error> {
    if src == [] then Err(Permission)
    else if Resolve(t, src).None? then Err(NotFound)
    else if dest == [] then Err(IsADirectory)
    else
      match CopyOver(t, src, dest)
      case Err(e) => Err(e)
      case Ok(u) => Ok(RemoveAt(u, src))
  }

  // ---------------------------------------------------------------------
  // Laws of the pieces, on the map from paths to entries
  // ---------------------------------------------------------------------

  lemma ChildIndexUnique(children: seq<Tree>, name: string, k: nat)
    requires k < |children| && children[k].name == name
    requires forall i :: 0 <= i < k ==> children[i].name != name
    ensures ChildIndex(children, name) == k
  {
  }

  lemma ChildIndexReplaced(children: seq<Tree>, k: nat, sub: Tree, name: string)
    requires k < |children| && sub.name == children[k].name
    ensures ChildIndex(children[k := sub], name) == ChildIndex(children, name)
  {
    var j := ChildIndex(children, name);
    if j != -1 {
      ChildIndexUnique(children[k := sub], name, j);
    }
  }

  ghost predicate KeepsName(f: Tree -> Tree) {
    forall n :: f(n).name == n.name
  }

  lemma {:induction false} UpdateKeepsName(t: Tree, path: Path, f: Tree -> Tree)
    requires KeepsName(f)
    ensures UpdateAt(t, path, f).name == t.name
  {
  }

  /** Updating a node changes what is read at and below it, and nothing else. */
  lemma {:induction false} LookupUpdated(t: Tree, path: Path, f: Tree -> Tree, q: Path)
    requires KeepsName(f) && Resolve(t, path).Some?
    ensures Lookup(UpdateAt(t, path, f), q) ==
      if path <= q then Lookup(f(Resolve(t, path).value), q[|path|..])
      else Lookup(t, q)
    decreases |path|
  {
    hide ChildIndex;
    if path == [] {
      assert q[0..] == q;
    } else {
      var k := ChildIndex(t.children, path[0]);
      var sub := UpdateAt(t.children[k], path[1..], f);
      UpdateKeepsName(t.children[k], path[1..], f);
      if q == [] {
      } else {
        ChildIndexReplaced(t.children, k, sub, q[0]);
        if q[0] == path[0] {
          LookupUpdated(t.children[k], path[1..], f, q[1..]);
          assert path <= q <==> path[1..] <= q[1..] by {
            assert path == [path[0]] + path[1..] && q == [q[0]] + q[1..];
          }
          assert path <= q ==> q[|path|..] == q[1..][|path| - 1..];
        }
      }
    }
  }

  lemma {:induction false} UpdateMissing(t: Tree, path: Path, f: Tree -> Tree)
    requires Resolve(t, path).None?
    ensures UpdateAt(t, path, f) == t
    decreases |path|
  {
    var k := ChildIndex(t.children, path[0]);
    if k != -1 && IsDir(t) {
      UpdateMissing(t.children[k], path[1..], f);
    }
  }

  lemma {:induction false} ResolveSplit(t: Tree, p: Path, q: Path)
    ensures Resolve(t, p + q) == if Resolve(t, p).None? then None else Resolve(Resolve(t, p).value, q)
    decreases |p|
  {
    if p == [] {
      assert p + q == q;
    } else {
      assert (p + q)[1..] == p[1..] + q;
      var k := ChildIndex(t.children, p[0]);
      if k != -1 && IsDir(t) {
        ResolveSplit(t.children[k], p[1..], q);
      }
    }
  }

  /** Below a missing path or a file there is nothing. */
  lemma LookupBelow(t: Tree, p: Path, q: Path)
    requires p <= q && (Lookup(t, p).None? || (p != q && Lookup(t, p) != Some(Folder)))
    ensures Lookup(t, q).None?
  {
    assert q == p + q[|p|..];
    ResolveSplit(t, p, q[|p|..]);
  }

  lemma {:induction false} RemoveNamedMembers(children: seq<Tree>, name: string)
    ensures forall c :: c in RemoveNamed(children, name) <==> c in children && c.name != name
    ensures UniqueNames(children) ==> UniqueNames(RemoveNamed(children, name))
  {
    if children != [] {
      RemoveNamedMembers(children[1..], name);
      var rest := RemoveNamed(children[1..], name);
      forall c ensures c in RemoveNamed(children, name) <==> c in children && c.name != name {
        assert c in children <==> c == children[0] || c in children[1..];
      }
      if UniqueNames(children) {
        forall j | 0 <= j < |rest| ensures rest[j].name != children[0].name {
          assert rest[j] in children[1..];
          var i :| 0 <= i < |children[1..]| && children[1..][i] == rest[j];
          assert children[i + 1] == rest[j];
        }
      }
    }
  }

  lemma ChildIndexCons(first: Tree, rest: seq<Tree>, name: string)
    ensures ChildIndex([first] + rest, name) ==
      if first.name == name then 0 else if ChildIndex(rest, name) == -1 then -1 else ChildIndex(rest, name) + 1
  {
    assert ([first] + rest)[1..] == rest;
  }

  lemma {:induction false} ChildIndexRemoved(children: seq<Tree>, name: string, other: string)
    ensures var k, j := ChildIndex(children, other), ChildIndex(RemoveNamed(children, name), other);
      if other == name || k == -1 then j == -1
      else j != -1 && RemoveNamed(children, name)[j] == children[k]
  {
    hide ChildIndex, RemoveNamed;
    RemoveNamedCons(children, name);
    if children != [] {
      var tail, rest := children[1..], RemoveNamed(children[1..], name);
      ChildIndexRemoved(tail, name, other);
      assert children == [children[0]] + tail;
      ChildIndexCons(children[0], tail, other);
      ChildIndexCons(children[0], rest, other);
    }
  }

  lemma RemoveNamedCons(children: seq<Tree>, name: string)
    ensures RemoveNamed(children, name) ==
      if children == [] then []
      else if children[0].name == name then RemoveNamed(children[1..], name)
      else [children[0]] + RemoveNamed(children[1..], name)
  {
  }

  lemma ChildIndexAdded(children: seq<Tree>, child: Tree, name: string)
    requires ChildIndex(children, child.name) == -1
    ensures ChildIndex(children + [child], name) ==
      if name == child.name then |children| else ChildIndex(children, name)
  {
    var all := children + [child];
    var k := ChildIndex(children, name);
    if k != -1 {
      ChildIndexUnique(all, name, k);
    } else if name == child.name {
      ChildIndexUnique(all, name, |children|);
    } else {
      assert forall i :: 0 <= i < |all| ==> all[i].name != name;
    }
  }

  lemma LookupWithoutChild(n: Tree, name: string, q: Path)
    ensures Lookup(WithoutChild(n, name), q) == if q != [] && q[0] == name then None else Lookup(n, q)
  {
    if q != [] {
      ChildIndexRemoved(n.children, name, q[0]);
    }
  }

  lemma LookupWithChild(n: Tree, child: Tree, q: Path)
    requires IsDir(n) && ChildIndex(n.children, child.name) == -1
    ensures Lookup(WithChild(n, child), q) ==
      if q != [] && q[0] == child.name then Lookup(child, q[1..]) else Lookup(n, q)
  {
    if q != [] {
      ChildIndexAdded(n.children, child, q[0]);
    }
  }

  lemma PrefixOfParent(path: Path, q: Path)
    requires path != []
    ensures path <= q <==> Parent(path) <= q && |Parent(path)| < |q| && q[|Parent(path)|] == Last(path)
    ensures Parent(path) + [Last(path)] == path
  {
  }

  /** Removing a path removes it and everything below it, and nothing else. */
  lemma LookupRemoved(t: Tree, path: Path, q: Path)
    requires path != []
    ensures Lookup(RemoveAt(t, path), q) == if path <= q then None else Lookup(t, q)
  {
    PrefixOfParent(path, q);
    var f := Removing(Last(path));
    var dir := Resolve(t, Parent(path));
    if dir.None? {
      UpdateMissing(t, Parent(path), f);
      if path <= q {
        LookupBelow(t, Parent(path), q);
      }
    } else {
      LookupUpdated(t, Parent(path), f, q);
      if Parent(path) <= q {
        var r := q[|Parent(path)|..];
        LookupWithoutChild(dir.value, Last(path), r);
        assert q == Parent(path) + r;
        ResolveSplit(t, Parent(path), r);
      }
    }
  }

  /** Adding a child to a directory that has none of its name adds exactly the child's entries. */
  lemma LookupAdded(t: Tree, dir: Path, child: Tree, q: Path)
    requires Lookup(t, dir) == Some(Folder) && Lookup(t, dir + [child.name]).None?
    ensures Lookup(AddAt(t, dir, child), q) ==
      if dir + [child.name] <= q then Lookup(child, q[|dir| + 1..]) else Lookup(t, q)
  {
    var path := dir + [child.name];
    PrefixOfParent(path, q);
    assert Parent(path) == dir;
    var n := Resolve(t, dir).value;
    ResolveSplit(t, dir, [child.name]);
    assert ChildIndex(n.children, child.name) == -1;
    LookupUpdated(t, dir, Adding(child), q);
    if dir <= q {
      var r := q[|dir|..];
      LookupWithChild(n, child, r);
      assert q == dir + r;
      ResolveSplit(t, dir, r);
      assert path <= q ==> r[1..] == q[|dir| + 1..];
    }
  }

  lemma LookupSet(t: Tree, path: Path, content: string, q: Path)
    requires Lookup(t, path).Some? && Lookup(t, path) != Some(Folder)
    ensures Lookup(SetContentAt(t, path, content), q) == if q == path then Some(File(content)) else Lookup(t, q)
  {
    LookupUpdated(t, path, Writing(content), q);
    if path <= q && q != path {
      LookupBelow(t, path, q);
    }
  }

  /** Every proper prefix of `path` is a directory or missing: nothing stops parents from being created. */
  ghost predicate Open(t: Tree, path: Path) {
    forall q: Path :: q <= path ==> Lookup(t, q).None? || Lookup(t, q) == Some(Folder)
  }

  lemma OpenChild(t: Tree, path: Path, k: nat)
    requires path != [] && IsDir(t) && ChildIndex(t.children, path[0]) == k
    ensures Open(t, path) <==> Open(t.children[k], path[1..])
  {
    assert path == [path[0]] + path[1..];
    if Open(t, path) {
      forall q: Path | q <= path[1..]
        ensures Lookup(t.children[k], q).None? || Lookup(t.children[k], q) == Some(Folder)
      {
        assert [path[0]] + q <= path && ([path[0]] + q)[1..] == q;
        assert Lookup(t, [path[0]] + q) == Lookup(t.children[k], q);
      }
    }
    if Open(t.children[k], path[1..]) {
      forall q: Path | q <= path ensures Lookup(t, q).None? || Lookup(t, q) == Some(Folder) {
        if q != [] {
          assert q[1..] <= path[1..];
          assert Lookup(t, q) == Lookup(t.children[k], q[1..]);
        }
      }
    }
  }

  lemma OpenMissing(t: Tree, path: Path)
    requires path != [] && IsDir(t) && ChildIndex(t.children, path[0]) == -1
    ensures Open(t, path)
  {
  }

  /** Creating parents succeeds exactly when no prefix is a file (and, without `create`, all exist); how it fails. */
  lemma {:induction false} EnsureParentsOk(t: Tree, path: Path, create: bool)
    requires IsDir(t)
    ensures EnsureParents(t, path, create).Ok? <==> Open(t, path) && (create || Lookup(t, path).Some?)
    ensures EnsureParents(t, path, create).Err? ==>
      EnsureParents(t, path, create).error == if Open(t, path) then NotFound else NotADirectory
    decreases |path|
  {
    if path == [] {
    } else {
      var k := ChildIndex(t.children, path[0]);
      if k == -1 {
        OpenMissing(t, path);
        NewDirIsOpen(path[0], path[1..]);
        EnsureParentsOk(NewDir(path[0]), path[1..], create);
      } else {
        OpenChild(t, path, k);
        if IsDir(t.children[k]) {
          EnsureParentsOk(t.children[k], path[1..], create);
        } else {
          assert Lookup(t.children[k], []) == Some(File(t.children[k].content));
          assert [] <= path[1..];
        }
      }
    }
  }

  lemma NewDirIsOpen(name: string, path: Path)
    ensures Open(NewDir(name), path)
  {
  }

  lemma {:induction false} EnsureKeepsRoot(t: Tree, path: Path, create: bool)
    requires EnsureParents(t, path, create).Ok?
    ensures var u := EnsureParents(t, path, create).value;
      u.name == t.name && u.kind == t.kind && u.content == t.content
  {
  }

  /** Creating parents makes every prefix a directory and leaves all else as it was. */
  lemma {:induction false} LookupEnsured(t: Tree, path: Path, create: bool, q: Path)
    requires IsDir(t) && EnsureParents(t, path, create).Ok?
    ensures Lookup(EnsureParents(t, path, create).value, q) == if q <= path then Some(Folder) else Lookup(t, q)
    decreases |path|
  {
    hide ChildIndex;
    if path == [] {
    } else if q == [] {
      EnsureKeepsRoot(t, path, create);
    } else {
      var k := ChildIndex(t.children, path[0]);
      var old' := if k == -1 then NewDir(path[0]) else t.children[k];
      var sub := EnsureParents(old', path[1..], create).value;
      EnsureKeepsRoot(old', path[1..], create);
      assert q <= path <==> q[0] == path[0] && q[1..] <= path[1..] by {
        assert path == [path[0]] + path[1..] && q == [q[0]] + q[1..];
      }
      if k == -1 {
        ChildIndexAdded(t.children, sub, q[0]);
      } else {
        ChildIndexReplaced(t.children, k, sub, q[0]);
      }
      if q[0] == path[0] {
        LookupEnsured(old', path[1..], create, q[1..]);
      }
    }
  }

  // ---------------------------------------------------------------------
  // Well-formed trees stay well-formed
  // ---------------------------------------------------------------------

  lemma {:induction false} UpdateKeepsForm(t: Tree, path: Path, f: Tree -> Tree)
    requires WellFormed(t) && KeepsName(f) && Resolve(t, path).Some?
    requires WellFormed(f(Resolve(t, path).value))
    ensures WellFormed(UpdateAt(t, path, f))
    decreases |path|
  {
    if path != [] {
      var k := ChildIndex(t.children, path[0]);
      assert t.children[k] in t.children;
      UpdateKeepsForm(t.children[k], path[1..], f);
      UpdateKeepsName(t.children[k], path[1..], f);
    }
  }

  lemma {:induction false} ResolvedIsFormed(t: Tree, path: Path)
    requires WellFormed(t) && Resolve(t, path).Some?
    ensures WellFormed(Resolve(t, path).value)
    decreases |path|
  {
    if path != [] {
      var k := ChildIndex(t.children, path[0]);
      assert t.children[k] in t.children;
      ResolvedIsFormed(t.children[k], path[1..]);
    }
  }

  lemma RemoveKeepsForm(t: Tree, path: Path)
    requires WellFormed(t) && path != []
    ensures WellFormed(RemoveAt(t, path))
  {
    var f := Removing(Last(path));
    var dir := Resolve(t, Parent(path));
    if dir.None? {
      UpdateMissing(t, Parent(path), f);
    } else {
      ResolvedIsFormed(t, Parent(path));
      RemoveNamedMembers(dir.value.children, Last(path));
      UpdateKeepsForm(t, Parent(path), f);
    }
  }

  lemma AddKeepsForm(t: Tree, dir: Path, child: Tree)
    requires WellFormed(t) && WellFormed(child)
    requires Lookup(t, dir) == Some(Folder) && Lookup(t, dir + [child.name]).None?
    ensures WellFormed(AddAt(t, dir, child))
  {
    ResolvedIsFormed(t, dir);
    ResolveSplit(t, dir, [child.name]);
    var n := Resolve(t, dir).value;
    assert ChildIndex(n.children, child.name) == -1;
    assert WellFormed(WithChild(n, child));
    UpdateKeepsForm(t, dir, Adding(child));
  }

  lemma {:induction false} EnsureKeepsForm(t: Tree, path: Path, create: bool)
    requires WellFormed(t) && IsDir(t) && EnsureParents(t, path, create).Ok?
    ensures WellFormed(EnsureParents(t, path, create).value)
    decreases |path|
  {
    if path != [] {
      var k := ChildIndex(t.children, path[0]);
      var old' := if k == -1 then NewDir(path[0]) else t.children[k];
      assert k != -1 ==> t.children[k] in t.children;
      EnsureKeepsForm(old', path[1..], create);
      EnsureKeepsRoot(old', path[1..], create);
    }
  }

  // ---------------------------------------------------------------------
  // Creating parents one directory at a time
  // ---------------------------------------------------------------------

  function Replacing(m: Tree): Tree -> Tree {
    (n: Tree) => m
  }

  lemma {:induction false} UpdateTwice(t: Tree, p: Path, f: Tree -> Tree, m: Tree)
    requires KeepsName(f) && Resolve(t, p).Some?
    ensures UpdateAt(UpdateAt(t, p, f), p, Replacing(m)) == UpdateAt(t, p, Replacing(m))
    ensures Resolve(UpdateAt(t, p, f), p) == Some(f(Resolve(t, p).value))
    decreases |p|
  {
    if p != [] {
      var k := ChildIndex(t.children, p[0]);
      var sub := UpdateAt(t.children[k], p[1..], f);
      UpdateKeepsName(t.children[k], p[1..], f);
      ChildIndexReplaced(t.children, k, sub, p[0]);
      UpdateTwice(t.children[k], p[1..], f, m);
      assert t.children[k := sub][k := UpdateAt(sub, p[1..], Replacing(m))]
          == t.children[k := UpdateAt(sub, p[1..], Replacing(m))];
    }
  }

  /** Below an existing directory, creating parents only changes that directory. */
  lemma {:induction false} EnsureSplit(t: Tree, p: Path, rest: Path, create: bool)
    requires IsDir(t) && Resolve(t, p).Some? && IsDir(Resolve(t, p).value)
    ensures EnsureParents(t, p + rest, create) ==
      match EnsureParents(Resolve(t, p).value, rest, create)
      case Err(e) => Err(e)
      case Ok(m) => Ok(UpdateAt(t, p, Replacing(m)))
    decreases |p|
  {
    if p == [] {
      assert p + rest == rest;
    } else {
      var k := ChildIndex(t.children, p[0]);
      assert (p + rest)[1..] == p[1..] + rest;
      DirOnTheWay(t.children[k], p[1..]);
      EnsureSplit(t.children[k], p[1..], rest, create);
    }
  }

  lemma DirOnTheWay(t: Tree, p: Path)
    requires Resolve(t, p).Some? && IsDir(Resolve(t, p).value)
    ensures IsDir(t)
  {
  }

  /** Creating the next missing directory does not change where creating parents ends. */
  lemma EnsureProgress(t: Tree, p: Path, name: string, rest: Path)
    requires IsDir(t) && Lookup(t, p) == Some(Folder) && ChildIndex(Resolve(t, p).value.children, name) == -1
    ensures EnsureParents(AddAt(t, p, NewDir(name)), p + [name] + rest, true)
         == EnsureParents(t, p + [name] + rest, true)
    ensures Resolve(AddAt(t, p, NewDir(name)), p) == Some(WithChild(Resolve(t, p).value, NewDir(name)))
    ensures IsDir(AddAt(t, p, NewDir(name)))
  {
    var n := Resolve(t, p).value;
    var n' := WithChild(n, NewDir(name));
    var f := Adding(NewDir(name));
    var more := [name] + rest;
    assert p + [name] + rest == p + more;
    UpdateTwice(t, p, f, n);
    assert Resolve(UpdateAt(t, p, f), p) == Some(n');
    DirOnTheWay(UpdateAt(t, p, f), p);
    EnsureSplit(t, p, more, true);
    EnsureSplit(UpdateAt(t, p, f), p, more, true);
    ChildIndexAdded(n.children, NewDir(name), name);
    assert more[1..] == rest;
    var r := EnsureParents(NewDir(name), rest, true);
    NewDirIsOpen(name, rest);
    EnsureParentsOk(NewDir(name), rest, true);
    assert n'.(children := n'.children[|n.children| := r.value]) == WithChild(n, r.value);
    assert EnsureParents(n', more, true) == EnsureParents(n, more, true);
    UpdateTwice(t, p, f, WithChild(n, r.value));
  }

  lemma {:induction false} UpdateItself(t: Tree, p: Path)
    requires Resolve(t, p).Some?
    ensures UpdateAt(t, p, Replacing(Resolve(t, p).value)) == t
    decreases |p|
  {
    if p != [] {
      UpdateItself(t.children[ChildIndex(t.children, p[0])], p[1..]);
    }
  }

  /** With every directory in place nothing is created. */
  lemma EnsureExisting(t: Tree, p: Path, create: bool)
    requires IsDir(t) && Lookup(t, p) == Some(Folder)
    ensures EnsureParents(t, p, create) == Ok(t)
  {
    EnsureSplit(t, p, [], create);
    assert p + [] == p;
    UpdateItself(t, p);
  }

  /** A missing directory that may not be created, and a file in the way. */
  lemma EnsureStops(t: Tree, p: Path, name: string, rest: Path, create: bool)
    requires IsDir(t) && Lookup(t, p) == Some(Folder)
    ensures var n := Resolve(t, p).value;
      var k := ChildIndex(n.children, name);
      && (k == -1 && !create ==> EnsureParents(t, p + [name] + rest, create) == Err(NotFound))
      && (k != -1 && !IsDir(n.children[k]) ==> EnsureParents(t, p + [name] + rest, create) == Err(NotADirectory))
  {
    EnsureSplit(t, p, [name] + rest, create);
    assert p + [name] + rest == p + ([name] + rest);
  }
}

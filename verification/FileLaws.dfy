/**
 What the file operations do to the map from paths to entries, when they fail,
 and that they keep trees well-formed.  `t` is always a directory: the root.
 */
module FileLaws {
  import opened Wrappers
  import opened FileTree

  ghost predicate RootFormed(t: Tree) {
    IsDir(t) && WellFormed(t)
  }

  lemma EnsuredIsRoot(t: Tree, path: Path, create: bool)
    requires RootFormed(t) && EnsureParents(t, path, create).Ok?
    ensures RootFormed(EnsureParents(t, path, create).value)
  {
    EnsureKeepsRoot(t, path, create);
    EnsureKeepsForm(t, path, create);
  }

  lemma RemovedIsRoot(t: Tree, path: Path)
    requires RootFormed(t) && path != []
    ensures RootFormed(RemoveAt(t, path))
  {
    RemoveKeepsForm(t, path);
    LookupRemoved(t, path, []);
  }

  lemma AddedIsRoot(t: Tree, dir: Path, child: Tree)
    requires RootFormed(t) && WellFormed(child)
    requires Lookup(t, dir) == Some(Folder) && Lookup(t, dir + [child.name]).None?
    ensures RootFormed(AddAt(t, dir, child))
  {
    AddKeepsForm(t, dir, child);
    LookupAdded(t, dir, child, []);
  }

  lemma SetIsRoot(t: Tree, path: Path, content: string)
    requires RootFormed(t) && Lookup(t, path).Some? && Lookup(t, path) != Some(Folder)
    ensures RootFormed(SetContentAt(t, path, content))
  {
    ResolvedIsFormed(t, path);
    UpdateKeepsForm(t, path, Writing(content));
    LookupSet(t, path, content, []);
  }

  lemma LookupFile(name: string, text: string, r: Path)
    ensures Lookup(NewFile(name, text), r) == if r == [] then Some(File(text)) else None
    ensures Lookup(NewDir(name), r) == if r == [] then Some(Folder) else None
  {
  }

  // ---------------------------------------------------------------------
  // write_file
  // ---------------------------------------------------------------------

  /** Writing fails exactly for the root, an existing directory, and a path through a file. */
  lemma WriteFileSucceeds(t: Tree, path: Path, text: string)
    requires IsDir(t)
    ensures WriteFile(t, path, text).Ok? <==> path != [] && Open(t, Parent(path)) && Lookup(t, path) != Some(Folder)
    ensures WriteFile(t, path, text).Err? ==>
      WriteFile(t, path, text).error ==
        if path == [] || Lookup(t, path) == Some(Folder) then IsADirectory else NotADirectory
  {
    if path != [] {
      EnsureParentsOk(t, Parent(path), true);
      if Open(t, Parent(path)) {
        LookupEnsured(t, Parent(path), true, path);
      } else if Lookup(t, path) == Some(Folder) {
        OpenAbove(t, path);
      }
    }
  }

  /** Above an existing path there are only directories. */
  lemma OpenAbove(t: Tree, path: Path)
    requires path != [] && Lookup(t, path).Some?
    ensures Open(t, Parent(path)) && Lookup(t, Parent(path)) == Some(Folder)
  {
    forall q: Path | q <= Parent(path) ensures Lookup(t, q) == Some(Folder) {
      if Lookup(t, q) != Some(Folder) {
        assert q <= path && q != path;
        LookupBelow(t, q, path);
      }
    }
  }

  /** Writing makes `path` that file and its parents directories, and changes no other path. */
  lemma WriteFileLaw(t: Tree, path: Path, text: string, q: Path)
    requires RootFormed(t) && WriteFile(t, path, text).Ok?
    ensures var u := WriteFile(t, path, text).value;
      && RootFormed(u)
      && Lookup(u, q) == if q == path then Some(File(text)) else if q < path then Some(Folder) else Lookup(t, q)
  {
    var dir := Parent(path);
    var p := EnsureParents(t, dir, true).value;
    EnsuredIsRoot(t, dir, true);
    LookupEnsured(t, dir, true, q);
    LookupEnsured(t, dir, true, path);
    LookupEnsured(t, dir, true, dir);
    PrefixOfParent(path, q);
    assert q < path <==> q <= dir;
    if Lookup(p, path).None? {
      var child := NewFile(Last(path), text);
      LookupAdded(p, dir, child, q);
      AddedIsRoot(p, dir, child);
      if path <= q {
        LookupFile(Last(path), text, q[|dir| + 1..]);
        LookupBelow(t, path, q);
      }
    } else {
      LookupSet(p, path, text, q);
      SetIsRoot(p, path, text);
    }
  }

  // ---------------------------------------------------------------------
  // mkdir
  // ---------------------------------------------------------------------

  lemma OpenByParent(t: Tree, path: Path)
    requires path != []
    ensures Open(t, path) <==> Open(t, Parent(path)) && (Lookup(t, path).None? || Lookup(t, path) == Some(Folder))
  {
    assert Parent(path) <= path;
    if Open(t, Parent(path)) && (Lookup(t, path).None? || Lookup(t, path) == Some(Folder)) {
      forall q: Path | q <= path ensures Lookup(t, q).None? || Lookup(t, q) == Some(Folder) {
        assert q == path || q <= Parent(path);
      }
    }
    if Open(t, path) {
      forall q: Path | q <= Parent(path) ensures Lookup(t, q).None? || Lookup(t, q) == Some(Folder) {
        assert q <= path;
      }
    }
  }

  /** Recursive creation fails exactly when a file stands on the path; otherwise also when the parent is missing. */
  lemma MkdirSucceeds(t: Tree, path: Path, recursive: bool)
    requires IsDir(t)
    ensures Mkdir(t, path, recursive).Ok? <==>
      path == [] || (Open(t, path) && (recursive || Lookup(t, Parent(path)) == Some(Folder)))
    ensures Mkdir(t, path, recursive).Err? ==>
      Mkdir(t, path, recursive).error ==
        if recursive || !Open(t, Parent(path)) then NotADirectory
        else if Lookup(t, Parent(path)).None? then NotFound
        else Exists
  {
    if path != [] {
      var dir := Parent(path);
      if recursive {
        EnsureParentsOk(t, path, true);
      } else {
        EnsureParentsOk(t, dir, false);
        OpenByParent(t, path);
        if EnsureParents(t, dir, false).Ok? {
          LookupEnsured(t, dir, false, path);
          assert dir <= dir;
        }
      }
    }
  }

  /** Afterwards `path` and all its prefixes are directories, and no other path has changed. */
  lemma MkdirLaw(t: Tree, path: Path, recursive: bool, q: Path)
    requires RootFormed(t) && Mkdir(t, path, recursive).Ok?
    ensures var u := Mkdir(t, path, recursive).value;
      RootFormed(u) && Lookup(u, q) == if q <= path then Some(Folder) else Lookup(t, q)
  {
    if path != [] {
      if recursive {
        EnsuredIsRoot(t, path, true);
        LookupEnsured(t, path, true, q);
      } else {
        var dir := Parent(path);
        var p := EnsureParents(t, dir, false).value;
        EnsuredIsRoot(t, dir, false);
        LookupEnsured(t, dir, false, q);
        LookupEnsured(t, dir, false, dir);
        PrefixOfParent(path, q);
        assert q <= path <==> q <= dir || q == path;
        if Lookup(p, path).None? {
          var child := NewDir(Last(path));
          LookupAdded(p, dir, child, q);
          AddedIsRoot(p, dir, child);
          if path <= q {
            LookupFile(Last(path), "", q[|dir| + 1..]);
            LookupEnsured(t, dir, false, path);
            LookupBelow(t, path, q);
          }
        }
      }
    }
  }

  // ---------------------------------------------------------------------
  // remove
  // ---------------------------------------------------------------------

  /** Removing takes away the path and all below it, nothing else; a directory with entries only if `recursive`. */
  lemma RemoveLaw(t: Tree, path: Path, recursive: bool, q: Path)
    requires RootFormed(t)
    ensures Remove(t, path, recursive).Ok? <==>
      path != [] && Lookup(t, path).Some? && (recursive || forall name: string :: Lookup(t, path + [name]).None?)
    ensures Remove(t, path, recursive).Err? ==>
      Remove(t, path, recursive).error ==
        if path == [] then Permission else if Lookup(t, path).None? then NotFound else NotADirectory
    ensures Remove(t, path, recursive).Ok? ==> var u := Remove(t, path, recursive).value;
      RootFormed(u) && Lookup(u, q) == if path <= q then None else Lookup(t, q)
  {
    if path != [] && Resolve(t, path).Some? {
      var n := Resolve(t, path).value;
      ResolvedIsFormed(t, path);
      forall name: string ensures Lookup(t, path + [name]).None? <==> ChildIndex(n.children, name) == -1 || !IsDir(n) {
        ResolveSplit(t, path, [name]);
      }
      if n.children != [] {
        assert ChildIndex(n.children, n.children[0].name) == 0;
      }
      LookupRemoved(t, path, q);
      RemovedIsRoot(t, path);
    }
  }

  // ---------------------------------------------------------------------
  // copy and move
  // ---------------------------------------------------------------------

  lemma LookupRenamed(n: Tree, name: string, r: Path)
    ensures Lookup(n.(name := name), r) == Lookup(n, r)
  {
  }

  lemma LookupSource(t: Tree, src: Path, r: Path)
    requires Resolve(t, src).Some?
    ensures Lookup(Resolve(t, src).value, r) == Lookup(t, src + r)
  {
    ResolveSplit(t, src, r);
  }

  /** The tree with the parents of `dest` in place and the old `dest` gone. */
  lemma LookupCleared(t: Tree, dest: Path, q: Path)
    requires RootFormed(t) && dest != [] && EnsureParents(t, Parent(dest), true).Ok?
    ensures var c := RemoveAt(EnsureParents(t, Parent(dest), true).value, dest);
      && RootFormed(c)
      && Lookup(c, q) == if dest <= q then None else if q < dest then Some(Folder) else Lookup(t, q)
  {
    var u := EnsureParents(t, Parent(dest), true).value;
    EnsuredIsRoot(t, Parent(dest), true);
    LookupEnsured(t, Parent(dest), true, q);
    LookupRemoved(u, dest, q);
    RemovedIsRoot(u, dest);
    PrefixOfParent(dest, q);
    assert q < dest <==> q <= Parent(dest);
  }

  /** Copying fails exactly when a file stands where a parent of `dest` should. */
  lemma CopyOverSucceeds(t: Tree, src: Path, dest: Path)
    requires RootFormed(t) && Resolve(t, src).Some? && dest != []
    ensures CopyOver(t, src, dest).Ok? <==> Open(t, Parent(dest))
    ensures CopyOver(t, src, dest).Err? ==> CopyOver(t, src, dest).error == NotADirectory
  {
    EnsureParentsOk(t, Parent(dest), true);
    if Open(t, Parent(dest)) {
      LookupCleared(t, dest, src);
    }
  }

  /** What is copied: the old subtree, except that a directory copied into itself is read once `dest` is cleared. */
  ghost function Copied(t: Tree, src: Path, dest: Path, r: Path): Option<Entry> {
    if src <= dest && src != dest then
      var q := src + r;
      if dest <= q then None else if q < dest then Some(Folder) else Lookup(t, q)
    else Lookup(t, src + r)
  }

  /** `dest` becomes the copy, its parents directories; no other path changes. */
  lemma CopyOverLaw(t: Tree, src: Path, dest: Path, q: Path)
    requires RootFormed(t) && Resolve(t, src).Some? && dest != [] && CopyOver(t, src, dest).Ok?
    ensures var u := CopyOver(t, src, dest).value;
      && RootFormed(u)
      && Lookup(u, q) ==
         if dest <= q then Copied(t, src, dest, q[|dest|..]) else if q < dest then Some(Folder) else Lookup(t, q)
  {
    hide ChildIndex, EnsureParents, UpdateAt;
    var dir := Parent(dest);
    var c := RemoveAt(EnsureParents(t, dir, true).value, dest);
    PrefixOfParent(dest, q);
    LookupCleared(t, dest, q);
    LookupCleared(t, dest, dir);
    LookupCleared(t, dest, dest);
    var source := if dest <= src then Resolve(t, src) else Resolve(c, src);
    var child := source.value.(name := Last(dest));
    if dest <= src {
      ResolvedIsFormed(t, src);
    } else {
      ResolvedIsFormed(c, src);
    }
    assert WellFormed(child);
    LookupAdded(c, dir, child, q);
    AddedIsRoot(c, dir, child);
    if dest <= q {
      var r := q[|dest|..];
      LookupRenamed(source.value, Last(dest), r);
      if dest <= src {
        LookupSource(t, src, r);
      } else {
        LookupSource(c, src, r);
        LookupCleared(t, dest, src + r);
        assert !(src <= dest) ==> !(dest <= src + r) && !(src + r < dest) by {
          NotBelow(src, dest, r);
        }
      }
    }
  }

  lemma NotBelow(src: Path, dest: Path, r: Path)
    ensures !(src <= dest) && !(dest <= src) ==> !(dest <= src + r) && !(src + r <= dest)
  {
    if src + r <= dest {
      assert forall i :: 0 <= i < |src| ==> src[i] == (src + r)[i] == dest[i];
    }
    if dest <= src + r {
      if |src| <= |dest| {
        assert forall i :: 0 <= i < |src| ==> src[i] == (src + r)[i] == dest[i];
      } else {
        assert forall i :: 0 <= i < |dest| ==> src[i] == (src + r)[i] == dest[i];
      }
    }
  }

  /** `copy`: fails exactly without a source, onto the root, or through a file. */
  lemma CopyLaw(t: Tree, src: Path, dest: Path, q: Path)
    requires RootFormed(t)
    ensures Copy(t, src, dest).Ok? <==> Lookup(t, src).Some? && dest != [] && Open(t, Parent(dest))
    ensures Copy(t, src, dest).Err? ==>
      Copy(t, src, dest).error ==
        if Lookup(t, src).None? then NotFound else if dest == [] then IsADirectory else NotADirectory
    ensures Copy(t, src, dest).Ok? ==> var u := Copy(t, src, dest).value;
      && RootFormed(u)
      && Lookup(u, q) ==
         if dest <= q then Copied(t, src, dest, q[|dest|..]) else if q < dest then Some(Folder) else Lookup(t, q)
  {
    if Resolve(t, src).Some? && dest != [] {
      CopyOverSucceeds(t, src, dest);
      if Open(t, Parent(dest)) {
        CopyOverLaw(t, src, dest, q);
      }
    }
  }

  /** `move` on every pair of paths: the copy, and then `src` and all below it gone. */
  lemma MoveGeneral(t: Tree, src: Path, dest: Path, q: Path)
    requires RootFormed(t)
    ensures Move(t, src, dest).Ok? <==> src != [] && Lookup(t, src).Some? && dest != [] && Open(t, Parent(dest))
    ensures Move(t, src, dest).Err? ==>
      Move(t, src, dest).error ==
        if src == [] then Permission
        else if Lookup(t, src).None? then NotFound
        else if dest == [] then IsADirectory
        else NotADirectory
    ensures Move(t, src, dest).Ok? ==> var u := Move(t, src, dest).value;
      && RootFormed(u)
      && Lookup(u, q) ==
         if src <= q then None
         else if dest <= q then Copied(t, src, dest, q[|dest|..])
         else if q < dest then Some(Folder) else Lookup(t, q)
  {
    if src != [] && Resolve(t, src).Some? && dest != [] {
      CopyOverSucceeds(t, src, dest);
      if Open(t, Parent(dest)) {
        CopyOverLaw(t, src, dest, q);
        var u := CopyOver(t, src, dest).value;
        LookupRemoved(u, src, q);
        RemovedIsRoot(u, src);
      }
    }
  }

  /** When neither path is a prefix of the other: the old subtree at `dest`, nothing at `src`, all else unchanged. */
  lemma MoveLaw(t: Tree, src: Path, dest: Path, q: Path)
    requires RootFormed(t) && Move(t, src, dest).Ok?
    requires !(src <= dest) && !(dest <= src)
    ensures var u := Move(t, src, dest).value;
      Lookup(u, q) ==
        if dest <= q then Lookup(t, src + q[|dest|..])
        else if src <= q then None
        else if q < dest then Some(Folder)
        else Lookup(t, q)
  {
    MoveGeneral(t, src, dest, q);
    Comparable(src, dest, q);
  }

  lemma Comparable(a: Path, b: Path, q: Path)
    ensures a <= q && b <= q ==> a <= b || b <= a
  {
    if a <= q && b <= q {
      assert a == q[..|a|] && b == q[..|b|];
    }
  }

  /** The old subtree arrives whole at `dest` and `src` is gone. */
  ghost predicate Moved(t: Tree, u: Tree, src: Path, dest: Path) {
    && (forall r: Path :: Lookup(u, dest + r) == Lookup(t, src + r))
    && Lookup(u, src).None?
  }

  /**
   Where one path is a prefix of the other, a move may lose what it moves.  It
   keeps its promise if and only if `dest` is not `src` or below it, and, when
   `src` is below `dest`, the moved node has nothing at the path that leads from
   `dest` to `src`.
   */
  lemma MoveKeepsExactly(t: Tree, src: Path, dest: Path)
    requires RootFormed(t) && Move(t, src, dest).Ok?
    ensures Moved(t, Move(t, src, dest).value, src, dest) <==>
      !(src <= dest) && (dest <= src ==> Lookup(t, src + src[|dest|..]).None?)
  {
    var u := Move(t, src, dest).value;
    MoveGeneral(t, src, dest, src);
    if src <= dest {
      MoveGeneral(t, src, dest, dest);
      assert dest + [] == dest && src + [] == src;
      assert Lookup(u, dest + []) != Lookup(t, src + []);
    } else {
      forall r: Path ensures Lookup(u, dest + r) == if src <= dest + r then None else Lookup(t, src + r) {
        MoveGeneral(t, src, dest, dest + r);
        assert (dest + r)[|dest|..] == r;
      }
      if dest <= src {
        MoveBelow(t, src, dest);
      } else {
        forall r: Path ensures !(src <= dest + r) {
          NotBelow(dest, src, r);
        }
      }
    }
  }

  lemma MoveBelow(t: Tree, src: Path, dest: Path)
    requires RootFormed(t) && dest <= src && src != dest
    ensures var rest := src[|dest|..];
      Lookup(t, src + rest).None? <==> forall r: Path :: src <= dest + r ==> Lookup(t, src + r).None?
  {
    var rest := src[|dest|..];
    assert dest + rest == src;
    if Lookup(t, src + rest).None? {
      forall r: Path | src <= dest + r ensures Lookup(t, src + r).None? {
        assert forall i :: 0 <= i < |rest| ==> rest[i] == src[|dest| + i] == (dest + r)[|dest| + i] == r[i];
        assert rest <= r;
        LookupBelow(t, src + rest, src + r);
      }
    }
  }

  /** A directory moved below itself is lost, with all it holds. */
  lemma MoveBelowItselfLoses()
    ensures var t := NewDir("").(children := [NewDir("a")]);
      var m := Move(t, ["a"], ["a", "b"]);
      RootFormed(t) && m.Ok? && Lookup(t, ["a"]) == Some(Folder) && !Moved(t, m.value, ["a"], ["a", "b"])
  {
    var a := NewDir("a");
    var t := NewDir("").(children := [a]);
    assert a in t.children && WellFormed(a);
    assert ["a"][1..] == [] && ChildIndex(t.children, "a") == 0;
    assert Parent(["a", "b"]) == ["a"];
    OpenToDirectory(t, "a");
    MoveGeneral(t, ["a"], ["a", "b"], []);
    assert ["a"] <= ["a", "b"];
    MoveKeepsExactly(t, ["a"], ["a", "b"]);
  }

  lemma OpenToDirectory(t: Tree, name: string)
    requires IsDir(t) && Lookup(t, [name]) == Some(Folder)
    ensures Open(t, [name])
  {
    forall q: Path | q <= [name] ensures Lookup(t, q) == Some(Folder) {
      assert q == [] || q == [name];
    }
  }

  /** A directory moved onto its parent loses an entry that has its own name. */
  lemma MoveOntoParentLoses()
    ensures var b := NewDir("b").(children := [NewFile("b", "text")]);
      var t := NewDir("").(children := [NewDir("a").(children := [b])]);
      var m := Move(t, ["a", "b"], ["a"]);
      && RootFormed(t) && m.Ok? && Lookup(t, ["a", "b", "b"]) == Some(File("text"))
      && !Moved(t, m.value, ["a", "b"], ["a"])
  {
    var file := NewFile("b", "text");
    var b := NewDir("b").(children := [file]);
    var a := NewDir("a").(children := [b]);
    var t := NewDir("").(children := [a]);
    assert WellFormed(file) && WellFormed(b) && WellFormed(a) && WellFormed(t);
    assert ["a", "b", "b"][1..] == ["b", "b"] && ["b", "b"][1..] == ["b"] && ["b"][1..] == [];
    assert ["a", "b"][1..] == ["b"];
    assert Resolve(b, ["b"]) == Some(file) && Resolve(a, ["b", "b"]) == Some(file);
    assert Resolve(t, ["a", "b", "b"]) == Some(file);
    assert Resolve(a, ["b"]) == Some(b) && Resolve(t, ["a", "b"]) == Some(b);
    assert Parent(["a"]) == [];
    forall q: Path | q <= [] ensures Lookup(t, q) == Some(Folder) {
      assert q == [];
    }
    MoveGeneral(t, ["a", "b"], ["a"], []);
    assert ["a"] <= ["a", "b"] && !(["a", "b"] <= ["a"]);
    assert ["a", "b"] + ["a", "b"][|["a"]|..] == ["a", "b", "b"];
    MoveKeepsExactly(t, ["a", "b"], ["a"]);
  }
}

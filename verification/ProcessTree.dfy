/**
 The process-tree walk behind closing a shell: every descendant of a process on
 an arbitrary parent relation, and the set of processes that may be signalled.
 */
module ProcessTree {
  import opened Wrappers

  /** One row of the process list; the session is unknown where `ps` does not tell it. */
  datatype ProcInfo = ProcInfo(pid: int, ppid: int, pgid: int, sid: Option<int>)

  predicate Parents(procs: seq<ProcInfo>, parent: int, child: int) {
    exists p :: p in procs && p.ppid == parent && p.pid == child
  }

  /** A walk along parent links: each process is the parent of the next one. */
  ghost predicate IsPath(procs: seq<ProcInfo>, path: seq<int>) {
    path != [] && forall i :: 0 < i < |path| ==> Parents(procs, path[i - 1], path[i])
  }

  ghost predicate Reaches(procs: seq<ProcInfo>, root: int, pid: int) {
    exists path :: IsPath(procs, path) && path[0] == root && path[|path| - 1] == pid
  }

  lemma ReachesSelf(procs: seq<ProcInfo>, root: int)
    ensures Reaches(procs, root, root)
  {
    assert IsPath(procs, [root]);
  }

  lemma ReachesChild(procs: seq<ProcInfo>, root: int, parent: int, child: int)
    requires Reaches(procs, root, parent) && Parents(procs, parent, child)
    ensures Reaches(procs, root, child)
  {
    var path :| IsPath(procs, path) && path[0] == root && path[|path| - 1] == parent;
    assert IsPath(procs, path + [child]);
  }

  /** A set closed under the parent relation holds everything its members reach. */
  lemma {:induction false} ClosedHoldsReached(procs: seq<ProcInfo>, closed: set<int>, path: seq<int>)
    requires IsPath(procs, path) && path[0] in closed
    requires forall p :: p in procs && p.ppid in closed ==> p.pid in closed
    ensures path[|path| - 1] in closed
  {
    if |path| > 1 {
      assert Parents(procs, path[0], path[1]);
      assert IsPath(procs, path[1..]) by {
        forall i | 0 < i < |path[1..]| ensures Parents(procs, path[1..][i - 1], path[1..][i]) {
          assert Parents(procs, path[i], path[i + 1]);
        }
      }
      ClosedHoldsReached(procs, closed, path[1..]);
    }
  }

  /** The children lists: one entry per parent, its children's pids in list order. */
  ghost predicate IndexesChildren(procs: seq<ProcInfo>, children: map<int, seq<int>>) {
    && (forall parent, child :: parent in children && child in children[parent] ==> Parents(procs, parent, child))
    && (forall p :: p in procs ==> p.ppid in children && p.pid in children[p.ppid])
  }

  method IndexChildren(procs: seq<ProcInfo>) returns (children: map<int, seq<int>>)
    ensures IndexesChildren(procs, children)
  {
    children := map[];
    for n := 0 to |procs|
      invariant IndexesChildren(procs[..n], children)
    {
      var p := procs[n];
      ghost var before := children;
      var siblings := if p.ppid in children then children[p.ppid] else [];
      children := children[p.ppid := siblings + [p.pid]];
      assert procs[..n + 1] == procs[..n] + [p];
      forall parent, child | parent in children && child in children[parent]
        ensures Parents(procs[..n + 1], parent, child)
      {
        if parent == p.ppid && child == p.pid {
          assert p in procs[..n + 1];
        } else {
          assert Parents(procs[..n], parent, child);
          var q :| q in procs[..n] && q.ppid == parent && q.pid == child;
          assert q in procs[..n + 1];
        }
      }
    }
    assert procs[..|procs|] == procs;
  }

  ghost predicate Distinct(s: seq<int>) {
    forall i, j :: 0 <= i < j < |s| ==> s[i] != s[j]
  }

  ghost function Pids(procs: seq<ProcInfo>): set<int> {
    set p | p in procs :: p.pid
  }

  lemma LessLeft(all: set<int>, before: set<int>, now: set<int>)
    requires before < now && now - before <= all
    ensures all - now < all - before
  {
  }

  /** `_descendants`: terminates on any parent relation, cycles and self-parents included. */
  method Descendants(procs: seq<ProcInfo>, root: int) returns (result: seq<int>)
    ensures Distinct(result)
    ensures forall pid :: pid in result <==> pid != root && Reaches(procs, root, pid)
  {
    var children := IndexChildren(procs);
    result := [];
    var seen := {root};
    var stack := [root];
    ReachesSelf(procs, root);
    while stack != []
      invariant Distinct(result)
      invariant root in seen && (forall pid :: pid in result <==> pid in seen && pid != root)
      invariant forall pid :: pid in seen ==> Reaches(procs, root, pid)
      invariant forall pid :: pid in stack ==> pid in seen
      invariant forall p :: p in procs && p.ppid in seen && p.ppid !in stack ==> p.pid in seen
      decreases Pids(procs) - seen, |stack|
    {
      var top := stack[|stack| - 1];
      ghost var below := stack[..|stack| - 1];
      ghost var seenBefore := seen;
      assert forall pid :: pid in stack ==> pid in below || pid == top;
      stack := stack[..|stack| - 1];
      var found := if top in children then children[top] else [];
      for n := 0 to |found|
        invariant Distinct(result)
        invariant root in seen && (forall pid :: pid in result <==> pid in seen && pid != root)
        invariant forall pid :: pid in seen ==> Reaches(procs, root, pid)
        invariant forall pid :: pid in stack ==> pid in seen
        invariant forall pid :: pid in below ==> pid in stack
        invariant seenBefore <= seen
        invariant forall pid :: pid in seen - seenBefore ==> pid in stack && pid in Pids(procs)
        invariant seen == seenBefore ==> stack == below
        invariant forall i :: 0 <= i < n ==> found[i] in seen
      {
        var child := found[n];
        if child !in seen {
          assert Parents(procs, top, child);
          ReachesChild(procs, root, top, child);
          ghost var grown := stack + [child];
          assert forall pid :: pid in stack ==> pid in grown;
          assert child in grown;
          seen := seen + {child};
          result := result + [child];
          stack := stack + [child];
        }
      }
      forall p | p in procs && p.ppid in seen && p.ppid !in stack ensures p.pid in seen {
        if p.ppid == top {
          assert p.pid in children[top];
        }
      }
      if seen != seenBefore {
        LessLeft(Pids(procs), seenBefore, seen);
      }
    }
    forall pid | Reaches(procs, root, pid) ensures pid in seen {
      var path :| IsPath(procs, path) && path[0] == root && path[|path| - 1] == pid;
      ClosedHoldsReached(procs, seen, path);
    }
  }

  /** What closing shell `pid` is after: its tree, its group, its session and the marked processes. */
  ghost predicate Wanted(procs: seq<ProcInfo>, pid: int, marked: set<int>, includeTree: bool, t: int) {
    || (includeTree && Reaches(procs, pid, t))
    || (exists p :: p in procs && p.pid == t && (p.pgid == pid || p.sid == Some(pid)))
    || t in marked
  }

  predicate InGroup(procs: seq<ProcInfo>, group: int, t: int) {
    exists p :: p in procs && p.pid == t && p.pgid == group
  }

  /**
   `_collect_targets`: everything wanted except pid 1 and below, the server and
   the server's group.  `marked` holds the processes carrying the shell's marker
   (none without a shell id); `ownPid` and `ownGroup` are the server's.
   */
  method CollectTargets(procs: seq<ProcInfo>, pid: int, marked: set<int>, includeTree: bool, ownPid: int, ownGroup: int)
    returns (targets: set<int>)
    ensures forall t :: t in targets <==>
      Wanted(procs, pid, marked, includeTree, t) && t > 1 && t != ownPid && !InGroup(procs, ownGroup, t)
  {
    targets := {};
    if includeTree {
      var tree := Descendants(procs, pid);
      targets := set t | t in tree;
      targets := targets + {pid};
      ReachesSelf(procs, pid);
      assert forall t :: t in targets <==> Reaches(procs, pid, t);
    }
    targets := targets + set p | p in procs && (p.pgid == pid || p.sid == Some(pid)) :: p.pid;
    targets := targets + marked;
    assert forall t :: t in targets <==> Wanted(procs, pid, marked, includeTree, t);
    var ownMembers := set p | p in procs && p.pgid == ownGroup :: p.pid;
    assert forall t :: t in ownMembers <==> InGroup(procs, ownGroup, t);
    targets := set t | t in targets && t > 1 && t != ownPid && t !in ownMembers;
  }
}

/** The processes of an app: its root processes and everything they started, in a process table that
    may hold cycles and shared children.
 */
module ProcessTree {
  import opened Options

  type Pid = n: nat | n < 0x1_0000_0000

  type Tree = map<Pid, seq<Pid>>

  datatype ProcessSnapshot = ProcessSnapshot(tree: Tree, exePids: map<string, seq<Pid>>, pidPaths: seq<(Pid, string)>)

  function Children(tree: Tree, p: Pid): seq<Pid> {
    if p in tree then tree[p] else []
  }

  // ----- reachability -----

  /** Each process on the path is a child of the one before. */
  ghost predicate IsPath(tree: Tree, path: seq<Pid>) {
    path != [] && forall i :: 0 < i < |path| ==> path[i] in Children(tree, path[i - 1])
  }

  ghost predicate Reaches(tree: Tree, from: Pid, to: Pid) {
    exists path :: IsPath(tree, path) && path[0] == from && path[|path| - 1] == to
  }

  ghost predicate ReachedFrom(tree: Tree, roots: seq<Pid>, p: Pid) {
    exists r :: r in roots && Reaches(tree, r, p)
  }

  lemma ReachesSelf(tree: Tree, p: Pid)
    ensures Reaches(tree, p, p)
  {
    assert IsPath(tree, [p]);
  }

  lemma ReachesChild(tree: Tree, from: Pid, p: Pid, child: Pid)
    requires Reaches(tree, from, p) && child in Children(tree, p)
    ensures Reaches(tree, from, child)
  {
    var path :| IsPath(tree, path) && path[0] == from && path[|path| - 1] == p;
    assert IsPath(tree, path + [child]);
  }

  lemma ReachesThrough(tree: Tree, p: Pid, child: Pid, to: Pid)
    requires child in Children(tree, p) && Reaches(tree, child, to)
    ensures Reaches(tree, p, to)
  {
    var path :| IsPath(tree, path) && path[0] == child && path[|path| - 1] == to;
    var longer := [p] + path;
    forall i | 0 < i < |longer| ensures longer[i] in Children(tree, longer[i - 1]) {
      assert longer[i] == path[i - 1];
      if i > 1 {
        assert longer[i - 1] == path[i - 2];
      }
    }
    assert IsPath(tree, longer) && longer[|longer| - 1] == to;
  }

  ghost predicate ChildrenIn(tree: Tree, p: Pid, visited: set<Pid>) {
    forall c :: c in Children(tree, p) ==> c in visited
  }

  /** A set that holds the start of a path and all children of its members holds the end. */
  lemma {:induction false} ClosedHoldsPath(tree: Tree, closed: set<Pid>, path: seq<Pid>)
    requires IsPath(tree, path) && path[0] in closed
    requires forall p :: p in closed ==> ChildrenIn(tree, p, closed)
    ensures path[|path| - 1] in closed
  {
    if |path| > 1 {
      ClosedHoldsPath(tree, closed, path[..|path| - 1]);
      assert path[|path| - 1] in Children(tree, path[|path| - 2]);
    }
  }

  // ----- the search -----

  /** What a call for `root` has done: it has visited `root` and, through their children, all that it
      newly visited, nothing else, and has listed those, all but `root` itself. */
  ghost predicate Explored(tree: Tree, root: Pid, before: set<Pid>, after: set<Pid>, added: seq<Pid>) {
    && before <= after && root in after
    && (forall p :: p in after - before ==> ChildrenIn(tree, p, after))
    && (forall p :: p in after - before && p != root ==> p in added)
    && (forall p :: p in after - before ==> Reaches(tree, root, p))
    && (forall c :: c in added ==> Reaches(tree, root, c))
  }

  ghost predicate FirstChildrenIn(tree: Tree, p: Pid, i: nat, visited: set<Pid>) {
    i <= |Children(tree, p)| && forall k :: 0 <= k < i ==> Children(tree, p)[k] in visited
  }

  /** The same while only the first `i` children of `root` have been searched. */
  ghost predicate Exploring(tree: Tree, root: Pid, i: nat, before: set<Pid>, after: set<Pid>, added: seq<Pid>) {
    && before <= after && root in after
    && FirstChildrenIn(tree, root, i, after)
    && (forall p :: p in after - before && p != root ==> ChildrenIn(tree, p, after))
    && (forall p :: p in after - before && p != root ==> p in added)
    && (forall p :: p in after - before ==> Reaches(tree, root, p))
    && (forall c :: c in added ==> Reaches(tree, root, c))
  }

  lemma ChildrenStayIn(tree: Tree, p: Pid, before: set<Pid>, after: set<Pid>)
    requires ChildrenIn(tree, p, before) && before <= after
    ensures ChildrenIn(tree, p, after)
  {
  }

  lemma ExploringStep(tree: Tree, root: Pid, i: nat, before: set<Pid>, mid: set<Pid>, added: seq<Pid>,
                      after: set<Pid>, more: seq<Pid>)
    requires i < |Children(tree, root)| && root !in before
    requires Exploring(tree, root, i, before, mid, added)
    requires Explored(tree, Children(tree, root)[i], mid, after, more)
    ensures Exploring(tree, root, i + 1, before, after, added + [Children(tree, root)[i]] + more)
  {
    var child := Children(tree, root)[i];
    ReachesSelf(tree, root);
    ReachesChild(tree, root, root, child);
    forall p | Reaches(tree, child, p) ensures Reaches(tree, root, p) {
      ReachesThrough(tree, root, child, p);
    }
    forall p | p in after - before && p != root ensures ChildrenIn(tree, p, after) {
      if p in mid {
        ChildrenStayIn(tree, p, mid, after);
      }
    }
  }

  lemma ExploredAll(tree: Tree, root: Pid, before: set<Pid>, after: set<Pid>, added: seq<Pid>)
    requires Exploring(tree, root, |Children(tree, root)|, before, after, added)
    ensures Explored(tree, root, before, after, added)
  {
    forall c | c in Children(tree, root) ensures c in after {
      var k :| 0 <= k < |Children(tree, root)| && Children(tree, root)[k] == c;
    }
  }

  lemma Suffixes(listed: seq<Pid>, start: nat, child: Pid, after: seq<Pid>)
    requires start <= |listed| && listed + [child] <= after
    ensures after[start..] == listed[start..] + [child] + after[|listed| + 1..]
  {
  }

  class Walk {
    var result: seq<Pid>
    var visited: set<Pid>

    constructor (listed: seq<Pid>, seen: set<Pid>)
      ensures result == listed && visited == seen
    {
      result, visited := listed, seen;
    }

    /** Depth first; the processes not yet visited get fewer with every call, cycles or not. */
    method CollectDescendants(tree: Tree, root: Pid)
      modifies this
      ensures old(result) <= result
      ensures Explored(tree, root, old(visited), visited, result[|old(result)|..])
      decreases tree.Keys - visited
    {
      ghost var before, start := visited, |result|;
      if root in visited {
        assert result[start..] == [];
        return;
      }
      visited := visited + {root};
      ReachesSelf(tree, root);
      assert result[start..] == [];
      if root in tree {
        var children := tree[root];
        for i := 0 to |children|
          invariant old(result) <= result && {root} <= visited
          invariant Exploring(tree, root, i, before, visited, result[start..])
        {
          ghost var mid, listed := visited, result;
          result := result + [children[i]];
          CollectDescendants(tree, children[i]);
          Suffixes(listed, start, children[i], result);
          ExploringStep(tree, root, i, before, mid, listed[start..], visited, result[|listed| + 1..]);
        }
      }
      ExploredAll(tree, root, before, visited, result[start..]);
    }
  }

  // ----- process lists -----

  ghost predicate Ascending(pids: seq<Pid>) {
    forall i, j :: 0 <= i < j < |pids| ==> pids[i] < pids[j]
  }

  function InsertPid(pids: seq<Pid>, p: Pid): (r: seq<Pid>)
    requires Ascending(pids)
    ensures Ascending(r) && forall q :: q in r <==> q == p || q in pids
  {
    if pids == [] || pids[|pids| - 1] < p then pids + [p]
    else if pids[|pids| - 1] == p then pids
    else
      assert pids == pids[..|pids| - 1] + [pids[|pids| - 1]];
      var before := InsertPid(pids[..|pids| - 1], p);
      assert forall i :: 0 <= i < |before| ==> before[i] in before;
      before + [pids[|pids| - 1]]
  }

  /** sort_unstable and dedup. */
  function Sorted(pids: seq<Pid>): (r: seq<Pid>)
    ensures Ascending(r) && forall p :: p in r <==> p in pids
  {
    if pids == [] then []
    else
      assert pids == pids[..|pids| - 1] + [pids[|pids| - 1]];
      InsertPid(Sorted(pids[..|pids| - 1]), pids[|pids| - 1])
  }

  function TrimEndSlashes(path: string): (trimmed: string)
    ensures trimmed <= path && (trimmed != "" ==> trimmed[|trimmed| - 1] != '/')
    ensures forall i :: |trimmed| <= i < |path| ==> path[i] == '/'
  {
    if path != "" && path[|path| - 1] == '/' then TrimEndSlashes(path[..|path| - 1]) else path
  }

  predicate UnderPath(path: string, prefix: string) {
    TrimEndSlashes(prefix) + "/" <= path
  }

  lemma {:induction false} TrimmedSlashes(base: string, slashes: string)
    requires base != "" ==> base[|base| - 1] != '/'
    requires forall i :: 0 <= i < |slashes| ==> slashes[i] == '/'
    ensures TrimEndSlashes(base + slashes) == base
  {
    if slashes == "" {
      assert base + slashes == base;
    } else {
      var init := slashes[..|slashes| - 1];
      TrimmedSlashes(base, init);
      assert (base + slashes)[..|base + slashes| - 1] == base + init;
    }
  }

  /** However many slashes end the app's path, a process runs from below it exactly if its path goes on with one where
      the app's ends: "/Applications/foo.app 2" is not below "/Applications/foo.app". */
  lemma UnderPathIff(path: string, base: string, slashes: string)
    requires base != "" ==> base[|base| - 1] != '/'
    requires forall i :: 0 <= i < |slashes| ==> slashes[i] == '/'
    ensures UnderPath(path, base + slashes) <==> |base| < |path| && path[..|base|] == base && path[|base|] == '/'
  {
    TrimmedSlashes(base, slashes);
    if |base| < |path| && path[..|base|] == base && path[|base|] == '/' {
      assert path == base + "/" + path[|base| + 1..];
    }
  }

  /** The root processes of an app: those of its executable, and those that run from below its path. */
  ghost predicate IsRoot(snap: ProcessSnapshot, exe: string, appPath: Option<string>, p: Pid) {
    || (exe in snap.exePids && p in snap.exePids[exe])
    || (appPath.Some? && exists i :: 0 <= i < |snap.pidPaths| && snap.pidPaths[i].0 == p &&
                                     UnderPath(snap.pidPaths[i].1, appPath.value))
  }

  method CollectAppPids(exe: string, appPath: Option<string>, snap: ProcessSnapshot) returns (roots: seq<Pid>)
    ensures Ascending(roots)
    ensures forall p :: p in roots <==> IsRoot(snap, exe, appPath, p)
  {
    roots := if exe in snap.exePids then snap.exePids[exe] else [];
    if appPath.Some? {
      var prefixDir := TrimEndSlashes(appPath.value) + "/";
      ghost var own := roots;
      for i := 0 to |snap.pidPaths|
        invariant forall p :: p in roots <==>
                    p in own || exists k :: 0 <= k < i && snap.pidPaths[k].0 == p &&
                                            UnderPath(snap.pidPaths[k].1, appPath.value)
      {
        var (pid, path) := snap.pidPaths[i];
        if prefixDir <= path {
          roots := roots + [pid];
        }
      }
    }
    roots := Sorted(roots);
  }

  method SearchRoots(tree: Tree, roots: seq<Pid>) returns (listed: seq<Pid>)
    ensures forall p :: p in listed <==> ReachedFrom(tree, roots, p)
  {
    var walk := new Walk(roots, (set p | p in roots));
    RootsListed(tree, roots);
    for r := 0 to |roots|
      invariant Searching(tree, roots, r, 0, walk.visited, walk.result)
    {
      var children := Children(tree, roots[r]);
      for i := 0 to |children|
        invariant Searching(tree, roots, r, i, walk.visited, walk.result)
      {
        ghost var mid, before := walk.visited, walk.result;
        walk.result := walk.result + [children[i]];
        walk.CollectDescendants(tree, children[i]);
        Suffixes(before, 0, children[i], walk.result);
        SearchingStep(tree, roots, r, i, mid, before, walk.visited, walk.result[|before| + 1..]);
      }
      SearchingNext(tree, roots, r, walk.visited, walk.result);
    }
    SearchedAll(tree, roots, walk.visited, walk.result);
    listed := walk.result;
  }

  /** The processes whose CPU time is summed: all that the root processes reach, each once. */
  method AppProcesses(exe: string, appPath: Option<string>, snap: ProcessSnapshot)
    returns (pids: seq<Pid>, roots: seq<Pid>)
    ensures Ascending(roots) && forall p :: p in roots <==> IsRoot(snap, exe, appPath, p)
    ensures Ascending(pids) && forall p :: p in pids <==> ReachedFrom(snap.tree, roots, p)
  {
    roots := CollectAppPids(exe, appPath, snap);
    var listed := SearchRoots(snap.tree, roots);
    pids := Sorted(listed);
  }

  /** What holds all through the search: but for the roots, whatever was visited has its children visited. */
  ghost predicate SoundSearch(tree: Tree, roots: seq<Pid>, visited: set<Pid>, listed: seq<Pid>) {
    && (forall p :: p in roots ==> p in visited)
    && (forall p :: p in visited ==> p in listed)
    && (forall p :: p in visited && p !in roots ==> ChildrenIn(tree, p, visited))
    && (forall p :: p in listed ==> ReachedFrom(tree, roots, p))
  }

  ghost predicate RootsSearched(tree: Tree, roots: seq<Pid>, r: nat, visited: set<Pid>) {
    r <= |roots| && forall k :: 0 <= k < r ==> ChildrenIn(tree, roots[k], visited)
  }

  /** The first `r` roots have been searched, and the first `i` children of the next. */
  ghost predicate Searching(tree: Tree, roots: seq<Pid>, r: nat, i: nat, visited: set<Pid>, listed: seq<Pid>) {
    && SoundSearch(tree, roots, visited, listed)
    && RootsSearched(tree, roots, r, visited)
    && (r < |roots| ==> FirstChildrenIn(tree, roots[r], i, visited))
  }

  lemma RootsListed(tree: Tree, roots: seq<Pid>)
    ensures Searching(tree, roots, 0, 0, (set p | p in roots), roots)
  {
    forall p | p in roots ensures ReachedFrom(tree, roots, p) {
      ReachesSelf(tree, p);
    }
  }

  lemma SearchingStep(tree: Tree, roots: seq<Pid>, r: nat, i: nat, mid: set<Pid>, listed: seq<Pid>, after: set<Pid>,
                      more: seq<Pid>)
    requires r < |roots| && i < |Children(tree, roots[r])| && Searching(tree, roots, r, i, mid, listed)
    requires Explored(tree, Children(tree, roots[r])[i], mid, after, more)
    ensures Searching(tree, roots, r, i + 1, after, listed + [Children(tree, roots[r])[i]] + more)
  {
    var child := Children(tree, roots[r])[i];
    forall p | Reaches(tree, child, p) ensures ReachedFrom(tree, roots, p) {
      ReachesThrough(tree, roots[r], child, p);
    }
    ReachesSelf(tree, child);
    assert ReachedFrom(tree, roots, child);
    forall p | p in after && p !in roots ensures ChildrenIn(tree, p, after) {
      if p in mid {
        ChildrenStayIn(tree, p, mid, after);
      }
    }
    forall k | 0 <= k < r ensures ChildrenIn(tree, roots[k], after) {
      ChildrenStayIn(tree, roots[k], mid, after);
    }
  }

  lemma AllChildrenIn(tree: Tree, p: Pid, visited: set<Pid>)
    requires FirstChildrenIn(tree, p, |Children(tree, p)|, visited)
    ensures ChildrenIn(tree, p, visited)
  {
    forall c | c in Children(tree, p) ensures c in visited {
      var k :| 0 <= k < |Children(tree, p)| && Children(tree, p)[k] == c;
    }
  }

  lemma SearchingNext(tree: Tree, roots: seq<Pid>, r: nat, visited: set<Pid>, listed: seq<Pid>)
    requires r < |roots| && Searching(tree, roots, r, |Children(tree, roots[r])|, visited, listed)
    ensures Searching(tree, roots, r + 1, 0, visited, listed)
  {
    AllChildrenIn(tree, roots[r], visited);
  }

  lemma SearchedAll(tree: Tree, roots: seq<Pid>, visited: set<Pid>, listed: seq<Pid>)
    requires Searching(tree, roots, |roots|, 0, visited, listed)
    ensures forall p :: p in listed <==> ReachedFrom(tree, roots, p)
  {
    forall p | p in visited ensures ChildrenIn(tree, p, visited) {
      if p in roots {
        var k :| 0 <= k < |roots| && roots[k] == p;
      }
    }
    forall p | ReachedFrom(tree, roots, p) ensures p in listed {
      var root :| root in roots && Reaches(tree, root, p);
      var path :| IsPath(tree, path) && path[0] == root && path[|path| - 1] == p;
      ClosedHoldsPath(tree, visited, path);
    }
  }
}

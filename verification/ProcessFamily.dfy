/** The family of a process: the recorded process and its descendants, found by a bounded
    breadth-first walk over the process table (the Windows version). The table is a snapshot;
    it may contain cycles, because process ids are reused and parents die. */
module ProcessFamily {
  import opened Text
  import opened Numbers

  type Pid = n: nat | n < 0x1_0000_0000

  datatype Process = Process(pid: Pid, parent: Pid)

  const MAX_DESCENDANT_DEPTH: nat := 4

  predicate IsChild(table: seq<Process>, parent: Pid, child: Pid) {
    Process(child, parent) in table
  }

  /** A path of child steps from `root` to `p`. */
  ghost predicate IsPath(table: seq<Process>, path: seq<Pid>, root: Pid, p: Pid) {
    && path != [] && path[0] == root && path[|path| - 1] == p
    && forall i :: 0 <= i < |path| - 1 ==> IsChild(table, path[i], path[i + 1])
  }

  /** `p` is at most `depth` child steps away from `root`. */
  ghost predicate Reachable(table: seq<Process>, root: Pid, p: Pid, depth: nat) {
    exists path :: IsPath(table, path, root, p) && |path| <= depth + 1
  }

  /** The answer to one query: the children of the frontier, in table order. */
  function Query(table: seq<Process>, frontier: seq<Pid>): (r: seq<Pid>)
    ensures forall c :: c in r <==> exists q :: q in frontier && IsChild(table, q, c)
  {
    if table == [] then []
    else
      var rest := Query(table[1..], frontier);
      assert table == [table[0]] + table[1..];
      if table[0].parent in frontier then [table[0].pid] + rest else rest
  }

  predicate NoDuplicates(s: seq<Pid>) {
    forall i, j :: 0 <= i < j < |s| ==> s[i] != s[j]
  }

  /** A set of processes with their children. */
  ghost function Spread(table: seq<Process>, near: set<Pid>): set<Pid> {
    near + set x | x in table && x.parent in near :: x.pid
  }

  /** The processes at most `depth` steps away, level by level. */
  ghost function Level(table: seq<Process>, root: Pid, depth: nat): set<Pid> {
    if depth == 0 then {root} else Spread(table, Level(table, root, depth - 1))
  }

  lemma {:induction false} LevelIsReachable(table: seq<Process>, root: Pid, depth: nat, p: Pid)
    ensures p in Level(table, root, depth) <==> Reachable(table, root, p, depth)
  {
    if p in Level(table, root, depth) {
      LevelHasPath(table, root, depth, p);
    }
    if Reachable(table, root, p, depth) {
      var path :| IsPath(table, path, root, p) && |path| <= depth + 1;
      PathInLevel(table, path, root, p);
      LevelGrows(table, root, |path| - 1, depth);
    }
  }

  lemma {:induction false} LevelHasPath(table: seq<Process>, root: Pid, depth: nat, p: Pid)
    requires p in Level(table, root, depth)
    ensures Reachable(table, root, p, depth)
  {
    if depth == 0 {
      assert IsPath(table, [root], root, root);
    } else if p in Level(table, root, depth - 1) {
      LevelHasPath(table, root, depth - 1, p);
    } else {
      var x :| x in table && x.parent in Level(table, root, depth - 1) && x.pid == p;
      LevelHasPath(table, root, depth - 1, x.parent);
      var path :| IsPath(table, path, root, x.parent) && |path| <= depth;
      assert x == Process(p, x.parent);
      assert IsPath(table, path + [p], root, p);
    }
  }

  lemma {:induction false} PathInLevel(table: seq<Process>, path: seq<Pid>, root: Pid, p: Pid)
    requires IsPath(table, path, root, p)
    ensures p in Level(table, root, |path| - 1)
    decreases |path|
  {
    if |path| > 1 {
      var q := path[|path| - 2];
      assert IsChild(table, path[|path| - 2], path[|path| - 2 + 1]);
      assert IsPath(table, path[..|path| - 1], root, q);
      PathInLevel(table, path[..|path| - 1], root, q);
      assert Process(p, q) in table;
    }
  }

  lemma {:induction false} LevelGrows(table: seq<Process>, root: Pid, a: nat, b: nat)
    requires a <= b
    ensures Level(table, root, a) <= Level(table, root, b)
  {
    if a < b {
      LevelGrows(table, root, a, b - 1);
    }
  }

  /** Once a level adds nothing, no later one does. */
  lemma {:induction false} LevelStops(table: seq<Process>, root: Pid, a: nat, b: nat, still: set<Pid>)
    requires a <= b && Level(table, root, a) == still && Spread(table, still) == still
    ensures Level(table, root, b) == still
  {
    if a < b {
      LevelStops(table, root, a, b - 1, still);
      assert Level(table, root, b) == Spread(table, Level(table, root, b - 1)) == Spread(table, still);
    }
  }

  /** The processes found are those within `depth` steps, each once, the recorded one first.
      A query that cannot be run ends the walk: `queries` is how many can. */
  method DescendantsOf(table: seq<Process>, pid: Pid, depth: nat, queries: nat) returns (found: seq<Pid>)
    ensures found != [] && found[0] == pid && NoDuplicates(found)
    ensures forall p :: p in found <==> Reachable(table, pid, p, Min(depth, queries))
  {
    found := [pid];
    var frontier := [pid];
    var level := 0;
    ghost var reached := 0;
    while level < depth
      invariant reached == level <= Min(depth, queries)
      invariant found != [] && found[0] == pid && NoDuplicates(found)
      invariant forall p :: p in found <==> p in Level(table, pid, level)
      invariant forall p :: p in frontier ==> p in found
      invariant forall p :: p in found && p !in frontier ==> level > 0 && p in Level(table, pid, level - 1)
    {
      if frontier == [] {
        assert Spread(table, Level(table, pid, level - 1)) == Level(table, pid, level) == Level(table, pid, level - 1);
        LevelStops(table, pid, level - 1, Min(depth, queries), Level(table, pid, level - 1));
        reached := Min(depth, queries);
        break;
      }
      if level == queries {
        break;
      }
      var answer := Query(table, frontier);
      ghost var before := found;
      var next: seq<Pid> := [];
      var k := 0;
      while k < |answer|
        invariant k <= |answer|
        invariant found != [] && found[0] == pid && NoDuplicates(found)
        invariant forall p :: p in found <==> p in before || p in answer[..k]
        invariant forall p :: p in next <==> p in found && p !in before
      {
        var child := answer[k];
        assert answer[..k + 1] == answer[..k] + [child];
        if child !in found {
          found := found + [child];
          next := next + [child];
        }
        k := k + 1;
      }
      assert answer[..k] == answer;
      NextLevel(table, pid, level, before, frontier, answer, found);
      frontier := next;
      level := level + 1;
      reached := level;
    }
    forall p
      ensures p in found <==> Reachable(table, pid, p, Min(depth, queries))
    {
      LevelIsReachable(table, pid, Min(depth, queries), p);
    }
  }

  /** Only the frontier can have children that are not yet known. */
  lemma NextLevel(table: seq<Process>, pid: Pid, level: nat, before: seq<Pid>, frontier: seq<Pid>, answer: seq<Pid>, found: seq<Pid>)
    requires forall p :: p in before <==> p in Level(table, pid, level)
    requires forall p :: p in frontier ==> p in before
    requires forall p :: p in before && p !in frontier ==> level > 0 && p in Level(table, pid, level - 1)
    requires answer == Query(table, frontier)
    requires forall p :: p in found <==> p in before || p in answer
    ensures forall p :: p in found <==> p in Level(table, pid, level + 1)
  {
    forall p
      ensures p in found <==> p in Level(table, pid, level + 1)
    {
      if p in answer {
        var q :| q in frontier && IsChild(table, q, p);
        var x := Process(p, q);
        assert x in table && x.parent in Level(table, pid, level);
      }
      if p in Level(table, pid, level + 1) && p !in Level(table, pid, level) {
        var x :| x in table && x.parent in Level(table, pid, level) && x.pid == p;
        assert x.parent in before;
        if x.parent !in frontier {
          assert false;
        }
        assert x == Process(p, x.parent);
        assert IsChild(table, x.parent, p);
      }
    }
  }

  /** Whether the recorded process holds the port, itself or through a descendant. `listeners`
      is `None` when the system could not be asked. */
  method PidOrDescendantListens(table: seq<Process>, pid: Pid, listeners: Option<seq<Pid>>, queries: nat) returns (owned: bool)
    ensures owned <==>
      (listeners.Some? && exists l :: l in listeners.value && Reachable(table, pid, l, Min(4, queries)))
  {
    if listeners.None? || listeners.value == [] {
      return false;
    }
    var family := DescendantsOf(table, pid, MAX_DESCENDANT_DEPTH, queries);
    owned := exists l :: l in listeners.value && l in family;
  }

  /** A path of five processes is out of reach of the ownership test if it is the only one: a
      chain of shims longer than four steps hides the listener. */
  lemma ChainOfFiveUnseen(table: seq<Process>, path: seq<Pid>)
    requires |path| == 6 && IsPath(table, path, path[0], path[5])
    requires forall i, j :: 0 <= i < j < 6 ==> path[i] != path[j]
    requires forall x :: x in table ==> exists i :: 0 <= i < 5 && x == Process(path[i + 1], path[i])
    ensures Reachable(table, path[0], path[5], 5)
    ensures !Reachable(table, path[0], path[5], 4)
  {
    ChainLevel(table, path, 4);
    LevelIsReachable(table, path[0], 4, path[5]);
  }

  lemma {:induction false} ChainLevel(table: seq<Process>, path: seq<Pid>, d: nat)
    requires |path| == 6 && d <= 5
    requires forall i, j :: 0 <= i < j < 6 ==> path[i] != path[j]
    requires forall x :: x in table ==> exists i :: 0 <= i < 5 && x == Process(path[i + 1], path[i])
    ensures forall p :: p in Level(table, path[0], d) ==> exists i :: 0 <= i <= d && p == path[i]
  {
    if d > 0 {
      ChainLevel(table, path, d - 1);
      forall p | p in Level(table, path[0], d) && p !in Level(table, path[0], d - 1)
        ensures exists i :: 0 <= i <= d && p == path[i]
      {
        var x :| x in table && x.parent in Level(table, path[0], d - 1) && x.pid == p;
        var i :| 0 <= i < 5 && x == Process(path[i + 1], path[i]);
        var j :| 0 <= j <= d - 1 && x.parent == path[j];
        assert i == j;
        assert p == path[i + 1];
      }
    }
  }
}

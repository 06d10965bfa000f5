/** Collapsing a rooted path by its text alone: `lexical_absolute`, which refuses to climb
    above the root, and `normalise`, which stays there. A path is given by its components
    below the root; a Windows drive prefix is part of the root. */
module LexicalPath {
  import opened Text

  datatype Component = CurDir | ParentDir | Normal(segment: string)

  /** Names minus parent steps. */
  function Depth(path: seq<Component>): int {
    if path == [] then 0
    else Depth(path[..|path| - 1]) + (match path[|path| - 1] case CurDir => 0 case ParentDir => -1 case Normal(_) => 1)
  }

  /** No prefix takes more parent steps than it names directories. */
  ghost predicate StaysBelowRoot(path: seq<Component>) {
    forall n :: 0 <= n <= |path| ==> Depth(path[..n]) >= 0
  }

  /** Where a path leads: `None` above the root. */
  function Collapse(path: seq<Component>): Option<seq<string>> {
    if path == [] then Some([])
    else
      match Collapse(path[..|path| - 1])
      case None => None
      case Some(out) =>
        match path[|path| - 1]
        case CurDir => Some(out)
        case ParentDir => if out == [] then None else Some(out[..|out| - 1])
        case Normal(s) => Some(out + [s])
  }

  /** Where a path leads if parent steps at the root are ignored. */
  function Clamp(path: seq<Component>): seq<string> {
    if path == [] then []
    else
      var out := Clamp(path[..|path| - 1]);
      match path[|path| - 1]
      case CurDir => out
      case ParentDir => if out == [] then out else out[..|out| - 1]
      case Normal(s) => out + [s]
  }

  function Names(segments: seq<string>): (r: seq<Component>)
    ensures |r| == |segments|
  {
    seq(|segments|, i requires 0 <= i < |segments| => Normal(segments[i]))
  }

  /** `lexical_absolute`; `None` is the error `WORKSPACE_TRAVERSAL`. */
  method LexicalAbsolute(path: seq<Component>) returns (r: Option<seq<string>>)
    ensures r == Collapse(path)
  {
    var out: seq<string> := [];
    var k := 0;
    while k < |path|
      invariant k <= |path| && Collapse(path[..k]) == Some(out)
    {
      assert path[..k + 1][..k] == path[..k];
      match path[k] {
        case CurDir =>
        case ParentDir =>
          if out == [] {
            RefusalStays(path, k + 1);
            return None;
          }
          out := out[..|out| - 1];
        case Normal(s) => out := out + [s];
      }
      k := k + 1;
    }
    assert path[..k] == path;
    return Some(out);
  }

  method Normalise(path: seq<Component>) returns (out: seq<string>)
    ensures out == Clamp(path)
  {
    out := [];
    var k := 0;
    while k < |path|
      invariant k <= |path| && Clamp(path[..k]) == out
    {
      assert path[..k + 1][..k] == path[..k];
      match path[k] {
        case CurDir =>
        case ParentDir => out := if out == [] then out else out[..|out| - 1];
        case Normal(s) => out := out + [s];
      }
      k := k + 1;
    }
    assert path[..k] == path;
  }

  lemma {:induction false} RefusalStays(path: seq<Component>, n: nat)
    requires n <= |path| && Collapse(path[..n]).None?
    ensures Collapse(path).None?
    decreases |path|
  {
    if n == |path| {
      assert path[..n] == path;
    } else {
      assert path[..|path| - 1][..n] == path[..n];
      RefusalStays(path[..|path| - 1], n);
    }
  }

  /** A path is accepted exactly when it never climbs above the root, and then what is left
      has as many names as the balance says. */
  lemma {:induction false} AcceptedIff(path: seq<Component>)
    ensures Collapse(path).Some? <==> StaysBelowRoot(path)
    ensures Collapse(path).Some? ==> |Collapse(path).value| == Depth(path)
  {
    if path == [] {
    } else {
      var front := path[..|path| - 1];
      AcceptedIff(front);
      assert forall n :: 0 <= n <= |front| ==> path[..n] == front[..n];
      assert path[..|path|] == path;
      assert front[..|front|] == front;
      if StaysBelowRoot(path) {
        assert StaysBelowRoot(front);
        assert Depth(path[..|path|]) >= 0;
      }
    }
  }

  /** The clamping version agrees with the refusing one wherever that one succeeds. */
  lemma {:induction false} ClampAgrees(path: seq<Component>)
    ensures Collapse(path).Some? ==> Clamp(path) == Collapse(path).value
  {
    if path != [] {
      ClampAgrees(path[..|path| - 1]);
    }
  }

  /** Collapsing a prefix first changes nothing. */
  lemma {:induction false} CollapsePrefixFirst(a: seq<Component>, b: seq<Component>)
    requires Collapse(a).Some?
    ensures Collapse(Names(Collapse(a).value) + b) == Collapse(a + b)
    decreases |b|
  {
    var names := Names(Collapse(a).value);
    if b == [] {
      assert names + b == names && a + b == a;
      NamesCollapse(Collapse(a).value);
    } else {
      var front := b[..|b| - 1];
      assert (names + b)[..|names + b| - 1] == names + front;
      assert (a + b)[..|a + b| - 1] == a + front;
      CollapsePrefixFirst(a, front);
    }
  }

  lemma {:induction false} ClampPrefixFirst(a: seq<Component>, b: seq<Component>)
    ensures Clamp(Names(Clamp(a)) + b) == Clamp(a + b)
    decreases |b|
  {
    var names := Names(Clamp(a));
    if b == [] {
      assert names + b == names && a + b == a;
      NamesCollapse(Clamp(a));
      ClampAgrees(names);
    } else {
      var front := b[..|b| - 1];
      assert (names + b)[..|names + b| - 1] == names + front;
      assert (a + b)[..|a + b| - 1] == a + front;
      ClampPrefixFirst(a, front);
    }
  }

  /** A path of names only is its own result, so both functions are idempotent. */
  lemma {:induction false} NamesCollapse(segments: seq<string>)
    ensures Collapse(Names(segments)) == Some(segments)
  {
    if segments != [] {
      var front := segments[..|segments| - 1];
      assert Names(segments)[..|segments| - 1] == Names(front);
      NamesCollapse(front);
      assert front + [segments[|segments| - 1]] == segments;
    }
  }

  /** Paths that lead to the same place still do so after the same step. */
  ghost predicate SameEnd(a: seq<Component>, b: seq<Component>) {
    Collapse(a) == Collapse(b) && Clamp(a) == Clamp(b)
  }

  lemma SameStep(a: seq<Component>, b: seq<Component>, step: Component)
    requires SameEnd(a, b)
    ensures SameEnd(a + [step], b + [step])
  {
    assert (a + [step])[..|a|] == a && (b + [step])[..|b|] == b;
  }

  lemma LastStep(a: seq<Component>, b: seq<Component>)
    requires b != []
    ensures a + b == a + b[..|b| - 1] + [b[|b| - 1]]
  {
  }

  lemma {:induction false} SameSteps(a: seq<Component>, b: seq<Component>, steps: seq<Component>)
    requires SameEnd(a, b)
    ensures SameEnd(a + steps, b + steps)
    decreases |steps|
  {
    if steps == [] {
      assert a + steps == a && b + steps == b;
    } else {
      var front, step := steps[..|steps| - 1], steps[|steps| - 1];
      SameSteps(a, b, front);
      LastStep(a, steps);
      LastStep(b, steps);
      SameStep(a + front, b + front, step);
    }
  }

  lemma BackAgain(a: seq<Component>, name: string)
    ensures SameEnd(a + [Normal(name), ParentDir], a)
  {
    var there := a + [Normal(name)];
    assert there[..|a|] == a && (a + [Normal(name), ParentDir])[..|there|] == there;
  }

  /** A name and the parent step behind it cancel, anywhere in a path. */
  lemma ParentCancelsName(a: seq<Component>, name: string, b: seq<Component>)
    ensures Collapse(a + [Normal(name), ParentDir] + b) == Collapse(a + b)
    ensures Clamp(a + [Normal(name), ParentDir] + b) == Clamp(a + b)
  {
    BackAgain(a, name);
    SameSteps(a + [Normal(name), ParentDir], a, b);
  }

  // ---------------------------------------------------------------- which names are left

  /** What stands behind a name has no prefix with more parent steps than names. */
  ghost predicate Survives(path: seq<Component>, i: nat)
    requires i < |path|
  {
    path[i].Normal? && StaysBelowRoot(path[i + 1..])
  }

  /** `picks` are positions of names in the path, in order, and `out` the names there. */
  ghost predicate Picks(path: seq<Component>, out: seq<string>, picks: seq<nat>) {
    && |picks| == |out|
    && (forall i :: 0 <= i < |picks| ==> picks[i] < |path| && path[picks[i]] == Normal(out[i]))
    && (forall i, j :: 0 <= i < j < |picks| ==> picks[i] < picks[j])
  }

  /** What stands behind a pick leads as far down as there are later picks. */
  ghost predicate Balanced(path: seq<Component>, picks: seq<nat>) {
    forall j :: 0 <= j < |picks| ==> picks[j] < |path| && Depth(path[picks[j] + 1..]) == |picks| - 1 - j
  }

  ghost predicate Survivors(path: seq<Component>, picks: seq<nat>) {
    forall i: nat :: i < |path| ==> (i in picks <==> Survives(path, i))
  }

  /** One component more, behind every position there was. */
  lemma Behind(path: seq<Component>, i: nat)
    requires i < |path| - 1
    ensures var front, step := path[..|path| - 1], Depth([path[|path| - 1]]);
            && Depth(path[i + 1..]) == Depth(front[i + 1..]) + step
            && (Survives(path, i) <==> Survives(front, i) && Depth(front[i + 1..]) + step >= 0)
  {
    var rest, front := path[i + 1..], path[..|path| - 1][i + 1..];
    var last := path[|path| - 1];
    assert rest[..|rest| - 1] == front && [last][..0] == [];
    assert rest[..|rest|] == rest && front[..|front|] == front;
    assert forall n :: 0 <= n <= |front| ==> rest[..n] == front[..n];
    if StaysBelowRoot(rest) {
      assert Depth(rest[..|rest|]) >= 0;
      assert StaysBelowRoot(front);
    }
    if StaysBelowRoot(front) {
      assert Depth(front[..|front|]) >= 0;
    }
  }

  /** What a step makes of the positions picked before it. */
  function Repick(last: Component, at: nat, picks: seq<nat>): seq<nat> {
    match last
    case CurDir => picks
    case ParentDir => if picks == [] then picks else picks[..|picks| - 1]
    case Normal(_) => picks + [at]
  }

  lemma RepickPicks(path: seq<Component>, out: seq<string>, before: seq<nat>)
    requires path != [] && out == Clamp(path[..|path| - 1]) && Picks(path[..|path| - 1], out, before)
    ensures Picks(path, Clamp(path), Repick(path[|path| - 1], |path| - 1, before))
  {
    PicksExtend(path, out, before);
    match path[|path| - 1]
    case CurDir =>
    case ParentDir => PicksPop(path, out, before);
    case Normal(s) => PicksPush(path, out, before);
  }

  lemma PicksExtend(path: seq<Component>, out: seq<string>, picks: seq<nat>)
    requires path != [] && Picks(path[..|path| - 1], out, picks)
    ensures Picks(path, out, picks)
    ensures forall i :: 0 <= i < |picks| ==> picks[i] < |path| - 1
  {
  }

  lemma PicksPop(path: seq<Component>, out: seq<string>, picks: seq<nat>)
    requires Picks(path, out, picks)
    ensures out != [] ==> Picks(path, out[..|out| - 1], picks[..|picks| - 1])
  {
  }

  lemma PicksPush(path: seq<Component>, out: seq<string>, picks: seq<nat>)
    requires path != [] && path[|path| - 1].Normal? && Picks(path, out, picks)
    requires forall i :: 0 <= i < |picks| ==> picks[i] < |path| - 1
    ensures Picks(path, out + [path[|path| - 1].segment], picks + [|path| - 1])
  {
  }

  lemma RepickBalanced(path: seq<Component>, before: seq<nat>)
    requires path != [] && Balanced(path[..|path| - 1], before)
    ensures Balanced(path, Repick(path[|path| - 1], |path| - 1, before))
  {
    var picks := Repick(path[|path| - 1], |path| - 1, before);
    forall j | 0 <= j < |picks|
      ensures picks[j] < |path| && Depth(path[picks[j] + 1..]) == |picks| - 1 - j
    {
      if j < |before| {
        assert picks[j] == before[j];
        Behind(path, before[j]);
      }
    }
  }

  lemma RepickSurvivors(path: seq<Component>, before: seq<nat>)
    requires path != [] && Balanced(path[..|path| - 1], before) && Survivors(path[..|path| - 1], before)
    requires forall i, j :: 0 <= i < j < |before| ==> before[i] < before[j]
    ensures Survivors(path, Repick(path[|path| - 1], |path| - 1, before))
  {
    var picks := Repick(path[|path| - 1], |path| - 1, before);
    forall i: nat | i < |path|
      ensures i in picks <==> Survives(path, i)
    {
      if i < |path| - 1 {
        Behind(path, i);
        if i in before {
          var j :| 0 <= j < |before| && before[j] == i;
          assert j < |picks| ==> picks[j] == i;
        }
      }
    }
  }

  /** The names of the result are exactly the names that survive, as they were written and in
      their order: a parent step takes away the nearest name before it that is still there. */
  lemma {:induction false} NamesThatSurvive(path: seq<Component>) returns (picks: seq<nat>)
    ensures Picks(path, Clamp(path), picks) && Balanced(path, picks) && Survivors(path, picks)
  {
    picks := [];
    if path != [] {
      var front := path[..|path| - 1];
      var before := NamesThatSurvive(front);
      RepickPicks(path, Clamp(front), before);
      RepickBalanced(path, before);
      RepickSurvivors(path, before);
      picks := Repick(path[|path| - 1], |path| - 1, before);
    }
  }
}

/** What the update protocol promises in every reachable state, and how far: what `init`, which
    saves without the lock, can do to it, and exactly when every run keeps every update. */
module ProtocolProperties {
  import opened Text
  import opened Protocol

  /** At most one live call is inside the lock. */
  lemma MutualExclusion<D>(r: Rules<D>, file: Option<Content<D>>, steps: seq<Step<D>>, s: State<D>, a: CallId, b: CallId)
    requires r.valid(r.empty) && After(r, file, steps) == Some(s)
    requires a in s.calls && b in s.calls && InLock(s.calls[a]) && InLock(s.calls[b])
    ensures a == b
  {
    Invariant(r, file, steps);
  }

  /** Whoever reads the registry, at any moment, finds what was there at the start or one
      whole valid document: never a part of one, whatever writers and crashes did. */
  lemma ReadersSeeWholeDocuments<D>(r: Rules<D>, file: Option<Content<D>>, steps: seq<Step<D>>, s: State<D>)
    requires r.valid(r.empty) && After(r, file, steps) == Some(s)
    ensures s.file == file || (s.file.Some? && s.file.value.Whole? && r.valid(s.file.value.doc))
  {
    Invariant(r, file, steps);
  }

  /** No two unfinished saves share a temporary file, even when one of them is an `init`
      outside the lock and process ids are used again after crashes. */
  lemma TempsNeverShared<D>(r: Rules<D>, file: Option<Content<D>>, steps: seq<Step<D>>, s: State<D>, a: CallId, b: CallId)
    requires r.valid(r.empty) && After(r, file, steps) == Some(s)
    requires a in s.calls && b in s.calls && HasTemp(s.calls[a].phase) && HasTemp(s.calls[b].phase) && a != b
    ensures s.calls[a].phase.temp != s.calls[b].phase.temp
  {
    Invariant(r, file, steps);
  }

  /** What the registry holds, in every reachable state: the document it grew from, with every
      update since applied in the order of the renames. After an `init` was renamed over it,
      exactly the updates before that are gone; they come back if an update that had read the
      registry before is renamed after. */
  lemma RegistryIsGrown<D>(r: Rules<D>, file: Option<Content<D>>, steps: seq<Step<D>>, s: State<D>)
    requires r.valid(r.empty) && After(r, file, steps) == Some(s)
    ensures Within(s.origin, |s.log|) && forall id :: id in s.log ==> id in s.calls && s.calls[id].job.Update?
    ensures Load(r, s.file) == Grown(r, file, s.origin, s.calls, s.log)
    ensures s.log != [] ==> s.file.Some? && s.file.value.Whole? && Some(s.file.value.doc) == Load(r, s.file)
  {
    Invariant(r, file, steps);
  }

  /** The registry is the initial document with every update of the log applied. */
  ghost predicate KeepsAll<D>(r: Rules<D>, file: Option<Content<D>>, s: State<D>) {
    && (forall id :: id in s.log ==> id in s.calls && s.calls[id].job.Update?)
    && Load(r, s.file) == Folded(r, Load(r, file), s.calls, s.log)
  }

  /** No update is lost in any run that starts with a registry, whatever `init` calls are in
      it, nor in any run without `init`. */
  lemma NoUpdateLost<D>(r: Rules<D>, file: Option<Content<D>>, steps: seq<Step<D>>, s: State<D>)
    requires r.valid(r.empty) && After(r, file, steps) == Some(s)
    requires file.Some? || forall id :: id in s.calls ==> s.calls[id].job.Update?
    ensures KeepsAll(r, file, s)
  {
    RegistryIsGrown(r, file, steps, s);
    NoResets(r, file, steps, s);
  }

  /** No `init` is about to write. */
  ghost predicate InitsIdle<D>(s: State<D>) {
    forall id :: id in s.calls && s.calls[id].job.Init? ==> !HasDoc(s.calls[id].phase)
  }

  lemma {:induction false} NoResets<D>(r: Rules<D>, file: Option<Content<D>>, steps: seq<Step<D>>, t: State<D>)
    requires After(r, file, steps) == Some(t)
    requires file.Some? || forall id :: id in t.calls ==> t.calls[id].job.Update?
    ensures t.origin == t.held == Initial && InitsIdle(t) && (file.Some? ==> t.file.Some?)
    decreases |steps|
  {
    if steps != [] {
      var front, step := steps[..|steps| - 1], steps[|steps| - 1];
      var s := After(r, file, front).value;
      if file.None? {
        forall id | id in s.calls
          ensures s.calls[id].job.Update?
        {
          assert t.calls[id].job == s.calls[id].job;
        }
      }
      NoResets(r, file, front, s);
      IdleStep(r, s, step);
    }
  }

  lemma IdleStep<D>(r: Rules<D>, s: State<D>, step: Step<D>)
    requires Enabled(r, s, step) && InitsIdle(s) && s.origin == s.held == Initial
    requires s.file.Some? || forall id :: id in s.calls ==> s.calls[id].job.Update?
    ensures var t := Do(r, s, step); t.origin == t.held == Initial && InitsIdle(t) && (s.file.Some? ==> t.file.Some?)
  {
  }

  /** The registry is there and the call, if it is an `init`, has not begun or only looked. */
  ghost predicate LooksOnly<D>(s: State<D>, id: CallId) {
    && s.file.Some?
    && (id in s.calls && s.calls[id].job.Init? ==>
          s.calls[id].phase.Waiting? || s.calls[id].phase.Returned? || s.calls[id].phase.Dead?)
  }

  lemma LooksStep<D>(r: Rules<D>, s: State<D>, step: Step<D>, id: CallId)
    requires Enabled(r, s, step) && LooksOnly(s, id)
    ensures LooksOnly(Do(r, s, step), id)
  {
  }

  /** An existing registry is never overwritten: an `init` that has not looked before the
      registry is there never gets as far as a temporary file, let alone a rename. */
  lemma {:induction false} InitNeverWrites<D>(r: Rules<D>, file: Option<Content<D>>, before: seq<Step<D>>, s: State<D>, more: seq<Step<D>>, t: State<D>, id: CallId)
    requires After(r, file, before) == Some(s) && LooksOnly(s, id) && After(r, file, before + more) == Some(t)
    ensures LooksOnly(t, id)
    decreases |more|
  {
    if more == [] {
      assert before + more == before;
    } else {
      var front, step := more[..|more| - 1], more[|more| - 1];
      assert (before + more)[..|before + more| - 1] == before + front;
      var u := After(r, file, before + front).value;
      InitNeverWrites(r, file, before, s, front, u, id);
      LooksStep(r, u, step, id);
    }
  }

  /** An update that reported success is in the log exactly once; one that reported failure
      is not in it at all. */
  lemma ExactlyOnce<D>(r: Rules<D>, file: Option<Content<D>>, steps: seq<Step<D>>, s: State<D>, id: CallId)
    requires r.valid(r.empty) && After(r, file, steps) == Some(s) && id in s.calls && s.calls[id].job.Update?
    ensures s.calls[id].phase == Returned(true) ==> multiset(s.log)[id] == 1
    ensures s.calls[id].phase == Returned(false) ==> multiset(s.log)[id] == 0
  {
    Invariant(r, file, steps);
    CountOnce(s.log, id);
  }

  lemma {:induction false} CountOnce(log: seq<CallId>, id: CallId)
    requires forall i, j :: 0 <= i < j < |log| ==> log[i] != log[j]
    ensures multiset(log)[id] == if id in log then 1 else 0
  {
    if log != [] {
      CountOnce(log[1..], id);
      assert log == [log[0]] + log[1..];
      assert log[0] !in log[1..];
    }
  }

  // ---------------------------------------------------------------- the unlocked save

  lemma {:induction false} RunOn<D>(r: Rules<D>, file: Option<Content<D>>, steps: seq<Step<D>>, step: Step<D>, s: State<D>)
    requires After(r, file, steps) == Some(s) && Enabled(r, s, step)
    ensures After(r, file, steps + [step]) == Some(Do(r, s, step))
  {
    assert (steps + [step])[..|steps + [step]| - 1] == steps;
  }

  /** A save by `init`, ready to be renamed. */
  function PreparedInit<D>(r: Rules<D>): State<D> {
    State(None, None, map[Temp(0, 0) := Whole(r.empty)], map[0 := 1],
          map[0 := Call(0, Init, Flushed(r.empty, Temp(0, 0)))], [], Initial, Initial)
  }

  lemma InitChecks<D>(r: Rules<D>) returns (steps: seq<Step<D>>)
    ensures After(r, None, steps) == Some(State(None, None, map[], map[0 := 0], map[0 := Call(0, Init, Saving(r.empty))], [], Initial, Initial))
  {
    var s := Start<D>(None);
    steps := [];
    steps, s := Take(r, None, steps, s, Spawn(0));
    steps, s := Take(r, None, steps, s, Begin(0, 0, Init));
    steps, s := Take(r, None, steps, s, CheckInit(0));
    assert s.calls == map[0 := Call(0, Init, Saving(r.empty))];
    assert s.counters == map[0 := 0];
  }

  lemma InitPrepares<D>(r: Rules<D>) returns (steps: seq<Step<D>>)
    ensures After(r, None, steps) == Some(PreparedInit(r))
  {
    steps := InitChecks(r);
    var s := After(r, None, steps).value;
    steps, s := Take(r, None, steps, s, CreateTemp(0));
    assert s.counters == map[0 := 1];
    assert s.calls == map[0 := Call(0, Init, Writing(r.empty, Temp(0, 0)))];
    steps, s := Take(r, None, steps, s, Flush(0));
    assert s.calls == PreparedInit(r).calls;
    assert s.temps == PreparedInit(r).temps;
  }

  /** What a readable registry stands for: a missing or a blank one is the empty document. */
  ghost predicate Stands<D>(r: Rules<D>, file: Option<Content<D>>, doc: D) {
    if file == None || file == Some(Blank) then doc == r.empty else file == Some(Whole(doc)) && r.valid(doc)
  }

  /** An update alone in the lock, from its first step to its success. */
  lemma UpdateCompletes<D>(r: Rules<D>, file: Option<Content<D>>, before: seq<Step<D>>, start: State<D>, edit: D -> Option<D>, base: D, d: D) returns (steps: seq<Step<D>>, s: State<D>)
    requires After(r, file, before) == Some(start) && start.lock.None? && Stands(r, start.file, base)
    requires 1 !in start.calls && 0 in start.counters && edit(base) == Some(d) && r.valid(d)
    ensures After(r, file, steps) == Some(s)
    ensures s.file == Some(Whole(d)) && s.log == start.log + [1]
    ensures s.calls == start.calls[1 := Call(0, Update(edit), Returned(true))]
    ensures forall t :: t in start.temps && t != Temp(0, start.counters[0]) ==> t in s.temps && s.temps[t] == start.temps[t]
  {
    steps, s := UpdateEdits(r, file, before, start, edit, base, d);
    var mid := s;
    steps, s := Take(r, file, steps, s, CreateTemp(1));
    assert s.calls == mid.calls[1 := s.calls[1]];
    steps, s := UpdateSaves(r, file, steps, s, start.counters[0]);
  }

  lemma UpdateEdits<D>(r: Rules<D>, file: Option<Content<D>>, before: seq<Step<D>>, start: State<D>, edit: D -> Option<D>, base: D, d: D) returns (steps: seq<Step<D>>, s: State<D>)
    requires After(r, file, before) == Some(start) && start.lock.None? && Stands(r, start.file, base)
    requires 1 !in start.calls && 0 in start.counters && edit(base) == Some(d) && r.valid(d)
    ensures After(r, file, steps) == Some(s)
    ensures s == start.(lock := Some(1), held := start.origin, calls := start.calls[1 := Call(0, Update(edit), Saving(d))])
  {
    steps, s := UpdateReads(r, file, before, start, edit, base);
    steps, s := Take(r, file, steps, s, EditDocument(1));
    assert s.calls == start.calls[1 := Call(0, Update(edit), Saving(d))];
  }

  lemma UpdateReads<D>(r: Rules<D>, file: Option<Content<D>>, before: seq<Step<D>>, start: State<D>, edit: D -> Option<D>, base: D) returns (steps: seq<Step<D>>, s: State<D>)
    requires After(r, file, before) == Some(start) && start.lock.None? && Stands(r, start.file, base)
    requires 1 !in start.calls && 0 in start.counters
    ensures After(r, file, steps) == Some(s)
    ensures s == start.(lock := Some(1), held := start.origin, calls := start.calls[1 := Call(0, Update(edit), Loaded(base))])
  {
    steps, s := UpdateLocks(r, file, before, start, edit);
    steps, s := Take(r, file, steps, s, Read(1));
    assert s.calls == start.calls[1 := Call(0, Update(edit), Loaded(base))];
  }

  lemma UpdateLocks<D>(r: Rules<D>, file: Option<Content<D>>, before: seq<Step<D>>, start: State<D>, edit: D -> Option<D>) returns (steps: seq<Step<D>>, s: State<D>)
    requires After(r, file, before) == Some(start) && start.lock.None? && 1 !in start.calls && 0 in start.counters
    ensures After(r, file, steps) == Some(s)
    ensures s == start.(lock := Some(1), calls := start.calls[1 := Call(0, Update(edit), Holding)])
  {
    steps, s := before, start;
    steps, s := Take(r, file, steps, s, Begin(1, 0, Update(edit)));
    steps, s := Take(r, file, steps, s, Acquire(1));
    assert s.calls == start.calls[1 := Call(0, Update(edit), Holding)];
  }

  lemma UpdateSaves<D>(r: Rules<D>, file: Option<Content<D>>, before: seq<Step<D>>, start: State<D>, n: nat) returns (steps: seq<Step<D>>, s: State<D>)
    requires After(r, file, before) == Some(start) && 1 in start.calls && start.calls[1].job.Update?
    requires start.calls[1].phase.Writing? && start.calls[1].phase.temp == Temp(0, n)
    ensures After(r, file, steps) == Some(s)
    ensures s.file == Some(Whole(start.calls[1].phase.doc)) && s.log == start.log + [1]
    ensures s.calls == start.calls[1 := start.calls[1].(phase := Returned(true))]
    ensures s.temps == start.temps - {Temp(0, n)}
  {
    steps, s := before, start;
    steps, s := Take(r, file, steps, s, Flush(1));
    steps, s := Take(r, file, steps, s, Rename(1));
    steps, s := Take(r, file, steps, s, Return(1, true));
  }

  /** With `init` at work updates can be lost: it looks for a registry and finds none, an update
      then reports success, and the rename of `init` throws its document away. */
  lemma InitCanLoseAnUpdate<D>(r: Rules<D>, edit: D -> Option<D>) returns (steps: seq<Step<D>>)
    requires Edited(r, edit, r.empty).Some?
    ensures After(r, None, steps).Some?
    ensures var s := After(r, None, steps).value;
            && s.origin == Reset(1) && s.file == Some(Whole(r.empty))
            && 1 in s.calls && s.calls[1] == Call(0, Update(edit), Returned(true)) && s.log == [1]
  {
    var s := PreparedInit(r);
    steps := InitPrepares(r);
    steps, s := UpdateCompletes(r, None, steps, s, edit, r.empty, Edited(r, edit, r.empty).value);
    assert s.calls[0] == PreparedInit(r).calls[0];
    steps, s := Take(r, None, steps, s, Rename(0));
  }

  lemma Take<D>(r: Rules<D>, file: Option<Content<D>>, steps: seq<Step<D>>, s: State<D>, step: Step<D>) returns (more: seq<Step<D>>, t: State<D>)
    requires After(r, file, steps) == Some(s) && Enabled(r, s, step)
    ensures more == steps + [step] && t == Do(r, s, step) && After(r, file, more) == Some(t)
  {
    more, t := steps + [step], Do(r, s, step);
    RunOn(r, file, steps, step, s);
  }

  /** Every run keeps every update exactly if the registry is there at the start. The edit
      stands for any that does something to the empty document. */
  lemma KeepsAllIff<D(!new)>(r: Rules<D>, file: Option<Content<D>>, edit: D -> Option<D>)
    requires r.valid(r.empty) && Edited(r, edit, r.empty).Some? && Edited(r, edit, r.empty).value != r.empty
    ensures (forall steps :: After(r, file, steps).Some? ==> KeepsAll(r, file, After(r, file, steps).value)) <==> file.Some?
  {
    if file.Some? {
      forall steps | After(r, file, steps).Some?
        ensures KeepsAll(r, file, After(r, file, steps).value)
      {
        NoUpdateLost(r, file, steps, After(r, file, steps).value);
      }
    } else {
      var steps := InitCanLoseAnUpdate(r, edit);
      var s := After(r, None, steps).value;
      assert s.log[..0] == [];
      assert Folded(r, Load(r, file), s.calls, s.log) == Edited(r, edit, r.empty);
      assert Load(r, s.file) == Some(r.empty);
    }
  }
}

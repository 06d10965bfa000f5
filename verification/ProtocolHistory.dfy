/** The registry over a whole run, document by document: what the first update starts from, what
    each one makes of the last, and a registry that cannot be read, which nothing touches. */
module ProtocolHistory {
  import opened Text
  import opened Protocol
  import opened ProtocolProperties

  /** The contents that can be read. */
  predicate Readable<D>(r: Rules<D>, file: Option<Content<D>>) {
    file == None || file == Some(Blank) || (file.value.Whole? && r.valid(file.value.doc))
  }

  // ---------------------------------------------------------------- a registry that cannot be read

  predicate GotNowhere<D>(p: Phase<D>) {
    p.Waiting? || p.Holding? || p.Failing? || p == Returned(false) || p.Dead?
  }

  /** A registry that holds no valid document is left as it is by every run of updates and
      `init` calls, and none of them reports success. */
  lemma {:induction false} UnreadableKept<D>(r: Rules<D>, file: Option<Content<D>>, steps: seq<Step<D>>, s: State<D>)
    requires !Readable(r, file) && After(r, file, steps) == Some(s)
    ensures s.file == file && s.log == []
    ensures forall id :: id in s.calls ==> GotNowhere(s.calls[id].phase)
    decreases |steps|
  {
    if steps != [] {
      var front, step := steps[..|steps| - 1], steps[|steps| - 1];
      var before := After(r, file, front).value;
      UnreadableKept(r, file, front, before);
      StuckStep(r, before, step);
    }
  }

  ghost predicate Stuck<D>(r: Rules<D>, s: State<D>) {
    !Readable(r, s.file) && s.log == [] && forall id :: id in s.calls ==> GotNowhere(s.calls[id].phase)
  }

  lemma StuckStep<D>(r: Rules<D>, s: State<D>, step: Step<D>)
    requires Stuck(r, s) && Enabled(r, s, step)
    ensures Stuck(r, Do(r, s, step)) && Do(r, s, step).file == s.file
  {
  }

  // ---------------------------------------------------------------- one document after the other

  /** The update `id` turns a document into another, which is valid. */
  ghost predicate Turns<D>(r: Rules<D>, calls: map<CallId, Call<D>>, id: CallId, before: D, after: D) {
    id in calls && calls[id].job.Update? && calls[id].job.edit(before) == Some(after) && r.valid(after)
  }

  /** Each update of the log turned the document before it into the next. */
  ghost predicate IsHistory<D>(r: Rules<D>, calls: map<CallId, Call<D>>, log: seq<CallId>, docs: seq<D>) {
    |docs| == |log| + 1 && forall i :: 0 <= i < |log| ==> Turns(r, calls, log[i], docs[i], docs[i + 1])
  }

  /** The documents a log folds through. */
  lemma {:induction false} FoldedHistory<D>(r: Rules<D>, base: D, calls: map<CallId, Call<D>>, log: seq<CallId>) returns (docs: seq<D>)
    requires forall id :: id in log ==> id in calls && calls[id].job.Update?
    requires Folded(r, Some(base), calls, log).Some?
    ensures IsHistory(r, calls, log, docs) && docs[0] == base && Folded(r, Some(base), calls, log) == Some(docs[|log|])
    decreases |log|
  {
    if log == [] {
      docs := [base];
    } else {
      var front := log[..|log| - 1];
      docs := FoldedHistory(r, base, calls, front);
      docs := docs + [Folded(r, Some(base), calls, log).value];
    }
  }

  /** Whenever the registry can be read at the start and is there, or no `init` comes in
      between, it goes through a history: from the document it stood for at the start, through
      what each update in turn made of the one before, to the one that is there now. */
  lemma RegistryHistory<D>(r: Rules<D>, file: Option<Content<D>>, steps: seq<Step<D>>, s: State<D>, base: D) returns (docs: seq<D>)
    requires r.valid(r.empty) && After(r, file, steps) == Some(s) && Stands(r, file, base)
    requires file.Some? || forall id :: id in s.calls ==> s.calls[id].job.Update?
    ensures IsHistory(r, s.calls, s.log, docs) && docs[0] == base
    ensures s.log != [] ==> s.file == Some(Whole(docs[|s.log|]))
    ensures s.log == [] ==> s.file == file || s.file == Some(Whole(base))
  {
    NoUpdateLost(r, file, steps, s);
    RegistryIsGrown(r, file, steps, s);
    Invariant(r, file, steps);
    docs := FoldedHistory(r, base, s.calls, s.log);
  }

  // ---------------------------------------------------------------- what the first update finds

  /** A run of updates in which one with this edit is the only one to have been renamed, and
      has reported success, with `d` in the file. */
  ghost predicate FirstUpdate<D>(r: Rules<D>, file: Option<Content<D>>, edit: D -> Option<D>, d: D, steps: seq<Step<D>>) {
    var s := After(r, file, steps);
    && s.Some? && |s.value.log| == 1 && s.value.file == Some(Whole(d))
    && (forall id :: id in s.value.calls ==> s.value.calls[id].job.Update?)
    && var id := s.value.log[0];
       id in s.value.calls && s.value.calls[id].job == Update(edit) && s.value.calls[id].phase == Returned(true)
  }

  /** An update can be the first to succeed exactly if the registry can be read and its edit
      makes a valid document of what it stands for. */
  lemma FirstUpdateIff<D(!new)>(r: Rules<D>, file: Option<Content<D>>, edit: D -> Option<D>, d: D)
    requires r.valid(r.empty)
    ensures (exists steps :: FirstUpdate(r, file, edit, d, steps))
      <==> exists base :: Stands(r, file, base) && edit(base) == Some(d) && r.valid(d)
  {
    if steps :| FirstUpdate(r, file, edit, d, steps) {
      var s := After(r, file, steps).value;
      if !Readable(r, file) {
        UnreadableKept(r, file, steps, s);
      } else {
        var base := if file == None || file == Some(Blank) then r.empty else file.value.doc;
        var docs := RegistryHistory(r, file, steps, s, base);
        assert edit(docs[0]) == Some(docs[1]);
      }
    }
    if base :| Stands(r, file, base) && edit(base) == Some(d) && r.valid(d) {
      var steps, s := Take(r, file, [], Start(file), Spawn(0));
      steps, s := UpdateCompletes(r, file, steps, s, edit, base, d);
      assert FirstUpdate(r, file, edit, d, steps);
    }
  }

  // ---------------------------------------------------------------- who holds the lock

  /** The lock file is there only for a call that is inside the lock or died there. */
  ghost predicate LockAccounted<D>(s: State<D>) {
    s.lock.Some? ==> s.lock.value in s.calls && (InLock(s.calls[s.lock.value]) || s.calls[s.lock.value].phase.Dead?)
  }

  lemma LockAccountedStep<D>(r: Rules<D>, s: State<D>, step: Step<D>)
    requires Enabled(r, s, step) && LockInv(s) && LockAccounted(s) && (step.Return? ==> step.lockRemoved)
    ensures LockAccounted(Do(r, s, step))
  {
  }

  /** A call that returns gives the lock back, whether it succeeded or not: as long as removing
      the lock file does not fail, only a crash can leave one behind. */
  lemma {:induction false} LockGivenBack<D>(r: Rules<D>, file: Option<Content<D>>, steps: seq<Step<D>>, s: State<D>)
    requires r.valid(r.empty) && After(r, file, steps) == Some(s)
    requires forall i :: 0 <= i < |steps| && steps[i].Return? ==> steps[i].lockRemoved
    ensures LockAccounted(s)
    decreases |steps|
  {
    if steps != [] {
      var front, step := steps[..|steps| - 1], steps[|steps| - 1];
      var before := After(r, file, front).value;
      assert forall i :: 0 <= i < |front| ==> front[i] == steps[i];
      Invariant(r, file, front);
      LockGivenBack(r, file, front, before);
      LockAccountedStep(r, before, step);
    }
  }

  // ---------------------------------------------------------------- what `init` answers

  /** An `init` that looks at a registry answers whether it can be read, and touches nothing. */
  lemma InitLooks<D>(r: Rules<D>, s: State<D>, id: CallId)
    requires Enabled(r, s, CheckInit(id)) && s.file.Some?
    ensures var t := Do(r, s, CheckInit(id));
      && t.calls[id].phase == Returned(Readable(r, s.file))
      && t.file == s.file && t.temps == s.temps && t.lock == s.lock
  {
  }

  predicate Succeeded<D>(s: State<D>, id: CallId) {
    id in s.calls && s.calls[id].job.Init? && (s.calls[id].phase == Returned(true) || s.calls[id].phase.Committed?)
  }

  lemma SuccessStep<D>(r: Rules<D>, s: State<D>, step: Step<D>, id: CallId)
    requires Enabled(r, s, step) && Succeeded(Do(r, s, step), id) && !Succeeded(s, id)
    ensures step == CheckInit(id) || step == Rename(id)
    ensures step.CheckInit? ==> s.file.Some? && Readable(r, s.file)
  {
  }

  lemma FileStays<D>(r: Rules<D>, file: Option<Content<D>>, s: State<D>, step: Step<D>)
    requires Enabled(r, s, step) && TempInv(r, s) && FileInv(r, file, s)
    requires step.Rename? || (s.file.Some? && Readable(r, s.file))
    ensures var t := Do(r, s, step); t.file.Some? && Readable(r, t.file)
  {
  }

  /** An `init` that has reported success leaves a registry that can be read, in every run. */
  lemma {:induction false} InitSucceeds<D>(r: Rules<D>, file: Option<Content<D>>, steps: seq<Step<D>>, s: State<D>, id: CallId)
    requires r.valid(r.empty) && After(r, file, steps) == Some(s) && Succeeded(s, id)
    ensures s.file.Some? && Readable(r, s.file)
    decreases |steps|
  {
    var front, step := steps[..|steps| - 1], steps[|steps| - 1];
    var before := After(r, file, front).value;
    Invariant(r, file, front);
    if Succeeded(before, id) {
      InitSucceeds(r, file, front, before, id);
    } else {
      SuccessStep(r, before, step, id);
    }
    FileStays(r, file, before, step);
  }
}

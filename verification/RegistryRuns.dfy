/** The update protocol carrying the router's own documents and commands. */
module RegistryRuns {
  import opened Text
  import opened Protocol
  import R = Registry

  /** The rules `Registry::load` and `Registry::save` apply. */
  const RULES: Rules<R.Document> := Rules(doc => R.Consistent(doc), R.EMPTY)

  function JobOf(cmd: R.Command): Job<R.Document> {
    Update(doc => R.ApplyCommand(cmd, doc))
  }

  /** Every update that has begun is one of the router's commands. */
  ghost predicate OnlyCommands(s: State<R.Document>) {
    forall id :: id in s.calls && s.calls[id].job.Update? ==> exists cmd :: s.calls[id].job == JobOf(cmd)
  }

  /** In any run of `add`, `edit`, `rm` and `init` that starts without a registry, whatever is
      in the file is consistent, keeps the default base port, and uses no port below 3081. */
  lemma {:induction false} StoredRegistriesHealthy(steps: seq<Step<R.Document>>)
    requires After(RULES, None, steps).Some? && OnlyCommands(After(RULES, None, steps).value)
    ensures StoredHealthy(After(RULES, None, steps).value)
    decreases |steps|
  {
    if steps != [] {
      var front, step := steps[..|steps| - 1], steps[|steps| - 1];
      var s := After(RULES, None, front).value;
      var t := Do(RULES, s, step);
      forall id | id in s.calls && s.calls[id].job.Update?
        ensures exists cmd :: s.calls[id].job == JobOf(cmd)
      {
        assert t.calls[id].job == s.calls[id].job;
      }
      StoredRegistriesHealthy(front);
      Invariant(RULES, None, front);
      StoredStep(s, step);
    }
  }

  ghost predicate StoredHealthy(s: State<R.Document>) {
    && (s.file.None? || (s.file.value.Whole? && R.Healthy(s.file.value.doc)))
    && (forall id :: id in s.calls && s.calls[id].phase.Loaded? ==> R.Healthy(s.calls[id].phase.doc))
    && (forall id :: id in s.calls && HasDoc(s.calls[id].phase) ==> R.Healthy(s.calls[id].phase.doc))
  }

  lemma StoredStep(s: State<R.Document>, step: Step<R.Document>)
    requires Enabled(RULES, s, step) && StoredHealthy(s) && OnlyCommands(s) && FlushedWhole(s)
    ensures StoredHealthy(Do(RULES, s, step))
  {
    EmptyHealthy();
    if PlainMove(step) {
      PlainMoveFrame(RULES, s, step);
      PlainMovePhase(RULES, s, step);
      MovedHealthy(s, step);
    }
  }

  lemma EmptyHealthy()
    ensures R.Healthy(R.EMPTY)
  {
  }

  /** The document a call is left with is healthy. */
  lemma MovedHealthy(s: State<R.Document>, step: Step<R.Document>)
    requires PlainMove(step) && Enabled(RULES, s, step) && StoredHealthy(s) && OnlyCommands(s)
    ensures var p := Do(RULES, s, step).calls[step.id].phase; p.Loaded? || HasDoc(p) ==> R.Healthy(p.doc)
  {
    PlainMovePhase(RULES, s, step);
    EmptyHealthy();
    var c, p := s.calls[step.id], Do(RULES, s, step).calls[step.id].phase;
    if HasDoc(p) && c.job.Update? {
      var cmd :| c.job == JobOf(cmd);
      EditedHealthy(cmd, c.phase.doc);
    }
  }

  lemma EditedHealthy(cmd: R.Command, doc: R.Document)
    requires R.Healthy(doc) && Edited(RULES, JobOf(cmd).edit, doc).Some?
    ensures R.Healthy(Edited(RULES, JobOf(cmd).edit, doc).value)
  {
    R.EditsStayHealthy(cmd, doc);
  }

  /** The validation in `save` never refuses what `load` and a command produced, so an update
      that fails after its edit succeeded fails on I/O alone. */
  lemma SaveNeverInvalid(cmd: R.Command, file: Option<Content<R.Document>>, doc: R.Document)
    requires Load(RULES, file) == Some(doc)
    ensures Edited(RULES, JobOf(cmd).edit, doc) == R.ApplyCommand(cmd, doc)
  {
    if R.ApplyCommand(cmd, doc).Some? {
      R.EditsStayConsistent(cmd, doc);
    }
  }
}

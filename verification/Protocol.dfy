/** The registry update protocol: any number of processes, each making any number of calls,
    interleaved in any order, with crashes, timeouts and I/O failures at any point.

    An update takes the lock file, reads the document, edits and validates it, writes it to a
    temporary file of its own, renames that over the registry and removes the lock file.
    `router init` saves the empty document without taking the lock. The protocol is stated for
    any document type, any validity test and any edits, as `update_registry` is. */
module Protocol {
  import opened Text

  type CallId = nat
  type Pid = nat

  /** What a file can hold: nothing, something that is no document, or a whole document. */
  datatype Content<D> = Blank | Garbled | Whole(doc: D)

  /** `unique_temp_path`: the process id and a counter of that process. */
  datatype Temp = Temp(pid: Pid, n: nat)

  datatype Job<!D> = Update(edit: D -> Option<D>) | Init

  datatype Phase<D> =
    | Waiting
    | Holding
    | Loaded(doc: D)
    | Saving(doc: D)
    | Writing(doc: D, temp: Temp)
    | Flushed(doc: D, temp: Temp)
    | Committed
    | Failing
    | Returned(ok: bool)
    | Dead

  datatype Call<!D> = Call(pid: Pid, job: Job<D>, phase: Phase<D>)

  /** A document grows from the one that was there at the start, by all updates since; or from
      the empty one, by the updates since an `init` was renamed over the registry, which was
      when the log had `at` entries. */
  datatype Origin = Initial | Reset(at: nat)

  /** What makes a document fit to be stored, and the document a missing file stands for. */
  datatype Rules<!D> = Rules(valid: D -> bool, empty: D)

  /** `lock` and `file` are the lock file (with the call that created it) and the registry;
      `counters` has an entry for every running process. The rest is history: `log` has the
      updates in the order of their renames, `origin` tells what the document in the file grew
      from, and `held` what the document of the call inside the lock grew from. */
  datatype State<!D> = State(
    lock: Option<CallId>, file: Option<Content<D>>, temps: map<Temp, Content<D>>,
    counters: map<Pid, nat>, calls: map<CallId, Call<D>>, log: seq<CallId>, origin: Origin, held: Origin)

  datatype Step<!D> =
    | Spawn(pid: Pid)
    | Begin(id: CallId, pid: Pid, job: Job<D>)
    | Acquire(id: CallId)
    | GiveUp(id: CallId)
    | CheckInit(id: CallId)
    | Read(id: CallId)
    | EditDocument(id: CallId)
    | CreateTemp(id: CallId)
    | WritePart(id: CallId, part: Content<D>)
    | Flush(id: CallId)
    | Rename(id: CallId)
    | Fail(id: CallId, tempRemoved: bool)
    | Return(id: CallId, lockRemoved: bool)
    | Crash(pid: Pid)
    | RemoveStaleLock

  predicate Running<D>(p: Phase<D>) {
    !p.Returned? && !p.Dead?
  }

  /** The call is between creating and removing the lock file. */
  predicate InLock<D>(c: Call<D>) {
    c.job.Update? && Running(c.phase) && !c.phase.Waiting?
  }

  /** `Registry::load`: a missing or blank file is the empty document. */
  function Load<D>(r: Rules<D>, file: Option<Content<D>>): Option<D> {
    match file
    case None => Some(r.empty)
    case Some(Blank) => Some(r.empty)
    case Some(Garbled) => None
    case Some(Whole(d)) => if r.valid(d) then Some(d) else None
  }

  /** Edit and validate; `None` is an error either way. */
  function Edited<D>(r: Rules<D>, edit: D -> Option<D>, doc: D): Option<D> {
    match edit(doc)
    case None => None
    case Some(d) => if r.valid(d) then Some(d) else None
  }

  predicate At<D>(s: State<D>, id: CallId) {
    id in s.calls && Running(s.calls[id].phase)
  }

  predicate Enabled<D>(r: Rules<D>, s: State<D>, step: Step<D>) {
    match step
    case Spawn(pid) => pid !in s.counters
    case Begin(id, pid, job) => id !in s.calls && pid in s.counters
    case Acquire(id) => At(s, id) && s.calls[id].job.Update? && s.calls[id].phase.Waiting? && s.lock.None?
    case GiveUp(id) => At(s, id) && s.calls[id].phase.Waiting?
    case CheckInit(id) => At(s, id) && s.calls[id].job.Init? && s.calls[id].phase.Waiting?
    case Read(id) => At(s, id) && s.calls[id].phase.Holding? && s.calls[id].job.Update?
    case EditDocument(id) => At(s, id) && s.calls[id].phase.Loaded? && s.calls[id].job.Update?
    case CreateTemp(id) => At(s, id) && s.calls[id].phase.Saving? && s.calls[id].pid in s.counters
    case WritePart(id, part) => At(s, id) && s.calls[id].phase.Writing?
    case Flush(id) => At(s, id) && s.calls[id].phase.Writing?
    case Rename(id) => At(s, id) && s.calls[id].phase.Flushed? && s.calls[id].phase.temp in s.temps
    case Fail(id, _) => At(s, id) && !s.calls[id].phase.Waiting? && !s.calls[id].phase.Committed? && !s.calls[id].phase.Failing?
    case Return(id, _) => At(s, id) && (s.calls[id].phase.Committed? || s.calls[id].phase.Failing?)
    case Crash(pid) => pid in s.counters
    case RemoveStaleLock => s.lock.Some? && !At(s, s.lock.value)
  }

  function Move<D>(s: State<D>, id: CallId, phase: Phase<D>): State<D>
    requires id in s.calls
  {
    s.(calls := s.calls[id := s.calls[id].(phase := phase)])
  }

  function Do<D>(r: Rules<D>, s: State<D>, step: Step<D>): State<D>
    requires Enabled(r, s, step)
  {
    match step
    case Spawn(pid) => s.(counters := s.counters[pid := 0])
    case Begin(id, pid, job) => s.(calls := s.calls[id := Call(pid, job, Waiting)])
    case Acquire(id) => Move(s, id, Holding).(lock := Some(id))
    case GiveUp(id) => Move(s, id, Returned(false))
    case CheckInit(id) =>
      // An existing registry is loaded, never replaced.
      Move(s, id, if s.file.Some? then Returned(Load(r, s.file).Some?) else Saving(r.empty))
    case Read(id) =>
      Move(s, id, match Load(r, s.file) case Some(d) => Loaded(d) case None => Failing).(held := s.origin)
    case EditDocument(id) =>
      Move(s, id, match Edited(r, s.calls[id].job.edit, s.calls[id].phase.doc) case Some(d) => Saving(d) case None => Failing)
    case CreateTemp(id) =>
      var pid := s.calls[id].pid;
      var temp := Temp(pid, s.counters[pid]);
      Move(s, id, Writing(s.calls[id].phase.doc, temp)).(
        counters := s.counters[pid := s.counters[pid] + 1], temps := s.temps[temp := Blank])
    case WritePart(id, part) => s.(temps := s.temps[s.calls[id].phase.temp := part])
    case Flush(id) =>
      var p := s.calls[id].phase;
      Move(s, id, Flushed(p.doc, p.temp)).(temps := s.temps[p.temp := Whole(p.doc)])
    case Rename(id) =>
      var p := s.calls[id].phase;
      Move(s, id, Committed).(
        file := Some(s.temps[p.temp]), temps := s.temps - {p.temp},
        log := if s.calls[id].job.Update? then s.log + [id] else s.log,
        origin := if s.calls[id].job.Update? then s.held else if s.file.Some? then Reset(|s.log|) else s.origin)
    case Fail(id, tempRemoved) =>
      // A failed rename removes its temporary file; any other failure leaves it behind.
      var p := s.calls[id].phase;
      Move(s, id, Failing).(temps := if p.Flushed? && tempRemoved then s.temps - {p.temp} else s.temps)
    case Return(id, lockRemoved) =>
      // Dropping the lock removes whatever lock file is there; the removal may fail.
      Move(s, id, Returned(s.calls[id].phase.Committed?)).(
        lock := if s.calls[id].job.Update? && lockRemoved then None else s.lock)
    case Crash(pid) =>
      s.(counters := s.counters - {pid},
         calls := map id | id in s.calls ::
           if s.calls[id].pid == pid && Running(s.calls[id].phase) then s.calls[id].(phase := Dead) else s.calls[id])
    case RemoveStaleLock => s.(lock := None)
  }

  function Start<D>(file: Option<Content<D>>): State<D> {
    State(None, file, map[], map[], map[], [], Initial, Initial)
  }

  /** Where a sequence of steps leads; `None` if one of them is not enabled where it is
      taken. A state is reachable when some sequence of steps leads to it. */
  function After<D>(r: Rules<D>, file: Option<Content<D>>, steps: seq<Step<D>>): Option<State<D>> {
    if steps == [] then Some(Start(file))
    else
      match After(r, file, steps[..|steps| - 1])
      case None => None
      case Some(s) =>
        var step := steps[|steps| - 1];
        if Enabled(r, s, step) then Some(Do(r, s, step)) else None
  }

  /** The initial document with the updates of the log applied one after the other; `None`
      if the document cannot be read or one of the updates would be refused. */
  ghost function Folded<D>(r: Rules<D>, base: Option<D>, calls: map<CallId, Call<D>>, log: seq<CallId>): Option<D>
    requires forall id :: id in log ==> id in calls && calls[id].job.Update?
    decreases |log|
  {
    if log == [] then base
    else
      match Folded(r, base, calls, log[..|log| - 1])
      case None => None
      case Some(d) => Edited(r, calls[log[|log| - 1]].job.edit, d)
  }

  predicate Within(o: Origin, n: nat) {
    o.Reset? ==> o.at <= n
  }

  /** The updates a document of this origin has grown by. */
  function Kept(o: Origin, log: seq<CallId>): seq<CallId>
    requires Within(o, |log|)
  {
    match o
    case Initial => log
    case Reset(at) => log[at..]
  }

  /** What a document of this origin is now. */
  ghost function Grown<D>(r: Rules<D>, init: Option<Content<D>>, o: Origin, calls: map<CallId, Call<D>>, log: seq<CallId>): Option<D>
    requires Within(o, |log|) && forall id :: id in log ==> id in calls && calls[id].job.Update?
  {
    Folded(r, if o.Initial? then Load(r, init) else Some(r.empty), calls, Kept(o, log))
  }

  // ---------------------------------------------------------------- the invariant

  /** Only the owner of the lock file is inside the lock. */
  ghost predicate LockInv<D>(s: State<D>) {
    forall id :: id in s.calls && InLock(s.calls[id]) ==> s.lock == Some(id)
  }

  predicate HasTemp<D>(p: Phase<D>) {
    p.Writing? || p.Flushed?
  }

  ghost predicate ProcessesRun<D>(s: State<D>) {
    forall id :: id in s.calls && Running(s.calls[id].phase) ==> s.calls[id].pid in s.counters
  }

  ghost predicate TempsCounted<D>(s: State<D>)
    requires ProcessesRun(s)
  {
    forall id :: id in s.calls && HasTemp(s.calls[id].phase) ==>
      s.calls[id].phase.temp.pid == s.calls[id].pid && s.calls[id].phase.temp.n < s.counters[s.calls[id].pid]
  }

  ghost predicate TempsDistinct<D>(s: State<D>) {
    forall a, b :: a in s.calls && b in s.calls && a != b && HasTemp(s.calls[a].phase) && HasTemp(s.calls[b].phase) ==>
      s.calls[a].phase.temp != s.calls[b].phase.temp
  }

  ghost predicate FlushedWhole<D>(s: State<D>) {
    forall id :: id in s.calls && s.calls[id].phase.Flushed? ==>
      s.calls[id].phase.temp in s.temps && s.temps[s.calls[id].phase.temp] == Whole(s.calls[id].phase.doc)
  }

  /** Every unfinished save has a temporary file of its own, complete once it is flushed. */
  ghost predicate TempInv<D>(r: Rules<D>, s: State<D>) {
    ProcessesRun(s) && TempsCounted(s) && TempsDistinct(s) && FlushedWhole(s)
  }

  predicate HasDoc<D>(p: Phase<D>) {
    p.Saving? || p.Writing? || p.Flushed?
  }

  /** What is about to be stored is valid, and what is stored was there at the start or is. */
  ghost predicate FileInv<D>(r: Rules<D>, init: Option<Content<D>>, s: State<D>) {
    && (forall id :: id in s.calls && HasDoc(s.calls[id].phase) ==> r.valid(s.calls[id].phase.doc))
    && (s.file == init || (s.file.Some? && s.file.value.Whole? && r.valid(s.file.value.doc)))
    && (forall id :: id in s.calls && s.calls[id].job.Init? && HasDoc(s.calls[id].phase) ==> s.calls[id].phase.doc == r.empty)
    && (forall id :: id in s.calls && s.calls[id].job.Init? ==> !s.calls[id].phase.Loaded? && !s.calls[id].phase.Holding?)
  }

  /** The log names finished renames, each once, and a call's outcome tells whether it is in. */
  ghost predicate LogInv<D>(s: State<D>) {
    && (forall id :: id in s.log ==> id in s.calls && s.calls[id].job.Update?)
    && (forall i, j :: 0 <= i < j < |s.log| ==> s.log[i] != s.log[j])
    && (forall id :: id in s.calls && s.calls[id].job.Update? && (s.calls[id].phase.Committed? || s.calls[id].phase == Returned(true)) ==> id in s.log)
    && (forall id :: id in s.log ==> s.calls[id].phase.Committed? || s.calls[id].phase == Returned(true) || s.calls[id].phase.Dead?)
  }

  /** The file, and the document the call inside the lock works on, are what they have grown
      to from their origins. */
  ghost predicate FoldInv<D>(r: Rules<D>, init: Option<Content<D>>, s: State<D>)
    requires LogInv(s)
  {
    && Within(s.origin, |s.log|) && Within(s.held, |s.log|)
    && Load(r, s.file) == Grown(r, init, s.origin, s.calls, s.log)
    && (s.log != [] || s.origin.Reset? ==> Load(r, s.file).Some? && s.file == Some(Whole(Load(r, s.file).value)))
    && (s.log == [] && s.origin.Initial? ==> s.file == init || (init.None? && s.file == Some(Whole(r.empty))))
    && (forall id :: id in s.calls && s.calls[id].phase.Loaded? ==>
          Grown(r, init, s.held, s.calls, s.log) == Some(s.calls[id].phase.doc))
    && (forall id :: id in s.calls && s.calls[id].job.Update? && HasDoc(s.calls[id].phase) ==>
          && Grown(r, init, s.held, s.calls, s.log).Some?
          && Edited(r, s.calls[id].job.edit, Grown(r, init, s.held, s.calls, s.log).value) == Some(s.calls[id].phase.doc))
  }

  ghost predicate Inv<D>(r: Rules<D>, init: Option<Content<D>>, s: State<D>) {
    LockInv(s) && TempInv(r, s) && FileInv(r, init, s) && LogInv(s) && FoldInv(r, init, s)
  }

  // ---------------------------------------------------------------- every step keeps it

  /** The steps that move one call to its next phase and touch no document. */
  predicate PlainMove<D>(step: Step<D>) {
    step.Acquire? || step.GiveUp? || step.Read? || step.EditDocument? || step.CheckInit? || step.Fail? || step.Return?
  }

  /** What a plain move leaves as it was. */
  lemma PlainMoveFrame<D>(r: Rules<D>, s: State<D>, step: Step<D>)
    requires PlainMove(step) && Enabled(r, s, step)
    ensures var t, id := Do(r, s, step), step.id;
            && At(s, id) && id in t.calls && t.calls == s.calls[id := t.calls[id]]
            && t.calls[id].pid == s.calls[id].pid && t.calls[id].job == s.calls[id].job
            && t.counters == s.counters && t.file == s.file && t.log == s.log && t.origin == s.origin && (!step.Read? ==> t.held == s.held)
            && !HasTemp(t.calls[id].phase)
    ensures var t, id := Do(r, s, step), step.id;
            forall x :: x in s.temps && !(HasTemp(s.calls[id].phase) && x == s.calls[id].phase.temp) ==>
              x in t.temps && t.temps[x] == s.temps[x]
  {
  }

  /** What the call that moved is left with. */
  lemma PlainMovePhase<D>(r: Rules<D>, s: State<D>, step: Step<D>)
    requires PlainMove(step) && Enabled(r, s, step)
    ensures var c, p := s.calls[step.id], Do(r, s, step).calls[step.id].phase;
            && (HasDoc(p) && c.job.Init? ==> p.doc == r.empty)
            && (HasDoc(p) && c.job.Update? ==> c.phase.Loaded? && Edited(r, c.job.edit, c.phase.doc) == Some(p.doc))
            && (c.job.Init? ==> !p.Loaded?)
            && (p.Loaded? ==> c.phase.Holding? && Load(r, s.file) == Some(p.doc))
            && (p.Holding? ==> c.job.Update?)
  {
  }

  lemma LockStep<D>(r: Rules<D>, s: State<D>, step: Step<D>)
    requires Enabled(r, s, step) && LockInv(s)
    ensures LockInv(Do(r, s, step))
  {
  }

  /** A move that keeps temporary file and counter of the call. */
  lemma TempMove<D>(r: Rules<D>, s: State<D>, t: State<D>, id: CallId)
    requires TempInv(r, s) && At(s, id) && id in t.calls
    requires t.calls == s.calls[id := t.calls[id]] && t.calls[id].pid == s.calls[id].pid
    requires t.counters == s.counters && !t.calls[id].phase.Flushed?
    requires HasTemp(t.calls[id].phase) ==> HasTemp(s.calls[id].phase) && t.calls[id].phase.temp == s.calls[id].phase.temp
    requires forall x :: x in s.temps && !(HasTemp(s.calls[id].phase) && x == s.calls[id].phase.temp) ==>
      x in t.temps && t.temps[x] == s.temps[x]
    ensures TempInv(r, t)
  {
  }

  lemma TempStep<D>(r: Rules<D>, s: State<D>, step: Step<D>)
    requires Enabled(r, s, step) && TempInv(r, s)
    ensures TempInv(r, Do(r, s, step))
  {
    if PlainMove(step) {
      PlainMoveFrame(r, s, step);
      TempMove(r, s, Do(r, s, step), step.id);
    } else if step.CreateTemp? {
      TempCreate(r, s, step.id);
    } else if step.Flush? {
      TempFlush(r, s, step.id);
    } else if step.Rename? {
      TempRename(r, s, step.id);
    } else {
      TempOther(r, s, step);
    }
  }

  lemma TempRename<D>(r: Rules<D>, s: State<D>, id: CallId)
    requires Enabled(r, s, Rename(id)) && TempInv(r, s)
    ensures TempInv(r, Do(r, s, Rename(id)))
  {
    TempMove(r, s, Do(r, s, Rename(id)), id);
  }

  lemma TempOther<D>(r: Rules<D>, s: State<D>, step: Step<D>)
    requires step.Spawn? || step.Begin? || step.Crash? || step.RemoveStaleLock? || step.WritePart?
    requires Enabled(r, s, step) && TempInv(r, s)
    ensures TempInv(r, Do(r, s, step))
  {
    if step.WritePart? {
      TempWrite(r, s, step.id, step.part);
    } else if step.Crash? {
      TempCrash(r, s, step.pid);
    } else if step.Begin? {
      TempBegin(r, s, step);
    } else {
      TempSpawn(r, s, step);
    }
  }

  lemma TempSpawn<D>(r: Rules<D>, s: State<D>, step: Step<D>)
    requires (step.Spawn? || step.RemoveStaleLock?) && Enabled(r, s, step) && TempInv(r, s)
    ensures TempInv(r, Do(r, s, step))
  {
    assert Do(r, s, step).calls == s.calls;
  }

  lemma TempBegin<D>(r: Rules<D>, s: State<D>, step: Step<D>)
    requires step.Begin? && Enabled(r, s, step) && TempInv(r, s)
    ensures TempInv(r, Do(r, s, step))
  {
  }

  /** Writing to one's own temporary file touches nobody else's. */
  lemma TempWrite<D>(r: Rules<D>, s: State<D>, id: CallId, part: Content<D>)
    requires Enabled(r, s, WritePart(id, part)) && TempInv(r, s)
    ensures TempInv(r, Do(r, s, WritePart(id, part)))
  {
    var t := Do(r, s, WritePart(id, part));
    forall x | x in t.calls && t.calls[x].phase.Flushed?
      ensures t.calls[x].phase.temp in t.temps && t.temps[t.calls[x].phase.temp] == Whole(t.calls[x].phase.doc)
    {
      assert x != id;
    }
  }

  lemma TempCrash<D>(r: Rules<D>, s: State<D>, pid: Pid)
    requires Enabled(r, s, Crash(pid)) && TempInv(r, s)
    ensures TempInv(r, Do(r, s, Crash(pid)))
  {
    var t := Do(r, s, Crash(pid));
    Survivors(r, s, pid, t);
    assert ProcessesRun(t);
    assert TempsCounted(t);
    assert TempsDistinct(t);
  }

  /** A crash leaves the calls of other processes as they were, and no call of its own runs. */
  lemma Survivors<D>(r: Rules<D>, s: State<D>, pid: Pid, t: State<D>)
    requires Enabled(r, s, Crash(pid)) && t == Do(r, s, Crash(pid))
    ensures t.temps == s.temps && t.counters == s.counters - {pid} && t.calls.Keys == s.calls.Keys
    ensures forall id :: id in t.calls && Running(t.calls[id].phase) ==> t.calls[id] == s.calls[id] && t.calls[id].pid != pid
    ensures forall id :: id in s.calls && s.calls[id].pid != pid ==> t.calls[id] == s.calls[id]
  {
  }

  lemma TempCreate<D>(r: Rules<D>, s: State<D>, id: CallId)
    requires Enabled(r, s, CreateTemp(id)) && TempInv(r, s)
    ensures TempInv(r, Do(r, s, CreateTemp(id)))
  {
  }

  lemma TempFlush<D>(r: Rules<D>, s: State<D>, id: CallId)
    requires Enabled(r, s, Flush(id)) && TempInv(r, s)
    ensures TempInv(r, Do(r, s, Flush(id)))
  {
  }

  /** A step that only moves one call, and not to a document it did not have. */
  lemma FileMove<D>(r: Rules<D>, init: Option<Content<D>>, s: State<D>, t: State<D>, id: CallId)
    requires FileInv(r, init, s) && At(s, id) && id in t.calls
    requires t.calls == s.calls[id := t.calls[id]] && t.calls[id].job == s.calls[id].job && t.file == s.file
    requires HasDoc(t.calls[id].phase) ==>
      if HasDoc(s.calls[id].phase) then t.calls[id].phase.doc == s.calls[id].phase.doc
      else r.valid(t.calls[id].phase.doc) && (s.calls[id].job.Init? ==> t.calls[id].phase.doc == r.empty)
    requires s.calls[id].job.Init? ==> !t.calls[id].phase.Loaded? && !t.calls[id].phase.Holding?
    ensures FileInv(r, init, t)
  {
  }

  lemma FileStep<D>(r: Rules<D>, init: Option<Content<D>>, s: State<D>, step: Step<D>)
    requires r.valid(r.empty) && Enabled(r, s, step) && TempInv(r, s) && FileInv(r, init, s)
    ensures FileInv(r, init, Do(r, s, step))
  {
    var t := Do(r, s, step);
    if PlainMove(step) {
      PlainMoveFrame(r, s, step);
      PlainMovePhase(r, s, step);
      FileMove(r, init, s, t, step.id);
    } else if step.Rename? {
      FileMove(r, init, s, t.(file := s.file), step.id);
    } else {
      FileOther(r, init, s, step);
    }
  }

  lemma FileOther<D>(r: Rules<D>, init: Option<Content<D>>, s: State<D>, step: Step<D>)
    requires Enabled(r, s, step) && FileInv(r, init, s) && !PlainMove(step) && !step.Rename?
    ensures FileInv(r, init, Do(r, s, step))
  {
  }

  lemma LogStep<D>(r: Rules<D>, s: State<D>, step: Step<D>)
    requires Enabled(r, s, step) && LogInv(s)
    ensures LogInv(Do(r, s, step))
  {
    if PlainMove(step) {
      PlainMoveFrame(r, s, step);
      LogPlain(r, s, step);
    } else if step.Rename? {
      LogRename(r, s, step.id);
    } else {
      LogOther(r, s, step);
    }
  }

  lemma LogPlain<D>(r: Rules<D>, s: State<D>, step: Step<D>)
    requires Enabled(r, s, step) && LogInv(s) && PlainMove(step)
    ensures LogInv(Do(r, s, step))
  {
  }

  lemma LogRename<D>(r: Rules<D>, s: State<D>, id: CallId)
    requires Enabled(r, s, Rename(id)) && LogInv(s)
    ensures LogInv(Do(r, s, Rename(id)))
  {
    assert id !in s.log;
  }

  lemma LogOther<D>(r: Rules<D>, s: State<D>, step: Step<D>)
    requires Enabled(r, s, step) && LogInv(s) && !PlainMove(step) && !step.Rename?
    ensures LogInv(Do(r, s, step))
  {
  }

  /** A log folds alike over any two tables that agree on its jobs. */
  lemma {:induction false} FoldedSameCalls<D>(r: Rules<D>, base: Option<D>, calls: map<CallId, Call<D>>, other: map<CallId, Call<D>>, log: seq<CallId>)
    requires forall id :: id in log ==> id in calls && calls[id].job.Update?
    requires forall id :: id in log ==> id in other && other[id].job == calls[id].job
    ensures Folded(r, base, calls, log) == Folded(r, base, other, log)
    decreases |log|
  {
    if log != [] {
      FoldedSameCalls(r, base, calls, other, log[..|log| - 1]);
    }
  }

  lemma GrownSameCalls<D>(r: Rules<D>, init: Option<Content<D>>, o: Origin, calls: map<CallId, Call<D>>, other: map<CallId, Call<D>>, log: seq<CallId>)
    requires Within(o, |log|)
    requires forall id :: id in log ==> id in calls && calls[id].job.Update?
    requires forall id :: id in log ==> id in other && other[id].job == calls[id].job
    ensures Grown(r, init, o, other, log) == Grown(r, init, o, calls, log)
  {
    FoldedSameCalls(r, if o.Initial? then Load(r, init) else Some(r.empty), calls, other, Kept(o, log));
  }

  /** A step that leaves the file and the log alone. */
  lemma FoldMove<D>(r: Rules<D>, init: Option<Content<D>>, s: State<D>, t: State<D>, id: CallId)
    requires LogInv(s) && FoldInv(r, init, s) && LogInv(t) && At(s, id) && id in t.calls
    requires t.calls == s.calls[id := t.calls[id]] && t.calls[id].job == s.calls[id].job
    requires t.file == s.file && t.log == s.log && t.origin == s.origin && t.held == s.held
    requires !t.calls[id].phase.Loaded?
    requires s.calls[id].job.Update? && HasDoc(t.calls[id].phase) ==>
      || (HasDoc(s.calls[id].phase) && t.calls[id].phase.doc == s.calls[id].phase.doc)
      || (s.calls[id].phase.Loaded? && Edited(r, s.calls[id].job.edit, s.calls[id].phase.doc) == Some(t.calls[id].phase.doc))
    ensures FoldInv(r, init, t)
  {
    GrownSameCalls(r, init, s.origin, s.calls, t.calls, s.log);
    GrownSameCalls(r, init, s.held, s.calls, t.calls, s.log);
  }

  lemma FoldStep<D>(r: Rules<D>, init: Option<Content<D>>, s: State<D>, step: Step<D>)
    requires r.valid(r.empty) && Enabled(r, s, step) && Inv(r, init, s)
    ensures LogInv(Do(r, s, step)) && FoldInv(r, init, Do(r, s, step))
  {
    LogStep(r, s, step);
    var t := Do(r, s, step);
    if step.Read? {
      FoldRead(r, init, s, step.id);
    } else if PlainMove(step) {
      PlainMoveFrame(r, s, step);
      PlainMovePhase(r, s, step);
      FoldMove(r, init, s, t, step.id);
    } else if step.CreateTemp? || step.Flush? {
      FoldMove(r, init, s, t, step.id);
    } else if step.Rename? {
      if s.calls[step.id].job.Update? {
        RenameUpdate(r, init, s, step.id);
      } else {
        RenameInit(r, init, s, step.id);
      }
    } else {
      FoldOther(r, init, s, step);
    }
  }

  /** What an update has just read has the origin of the file. */
  lemma FoldRead<D>(r: Rules<D>, init: Option<Content<D>>, s: State<D>, id: CallId)
    requires Enabled(r, s, Read(id)) && Inv(r, init, s) && LogInv(Do(r, s, Read(id)))
    ensures FoldInv(r, init, Do(r, s, Read(id)))
  {
    var t := Do(r, s, Read(id));
    NobodyElseWorks(r, init, s, id);
    GrownSameCalls(r, init, s.origin, s.calls, t.calls, s.log);
  }

  lemma FoldOther<D>(r: Rules<D>, init: Option<Content<D>>, s: State<D>, step: Step<D>)
    requires step.Spawn? || step.Begin? || step.Crash? || step.RemoveStaleLock? || step.WritePart?
    requires Enabled(r, s, step) && LogInv(s) && FoldInv(r, init, s) && LogInv(Do(r, s, step))
    ensures FoldInv(r, init, Do(r, s, step))
  {
    NoNewDocument(r, s, step);
    FoldSame(r, init, s, Do(r, s, step));
  }

  lemma NoNewDocument<D>(r: Rules<D>, s: State<D>, step: Step<D>)
    requires step.Spawn? || step.Begin? || step.Crash? || step.RemoveStaleLock? || step.WritePart?
    requires Enabled(r, s, step)
    ensures var t := Do(r, s, step);
            && t.file == s.file && t.log == s.log && t.origin == s.origin && t.held == s.held
            && (forall id :: id in s.calls ==> id in t.calls && t.calls[id].job == s.calls[id].job)
            && (forall id :: id in t.calls && (t.calls[id].phase.Loaded? || HasDoc(t.calls[id].phase)) ==>
                  id in s.calls && t.calls[id] == s.calls[id])
  {
  }

  lemma FoldSame<D>(r: Rules<D>, init: Option<Content<D>>, s: State<D>, t: State<D>)
    requires LogInv(s) && FoldInv(r, init, s) && LogInv(t)
    requires t.file == s.file && t.log == s.log && t.origin == s.origin && t.held == s.held
    requires forall id :: id in s.calls ==> id in t.calls && t.calls[id].job == s.calls[id].job
    requires forall id :: id in t.calls && (t.calls[id].phase.Loaded? || HasDoc(t.calls[id].phase)) ==>
      id in s.calls && t.calls[id] == s.calls[id]
    ensures FoldInv(r, init, t)
  {
    GrownSameCalls(r, init, s.origin, s.calls, t.calls, s.log);
    GrownSameCalls(r, init, s.held, s.calls, t.calls, s.log);
  }

  /** While one update is inside the lock, no other holds a document. */
  lemma NobodyElseWorks<D>(r: Rules<D>, init: Option<Content<D>>, s: State<D>, id: CallId)
    requires LockInv(s) && FileInv(r, init, s) && id in s.calls && InLock(s.calls[id])
    ensures forall x :: x in s.calls && x != id ==> !s.calls[x].phase.Loaded?
    ensures forall x :: x in s.calls && x != id && s.calls[x].job.Update? ==> !HasDoc(s.calls[x].phase)
  {
    forall x | x in s.calls && x != id
      ensures !InLock(s.calls[x])
    {
    }
  }

  /** The rename of an update appends it to what its document had grown by. */
  lemma RenameUpdate<D>(r: Rules<D>, init: Option<Content<D>>, s: State<D>, id: CallId)
    requires Enabled(r, s, Rename(id)) && Inv(r, init, s) && s.calls[id].job.Update?
    requires LogInv(Do(r, s, Rename(id)))
    ensures FoldInv(r, init, Do(r, s, Rename(id)))
  {
    var t := Do(r, s, Rename(id));
    RenamedFile(r, init, s, id);
    RenamedLog(r, init, s, id, t.calls, t.log);
    NobodyWorksAfter(r, init, s, id);
    FoldAfterUpdate(r, init, t, s.calls[id].phase.doc);
  }

  lemma NobodyWorksAfter<D>(r: Rules<D>, init: Option<Content<D>>, s: State<D>, id: CallId)
    requires Enabled(r, s, Rename(id)) && LockInv(s) && FileInv(r, init, s) && s.calls[id].job.Update?
    ensures var t := Do(r, s, Rename(id));
            && (forall x :: x in t.calls ==> !t.calls[x].phase.Loaded?)
            && (forall x :: x in t.calls && t.calls[x].job.Update? ==> !HasDoc(t.calls[x].phase))
  {
    NobodyElseWorks(r, init, s, id);
  }

  lemma FoldAfterUpdate<D>(r: Rules<D>, init: Option<Content<D>>, t: State<D>, d: D)
    requires LogInv(t) && t.log != [] && t.origin == t.held && Within(t.held, |t.log|)
    requires t.file == Some(Whole(d)) && Load(r, t.file) == Some(d)
    requires Grown(r, init, t.origin, t.calls, t.log) == Some(d)
    requires forall x :: x in t.calls ==> !t.calls[x].phase.Loaded?
    requires forall x :: x in t.calls && t.calls[x].job.Update? ==> !HasDoc(t.calls[x].phase)
    ensures FoldInv(r, init, t)
  {
  }

  lemma RenamedFile<D>(r: Rules<D>, init: Option<Content<D>>, s: State<D>, id: CallId)
    requires Enabled(r, s, Rename(id)) && TempInv(r, s) && FileInv(r, init, s)
    ensures var t, d := Do(r, s, Rename(id)), s.calls[id].phase.doc;
            t.file == Some(Whole(d)) && Load(r, t.file) == Some(d)
  {
  }

  /** A log with one more entry makes a document grow by one more edit. */
  lemma RenamedLog<D>(r: Rules<D>, init: Option<Content<D>>, s: State<D>, id: CallId, calls: map<CallId, Call<D>>, log: seq<CallId>)
    requires LogInv(s) && Within(s.held, |s.log|) && id in s.calls && s.calls[id].job.Update? && log == s.log + [id]
    requires forall x :: x in s.calls ==> x in calls && calls[x].job == s.calls[x].job
    requires Grown(r, init, s.held, s.calls, s.log).Some?
    ensures forall x :: x in log ==> x in calls && calls[x].job.Update?
    ensures Grown(r, init, s.held, calls, log) == Edited(r, s.calls[id].job.edit, Grown(r, init, s.held, s.calls, s.log).value)
  {
    GrownSameCalls(r, init, s.held, s.calls, calls, s.log);
    var kept := Kept(s.held, log);
    assert kept == Kept(s.held, s.log) + [id];
    assert kept[..|kept| - 1] == Kept(s.held, s.log);
  }

  /** An `init` that finds no registry at its rename stores what a missing file stands for; one
      that finds one makes the document grow anew from there. */
  lemma RenameInit<D>(r: Rules<D>, init: Option<Content<D>>, s: State<D>, id: CallId)
    requires r.valid(r.empty) && Enabled(r, s, Rename(id)) && Inv(r, init, s) && s.calls[id].job.Init?
    requires LogInv(Do(r, s, Rename(id)))
    ensures FoldInv(r, init, Do(r, s, Rename(id)))
  {
    var t := Do(r, s, Rename(id));
    GrownSameCalls(r, init, s.origin, s.calls, t.calls, s.log);
    GrownSameCalls(r, init, s.held, s.calls, t.calls, s.log);
    assert t.file == Some(Whole(r.empty));
  }

  // ---------------------------------------------------------------- every reachable state

  lemma {:induction false} Invariant<D>(r: Rules<D>, file: Option<Content<D>>, steps: seq<Step<D>>)
    requires r.valid(r.empty) && After(r, file, steps).Some?
    ensures Inv(r, file, After(r, file, steps).value)
    decreases |steps|
  {
    if steps != [] {
      var front, step := steps[..|steps| - 1], steps[|steps| - 1];
      Invariant(r, file, front);
      var s := After(r, file, front).value;
      LockStep(r, s, step);
      TempStep(r, s, step);
      FileStep(r, file, s, step);
      FoldStep(r, file, s, step);
    }
  }
}

/** What holds of every slot over every sequential run of register, start, stop, stop_all and
    harness output. */
module LifecycleRuns {
  import opened Text
  import opened Lifecycle

  datatype Op =
    | Register(name: string, port: nat)
    | Start(name: string, world: World)
    | Stop(name: string)
    | StopAll
    | Output(name: string, line: string)

  function Do(slots: Slots, op: Op): Slots {
    match op
    case Register(n, port) => if n in slots then slots else slots[n := NewSlot(port)]
    case Start(n, w) => if n in slots then slots[n := StartSlot(slots[n], w).slot] else slots
    case Stop(n) => if n in slots then slots[n := StopSlot(slots[n])] else slots
    case StopAll => AllStopped(slots)
    case Output(n, line) => if n in slots then slots[n := PushLine(slots[n], line)] else slots
  }

  function Run(ops: seq<Op>): Slots {
    if ops == [] then map[] else Do(Run(ops[..|ops| - 1]), ops[|ops| - 1])
  }

  // ---------------------------------------------------------------- urls, states, children

  /** A recorded URL belongs to a ready instance; and no slot ever holds a process. */
  predicate Sane(slot: Slot) {
    (slot.status.authUrl.Some? ==> slot.status.state == Ready) && slot.child.None?
  }

  lemma {:induction false} GraceSane(slot: Slot, events: seq<Event>, k: nat, captured: Option<string>)
    requires k <= |events| && slot.status.state == Ready && slot.child.None?
    ensures Sane(Grace(slot, events, k, captured).slot)
    ensures Grace(slot, events, k, captured).slot.status.state == Ready
    decreases |events| - k
  {
    if captured.None? && k < |events| {
      match events[k]
      case GraceOver =>
      case Line(url) => GraceSane(slot, events, k + 1, url);
      case Stderr(text) => GraceSane(PushLine(slot, text), events, k + 1, captured);
      case _ => GraceSane(slot, events, k + 1, captured);
    }
  }

  lemma {:induction false} WaitSane(slot: Slot, events: seq<Event>, k: nat, announced: bool, captured: Option<string>)
    requires k <= |events| && slot.status.authUrl.None? && slot.child.None?
    ensures var r := Wait(slot, events, k, announced, captured);
            && Sane(r.slot)
            && (r.error.None? <==> r.slot.status.state == Ready)
            && (r.error.Some? ==> r.slot.status.state == Failed)
    decreases |events| - k
  {
    if k < |events| {
      match events[k]
      case Deadline =>
      case Exit(_) =>
      case Line(url) => WaitSane(slot, events, k + 1, announced || url.Some?, if url.Some? then url else captured);
      case Stderr(text) => WaitSane(PushLine(slot, text), events, k + 1, announced, captured);
      case FastProbe(up, _, _) =>
        if !(announced && up) {
          WaitSane(slot, events, k + 1, announced, captured);
        }
      case SlowProbe(up, _, _) =>
        if up {
          GraceSane(Confirmed(slot, events[k]), events, k + 1, captured);
        } else {
          WaitSane(slot, events, k + 1, announced, captured);
        }
      case GraceOver => WaitSane(slot, events, k + 1, announced, captured);
    }
  }

  /** A start succeeds exactly when the instance ends up ready; failures of provisioning and
      spawning leave it in `Starting`, every other failure in `Failed`. */
  lemma StartOutcome(slot: Slot, w: World)
    requires Sane(slot)
    ensures var r := StartSlot(slot, w);
            && Sane(r.slot)
            && (r.error.None? <==> r.slot.status.state == Ready)
            && (r.error == Some(Provision) || r.error == Some(Spawn) ==> r.slot.status.state == Starting)
            && (r.error.Some? && r.error != Some(Provision) && r.error != Some(Spawn) ==> r.slot.status.state == Failed)
  {
    if slot.status.state != Ready && (w.answers ==> w.owned) && w.workspace && w.provisioned && w.spawned.Some? {
      var cleared := SetState(slot, Starting).(
        status := SetState(slot, Starting).status.(restarts := slot.status.restarts + 1), stderrTail := [], started := true);
      var s := cleared.(status := cleared.status.(pid := w.spawned.value));
      WaitSane(s, w.events, 0, false, None);
      WaitErrors(s, w.events, 0, false, None);
    }
  }

  lemma {:induction false} WaitErrors(slot: Slot, events: seq<Event>, k: nat, announced: bool, captured: Option<string>)
    requires k <= |events|
    ensures var e := Wait(slot, events, k, announced, captured).error; e.Some? ==> e.value.Timeout? || e.value.ExitedEarly?
    decreases |events| - k
  {
    if k < |events| {
      match events[k]
      case Line(url) => WaitErrors(slot, events, k + 1, announced || url.Some?, if url.Some? then url else captured);
      case Stderr(text) => WaitErrors(PushLine(slot, text), events, k + 1, announced, captured);
      case _ => WaitErrors(slot, events, k + 1, announced, captured);
    }
  }

  /** Between operations a recorded URL implies a ready instance, in every run; and since no
      operation ever stores a process handle, `stop` never has a process to end. */
  lemma {:induction false} AlwaysSane(ops: seq<Op>)
    ensures forall n :: n in Run(ops) ==> Sane(Run(ops)[n])
  {
    if ops != [] {
      var front, op := ops[..|ops| - 1], ops[|ops| - 1];
      AlwaysSane(front);
      if op.Start? && op.name in Run(front) {
        StartOutcome(Run(front)[op.name], op.world);
      }
    }
  }

  /** After `stop_all` nothing is ready and no URL is left. */
  lemma NothingReadyAfterStopAll(ops: seq<Op>)
    ensures forall n :: n in Run(ops + [StopAll]) ==>
      Run(ops + [StopAll])[n].status.state != Ready && Run(ops + [StopAll])[n].status.authUrl.None?
    ensures Run(ops + [StopAll]).Keys == Run(ops).Keys
  {
    assert (ops + [StopAll])[..|ops + [StopAll]| - 1] == ops;
    AlwaysSane(ops);
  }

  /** A stop leaves of a slot all but the process, the URL and the state. */
  lemma StopLeaves(ops: seq<Op>, name: string)
    requires name in Run(ops)
    ensures name in Run(ops + [Stop(name)])
    ensures var before, after := Run(ops)[name], Run(ops + [Stop(name)])[name];
      after == before.(status := before.status.(state := Stopped, pid := None, authUrl := None))
  {
    assert (ops + [Stop(name)])[..|ops + [Stop(name)]| - 1] == ops;
    AlwaysSane(ops);
  }

  /** `stop_all` does to a ready instance what `stop` does, and to any other nothing. */
  lemma StopAllStopsReady(ops: seq<Op>, name: string)
    requires name in Run(ops)
    ensures name in Run(ops + [StopAll]) && name in Run(ops + [Stop(name)])
    ensures Run(ops + [StopAll])[name]
         == if Run(ops)[name].status.state == Ready then Run(ops + [Stop(name)])[name] else Run(ops)[name]
  {
    assert (ops + [StopAll])[..|ops + [StopAll]| - 1] == ops;
    assert (ops + [Stop(name)])[..|ops + [Stop(name)]| - 1] == ops;
  }

  /** Of an instance that was never started nothing is recorded but its port and whether it was
      stopped. */
  lemma {:induction false} NeverStarted(ops: seq<Op>, name: string)
    requires name in Run(ops) && forall i :: 0 <= i < |ops| ==> !(ops[i].Start? && ops[i].name == name)
    ensures var slot := Run(ops)[name];
      && slot.status == Status(slot.status.state, None, None, slot.port, 0, None, None, None)
      && (slot.status.state == Absent || slot.status.state == Stopped)
      && ((forall i :: 0 <= i < |ops| ==> ops[i] != Stop(name)) ==> slot.status.state == Absent)
  {
    var front, op := ops[..|ops| - 1], ops[|ops| - 1];
    assert forall i :: 0 <= i < |front| ==> front[i] == ops[i];
    if name in Run(front) {
      NeverStarted(front, name);
    }
  }

  /** The names an operation is about. */
  predicate Concerns(op: Op, name: string) {
    op.StopAll? || op.name == name
  }

  /** No operation on one name changes, adds or removes the slot of another. */
  lemma OthersUntouched(slots: Slots, op: Op, other: string)
    requires !Concerns(op, other)
    ensures other in Do(slots, op) <==> other in slots
    ensures other in slots ==> Do(slots, op)[other] == slots[other]
  {
  }

  /** An operation treats a slot alike in any two tables that hold it. */
  lemma SameTreatment(a: Slots, b: Slots, op: Op, name: string)
    requires name in a <==> name in b
    requires name in a ==> a[name] == b[name]
    ensures name in Do(a, op) <==> name in Do(b, op)
    ensures name in Do(a, op) ==> Do(a, op)[name] == Do(b, op)[name]
  {
  }

  /** So what a run makes of a name depends only on the operations that concern it. */
  lemma {:induction false} RunOfOneName(ops: seq<Op>, name: string)
    ensures name in Run(ops) <==> name in Run(About(ops, name))
    ensures name in Run(ops) ==> Run(ops)[name] == Run(About(ops, name))[name]
  {
    if ops != [] {
      var front, op := ops[..|ops| - 1], ops[|ops| - 1];
      RunOfOneName(front, name);
      if Concerns(op, name) {
        var kept := About(front, name);
        assert (kept + [op])[..|kept + [op]| - 1] == kept;
        SameTreatment(Run(front), Run(kept), op, name);
      } else {
        OthersUntouched(Run(front), op, name);
      }
    }
  }

  function About(ops: seq<Op>, name: string): seq<Op> {
    if ops == [] then []
    else
      var kept := About(ops[..|ops| - 1], name);
      if Concerns(ops[|ops| - 1], name) then kept + [ops[|ops| - 1]] else kept
  }

  // ---------------------------------------------------------------- which url is recorded

  function LastUrl(events: seq<Event>): Option<string> {
    if events == [] then None
    else
      var e := events[|events| - 1];
      if e.Line? && e.url.Some? then e.url else LastUrl(events[..|events| - 1])
  }

  /** The first URL announced from the k-th event on, before the window closes. */
  function FirstUrlInWindow(events: seq<Event>, k: nat): Option<string>
    requires k <= |events|
    decreases |events| - k
  {
    if k == |events| || events[k].GraceOver? then None
    else if events[k].Line? && events[k].url.Some? then events[k].url
    else FirstUrlInWindow(events, k + 1)
  }

  /** The probe that ends the wait: the slow one whenever the port answers, the fast one only
      after an announcement. */
  predicate Confirms(events: seq<Event>, k: nat)
    requires k < |events|
  {
    || (events[k].SlowProbe? && events[k].up)
    || (events[k].FastProbe? && events[k].up && LastUrl(events[..k]).Some?)
  }

  predicate Ends(events: seq<Event>, k: nat)
    requires k < |events|
  {
    Confirms(events, k) || events[k].Exit? || events[k].Deadline?
  }

  lemma {:induction false} GraceUrl(slot: Slot, events: seq<Event>, k: nat, captured: Option<string>)
    requires k <= |events|
    ensures Grace(slot, events, k, captured).slot.status.authUrl == if captured.Some? then captured else FirstUrlInWindow(events, k)
    decreases |events| - k
  {
    if captured.None? && k < |events| {
      match events[k]
      case GraceOver =>
      case Line(url) => GraceUrl(slot, events, k + 1, url);
      case Stderr(text) => GraceUrl(PushLine(slot, text), events, k + 1, captured);
      case _ => GraceUrl(slot, events, k + 1, captured);
    }
  }

  // ---------------------------------------------------------------- the tail

  function StderrLines(events: seq<Event>): seq<string> {
    if events == [] then []
    else
      var front := StderrLines(events[..|events| - 1]);
      match events[|events| - 1]
      case Stderr(text) => front + [text]
      case _ => front
  }

  /** The tail holds the last lines of `lines` and what arrived in the first k events. */
  predicate TailIs(slot: Slot, lines: seq<string>, events: seq<Event>, k: nat)
    requires k <= |events|
  {
    slot.stderrTail == LastLines(lines + StderrLines(events[..k]), DEFAULT_TAIL_LINES)
  }

  lemma StderrNext(events: seq<Event>, k: nat)
    requires k < |events|
    ensures StderrLines(events[..k + 1])
         == if events[k].Stderr? then StderrLines(events[..k]) + [events[k].text] else StderrLines(events[..k])
  {
    assert events[..k + 1][..k] == events[..k];
  }

  lemma TailNext(slot: Slot, lines: seq<string>, events: seq<Event>, k: nat)
    requires k < |events| && TailIs(slot, lines, events, k)
    ensures TailIs(if events[k].Stderr? then PushLine(slot, events[k].text) else slot, lines, events, k + 1)
  {
    StderrNext(events, k);
    if events[k].Stderr? {
      var before := StderrLines(events[..k]);
      PushKeepsLast(lines + before, events[k].text, DEFAULT_TAIL_LINES);
      assert lines + (before + [events[k].text]) == lines + before + [events[k].text];
    }
  }

  lemma {:induction false} GraceTail(slot: Slot, lines: seq<string>, events: seq<Event>, k: nat, captured: Option<string>)
    requires k <= |events| && TailIs(slot, lines, events, k)
    ensures var r := Grace(slot, events, k, captured); r.used <= |events| && TailIs(r.slot, lines, events, r.used)
    decreases |events| - k
  {
    if captured.None? && k < |events| {
      TailNext(slot, lines, events, k);
      match events[k]
      case GraceOver =>
      case Line(url) => GraceTail(slot, lines, events, k + 1, url);
      case Stderr(text) => GraceTail(PushLine(slot, text), lines, events, k + 1, captured);
      case _ => GraceTail(slot, lines, events, k + 1, captured);
    }
  }

  lemma {:induction false} WaitTail(slot: Slot, lines: seq<string>, events: seq<Event>, k: nat, announced: bool, captured: Option<string>)
    requires k <= |events| && TailIs(slot, lines, events, k)
    ensures var r := Wait(slot, events, k, announced, captured); r.used <= |events| && TailIs(r.slot, lines, events, r.used)
    decreases |events| - k
  {
    if k < |events| {
      TailNext(slot, lines, events, k);
      match events[k]
      case Deadline =>
      case Exit(_) =>
      case Line(url) => WaitTail(slot, lines, events, k + 1, announced || url.Some?, if url.Some? then url else captured);
      case Stderr(text) => WaitTail(PushLine(slot, text), lines, events, k + 1, announced, captured);
      case FastProbe(up, _, _) =>
        if !(announced && up) {
          WaitTail(slot, lines, events, k + 1, announced, captured);
        }
      case SlowProbe(up, _, _) =>
        if up {
          GraceTail(Confirmed(slot, events[k]), lines, events, k + 1, captured);
        } else {
          WaitTail(slot, lines, events, k + 1, announced, captured);
        }
      case GraceOver => WaitTail(slot, lines, events, k + 1, announced, captured);
    }
  }

  // ---------------------------------------------------------------- how a wait ends

  /** The first event from the k-th on that ends the wait; `None` if there is none. */
  ghost predicate FirstEnd(events: seq<Event>, k: nat, end: Option<nat>) {
    match end
    case Some(c) => k <= c < |events| && Ends(events, c) && forall j :: k <= j < c ==> !Ends(events, j)
    case None => forall j :: k <= j < |events| ==> !Ends(events, j)
  }

  function EventsBefore(events: seq<Event>, end: Option<nat>): seq<Event>
    requires end.Some? ==> end.value <= |events|
  {
    if end.Some? then events[..end.value] else events
  }

  /** What a wait makes of a slot that had printed `lines`: a confirming probe makes it ready,
      with that probe's version and time and the URL announced; an exit and the deadline fail
      it, with the last lines printed until then. */
  ghost predicate EndsAs(slot: Slot, lines: seq<string>, events: seq<Event>, end: Option<nat>, r: Waited)
    requires end.Some? ==> end.value < |events|
  {
    var tail := LastLines(lines + StderrLines(EventsBefore(events, end)), 50);
    if end.Some? && Confirms(events, end.value) then
      var url := LastUrl(events[..end.value]);
      && r.error == None
      && r.slot == slot.(stderrTail := r.slot.stderrTail, status := slot.status.(
           state := Ready, version := events[end.value].version, readyInMs := events[end.value].ms,
           authUrl := if url.Some? then url else FirstUrlInWindow(events, end.value + 1)))
    else if end.Some? && events[end.value].Exit? then
      var error := ExitedEarly(events[end.value].code, tail);
      && r.error == Some(error)
      && r.slot == slot.(stderrTail := tail, status := slot.status.(state := Failed, pid := None, lastError := Some(error)))
    else
      && r.error == Some(Timeout(tail))
      && r.slot == slot.(stderrTail := tail, status := slot.status.(state := Failed))
  }

  lemma {:induction false} GraceOnly(slot: Slot, events: seq<Event>, k: nat, captured: Option<string>)
    requires k <= |events|
    ensures var r := Grace(slot, events, k, captured);
      r.slot == slot.(stderrTail := r.slot.stderrTail, status := slot.status.(authUrl := r.slot.status.authUrl))
    decreases |events| - k
  {
    if captured.None? && k < |events| {
      match events[k]
      case GraceOver =>
      case Line(url) => GraceOnly(slot, events, k + 1, url);
      case Stderr(text) => GraceOnly(PushLine(slot, text), events, k + 1, captured);
      case _ => GraceOnly(slot, events, k + 1, captured);
    }
  }

  /** The wait is decided by the first event that ends it. */
  lemma {:induction false} WaitOutcome(slot: Slot, lines: seq<string>, events: seq<Event>, k: nat, announced: bool, captured: Option<string>) returns (end: Option<nat>)
    requires k <= |events| && captured == LastUrl(events[..k]) && announced == captured.Some?
    requires TailIs(slot, lines, events, k)
    ensures FirstEnd(events, k, end)
    ensures EndsAs(slot, lines, events, end, Wait(slot, events, k, announced, captured))
    decreases |events| - k
  {
    if k == |events| {
      end := None;
      assert events[..k] == events;
    } else if Ends(events, k) {
      end := Some(k);
      EndNow(slot, lines, events, k, announced, captured);
    } else {
      assert events[..k + 1][..k] == events[..k];
      TailNext(slot, lines, events, k);
      var e := events[k];
      var next := if e.Stderr? then PushLine(slot, e.text) else slot;
      var url := if e.Line? && e.url.Some? then e.url else captured;
      end := WaitOutcome(next, lines, events, k + 1, url.Some?, url);
    }
  }

  lemma EndNow(slot: Slot, lines: seq<string>, events: seq<Event>, k: nat, announced: bool, captured: Option<string>)
    requires k < |events| && captured == LastUrl(events[..k]) && announced == captured.Some?
    requires TailIs(slot, lines, events, k) && Ends(events, k)
    ensures EndsAs(slot, lines, events, Some(k), Wait(slot, events, k, announced, captured))
  {
    if events[k].SlowProbe? {
      GraceOnly(Confirmed(slot, events[k]), events, k + 1, captured);
      GraceUrl(Confirmed(slot, events[k]), events, k + 1, captured);
    }
  }

  // ---------------------------------------------------------------- how a start ends

  /** Whether a start gets as far as clearing the tail. */
  predicate Clears(slot: Slot, w: World) {
    slot.status.state != Ready && (w.answers ==> w.owned) && w.workspace && w.provisioned
  }

  /** The slot as it is when the process has been spawned. */
  function Spawned(slot: Slot, pid: Option<nat>): Slot {
    slot.(stderrTail := [], started := true, status := slot.status.(
      state := Starting, restarts := slot.status.restarts + 1, pid := pid))
  }

  /** Which check fails a start, and what it leaves: a refusal before the launch changes
      nothing but the state. */
  lemma StartRefusals(slot: Slot, w: World)
    ensures var r, up := StartSlot(slot, w), slot.status.state == Ready;
      && (up ==> r.error == None && r.slot == slot)
      && (r.error == Some(PortInUse) <==> !up && w.answers && !w.owned)
      && (r.error == Some(WorkspaceMissing) <==> !up && (w.answers ==> w.owned) && !w.workspace)
      && (r.error == Some(Provision) <==> !up && (w.answers ==> w.owned) && w.workspace && !w.provisioned)
      && (r.error == Some(Spawn) <==> Clears(slot, w) && w.spawned.None?)
    ensures var r := StartSlot(slot, w);
      !Clears(slot, w) ==> r.slot == slot.(status := slot.status.(state := r.slot.status.state))
    ensures Clears(slot, w) && w.spawned.None? ==> StartSlot(slot, w).slot == Spawned(slot, slot.status.pid)
  {
    if Clears(slot, w) && w.spawned.Some? {
      WaitErrors(Spawned(slot, w.spawned.value), w.events, 0, false, None);
    }
  }

  /** Past the checks, a start ends as its wait does: it succeeds exactly if the first event that
      ends the wait confirms that the port answers. */
  lemma StartWaits(slot: Slot, w: World) returns (end: Option<nat>)
    requires Clears(slot, w) && w.spawned.Some?
    ensures FirstEnd(w.events, 0, end)
    ensures EndsAs(Spawned(slot, w.spawned.value), [], w.events, end, StartSlot(slot, w))
    ensures StartSlot(slot, w).error.None? <==> end.Some? && Confirms(w.events, end.value)
  {
    assert w.events[..0] == [];
    end := WaitOutcome(Spawned(slot, w.spawned.value), [], w.events, 0, false, None);
  }

  /** Everything the harness of a name printed to stderr since the last clear. */
  function Printed(ops: seq<Op>, name: string): seq<string> {
    if ops == [] then []
    else
      var front, op := ops[..|ops| - 1], ops[|ops| - 1];
      var before, slots := Printed(front, name), Run(front);
      if name !in slots then []
      else
        match op
        case Output(n, line) => if n == name then before + [line] else before
        case Start(n, w) =>
          if n == name && Clears(slots[n], w) then StderrLines(w.events[..UsedEvents(slots[n], w)]) else before
        case _ => before
  }

  function UsedEvents(slot: Slot, w: World): nat {
    var used := StartSlot(slot, w).used;
    if used <= |w.events| then used else |w.events|
  }

  lemma StartTail(slot: Slot, w: World)
    ensures StartSlot(slot, w).used <= |w.events|
    ensures StartSlot(slot, w).slot.stderrTail ==
      if Clears(slot, w) then LastLines(StderrLines(w.events[..UsedEvents(slot, w)]), DEFAULT_TAIL_LINES) else slot.stderrTail
  {
    if Clears(slot, w) {
      assert w.events[..0] == [];
      if w.spawned.Some? {
        var s := SetState(slot, Starting);
        var cleared := s.(status := s.status.(restarts := s.status.restarts + 1), stderrTail := [], started := true);
        var spawned := cleared.(status := cleared.status.(pid := w.spawned.value));
        assert TailIs(spawned, [], w.events, 0);
        WaitTail(spawned, [], w.events, 0, false, None);
        var lines := StderrLines(w.events[..UsedEvents(slot, w)]);
        assert [] + lines == lines;
      }
    }
  }

  /** The tail of a slot is always the last at most 50 lines since it was last cleared. */
  lemma {:induction false} TailAlwaysLast(ops: seq<Op>, name: string)
    requires name in Run(ops)
    ensures Run(ops)[name].stderrTail == LastLines(Printed(ops, name), 50)
  {
    if ops != [] {
      var front, op := ops[..|ops| - 1], ops[|ops| - 1];
      if name in Run(front) {
        TailAlwaysLast(front, name);
        if op.Output? && op.name == name {
          PushKeepsLast(Printed(front, name), op.line, DEFAULT_TAIL_LINES);
        }
        if op.Start? && op.name == name {
          StartTail(Run(front)[name], op.world);
        }
      }
    }
  }

  // ---------------------------------------------------------------- ports and restarts

  /** What waiting never changes. */
  function Fixed(slot: Slot): (nat, nat, nat, bool) {
    (slot.port, slot.status.port, slot.status.restarts, slot.started)
  }

  lemma {:induction false} GraceKeeps(slot: Slot, events: seq<Event>, k: nat, captured: Option<string>)
    requires k <= |events|
    ensures Fixed(Grace(slot, events, k, captured).slot) == Fixed(slot)
    decreases |events| - k
  {
    if captured.None? && k < |events| {
      match events[k]
      case GraceOver =>
      case Line(url) => GraceKeeps(slot, events, k + 1, url);
      case Stderr(text) => GraceKeeps(PushLine(slot, text), events, k + 1, captured);
      case _ => GraceKeeps(slot, events, k + 1, captured);
    }
  }

  lemma {:induction false} WaitKeeps(slot: Slot, events: seq<Event>, k: nat, announced: bool, captured: Option<string>)
    requires k <= |events|
    ensures Fixed(Wait(slot, events, k, announced, captured).slot) == Fixed(slot)
    decreases |events| - k
  {
    if k < |events| {
      match events[k]
      case Deadline =>
      case Exit(_) =>
      case Line(url) => WaitKeeps(slot, events, k + 1, announced || url.Some?, if url.Some? then url else captured);
      case Stderr(text) => WaitKeeps(PushLine(slot, text), events, k + 1, announced, captured);
      case FastProbe(_, _, _) => WaitKeeps(slot, events, k + 1, announced, captured);
      case SlowProbe(_, _, _) =>
        WaitKeeps(slot, events, k + 1, announced, captured);
        GraceKeeps(Confirmed(slot, events[k]), events, k + 1, captured);
      case GraceOver => WaitKeeps(slot, events, k + 1, announced, captured);
    }
  }

  /** The port of the first registration of a name. */
  function FirstPort(ops: seq<Op>, name: string): Option<nat> {
    if ops == [] then None
    else
      var before, op := FirstPort(ops[..|ops| - 1], name), ops[|ops| - 1];
      if before.None? && op.Register? && op.name == name then Some(op.port) else before
  }

  /** How many starts of a name got past every check before the spawn. */
  function Launches(ops: seq<Op>, name: string): nat {
    if ops == [] then 0
    else
      var front, op := ops[..|ops| - 1], ops[|ops| - 1];
      var slots := Run(front);
      Launches(front, name) + if op.Start? && op.name == name && name in slots && Clears(slots[name], op.world) then 1 else 0
  }

  lemma StartCounts(slot: Slot, w: World)
    ensures Fixed(StartSlot(slot, w).slot)
         == if Clears(slot, w) then (slot.port, slot.status.port, slot.status.restarts + 1, true) else Fixed(slot)
  {
    if Clears(slot, w) && w.spawned.Some? {
      var s := SetState(slot, Starting);
      var cleared := s.(status := s.status.(restarts := s.status.restarts + 1), stderrTail := [], started := true);
      WaitKeeps(cleared.(status := cleared.status.(pid := w.spawned.value)), w.events, 0, false, None);
    }
  }

  /** Registering a name again changes nothing: a slot keeps the port of its first registration
      for ever. Its restart count is the number of launches that were attempted. */
  lemma {:induction false} PortsAndRestarts(ops: seq<Op>, name: string)
    ensures name in Run(ops) <==> FirstPort(ops, name).Some?
    ensures name in Run(ops) ==>
      Fixed(Run(ops)[name]) == (FirstPort(ops, name).value, FirstPort(ops, name).value, Launches(ops, name), Launches(ops, name) > 0)
    ensures name !in Run(ops) ==> Launches(ops, name) == 0
  {
    if ops != [] {
      var front, op := ops[..|ops| - 1], ops[|ops| - 1];
      PortsAndRestarts(front, name);
      if op.Start? && op.name == name && name in Run(front) {
        StartCounts(Run(front)[name], op.world);
      }
    }
  }
}

/** The supervisor's record of each instance, through registering, starting, stopping and
    whatever the harness prints in between. The processes, sockets and clocks around it are
    events: what they do is arbitrary, what the supervisor records of it is not. */
module Lifecycle {
  import opened Text

  datatype RuntimeState = Absent | Starting | Ready | Stopping | Stopped | Failed

  datatype Error =
    | Unknown
    | PortInUse
    | WorkspaceMissing
    | Provision
    | Spawn
    | ExitedEarly(code: Option<int>, tail: seq<string>)
    | Timeout(tail: seq<string>)

  datatype Status = Status(
    state: RuntimeState, version: Option<string>, pid: Option<nat>, port: nat, restarts: nat,
    readyInMs: Option<nat>, lastError: Option<Error>, authUrl: Option<string>)

  /** `child` is the process handle a slot can hold. */
  datatype Slot = Slot(port: nat, child: Option<nat>, status: Status, stderrTail: seq<string>, started: bool)

  const DEFAULT_TAIL_LINES: nat := 50

  function NewSlot(port: nat): Slot {
    Slot(port, None, Status(Absent, None, None, port, 0, None, None, None), [], false)
  }

  // ---------------------------------------------------------------- the bounded tail

  function PushedBounded(buffer: seq<string>, line: string, max: nat): seq<string>
    requires max > 0
  {
    (if |buffer| >= max then buffer[1..] else buffer) + [line]
  }

  method PushBounded(buffer: seq<string>, line: string, max: nat) returns (out: seq<string>)
    requires max > 0
    ensures out == PushedBounded(buffer, line, max)
  {
    out := buffer;
    if |out| >= max {
      out := out[1..];
    }
    out := out + [line];
  }

  /** The last at most `max` lines. */
  function LastLines(lines: seq<string>, max: nat): seq<string> {
    if |lines| <= max then lines else lines[|lines| - max..]
  }

  /** Pushing onto the last lines gives the last lines. */
  lemma PushKeepsLast(lines: seq<string>, line: string, max: nat)
    requires max > 0
    ensures PushedBounded(LastLines(lines, max), line, max) == LastLines(lines + [line], max)
  {
  }

  function PushLine(slot: Slot, line: string): Slot {
    slot.(stderrTail := PushedBounded(slot.stderrTail, line, DEFAULT_TAIL_LINES))
  }

  // ---------------------------------------------------------------- waiting for readiness

  /** What can happen while the supervisor waits. `Line` is a line received, with the URL if
      it announces one; `Stderr` is a line entering the tail; the probes are the two timers
      with the answer of the port. */
  datatype Event =
    | Exit(code: Option<int>)
    | Line(url: Option<string>)
    | Stderr(text: string)
    | FastProbe(up: bool, version: Option<string>, ms: Option<nat>)
    | SlowProbe(up: bool, version: Option<string>, ms: Option<nat>)
    | Deadline
    | GraceOver

  datatype Waited = Waited(slot: Slot, error: Option<Error>, used: nat)

  function Confirmed(slot: Slot, e: Event): Slot
    requires e.FastProbe? || e.SlowProbe?
  {
    slot.(status := slot.status.(readyInMs := e.ms, version := e.version, state := Ready))
  }

  function WithUrl(slot: Slot, url: Option<string>): Slot {
    slot.(status := slot.status.(authUrl := url))
  }

  function TimedOut(slot: Slot, used: nat): Waited {
    Waited(slot.(status := slot.status.(state := Failed)), Some(Timeout(slot.stderrTail)), used)
  }

  /** The wait from the k-th event on. Running out of events is the deadline. */
  function Wait(slot: Slot, events: seq<Event>, k: nat, announced: bool, captured: Option<string>): Waited
    requires k <= |events|
    decreases |events| - k
  {
    if k == |events| then TimedOut(slot, k)
    else
      match events[k]
      case Deadline => TimedOut(slot, k + 1)
      case Exit(code) =>
        var error := ExitedEarly(code, slot.stderrTail);
        Waited(slot.(status := slot.status.(pid := None, lastError := Some(error), state := Failed)), Some(error), k + 1)
      case Line(url) => Wait(slot, events, k + 1, announced || url.Some?, if url.Some? then url else captured)
      case Stderr(text) => Wait(PushLine(slot, text), events, k + 1, announced, captured)
      case FastProbe(up, _, _) =>
        if announced && up then Waited(WithUrl(Confirmed(slot, events[k]), captured), None, k + 1)
        else Wait(slot, events, k + 1, announced, captured)
      case SlowProbe(up, _, _) =>
        if up then Grace(Confirmed(slot, events[k]), events, k + 1, captured)
        else Wait(slot, events, k + 1, announced, captured)
      case GraceOver => Wait(slot, events, k + 1, announced, captured)
  }

  /** After the port answered: lines are still read until one announces a URL or the window
      closes. */
  function Grace(slot: Slot, events: seq<Event>, k: nat, captured: Option<string>): (r: Waited)
    requires k <= |events|
    ensures r.error.None?
    decreases |events| - k
  {
    if captured.Some? || k == |events| then Waited(WithUrl(slot, captured), None, k)
    else
      match events[k]
      case GraceOver => Waited(WithUrl(slot, captured), None, k)
      case Line(url) => Grace(slot, events, k + 1, url)
      case Stderr(text) => Grace(PushLine(slot, text), events, k + 1, captured)
      case _ => Grace(slot, events, k + 1, captured)
  }

  // ---------------------------------------------------------------- operations on a slot

  /** What a start meets: whether the port answers and to whom it belongs, the workspace, the
      provisioning, the spawned process (`None` if it could not be), and the wait. */
  datatype World = World(answers: bool, owned: bool, workspace: bool, provisioned: bool, spawned: Option<Option<nat>>, events: seq<Event>)

  function SetState(slot: Slot, state: RuntimeState): Slot {
    slot.(status := slot.status.(state := state))
  }

  /** `start` on a slot: the slot afterwards, the error if any, and how many events it used. */
  function StartSlot(slot: Slot, w: World): Waited {
    if slot.status.state == Ready then Waited(slot, None, 0)
    else
      var s := SetState(slot, Starting);
      if w.answers && !w.owned then Waited(SetState(s, Failed), Some(PortInUse), 0)
      else if !w.workspace then Waited(SetState(s, Failed), Some(WorkspaceMissing), 0)
      else if !w.provisioned then Waited(s, Some(Provision), 0)
      else
        var cleared := s.(status := s.status.(restarts := s.status.restarts + 1), stderrTail := [], started := true);
        if w.spawned.None? then Waited(cleared, Some(Spawn), 0)
        else Wait(cleared.(status := cleared.status.(pid := w.spawned.value)), w.events, 0, false, None)
  }

  function StopSlot(slot: Slot): Slot {
    slot.(child := None, status := slot.status.(pid := None, authUrl := None, state := Stopped))
  }

  type Slots = map<string, Slot>

  /** `stop_all`: every instance that reports ready is stopped. */
  function AllStopped(slots: Slots): Slots {
    map n | n in slots :: if slots[n].status.state == Ready then StopSlot(slots[n]) else slots[n]
  }

  function Failures(name: string, error: Option<Error>): seq<(string, Error)> {
    match error
    case None => []
    case Some(e) => [(name, e)]
  }

  class MultiSupervisor {
    var slots: Slots

    constructor ()
      ensures slots == map[]
    {
      slots := map[];
    }

    method Register(name: string, port: nat)
      modifies this
      ensures slots == if name in old(slots) then old(slots) else old(slots)[name := NewSlot(port)]
    {
      if name !in slots {
        slots := slots[name := NewSlot(port)];
      }
    }

    method PumpStderr(name: string, line: string)
      modifies this
      ensures slots == if name in old(slots) then old(slots)[name := PushLine(old(slots)[name], line)] else old(slots)
    {
      if name in slots {
        var tail := PushBounded(slots[name].stderrTail, line, DEFAULT_TAIL_LINES);
        slots := slots[name := slots[name].(stderrTail := tail)];
      }
    }

    method Start(name: string, w: World) returns (error: Option<Error>)
      modifies this
      ensures name !in old(slots) ==> error == Some(Unknown) && slots == old(slots)
      ensures name in old(slots) ==> error == StartSlot(old(slots)[name], w).error
                                     && slots == old(slots)[name := StartSlot(old(slots)[name], w).slot]
    {
      if name !in slots {
        return Some(Unknown);
      }
      var slot := slots[name];
      if slot.status.state == Ready {
        assert slots == slots[name := slot];
        return None;
      }
      slots := slots[name := SetState(slot, Starting)];
      if w.answers && !w.owned {
        slots := slots[name := SetState(slots[name], Failed)];
        return Some(PortInUse);
      }
      if !w.workspace {
        slots := slots[name := SetState(slots[name], Failed)];
        return Some(WorkspaceMissing);
      }
      if !w.provisioned {
        return Some(Provision);
      }
      slots := slots[name := slots[name].(status := slots[name].status.(restarts := slots[name].status.restarts + 1), stderrTail := [], started := true)];
      if w.spawned.None? {
        return Some(Spawn);
      }
      slots := slots[name := slots[name].(status := slots[name].status.(pid := w.spawned.value))];
      error := AwaitReady(name, w.events);
    }

    method AwaitReady(name: string, events: seq<Event>) returns (error: Option<Error>)
      requires name in slots
      modifies this
      ensures var r := Wait(old(slots)[name], events, 0, false, None);
              error == r.error && slots == old(slots)[name := r.slot]
    {
      var announced := false;
      var captured: Option<string> := None;
      var k := 0;
      ghost var others := slots;
      while k < |events| && !events[k].Deadline?
        invariant k <= |events| && name in slots && slots == others[name := slots[name]]
        invariant Wait(others[name], events, 0, false, None) == Wait(slots[name], events, k, announced, captured)
      {
        var e := events[k];
        k := k + 1;
        match e {
          case Exit(code) =>
            var tail := slots[name].stderrTail;
            var failure := ExitedEarly(code, tail);
            slots := slots[name := slots[name].(status := slots[name].status.(pid := None, lastError := Some(failure), state := Failed))];
            return Some(failure);
          case Line(url) =>
            if url.Some? {
              captured := url;
              announced := true;
            }
          case Stderr(text) =>
            PumpStderr(name, text);
          case FastProbe(up, _, _) =>
            if announced && up {
              slots := slots[name := WithUrl(Confirmed(slots[name], e), captured)];
              return None;
            }
          case SlowProbe(up, _, _) =>
            if up {
              slots := slots[name := Confirmed(slots[name], e)];
              GraceWindow(name, events, k, captured);
              return None;
            }
          case _ =>
        }
      }
      var tail := slots[name].stderrTail;
      slots := slots[name := SetState(slots[name], Failed)];
      return Some(Timeout(tail));
    }

    method GraceWindow(name: string, events: seq<Event>, from: nat, url: Option<string>)
      requires name in slots && from <= |events|
      modifies this
      ensures slots == old(slots)[name := Grace(old(slots)[name], events, from, url).slot]
    {
      var captured := url;
      var k := from;
      ghost var others := slots;
      while captured.None? && k < |events| && !events[k].GraceOver?
        invariant from <= k <= |events| && name in slots && slots == others[name := slots[name]]
        invariant Grace(others[name], events, from, url) == Grace(slots[name], events, k, captured)
      {
        match events[k] {
          case Line(announced) =>
            if announced.Some? {
              captured := announced;
            }
          case Stderr(text) =>
            PumpStderr(name, text);
          case _ =>
        }
        k := k + 1;
      }
      slots := slots[name := WithUrl(slots[name], captured)];
    }

    method Stop(name: string) returns (error: Option<Error>)
      modifies this
      ensures name !in old(slots) ==> error == Some(Unknown) && slots == old(slots)
      ensures name in old(slots) ==> error == None && slots == old(slots)[name := StopSlot(old(slots)[name])]
    {
      if name !in slots {
        return Some(Unknown);
      }
      slots := slots[name := SetState(slots[name], Stopping)];
      slots := slots[name := slots[name].(child := None, status := slots[name].status.(pid := None, authUrl := None, state := Stopped))];
      return None;
    }

    method StopAll() returns (failures: seq<(string, Error)>)
      modifies this
      ensures slots == AllStopped(old(slots)) && failures == []
    {
      failures := [];
      var left := slots.Keys;
      while left != {}
        invariant left <= slots.Keys == old(slots).Keys && failures == []
        invariant forall n :: n in slots ==> slots[n] == if n in left then old(slots)[n] else AllStopped(old(slots))[n]
        decreases left
      {
        var name :| name in left;
        left := left - {name};
        if slots[name].status.state == Ready {
          var error := Stop(name);
          failures := failures + Failures(name, error);
        }
      }
    }
  }
}

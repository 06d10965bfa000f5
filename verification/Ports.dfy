/** Port allocation: the preferred port if it can be had, otherwise the lowest one that can. */
module Ports {
  import opened Text
  import opened Numbers

  type Port = n: nat | n < 0x1_0000

  const HARNESS_PORT: Port := 3080
  const DEFAULT_BASE_PORT: Port := 3081
  const MAX_PROBES: nat := 1000

  datatype Outcome = Allocated(port: Port) | Reassigned(wanted: Port, chosen: Port)

  function PortOf(o: Outcome): Port {
    match o
    case Allocated(p) => p
    case Reassigned(_, p) => p
  }

  /** `free` is the set of ports that can be bound while the allocation runs. */
  predicate Usable(p: Port, claimed: set<Port>, free: set<Port>) {
    p !in claimed && p in free
  }

  /** The probes of the window from `offset` on; the window ends with the last port. */
  function Probe(start: Port, offset: nat, claimed: set<Port>, free: set<Port>): Option<Port>
    requires offset <= MAX_PROBES
    decreases MAX_PROBES - offset
  {
    if offset == MAX_PROBES || start + offset >= 0x1_0000 then None
    else if Usable(start + offset, claimed, free) then Some(start + offset)
    else Probe(start, offset + 1, claimed, free)
  }

  lemma {:induction false} ProbeMeaning(start: Port, offset: nat, claimed: set<Port>, free: set<Port>)
    requires offset <= MAX_PROBES
    ensures var r := Probe(start, offset, claimed, free);
      && (r.Some? ==> start + offset <= r.value < start + MAX_PROBES && Usable(r.value, claimed, free))
      && (r.Some? ==> forall p: Port :: start + offset <= p < r.value ==> !Usable(p, claimed, free))
      && (r.None? ==> forall p: Port :: start + offset <= p < start + MAX_PROBES ==> !Usable(p, claimed, free))
    decreases MAX_PROBES - offset
  {
    if offset < MAX_PROBES && start + offset < 0x1_0000 && !Usable(start + offset, claimed, free) {
      ProbeMeaning(start, offset + 1, claimed, free);
    }
  }

  /** The least usable port of the window. */
  function FirstUsable(start: Port, claimed: set<Port>, free: set<Port>): (r: Option<Port>)
    ensures r.Some? ==> start <= r.value < start + MAX_PROBES && Usable(r.value, claimed, free)
    ensures r.Some? ==> forall p: Port :: start <= p < r.value ==> !Usable(p, claimed, free)
    ensures r.None? ==> forall p: Port :: start <= p < start + MAX_PROBES ==> !Usable(p, claimed, free)
  {
    ProbeMeaning(start, 0, claimed, free);
    Probe(start, 0, claimed, free)
  }

  /** The outcome of an allocation; `None` is the error `PORT_UNAVAILABLE`. */
  function Allocation(preferred: Option<Port>, base: Port, claimed: set<Port>, free: set<Port>): Option<Outcome> {
    if preferred == Some(HARNESS_PORT) || base == HARNESS_PORT then None
    else if preferred.Some? && Usable(preferred.value, claimed, free) then Some(Allocated(preferred.value))
    else match FirstUsable(Max(base, DEFAULT_BASE_PORT), claimed, free)
      case None => None
      case Some(p) =>
        Some(if preferred.Some? && preferred.value != p then Reassigned(preferred.value, p) else Allocated(p))
  }

  method Allocate(preferred: Option<Port>, base: Port, claimed: set<Port>, free: set<Port>)
    returns (r: Option<Outcome>)
    ensures r == Allocation(preferred, base, claimed, free)
  {
    if preferred == Some(HARNESS_PORT) || base == HARNESS_PORT {
      return None;
    }
    if preferred.Some? {
      var want := preferred.value;
      if want !in claimed && want in free {
        return Some(Allocated(want));
      }
    }
    var start: Port := Max(base, DEFAULT_BASE_PORT);
    ghost var least := FirstUsable(start, claimed, free);
    var offset := 0;
    while offset < MAX_PROBES
      invariant offset <= MAX_PROBES && Probe(start, offset, claimed, free) == least
    {
      ProbeStep(start, offset, claimed, free);
      if start + offset >= 0x1_0000 {
        break;
      }
      var candidate: Port := start + offset;
      offset := offset + 1;
      if candidate in claimed {
        continue;
      }
      if candidate in free {
        return Some(match preferred
                    case Some(want) => if want != candidate then Reassigned(want, candidate) else Allocated(candidate)
                    case None => Allocated(candidate));
      }
    }
    return None;
  }

  /** One probe: past the last port nothing is found, a usable port is, any other is skipped. */
  lemma ProbeStep(start: Port, offset: nat, claimed: set<Port>, free: set<Port>)
    requires offset < MAX_PROBES
    ensures Probe(start, offset, claimed, free) ==
      if start + offset >= 0x1_0000 then None
      else if Usable(start + offset, claimed, free) then Some(start + offset)
      else Probe(start, offset + 1, claimed, free)
  {
  }

  /** Allocation never hands out the harness's own port; it keeps a usable preference,
      otherwise takes the least usable port of the window and says so; and it fails exactly
      when port 3080 was asked for or neither the preference nor the window can be had. */
  lemma AllocationMeaning(preferred: Option<Port>, base: Port, claimed: set<Port>, free: set<Port>)
    ensures var r := Allocation(preferred, base, claimed, free);
            var start := if base < 3081 then 3081 else base;
            var keeps := preferred.Some? && Usable(preferred.value, claimed, free);
            && (r.None? <==>
                  || preferred == Some(3080) || base == 3080
                  || (!keeps && forall p: Port :: start <= p < start + 1000 ==> !Usable(p, claimed, free)))
            && (r.Some? ==> var p := PortOf(r.value);
                  && p != 3080 && Usable(p, claimed, free)
                  && (if keeps then r.value == Allocated(preferred.value)
                      else start <= p < start + 1000 && forall q: Port :: start <= q < p ==> !Usable(q, claimed, free))
                  && (r.value.Reassigned? <==> preferred.Some? && !keeps)
                  && (r.value.Reassigned? ==> r.value.wanted == preferred.value))
  {
    var r := FirstUsable(Max(base, DEFAULT_BASE_PORT), claimed, free);
    if r.Some? && preferred.Some? && !Usable(preferred.value, claimed, free) {
      assert preferred.value != r.value;
    }
  }
}

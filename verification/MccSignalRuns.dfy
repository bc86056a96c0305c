/** Signals over whole runs. */
module MccSignalRuns {
  import opened MccTypes
  import opened MccShared
  import opened MccSections
  import opened MccProtocol
  import opened MccRuns

  /** What a step added to a ring that it did not drain. */
  ghost function Appended(before: seq<Signal>, after: seq<Signal>): seq<Signal> {
    if before <= after then after[|before|..] else []
  }

  /** Every signal ever queued for a core up to state k, read off the rings of consecutive states. */
  ghost function Posted(x: Run, k: nat, core: nat): seq<Signal>
    requires k < |x.states| && forall m :: 0 <= m <= k ==> core < |x.states[m].shared.rings|
  {
    if k == 0 then [] else
    Posted(x, k - 1, core) + Appended(x.states[k - 1].shared.rings[core], x.states[k].shared.rings[core])
  }

  /** Every signal that interrupt handlers of a core took out up to state k. */
  ghost function Serviced(x: Run, k: nat, core: nat): seq<Signal>
    requires k < |x.states| && forall m :: 0 <= m <= k ==> core < |x.states[m].shared.rings|
  {
    if k == 0 then [] else
    var before, after := x.states[k - 1].shared.rings[core], x.states[k].shared.rings[core];
    Serviced(x, k - 1, core) + if before <= after then [] else before
  }

  /** How many messages were ever put on the list of an endpoint. */
  ghost function SendCount(trace: seq<Event>, ep: Endpoint): nat {
    if trace == [] then 0
    else SendCount(trace[..|trace| - 1], ep)
         + var e := trace[|trace| - 1]; if e.Sent? && e.endpoint == ep then 1 else 0
  }

  /** What a step does to the ring of one core, as far as one endpoint is concerned. */
  ghost predicate RingEffect(before: seq<Signal>, e: Event, after: seq<Signal>, core: nat, ep: Endpoint) {
    if before <= after then
      multiset(after[|before|..])[Signal(BufferQueued, ep)]
      == (if e.Sent? && e.endpoint == ep && ep.core == core then 1 else 0)
    else after == [] && !e.Sent?
  }

  lemma ToldEffect(s: Shared, self: nat, core: nat, e: Event, ep: Endpoint)
    requires core < |s.rings| && !e.Sent?
    ensures RingEffect(s.rings[core], e, Told(s, self, 0, core), core, ep)
  {
    var before, after := s.rings[core], Told(s, self, 0, core);
    assert after == before || after == before + [FREED_SIGNAL];
    assert after[|before|..] == [] || after[|before|..] == [FREED_SIGNAL];
  }

  lemma SendRings(sys: System, t: nat, to: Endpoint, msg: seq<Byte>, timeout: Timeout, core: nat, ep: Endpoint)
    requires sys.Ok() && t < |sys.tasks| && |msg| <= sys.shared.bufferSize && core < |sys.shared.rings|
    ensures var (r, e) := SendPass(sys, t, to, msg, timeout); var s := sys.shared;
            core < |r.shared.rings| && RingEffect(s.rings[core], e, r.shared.rings[core], core, ep)
  {
    SendAllOrNothing(sys.shared, to, msg);
    var (r, e) := SendPass(sys, t, to, msg, timeout);
    var before, after := sys.shared.rings[core], r.shared.rings[core];
    assert after[|before|..] == if e.Sent? && core == to.core then [Signal(BufferQueued, to)] else [];
  }

  lemma ReceiveRings(sys: System, t: nat, to: Endpoint, slot: nat, mode: RecvMode, core: nat, ep: Endpoint)
    requires sys.Ok() && t < |sys.tasks| && slot < |sys.shared.table| && core < |sys.shared.rings|
    ensures var (r, e) := ReceivePass(sys, t, to, slot, mode); var s := sys.shared;
            core < |r.shared.rings| && RingEffect(s.rings[core], e, r.shared.rings[core], core, ep)
  {
    hide System.Partitioned, Shared.Ok, RingEffect;
    var s := sys.shared;
    var (r, e) := ReceivePass(sys, t, to, slot, mode);
    SameRing(s.rings[core], e, core, ep);
    if mode.ZeroCopy? {
      NoCopyEffect(s, slot);
    } else {
      CopyEffect(s, slot, mode.size, sys.tasks[t].core);
      ToldEffect(s, sys.tasks[t].core, core, e, ep);
    }
  }

  lemma TableKeepsRings(sys: System, step: Step)
    requires sys.Ok() && Enabled(sys, step)
    requires step.action.CreateEndpoint? || step.action.DestroyEndpoint? || step.action.Destroy?
    ensures Perform(sys, step).0.shared.rings == sys.shared.rings && !Perform(sys, step).1.Sent?
  {
    hide System.Partitioned, Shared.Ok;
    var s, task := sys.shared, sys.tasks[step.task];
    assert sys.TaskOk(task);
    match step.action
    case CreateEndpoint(port) => RegisterEffect(s, Endpoint(task.core, task.node, port));
    case DestroyEndpoint(to) => RemoveEffect(s, to);
    case Destroy(node) => RemoveNodeTable(s, node, 0);
  }

  lemma FreeRings(sys: System, step: Step, core: nat, ep: Endpoint)
    requires sys.Ok() && Enabled(sys, step) && step.action.FreeBuffer? && core < |sys.shared.rings|
    ensures var (r, e) := Perform(sys, step); var s := sys.shared;
            core < |r.shared.rings| && RingEffect(s.rings[core], e, r.shared.rings[core], core, ep)
  {
    hide System.Partitioned, Shared.Ok, RingEffect;
    var b, task := step.action.buffer, sys.tasks[step.task];
    HeldIsElsewhere(sys, b);
    FreeEffect(sys.shared, b, task.core);
    ToldEffect(sys.shared, task.core, core, Freed(b), ep);
  }

  lemma InterruptRings(sys: System, step: Step, core: nat, ep: Endpoint)
    requires sys.Ok() && Enabled(sys, step) && step.action.Interrupt? && core < |sys.shared.rings|
    ensures var (r, e) := Perform(sys, step); var s := sys.shared;
            core < |r.shared.rings| && RingEffect(s.rings[core], e, r.shared.rings[core], core, ep)
  {
    hide System.Partitioned, Shared.Ok, RingEffect;
    assert sys.TaskOk(sys.tasks[step.task]);
    DrainedRing(sys.shared.rings[core], Silent, core, ep);
    SameRing(sys.shared.rings[core], Silent, core, ep);
  }

  /** Every step, seen from one ring and one endpoint. */
  lemma StepRings(sys: System, step: Step, core: nat, ep: Endpoint)
    requires sys.Ok() && Enabled(sys, step) && core < |sys.shared.rings|
    ensures var (r, e) := Perform(sys, step); var s := sys.shared;
            core < |r.shared.rings| && RingEffect(s.rings[core], e, r.shared.rings[core], core, ep)
  {
    hide System.Partitioned, Shared.Ok, RingEffect;
    var (t, s, task) := (step.task, sys.shared, sys.tasks[step.task]);
    var e := Perform(sys, step).1;
    assert sys.TaskOk(task);
    if !e.Sent? {
      SameRing(s.rings[core], e, core, ep);
    }
    match step.action
    case CreateEndpoint(_) => TableKeepsRings(sys, step);
    case DestroyEndpoint(_) => TableKeepsRings(sys, step);
    case Destroy(_) => TableKeepsRings(sys, step);
    case Send(to, msg, timeout) =>
      if |msg| <= s.bufferSize {
        SendRings(sys, t, to, msg, timeout, core, ep);
      }
    case RetrySend => SendRings(sys, t, task.pc.endpoint, task.pc.msg, task.pc.timeout, core, ep);
    case Receive => ReceiveRings(sys, t, task.pc.endpoint, task.pc.slot, task.pc.mode, core, ep);
    case FreeBuffer(_) => FreeRings(sys, step, core, ep);
    case Interrupt => InterruptRings(sys, step, core, ep);
    case _ =>
  }

  lemma SameRing(ring: seq<Signal>, e: Event, core: nat, ep: Endpoint)
    requires !e.Sent?
    ensures RingEffect(ring, e, ring, core, ep)
  {
    assert ring[|ring|..] == [];
  }

  lemma DrainedRing(ring: seq<Signal>, e: Event, core: nat, ep: Endpoint)
    requires !e.Sent?
    ensures RingEffect(ring, e, [], core, ep)
  {
    if ring == [] {
      SameRing(ring, e, core, ep);
    }
  }

  lemma CoreHasRing(c: Config, x: Run, core: nat)
    requires IsRun(c, x) && core < c.cores
    ensures forall m :: 0 <= m < |x.states| ==> core < |x.states[m].shared.rings|
  {
    forall m | 0 <= m < |x.states| ensures core < |x.states[m].shared.rings| {
      AlwaysOk(c, x, m);
    }
  }

  /**
   Signal accounting: what was ever queued for a core is what its interrupt handlers took
   followed by what is still in its ring; and for every endpoint the core was sent exactly one
   BUFFER_QUEUED signal per message put on the endpoint's list, while no other core got any.
   */
  lemma {:induction false} SignalAccounting(c: Config, x: Run, k: nat, core: nat, ep: Endpoint)
    requires IsRun(c, x) && k < |x.states| && core < c.cores
    ensures forall m :: 0 <= m <= k ==> core < |x.states[m].shared.rings|
    ensures Posted(x, k, core) == Serviced(x, k, core) + x.states[k].shared.rings[core]
    ensures multiset(Posted(x, k, core))[Signal(BufferQueued, ep)]
            == if ep.core == core then SendCount(x.trace[..k], ep) else 0
    ensures |x.states[k].shared.rings[core]| < c.ringSize
  {
    hide System.Partitioned, Shared.Ok, Next, Perform, RingEffect, Appended, SendCount, System.Ok;
    CoreHasRing(c, x, core);
    AlwaysOk(c, x, k);
    RingBounded(x.states[k], core);
    if k == 0 {
      CountOfNone(ep);
    } else {
      SignalAccounting(c, x, k - 1, core, ep);
      var before, after := x.states[k - 1].shared.rings[core], x.states[k].shared.rings[core];
      RingStep(c, x, k - 1, core, ep);
      AccountStep(Posted(x, k - 1, core), Serviced(x, k - 1, core), before, x.trace[k - 1], after, core, ep);
      CountOfLast(x.trace, k, ep);
    }
  }

  lemma CountOfNone(ep: Endpoint)
    ensures SendCount([], ep) == 0
  {
  }

  lemma CountOfLast(trace: seq<Event>, k: nat, ep: Endpoint)
    requires 0 < k <= |trace|
    ensures var e := trace[k - 1];
            SendCount(trace[..k], ep) == SendCount(trace[..k - 1], ep) + if e.Sent? && e.endpoint == ep then 1 else 0
  {
    assert trace[..k][..k - 1] == trace[..k - 1];
  }

  /** The effect of one step of a run on one ring. */
  lemma RingStep(c: Config, x: Run, k: nat, core: nat, ep: Endpoint)
    requires IsRun(c, x) && k < |x.steps|
    requires core < |x.states[k].shared.rings| && core < |x.states[k + 1].shared.rings|
    ensures RingEffect(x.states[k].shared.rings[core], x.trace[k], x.states[k + 1].shared.rings[core], core, ep)
  {
    hide System.Partitioned, Shared.Ok, Perform, RingEffect;
    StepAt(c, x, k);
    if Enabled(x.states[k], x.steps[k]) {
      StepRings(x.states[k], x.steps[k], core, ep);
    } else {
      SameRing(x.states[k].shared.rings[core], x.trace[k], core, ep);
    }
  }

  lemma RingBounded(sys: System, core: nat)
    requires sys.Ok() && core < |sys.shared.rings|
    ensures |sys.shared.rings[core]| < sys.shared.ringSize
  {
  }

  lemma AccountStep(posted: seq<Signal>, serviced: seq<Signal>, before: seq<Signal>, e: Event, after: seq<Signal>,
                    core: nat, ep: Endpoint)
    requires posted == serviced + before && RingEffect(before, e, after, core, ep)
    ensures posted + Appended(before, after) == serviced + (if before <= after then [] else before) + after
    ensures multiset(posted + Appended(before, after))[Signal(BufferQueued, ep)]
            == multiset(posted)[Signal(BufferQueued, ep)]
               + if e.Sent? && e.endpoint == ep && ep.core == core then 1 else 0
  {
    hide RingEffect, Appended;
    var added := Appended(before, after);
    CountAppend(posted, added, Signal(BufferQueued, ep));
    AppendedCount(before, e, after, core, ep);
    AppendedIs(before, after);
    if before <= after {
      Regroup(serviced, before, added);
    } else {
      assert posted + added == posted && serviced + before + after == posted;
    }
  }

  lemma Regroup(a: seq<Signal>, b: seq<Signal>, c: seq<Signal>)
    ensures (a + b) + c == a + [] + (b + c)
  {
  }

  lemma AppendedIs(before: seq<Signal>, after: seq<Signal>)
    ensures if before <= after then after == before + Appended(before, after) else Appended(before, after) == []
  {
  }

  lemma CountAppend(a: seq<Signal>, b: seq<Signal>, signal: Signal)
    ensures multiset(a + b)[signal] == multiset(a)[signal] + multiset(b)[signal]
  {
  }

  lemma AppendedCount(before: seq<Signal>, e: Event, after: seq<Signal>, core: nat, ep: Endpoint)
    requires RingEffect(before, e, after, core, ep)
    ensures before <= after || after == []
    ensures multiset(Appended(before, after))[Signal(BufferQueued, ep)]
            == if e.Sent? && e.endpoint == ep && ep.core == core then 1 else 0
  {
  }

  /** Every waiting BUFFER_QUEUED signal is for a port of the core in whose ring it is. */
  lemma SignalsReachTheirCore(c: Config, x: Run, k: nat, core: nat, signal: Signal)
    requires IsRun(c, x) && k < |x.states| && core < |x.states[k].shared.rings|
    requires signal in x.states[k].shared.rings[core] && signal.kind == BufferQueued
    ensures signal.destination.core == core && signal.destination.port != RESERVED_PORT
  {
    AlwaysOk(c, x, k);
  }
}

/** Ordered delivery per endpoint, and what a two-phase receive can deliver. */
module MccDelivery {
  import opened Options
  import opened MccTypes
  import opened MccShared
  import opened MccSections
  import opened MccProtocol
  import opened MccRuns

  /** The messages queued at entry i, oldest first. */
  ghost function Messages(s: Shared, i: nat): (m: seq<seq<Byte>>)
    requires s.Shaped() && i < |s.table|
    ensures |m| == |s.table[i].queue|
  {
    var q := s.table[i].queue;
    seq(|q|, k requires 0 <= k < |q| => assert q[k] in q; s.cells[q[k]].Message())
  }

  /** The messages sent to an endpoint since it was last created. */
  ghost function SentTo(trace: seq<Event>, ep: Endpoint): seq<seq<Byte>> {
    if trace == [] then [] else
    var before := SentTo(trace[..|trace| - 1], ep);
    match trace[|trace| - 1]
    case Opened(_, e) => if e == ep then [] else before
    case Sent(e, msg) => if e == ep then before + [msg] else before
    case _ => before
  }

  /** The messages taken from a table entry since an endpoint was last created in it. */
  ghost function TakenFrom(trace: seq<Event>, slot: nat): seq<seq<Byte>> {
    if trace == [] then [] else
    var before := TakenFrom(trace[..|trace| - 1], slot);
    match trace[|trace| - 1]
    case Opened(i, _) => if i == slot then [] else before
    case Taken(_, i, receipt, _) =>
      if i == slot && receipt.Received? then before + [receipt.message] else before
    case _ => before
  }

  function SentNow(e: Event, ep: Endpoint): seq<seq<Byte>> {
    if e.Sent? && e.endpoint == ep then [e.msg] else []
  }

  function TakenNow(e: Event, slot: nat): seq<seq<Byte>> {
    if e.Taken? && e.slot == slot && e.receipt.Received? then [e.receipt.message] else []
  }

  /** What one step means for the endpoint that occupies entry i afterwards. */
  ghost predicate EntryEffect(s: Shared, e: Event, r: Shared, i: nat)
    requires s.Shaped() && r.Shaped() && i < |s.table| == |r.table|
  {
    var ep := r.table[i].endpoint;
    if e.Opened? && e.slot == i then e.endpoint == ep && Messages(r, i) == []
    else
      !ep.Reserved() ==>
        && s.table[i].endpoint == ep
        && !(e.Opened? && e.endpoint == ep)
        && Messages(s, i) + SentNow(e, ep) == TakenNow(e, i) + Messages(r, i)
  }

  /** An occupied entry changes hands only by being closed. */
  ghost predicate EntryStays(s: Shared, e: Event, r: Shared, i: nat)
    requires i < |s.table| == |r.table|
  {
    !s.table[i].endpoint.Reserved() && !(e.Closed? && i in e.slots) ==> r.table[i].endpoint == s.table[i].endpoint
  }

  /** Messages do not change while the list stays and no buffer on it is written. */
  lemma SameMessages(s: Shared, r: Shared, i: nat)
    requires s.Shaped() && r.Shaped() && i < |s.table| == |r.table| && s.table[i].queue == r.table[i].queue
    requires forall b :: b in s.table[i].queue ==> b < |r.cells| && r.cells[b] == s.cells[b]
    ensures Messages(s, i) == Messages(r, i)
  {
    var q := s.table[i].queue;
    assert forall k :: 0 <= k < |q| ==> q[k] in q;
  }

  lemma RegisterEntry(s: Shared, ep: Endpoint, i: nat)
    requires s.Ok() && ep.core < |s.rings| && i < |s.table| && Register(s, ep).1 == Success
    ensures var r := Register(s, ep).0; var e := Opened(FirstFree(s.table), ep);
            r.Ok() && |r.table| == |s.table| && EntryEffect(s, e, r, i) && EntryStays(s, e, r, i)
  {
    RegisterEffect(s, ep);
    RegisterStatus(s, ep);
    var r := Register(s, ep).0;
    if i != FirstFree(s.table) {
      SameMessages(s, r, i);
    }
  }

  lemma CloseEntries(s: Shared, r: Shared, slots: set<nat>, i: nat)
    requires s.Ok() && r.Ok() && r.cells == s.cells && i < |s.table| == |r.table|
    requires if i in slots then r.table[i].endpoint.Reserved() else r.table[i] == s.table[i]
    ensures EntryEffect(s, Closed(slots), r, i) && EntryStays(s, Closed(slots), r, i)
  {
    if i !in slots {
      SameMessages(s, r, i);
    }
  }

  lemma SendEntry(sys: System, ep: Endpoint, msg: seq<Byte>, e: Event, i: nat)
    requires sys.Ok() && |msg| <= sys.shared.bufferSize && i < |sys.shared.table|
    requires var status := SendSection(sys.shared, ep, msg).1;
             if status == Some(Success) then e == Sent(ep, msg) else e == Silent || e.Failed?
    ensures var s := sys.shared; var r := SendSection(s, ep, msg).0;
            r.Ok() && |r.table| == |s.table| && EntryEffect(s, e, r, i) && EntryStays(s, e, r, i)
  {
    hide SendSection, EntryEffect, EntryStays, Lookup, System.Partitioned;
    var s := sys.shared;
    var (r, status) := SendSection(s, ep, msg);
    SendAllOrNothing(s, ep, msg);
    if status == None {
      QuietEntry(s, e, r, i);
    } else {
      OnePlaceOnly(sys, s.free[0]);
      NotQueued(s, s.free[0], i);
      if status == Some(Success) && Lookup(s, ep) == Some(i) {
        GainMessage(s, r, ep, msg, i);
      } else {
        OtherEntry(s, r, ep, e, i);
      }
    }
  }

  /** The entry to which a send adds its message. */
  lemma GainMessage(s: Shared, r: Shared, ep: Endpoint, msg: seq<Byte>, i: nat)
    requires s.Ok() && r.Ok() && i < |s.table| && s.free != [] && s.free[0] < |s.cells| == |r.cells|
    requires |msg| <= s.bufferSize && s.free[0] !in s.table[i].queue
    requires Lookup(s, ep) == Some(i) && r.table == s.table[i := Slot(ep, s.table[i].queue + [s.free[0]])]
    requires r.cells[s.free[0]] == s.cells[s.free[0]].Store(msg)
    requires forall k :: 0 <= k < |s.cells| && k != s.free[0] ==> r.cells[k] == s.cells[k]
    ensures EntryEffect(s, Sent(ep, msg), r, i) && EntryStays(s, Sent(ep, msg), r, i)
  {
    var q := s.table[i].queue;
    assert r.table[i].queue == q + [s.free[0]];
    assert forall k :: 0 <= k < |q| ==> q[k] in q;
    assert Messages(r, i) == Messages(s, i) + [msg];
  }

  /** An entry that gets no message from a pass of a send. */
  lemma OtherEntry(s: Shared, r: Shared, ep: Endpoint, e: Event, i: nat)
    requires s.Ok() && r.Ok() && i < |s.table| == |r.table| && s.free != [] && |s.cells| == |r.cells|
    requires s.free[0] !in s.table[i].queue && r.table[i] == s.table[i]
    requires forall k :: 0 <= k < |s.cells| && k != s.free[0] ==> r.cells[k] == s.cells[k]
    requires if e.Sent? then e.endpoint == ep && Lookup(s, ep) != Some(i) else e == Silent || e.Failed?
    ensures EntryEffect(s, e, r, i) && EntryStays(s, e, r, i)
  {
    SameMessages(s, r, i);
    if s.table[i].endpoint == ep && !ep.Reserved() {
      LookupFinds(s, i);
    }
  }

  lemma NotQueued(s: Shared, b: nat, i: nat)
    requires i < |s.table| && Queued(s.table)[b] == 0
    ensures b !in s.table[i].queue
  {
    QueuedSomewhere(s.table, b);
  }

  /** The first buffer of a list is nowhere else on the lists. */
  lemma HeadIsUnique(sys: System, slot: nat, i: nat)
    requires sys.Ok() && slot < |sys.shared.table| && i < |sys.shared.table|
    requires sys.shared.table[slot].queue != []
    ensures var q := sys.shared.table[slot].queue;
            if i == slot then q[0] !in q[1..] else q[0] !in sys.shared.table[i].queue
  {
    var table := sys.shared.table;
    var q := table[slot].queue;
    OnePlaceOnly(sys, q[0]);
    assert q == [q[0]] + q[1..];
    if i == slot {
      QueuedUpdate(table, i, table[i]);
      assert multiset(q)[q[0]] <= Queued(table)[q[0]];
      assert multiset(q) == multiset{q[0]} + multiset(q[1..]);
    } else {
      TwoQueues(table, slot, i);
      assert (multiset(q) + multiset(table[i].queue))[q[0]] <= Queued(table)[q[0]];
    }
  }

  lemma TakeEntry(sys: System, r: Shared, e: Event, slot: nat, i: nat)
    requires sys.Ok() && r.Ok() && slot < |sys.shared.table| && i < |sys.shared.table|
    requires sys.shared.table[slot].queue != [] && e.Taken? && e.slot == slot && e.receipt.Received?
    requires var s := sys.shared; var q := s.table[slot].queue;
             && r.table == s.table[slot := Slot(s.table[slot].endpoint, q[1..])]
             && q[0] < |s.cells| == |r.cells|
             && (forall k :: 0 <= k < |s.cells| && k != q[0] ==> r.cells[k] == s.cells[k])
             && e.receipt.message == s.cells[q[0]].Message()
    ensures EntryEffect(sys.shared, e, r, i) && EntryStays(sys.shared, e, r, i)
  {
    var s := sys.shared;
    var q := s.table[slot].queue;
    HeadIsUnique(sys, slot, i);
    if i == slot {
      var rest := s.WithQueue(i, q[1..]);
      DropHeadKeepsOk(s, i);
      SameMessages(rest, r, i);
      assert Messages(s, i) == [e.receipt.message] + Messages(rest, i);
    } else {
      SameMessages(s, r, i);
    }
  }

  /** A step that moves no message and closes or opens nothing. */
  lemma QuietEntry(s: Shared, e: Event, r: Shared, i: nat)
    requires s.Ok() && r.Ok() && i < |s.table| && r.table == s.table && r.cells == s.cells
    requires !e.Opened? && !e.Closed? && !e.Sent? && !e.Taken?
    ensures EntryEffect(s, e, r, i) && EntryStays(s, e, r, i)
  {
    SameMessages(s, r, i);
  }

  lemma ReceiveEntry(sys: System, t: nat, ep: Endpoint, slot: nat, mode: RecvMode, i: nat)
    requires sys.Ok() && t < |sys.tasks| && slot < |sys.shared.table| && i < |sys.shared.table|
    ensures var (r, e) := ReceivePass(sys, t, ep, slot, mode); var s := sys.shared;
            && r.Ok() && |r.shared.table| == |s.table|
            && EntryEffect(s, e, r.shared, i) && EntryStays(s, e, r.shared, i)
  {
    hide System.Partitioned, EntryEffect, EntryStays;
    var s := sys.shared;
    var (r, e) := ReceivePass(sys, t, ep, slot, mode);
    ReceivePassOk(sys, t, ep, slot, mode);
    if mode.ZeroCopy? {
      NoCopyEffect(s, slot);
    } else {
      CopyEffect(s, slot, mode.size, sys.tasks[t].core);
    }
    if s.table[slot].queue == [] {
      QuietEntry(s, e, r.shared, i);
    } else {
      TakeEntry(sys, r.shared, e, slot, i);
    }
  }

  /** A step that opens or closes entries, seen from one of them. */
  lemma TableStepEntry(sys: System, step: Step, i: nat)
    requires sys.Ok() && Enabled(sys, step) && i < |sys.shared.table|
    requires step.action.CreateEndpoint? || step.action.DestroyEndpoint? || step.action.Destroy?
    ensures var (r, e) := Perform(sys, step); var s := sys.shared;
            && r.shared.Ok() && |r.shared.table| == |s.table|
            && EntryEffect(s, e, r.shared, i) && EntryStays(s, e, r.shared, i)
  {
    hide System.Partitioned, Shared.TableOk, Shared.RingsOk, EntryEffect, EntryStays;
    var (t, s, task) := (step.task, sys.shared, sys.tasks[step.task]);
    var (r, e) := Perform(sys, step);
    assert sys.TaskOk(task);
    match step.action
    case CreateEndpoint(port) =>
      var ep := Endpoint(task.core, task.node, port);
      RegisterEffect(s, ep);
      if Register(s, ep).1 == Success {
        RegisterEntry(s, ep, i);
      } else {
        QuietEntry(s, e, r.shared, i);
      }
    case DestroyEndpoint(ep) =>
      RemoveEffect(s, ep);
      if Remove(s, ep).1 == Success {
        CloseEntries(s, r.shared, e.slots, i);
      } else {
        QuietEntry(s, e, r.shared, i);
      }
    case Destroy(node) =>
      RemoveNodeTable(s, node, 0);
      CloseEntries(s, r.shared, e.slots, i);
  }

  /** Every step, seen from one table entry. */
  lemma StepEntry(sys: System, step: Step, i: nat)
    requires sys.Ok() && Enabled(sys, step) && i < |sys.shared.table|
    ensures var (r, e) := Perform(sys, step); var s := sys.shared;
            && r.Ok() && |r.shared.table| == |s.table|
            && EntryEffect(s, e, r.shared, i) && EntryStays(s, e, r.shared, i)
  {
    hide System.Partitioned, Shared.TableOk, Shared.RingsOk, EntryEffect, EntryStays;
    PerformKeepsOk(sys, step);
    var (t, s, task) := (step.task, sys.shared, sys.tasks[step.task]);
    var (r, e) := Perform(sys, step);
    assert sys.TaskOk(task);
    match step.action
    case CreateEndpoint(_) => TableStepEntry(sys, step, i);
    case DestroyEndpoint(_) => TableStepEntry(sys, step, i);
    case Destroy(_) => TableStepEntry(sys, step, i);
    case Send(ep, msg, timeout) =>
      if |msg| <= s.bufferSize {
        SendEntry(sys, ep, msg, e, i);
      } else {
        QuietEntry(s, e, r.shared, i);
      }
    case RetrySend => SendEntry(sys, task.pc.endpoint, task.pc.msg, e, i);
    case Receive => ReceiveEntry(sys, t, task.pc.endpoint, task.pc.slot, task.pc.mode, i);
    case FreeBuffer(b) =>
      HeldIsElsewhere(sys, b);
      FreeEffect(s, b, task.core);
      QuietEntry(s, e, r.shared, i);
    case _ => QuietEntry(s, e, r.shared, i);
  }

  lemma FifoStep(s: Shared, e: Event, r: Shared, i: nat, before: seq<Event>)
    requires s.Shaped() && r.Shaped() && i < |s.table| == |r.table| && EntryEffect(s, e, r, i)
    requires !s.table[i].endpoint.Reserved() ==>
               SentTo(before, s.table[i].endpoint) == TakenFrom(before, i) + Messages(s, i)
    ensures !r.table[i].endpoint.Reserved() ==>
              SentTo(before + [e], r.table[i].endpoint) == TakenFrom(before + [e], i) + Messages(r, i)
  {
    hide SentTo, TakenFrom, SentNow, TakenNow, Messages, Shared.Shaped;
    var ep := r.table[i].endpoint;
    SentStep(before, e, ep);
    TakenStep(before, e, i);
    if !ep.Reserved() && !(e.Opened? && e.slot == i) {
      Regroup(TakenFrom(before, i), Messages(s, i), SentNow(e, ep), TakenNow(e, i), Messages(r, i));
    }
  }

  lemma SentStep(before: seq<Event>, e: Event, ep: Endpoint)
    ensures SentTo(before + [e], ep)
            == if e.Opened? && e.endpoint == ep then [] else SentTo(before, ep) + SentNow(e, ep)
  {
    assert (before + [e])[..|before|] == before;
  }

  lemma TakenStep(before: seq<Event>, e: Event, i: nat)
    ensures TakenFrom(before + [e], i)
            == if e.Opened? && e.slot == i then [] else TakenFrom(before, i) + TakenNow(e, i)
  {
    assert (before + [e])[..|before|] == before;
  }

  lemma Regroup(taken: seq<seq<Byte>>, queued: seq<seq<Byte>>, sent: seq<seq<Byte>>, now: seq<seq<Byte>>,
                left: seq<seq<Byte>>)
    requires queued + sent == now + left
    ensures taken + queued + sent == taken + now + left
  {
    assert taken + queued + sent == taken + (queued + sent);
  }

  /**
   Ordered delivery: while an endpoint occupies an entry, the messages sent to it are the
   messages taken from the entry followed by the messages still queued there, in order and
   byte for byte.
   */
  lemma {:induction false} FifoDelivery(c: Config, x: Run, k: nat, i: nat)
    requires IsRun(c, x) && k < |x.states| && i < c.endpoints
    ensures x.states[k].Ok() && |x.states[k].shared.table| == c.endpoints
    ensures var s := x.states[k].shared;
            !s.table[i].endpoint.Reserved() ==>
              SentTo(x.trace[..k], s.table[i].endpoint) == TakenFrom(x.trace[..k], i) + Messages(s, i)
  {
    hide System.Partitioned, Shared.TableOk, Shared.RingsOk, Perform, EntryEffect, SentTo, TakenFrom, Messages;
    AlwaysOk(c, x, k);
    if k > 0 {
      FifoDelivery(c, x, k - 1, i);
      StepAt(c, x, k - 1);
      var sys, step, e, r := x.states[k - 1], x.steps[k - 1], x.trace[k - 1], x.states[k];
      if Enabled(sys, step) {
        StepEntry(sys, step, i);
      } else {
        QuietEntry(sys.shared, e, r.shared, i);
      }
      FifoStep(sys.shared, e, r.shared, i, x.trace[..k - 1]);
      assert x.trace[..k - 1] + [e] == x.trace[..k];
    }
  }

  /** A receive that takes a message takes it from an occupied entry, and hands out what fits. */
  lemma TakenReceipt(sys: System, step: Step)
    requires sys.Ok() && Enabled(sys, step) && Perform(sys, step).1.Taken?
    ensures var e := Perform(sys, step).1; var s := sys.shared; var pc := sys.tasks[step.task].pc;
            && pc.Receiving? && e.endpoint == pc.endpoint && e.slot == pc.slot < |s.table|
            && !s.table[e.slot].endpoint.Reserved() && e.receipt.Received?
            && Messages(s, e.slot) != [] && e.receipt.message == Messages(s, e.slot)[0]
            && e.receipt.buffer == s.table[e.slot].queue[0]
            && e.receipt.output ==
                 match pc.mode
                 case ZeroCopy => e.receipt.message
                 case CopyInto(size) =>
                   e.receipt.message[..if |e.receipt.message| < size then |e.receipt.message| else size]
  {
    hide System.Partitioned;
    assert sys.TaskOk(sys.tasks[step.task]);
    var pc := sys.tasks[step.task].pc;
    if pc.mode.ZeroCopy? {
      NoCopyEffect(sys.shared, pc.slot);
    } else {
      CopyEffect(sys.shared, pc.slot, pc.mode.size, sys.tasks[step.task].core);
    }
  }

  /** In a run only an enabled step shows anything. */
  lemma EventStep(c: Config, x: Run, k: nat)
    requires IsRun(c, x) && k < |x.steps| && x.trace[k] != Silent
    ensures var sys := x.states[k];
            && sys.Ok() && Sized(c, sys) && Enabled(sys, x.steps[k])
            && (x.states[k + 1], x.trace[k]) == Perform(sys, x.steps[k])
  {
    hide Perform;
    StepAt(c, x, k);
  }

  /**
   Whatever a receive looked up, it delivers the oldest undelivered message of the endpoint that
   occupies the entry at that moment, and outputs a prefix of it.
   */
  lemma DeliversToOccupant(c: Config, x: Run, k: nat)
    requires IsRun(c, x) && k < |x.steps| && x.trace[k].Taken?
    ensures var e := x.trace[k]; var s := x.states[k].shared;
            && e.slot < |s.table| && e.receipt.Received?
            && var occupant := s.table[e.slot].endpoint; var n := |TakenFrom(x.trace[..k], e.slot)|;
               && !occupant.Reserved()
               && n < |SentTo(x.trace[..k], occupant)|
               && e.receipt.message == SentTo(x.trace[..k], occupant)[n]
               && e.receipt.output <= e.receipt.message
  {
    hide System.Partitioned, Perform, SentTo, TakenFrom;
    EventStep(c, x, k);
    TakenReceipt(x.states[k], x.steps[k]);
    FifoDelivery(c, x, k, x.trace[k].slot);
  }

  /** The slot is closed by the k-th step. */
  predicate ClosedAt(trace: seq<Event>, slot: nat, k: nat) {
    k < |trace| && trace[k].Closed? && slot in trace[k].slots
  }

  /** An entry that is not closed between two states keeps its endpoint. */
  lemma {:induction false} OccupantStays(c: Config, x: Run, j: nat, k: nat, slot: nat)
    requires IsRun(c, x) && j <= k < |x.states| && slot < c.endpoints
    requires slot < |x.states[j].shared.table| && !x.states[j].shared.table[slot].endpoint.Reserved()
    requires forall m :: j <= m < k ==> !ClosedAt(x.trace, slot, m)
    ensures slot < |x.states[k].shared.table|
    ensures x.states[k].shared.table[slot].endpoint == x.states[j].shared.table[slot].endpoint
    decreases k
  {
    hide System.Partitioned, Shared.Ok, Perform, EntryEffect;
    AlwaysOk(c, x, k);
    if j < k {
      OccupantStays(c, x, j, k - 1, slot);
      StepAt(c, x, k - 1);
      assert !ClosedAt(x.trace, slot, k - 1);
      if Enabled(x.states[k - 1], x.steps[k - 1]) {
        StepEntry(x.states[k - 1], x.steps[k - 1], slot);
      }
    }
  }

  /**
   Two-phase receive: when the entry was not closed between the lookup and the receive, the
   message is the oldest undelivered one that was sent to the endpoint the caller asked for.
   */
  lemma TwoPhaseReceive(c: Config, x: Run, j: nat, k: nat)
    requires IsRun(c, x) && j < k < |x.steps| && x.trace[k].Taken?
    requires x.trace[j] == Found(x.trace[k].endpoint, x.trace[k].slot)
    requires forall m :: j < m < k ==> !ClosedAt(x.trace, x.trace[k].slot, m)
    ensures var e := x.trace[k]; var n := |TakenFrom(x.trace[..k], e.slot)|;
            && e.receipt.Received? && n < |SentTo(x.trace[..k], e.endpoint)|
            && e.receipt.message == SentTo(x.trace[..k], e.endpoint)[n]
  {
    hide System.Partitioned, Shared.Ok, Perform, SentTo, TakenFrom;
    DeliversToOccupant(c, x, k);
    AlwaysOk(c, x, k);
    FoundIsRegistered(c, x, j);
    OccupantStays(c, x, j + 1, k, x.trace[k].slot);
  }

  lemma FoundIsRegistered(c: Config, x: Run, j: nat)
    requires IsRun(c, x) && j < |x.steps| && x.trace[j].Found?
    ensures var e := x.trace[j]; var s := x.states[j + 1].shared;
            !e.endpoint.Reserved() && e.slot < |s.table| && s.table[e.slot].endpoint == e.endpoint
  {
    hide Perform;
    EventStep(c, x, j);
    QueryStep(x.states[j], x.steps[j]);
  }

  /** A query reports what the table holds, and changes nothing that is shared. */
  lemma QueryStep(sys: System, step: Step)
    requires sys.Ok() && Enabled(sys, step)
    ensures var (r, e) := Perform(sys, step); var s := sys.shared;
            && (e.Found? ==> r.shared == s && Lookup(s, e.endpoint) == Some(e.slot)
                             && sys.tasks[step.task].pc == Idle)
            && (e.Counted? ==> Lookup(s, e.endpoint).Some?
                               && e.count == |s.table[Lookup(s, e.endpoint).value].queue|)
  {
    hide System.Partitioned, Shared.Ok, Lookup;
    assert sys.TaskOk(sys.tasks[step.task]);
    match step.action
    case _ =>
  }

  /** mcc_msgs_available counts the messages that were sent to the endpoint and not yet taken. */
  lemma CountIsOutstanding(c: Config, x: Run, k: nat)
    requires IsRun(c, x) && k < |x.steps| && x.trace[k].Counted?
    ensures var e := x.trace[k]; var s := x.states[k].shared;
            && s.Registered(e.endpoint)
            && e.count == |SentTo(x.trace[..k], e.endpoint)|
                          - |TakenFrom(x.trace[..k], IndexOf(s.table, e.endpoint))|
  {
    hide System.Partitioned, Shared.Ok, Perform, SentTo, TakenFrom;
    EventStep(c, x, k);
    QueryStep(x.states[k], x.steps[k]);
    FifoDelivery(c, x, k, IndexOf(x.states[k].shared.table, x.trace[k].endpoint));
  }

  /** A task is between its lookup and the end of that receive. */
  predicate InReceive(pc: Pc, ep: Endpoint, slot: nat, mode: RecvMode, timeout: Timeout) {
    pc == LookedUp(ep, slot, mode, timeout) || pc == Receiving(ep, slot, mode)
  }

  /** A task comes to be in a receive by its own lookup only, and keeps what that lookup was asked for. */
  lemma ReceiveMoves(sys: System, step: Step, t: nat)
    requires sys.Ok() && Enabled(sys, step) && t < |sys.tasks|
    ensures var (r, e) := Perform(sys, step);
            && |r.tasks| == |sys.tasks|
            && var (before, after) := (sys.tasks[t].pc, r.tasks[t].pc);
               after.LookedUp? || after.Receiving? ==>
                 || after == before
                 || (before.LookedUp? && after == Receiving(before.endpoint, before.slot, before.mode))
                 || (step.task == t && before == Idle && step.action.LookUp? && e.Found?
                     && e.endpoint == step.action.endpoint
                     && after == LookedUp(e.endpoint, e.slot, step.action.mode, step.action.timeout))
  {
    hide System.Partitioned, Shared.Ok, Lookup, SendSection, CopySection, NoCopySection;
    assert sys.TaskOk(sys.tasks[step.task]);
    match step.action
    case _ =>
  }

  /** From the j-th step on, up to state k, task t is in the receive that it began there with a lookup. */
  ghost predicate ReceivingSince(x: Run, j: nat, k: nat, t: nat) {
    && j < k < |x.states| && j < |x.steps| && j < |x.trace|
    && x.steps[j].task == t && x.steps[j].action.LookUp?
    && x.trace[j].Found? && x.trace[j].endpoint == x.steps[j].action.endpoint
    && forall n :: j < n <= k ==>
         && t < |x.states[n].tasks|
         && InReceive(x.states[n].tasks[t].pc, x.trace[j].endpoint, x.trace[j].slot,
                      x.steps[j].action.mode, x.steps[j].action.timeout)
  }

  /** A task that is in a receive began this very receive with a lookup, and still has what it was asked for. */
  lemma {:induction false} ReceiveFollowsLookup(c: Config, x: Run, k: nat, t: nat)
    requires IsRun(c, x) && k < |x.states|
    requires t < |x.states[k].tasks| && (x.states[k].tasks[t].pc.LookedUp? || x.states[k].tasks[t].pc.Receiving?)
    ensures exists j: nat :: ReceivingSince(x, j, k, t)
  {
    hide System.Partitioned, Shared.Ok, Perform;
    AlwaysOk(c, x, k);
    if k > 0 {
      StepAt(c, x, k - 1);
      var before, after := x.states[k - 1].tasks[t].pc, x.states[k].tasks[t].pc;
      if Enabled(x.states[k - 1], x.steps[k - 1]) {
        ReceiveMoves(x.states[k - 1], x.steps[k - 1], t);
      }
      if before.LookedUp? || before.Receiving? {
        ReceiveFollowsLookup(c, x, k - 1, t);
        var j: nat :| ReceivingSince(x, j, k - 1, t);
        var call := x.steps[j].action;
        assert InReceive(before, x.trace[j].endpoint, x.trace[j].slot, call.mode, call.timeout);
        assert ReceivingSince(x, j, k, t);
      } else {
        assert ReceivingSince(x, k - 1, k, t);
      }
    }
  }

  /** The j-th step is the lookup with which the receive that takes a message in the k-th step began. */
  ghost predicate OwnLookup(x: Run, j: nat, k: nat) {
    && k < |x.steps| && k < |x.trace| && x.trace[k].Taken?
    && ReceivingSince(x, j, k, x.steps[k].task)
    && x.trace[j] == Found(x.trace[k].endpoint, x.trace[k].slot)
  }

  /** Every receive that takes a message began with its own lookup, and with one only. */
  lemma HasOwnLookup(c: Config, x: Run, k: nat)
    requires IsRun(c, x) && k < |x.steps| && x.trace[k].Taken?
    ensures exists j: nat :: OwnLookup(x, j, k)
    ensures forall i: nat, j: nat :: OwnLookup(x, i, k) && OwnLookup(x, j, k) ==> i == j
  {
    hide Perform, System.Partitioned;
    EventStep(c, x, k);
    TakenReceipt(x.states[k], x.steps[k]);
    ReceiveFollowsLookup(c, x, k, x.steps[k].task);
    var j: nat :| ReceivingSince(x, j, k, x.steps[k].task);
    assert OwnLookup(x, j, k);
    forall i: nat, j: nat | OwnLookup(x, i, k) && OwnLookup(x, j, k) ensures i == j {
      if i < j {
        LookupOutsideReceive(c, x, j);
      } else if j < i {
        LookupOutsideReceive(c, x, i);
      }
    }
  }

  lemma LookupOutsideReceive(c: Config, x: Run, j: nat)
    requires IsRun(c, x) && j < |x.steps| && x.trace[j].Found?
    ensures x.steps[j].task < |x.states[j].tasks| && x.states[j].tasks[x.steps[j].task].pc == Idle
  {
    hide Perform;
    EventStep(c, x, j);
    QueryStep(x.states[j], x.steps[j]);
  }

  /** Two-phase receive, for the lookup with which it began. */
  lemma OwnTwoPhaseReceive(c: Config, x: Run, k: nat)
    requires IsRun(c, x) && k < |x.steps| && x.trace[k].Taken?
    ensures var e := x.trace[k]; var n := |TakenFrom(x.trace[..k], e.slot)|;
            exists j: nat :: OwnLookup(x, j, k) &&
              ((forall m :: j < m < k ==> !ClosedAt(x.trace, e.slot, m)) ==>
                 && e.receipt.Received? && n < |SentTo(x.trace[..k], e.endpoint)|
                 && e.receipt.message == SentTo(x.trace[..k], e.endpoint)[n])
  {
    hide SentTo, TakenFrom, Perform, System.Partitioned, Shared.Ok;
    HasOwnLookup(c, x, k);
    var j: nat :| OwnLookup(x, j, k);
    if forall m :: j < m < k ==> !ClosedAt(x.trace, x.trace[k].slot, m) {
      TwoPhaseReceive(c, x, j, k);
    }
  }
}

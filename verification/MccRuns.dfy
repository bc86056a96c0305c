/** What holds after every run: conservation, ordered delivery, stable zero-copy buffers, signals. */
module MccRuns {
  import opened Options
  import opened MccTypes
  import opened MccShared
  import opened MccSections
  import opened MccProtocol

  /** Every step of every task keeps the block well formed and each buffer in exactly one place. */
  lemma PerformKeepsOk(sys: System, step: Step)
    requires sys.Ok() && Enabled(sys, step)
    ensures Perform(sys, step).0.Ok()
  {
    hide Shared.Ok, System.Partitioned;
    var (t, s, task) := (step.task, sys.shared, sys.tasks[step.task]);
    assert sys.TaskOk(task);
    match step.action
    case Initialize =>
    case CreateEndpoint(port) =>
      RegisterEffect(s, Endpoint(task.core, task.node, port));
      WithKeepsOk(sys, Register(s, Endpoint(task.core, task.node, port)).0);
    case DestroyEndpoint(ep) =>
      RemoveEffect(s, ep);
      WithKeepsOk(sys, Remove(s, ep).0);
    case Destroy(node) =>
      RemoveNodeTable(s, node, 0);
      WithKeepsOk(sys, RemoveNode(s, node));
    case Send(ep, msg, timeout) =>
      if |msg| <= s.bufferSize {
        SendPassOk(sys, t, ep, msg, timeout);
      }
    case RetrySend => SendPassOk(sys, t, task.pc.endpoint, task.pc.msg, task.pc.timeout);
    case GiveUpSend => AtKeepsOk(sys, t, Idle);
    case LookUp(ep, mode, timeout) =>
      if i :| Lookup(s, ep) == Some(i) {
        AtKeepsOk(sys, t, LookedUp(ep, i, mode, timeout));
      }
    case Peek(empty) =>
      AtKeepsOk(sys, t, Idle);
      AtKeepsOk(sys, t, Receiving(task.pc.endpoint, task.pc.slot, task.pc.mode));
    case Receive => ReceivePassOk(sys, t, task.pc.endpoint, task.pc.slot, task.pc.mode);
    case CountMessages(ep) =>
    case FreeBuffer(b) => FreeKeepsOk(sys, b, task.core);
    case Interrupt => ServiceKeepsOk(sys, task.core);
  }

  lemma FreeKeepsOk(sys: System, b: nat, core: nat)
    requires sys.Ok() && b in sys.held
    ensures sys.With(FreeSection(sys.shared, b, core)).(held := sys.held - {b}).Ok()
  {
    HeldIsElsewhere(sys, b);
    FreeEffect(sys.shared, b, core);
    GiveBackKeepsPartition(sys, FreeSection(sys.shared, b, core), b);
    var r := sys.With(FreeSection(sys.shared, b, core)).(held := sys.held - {b});
    forall k | 0 <= k < |sys.tasks| ensures r.TaskOk(sys.tasks[k]) {
      assert sys.TaskOk(sys.tasks[k]);
    }
  }

  lemma ServiceKeepsOk(sys: System, core: nat)
    requires sys.Ok() && core < |sys.shared.rings|
    ensures sys.With(ServiceSection(sys.shared, core)).Ok()
  {
    WithKeepsOk(sys, ServiceSection(sys.shared, core));
  }

  // ---------- runs ----------

  datatype Config = Config(buffers: nat, endpoints: nat, ringSize: nat, bufferSize: nat, cores: nat, tasks: seq<Task>) {
    /** A ring has at least one slot, and every task runs on one of the cores and starts idle. */
    ghost predicate Valid() {
      && 0 < ringSize
      && forall k :: 0 <= k < |tasks| ==> tasks[k].core < cores && tasks[k].pc == Idle
    }
  }

  function Start(c: Config): System {
    System(Initial(c.buffers, c.endpoints, c.cores, c.ringSize, c.bufferSize), c.tasks, {})
  }

  /** The steps of a run, what each of them shows, and the states before, between and after them. */
  datatype Run = Run(states: seq<System>, steps: seq<Step>, trace: seq<Event>)

  ghost predicate Moves(sys: System, step: Step, e: Event, r: System) {
    sys.Ok() ==> (r, e) == Next(sys, step)
  }

  ghost predicate IsRun(c: Config, x: Run) {
    && c.Valid()
    && |x.states| == |x.steps| + 1 && |x.trace| == |x.steps|
    && x.states[0] == Start(c)
    && forall k {:trigger x.steps[k]} :: 0 <= k < |x.steps| ==>
         Moves(x.states[k], x.steps[k], x.trace[k], x.states[k + 1])
  }

  /** The fixed sizes of the system. */
  ghost predicate Sized(c: Config, sys: System) {
    && |sys.shared.cells| == c.buffers && |sys.shared.table| == c.endpoints
    && |sys.shared.rings| == c.cores && sys.shared.ringSize == c.ringSize
    && sys.shared.bufferSize == c.bufferSize && |sys.tasks| == |c.tasks|
  }

  lemma StartOk(c: Config)
    requires c.Valid()
    ensures Start(c).Ok() && Sized(c, Start(c))
  {
    InitialOk(c.buffers, c.endpoints, c.cores, c.ringSize, c.bufferSize);
  }

  /**
   In every state of every run the block is well formed: registered triples are distinct, free
   entries have no messages, rings stay within their capacity, and each buffer is in one place.
   */
  lemma {:induction false} AlwaysOk(c: Config, x: Run, k: nat)
    requires IsRun(c, x) && k < |x.states|
    ensures x.states[k].Ok() && Sized(c, x.states[k])
  {
    hide System.Ok, Perform;
    if k == 0 {
      StartOk(c);
    } else {
      AlwaysOk(c, x, k - 1);
      var sys, step := x.states[k - 1], x.steps[k - 1];
      assert Moves(sys, step, x.trace[k - 1], x.states[k]);
      if Enabled(sys, step) {
        PerformKeepsOk(sys, step);
        PerformKeepsShape(sys, step);
      }
    }
  }

  /** The k-th step of a run, once its state is known to be well formed. */
  lemma StepAt(c: Config, x: Run, k: nat)
    requires IsRun(c, x) && k < |x.steps|
    ensures x.states[k].Ok() && Sized(c, x.states[k]) && x.states[k + 1].Ok() && Sized(c, x.states[k + 1])
    ensures (x.states[k + 1], x.trace[k]) == Next(x.states[k], x.steps[k])
  {
    AlwaysOk(c, x, k);
    AlwaysOk(c, x, k + 1);
    assert Moves(x.states[k], x.steps[k], x.trace[k], x.states[k + 1]);
  }

  /** A run and one more step. */
  ghost function Extended(c: Config, x: Run, step: Step): (y: Run)
    requires IsRun(c, x)
    ensures IsRun(c, y) && y.steps == x.steps + [step] && y.states[..|x.states|] == x.states
    ensures x.states[|x.steps|].Ok() && y.states[|x.states|] == Next(x.states[|x.steps|], step).0
  {
    AlwaysOk(c, x, |x.steps|);
    var (r, e) := Next(x.states[|x.steps|], step);
    var y := Run(x.states + [r], x.steps + [step], x.trace + [e]);
    assert forall k {:trigger y.steps[k]} :: 0 <= k < |x.steps| ==> x.steps[k] == y.steps[k];
    y
  }

  /** Every list of steps gives a run. */
  ghost function RunOf(c: Config, steps: seq<Step>): (x: Run)
    requires c.Valid()
    ensures IsRun(c, x) && x.steps == steps
    decreases |steps|
  {
    if steps == [] then Run([Start(c)], [], []) else
    Extended(c, RunOf(c, steps[..|steps| - 1]), steps[|steps| - 1])
  }

  // ---------- conservation ----------

  lemma PerformKeepsShape(sys: System, step: Step)
    requires sys.Ok() && Enabled(sys, step)
    ensures SameSizes(sys, Perform(sys, step).0)
  {
    hide Shared.Ok, System.Partitioned;
    var (t, s, task) := (step.task, sys.shared, sys.tasks[step.task]);
    assert sys.TaskOk(task);
    match step.action
    case CreateEndpoint(port) => RegisterEffect(s, Endpoint(task.core, task.node, port));
    case DestroyEndpoint(ep) => RemoveEffect(s, ep);
    case Destroy(node) => RemoveNodeTable(s, node, 0);
    case Send(ep, msg, timeout) =>
      if |msg| <= s.bufferSize {
        SendPassOk(sys, t, ep, msg, timeout);
      }
    case RetrySend => SendPassOk(sys, t, task.pc.endpoint, task.pc.msg, task.pc.timeout);
    case Receive => ReceivePassOk(sys, t, task.pc.endpoint, task.pc.slot, task.pc.mode);
    case FreeBuffer(b) =>
      HeldIsElsewhere(sys, b);
      FreeEffect(s, b, task.core);
    case _ =>
  }

  /** How often b is on endpoint lists tells where it can be. */
  lemma {:induction false} QueuedSomewhere(table: seq<Slot>, b: nat)
    ensures Queued(table)[b] > 0 <==> exists i :: 0 <= i < |table| && b in table[i].queue
    decreases |table|
  {
    if table != [] {
      var n := |table| - 1;
      QueuedSomewhere(table[..n], b);
      if i :| 0 <= i < |table| && b in table[i].queue {
        assert i < n ==> table[..n][i] == table[i];
        assert b in multiset(table[i].queue);
      }
      if Queued(table)[b] > 0 && Queued(table[..n])[b] == 0 {
        assert b in multiset(table[n].queue);
      }
    }
  }

  lemma TwoQueues(table: seq<Slot>, i: nat, j: nat)
    requires i < |table| && j < |table| && i != j
    ensures multiset(table[i].queue) + multiset(table[j].queue) <= Queued(table)
  {
    var cleared := table[i := table[i].(queue := [])];
    QueuedUpdate(table, i, cleared[i]);
    QueuedUpdate(cleared, j, cleared[j]);
    QueuedUpdate(table, j, table[j]);
    forall b ensures (multiset(table[i].queue) + multiset(table[j].queue))[b] <= Queued(table)[b] {
      assert cleared[j] == table[j] && cleared[i].queue == [];
      assert multiset(table[j].queue)[b] <= Queued(cleared)[b];
      assert (Queued(cleared) + multiset(table[i].queue))[b] == (Queued(table) + multiset{})[b];
    }
  }

  lemma CountAtLeast(s: seq<nat>, i: nat, j: nat)
    requires i < j < |s| && s[i] == s[j]
    ensures multiset(s)[s[i]] >= 2
  {
    assert s == s[..i] + [s[i]] + s[i + 1..j] + [s[j]] + s[j + 1..];
  }

  /** In a well-formed system no buffer is in two places, or twice in one. */
  lemma OnePlaceOnly(sys: System, b: nat)
    requires sys.Ok()
    ensures multiset(sys.shared.free)[b] + Queued(sys.shared.table)[b] + multiset(sys.held)[b]
            == if b < |sys.shared.cells| then 1 else 0
  {
    assert (Owned(sys.shared) + multiset(sys.held))[b] == AllBuffers(|sys.shared.cells|)[b];
  }

  /** Nothing is twice on one list. */
  lemma QueueDistinct(sys: System, i: nat)
    requires sys.Ok() && i < |sys.shared.table|
    ensures var q := sys.shared.table[i].queue; forall m, n :: 0 <= m < n < |q| ==> q[m] != q[n]
  {
    hide System.Ok, Queued;
    var q := sys.shared.table[i].queue;
    QueuedUpdate(sys.shared.table, i, sys.shared.table[i]);
    forall m, n | 0 <= m < n < |q| ensures q[m] != q[n] {
      OnePlaceOnly(sys, q[m]);
      if q[m] == q[n] {
        CountAtLeast(q, m, n);
      }
    }
  }

  /** Nothing is on two lists. */
  lemma QueuesDisjoint(sys: System, i: nat, j: nat)
    requires sys.Ok() && i < |sys.shared.table| && j < |sys.shared.table| && i != j
    ensures forall b :: b in sys.shared.table[i].queue ==> b !in sys.shared.table[j].queue
  {
    hide System.Ok, Queued;
    var table := sys.shared.table;
    var q, r := table[i].queue, table[j].queue;
    TwoQueues(table, i, j);
    forall b | b in q ensures b !in r {
      OnePlaceOnly(sys, b);
      assert (multiset(q) + multiset(r))[b] <= Queued(table)[b];
    }
  }

  lemma FreeDistinct(sys: System)
    requires sys.Ok()
    ensures forall j, k :: 0 <= j < k < |sys.shared.free| ==> sys.shared.free[j] != sys.shared.free[k]
  {
    var free := sys.shared.free;
    forall j, k | 0 <= j < k < |free| ensures free[j] != free[k] {
      OnePlaceOnly(sys, free[j]);
      if free[j] == free[k] {
        CountAtLeast(free, j, k);
      }
    }
  }

  ghost predicate OnSomeList(table: seq<Slot>, b: nat) {
    exists i :: 0 <= i < |table| && b in table[i].queue
  }

  /** A buffer is in exactly one of the three kinds of places. */
  lemma OneKindOfPlace(sys: System, b: nat)
    requires sys.Ok()
    ensures var s := sys.shared; var queued := OnSomeList(s.table, b);
            && (b < |s.cells| <==> b in s.free || queued || b in sys.held)
            && !(b in s.free && queued) && !(b in s.free && b in sys.held) && !(queued && b in sys.held)
  {
    hide System.Ok, Queued;
    OnePlaceOnly(sys, b);
    QueuedSomewhere(sys.shared.table, b);
    assert b in multiset(sys.held) <==> b in sys.held;
    assert b in multiset(sys.shared.free) <==> b in sys.shared.free;
  }

  /**
   Conservation over every interleaving: the buffers are partitioned exactly into the free
   list, the endpoint lists and the buffers held by zero-copy receivers, and no list holds a
   buffer twice.
   */
  lemma Conservation(c: Config, x: Run, k: nat)
    requires IsRun(c, x) && k < |x.states|
    ensures var sys := x.states[k]; var s := sys.shared;
            && (forall b: nat :: b < c.buffers <==> b in s.free || OnSomeList(s.table, b) || b in sys.held)
            && (forall b: nat :: !(b in s.free && OnSomeList(s.table, b)) && !(b in s.free && b in sys.held)
                            && !(OnSomeList(s.table, b) && b in sys.held))
            && (forall m, n :: 0 <= m < n < |s.free| ==> s.free[m] != s.free[n])
            && (forall i, m, n :: 0 <= i < |s.table| && 0 <= m < n < |s.table[i].queue| ==>
                  s.table[i].queue[m] != s.table[i].queue[n])
            && (forall i, j, b :: 0 <= i < |s.table| && 0 <= j < |s.table| && i != j && b in s.table[i].queue ==>
                  b !in s.table[j].queue)
  {
    hide System.Ok, OnSomeList, IsRun;
    AlwaysOk(c, x, k);
    var sys := x.states[k];
    var s := sys.shared;
    forall b: nat
      ensures b < c.buffers <==> b in s.free || OnSomeList(s.table, b) || b in sys.held
      ensures !(b in s.free && OnSomeList(s.table, b)) && !(b in s.free && b in sys.held)
      ensures !(OnSomeList(s.table, b) && b in sys.held)
    {
      OneKindOfPlace(sys, b);
    }
    FreeDistinct(sys);
    forall i, j | 0 <= i < |s.table| && 0 <= j < |s.table|
      ensures forall m, n :: 0 <= m < n < |s.table[i].queue| ==> s.table[i].queue[m] != s.table[i].queue[n]
      ensures i != j ==> forall b :: b in s.table[i].queue ==> b !in s.table[j].queue
    {
      QueueDistinct(sys, i);
      if i != j {
        QueuesDisjoint(sys, i, j);
      }
    }
  }
}

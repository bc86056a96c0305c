/**
 One circular signal queue per core.  A queue of Q slots holds at most Q - 1 signals:
 equal indices mean empty, and one slot always stays unused.
 */
module MccSignals {
  import opened MccTypes

  /** The conditional wrap that the queue operations use instead of a modulus. */
  function NextIndex(i: nat, size: nat): nat
    requires i < size
  {
    if i == size - 1 then 0 else i + 1
  }

  /** MCC_SIGNAL_QUEUE_FULL */
  predicate Full(head: nat, tail: nat, size: nat)
    requires 0 < size
  {
    (tail + 1) % size == head
  }

  /** MCC_SIGNAL_QUEUE_EMPTY */
  predicate Empty(head: nat, tail: nat) {
    head == tail
  }

  /** How many signals lie between the two indices. */
  function Count(head: nat, tail: nat, size: nat): nat
    requires head < size && tail < size
  {
    if head <= tail then tail - head else tail + size - head
  }

  /** The queued signals, oldest first. */
  function Contents(row: seq<Signal>, head: nat, tail: nat): seq<Signal>
    requires head < |row| && tail < |row|
  {
    seq(Count(head, tail, |row|), k requires 0 <= k < Count(head, tail, |row|) =>
      row[if head + k < |row| then head + k else head + k - |row|])
  }

  /** The modular full test agrees with the conditional wrap. */
  lemma FullIsWrap(head: nat, tail: nat, size: nat)
    requires head < size && tail < size
    ensures Full(head, tail, size) <==> NextIndex(tail, size) == head
  {
    if tail + 1 < size {
      assert (tail + 1) % size == tail + 1;
    } else {
      assert (tail + 1) % size == 0;
    }
  }

  /** The capacity is one less than the number of slots, and the two tests never confuse full and empty. */
  lemma CapacityIsOneLess(row: seq<Signal>, head: nat, tail: nat)
    requires head < |row| && tail < |row|
    ensures |Contents(row, head, tail)| < |row|
    ensures Full(head, tail, |row|) <==> |Contents(row, head, tail)| == |row| - 1
    ensures Empty(head, tail) <==> Contents(row, head, tail) == []
    ensures 1 < |row| ==> !(Full(head, tail, |row|) && Empty(head, tail))
  {
    FullIsWrap(head, tail, |row|);
  }

  /** Writing at the tail and advancing it appends one signal. */
  lemma PushAppends(row: seq<Signal>, head: nat, tail: nat, s: Signal)
    requires head < |row| && tail < |row| && !Full(head, tail, |row|)
    ensures Contents(row[tail := s], head, NextIndex(tail, |row|)) == Contents(row, head, tail) + [s]
  {
    FullIsWrap(head, tail, |row|);
  }

  /** Advancing the head drops the oldest signal, which is the one under the head. */
  lemma PopDropsFirst(row: seq<Signal>, head: nat, tail: nat)
    requires head < |row| && tail < |row| && !Empty(head, tail)
    ensures [row[head]] + Contents(row, NextIndex(head, |row|), tail) == Contents(row, head, tail)
  {
  }

  /** The ports of this core that have a message signal among the given signals. */
  function PortsIn(signals: seq<Signal>, core: nat): set<nat> {
    if signals == [] then {} else
    var s := signals[|signals| - 1];
    PortsIn(signals[..|signals| - 1], core)
    + if s.kind == BufferQueued && s.destination.core == core then {s.destination.port} else {}
  }

  function FreedIn(signals: seq<Signal>): bool {
    signals != [] && (signals[|signals| - 1].kind == BufferFreed || FreedIn(signals[..|signals| - 1]))
  }

  /** A receiver's port is woken exactly when one of the signals names it on this core. */
  lemma {:induction false} PortsInMeans(signals: seq<Signal>, core: nat, port: nat)
    ensures port in PortsIn(signals, core) <==>
              exists s :: s in signals && s.kind == BufferQueued
                          && s.destination.core == core && s.destination.port == port
    ensures FreedIn(signals) <==> exists s :: s in signals && s.kind == BufferFreed
  {
    if signals != [] {
      var init, last := signals[..|signals| - 1], signals[|signals| - 1];
      PortsInMeans(init, core, port);
      assert signals == init + [last];
    }
  }

  class SignalQueues {
    const cores: nat
    const size: nat
    const received: array2<Signal>
    const head: array<nat>
    const tail: array<nat>

    /** The shape that zeroed or garbage memory already has. */
    ghost predicate Shape()
    {
      && received.Length0 == cores && received.Length1 == size && 0 < size
      && head.Length == cores && tail.Length == cores && head != tail
    }

    ghost predicate Valid()
      reads received, head, tail
    {
      Shape() && forall c :: 0 <= c < cores ==> head[c] < size && tail[c] < size
    }

    ghost function Row(c: nat): seq<Signal>
      requires Shape() && c < cores
      reads received
    {
      seq(size, j requires 0 <= j < size reads received => received[c, j])
    }

    ghost function Queue(c: nat): (r: seq<Signal>)
      requires Valid() && c < cores
      reads received, head, tail
      ensures |r| < size
    {
      Contents(Row(c), head[c], tail[c])
    }

    ghost function View(): (r: seq<seq<Signal>>)
      requires Valid()
      reads received, head, tail
      ensures |r| == cores
      ensures forall c :: 0 <= c < cores ==> r[c] == Queue(c)
    {
      seq(cores, c requires 0 <= c < cores && Valid() reads received, head, tail => Queue(c))
    }

    constructor (cores: nat, size: nat)
      requires 0 < size
      ensures Shape() && fresh(received) && fresh(head) && fresh(tail)
      ensures this.cores == cores && this.size == size
    {
      this.cores, this.size := cores, size;
      received := new Signal[cores, size]((_, _) => FREED_SIGNAL);
      head := new nat[cores](_ => 0);
      tail := new nat[cores](_ => 0);
    }

    /** mcc_queue_signal */
    method QueueSignal(core: nat, signal: Signal) returns (status: Status)
      requires Valid() && core < cores
      modifies received, tail
      ensures Valid()
      ensures status == if |old(Queue(core))| == size - 1 then ErrSqFull else Success
      ensures Queue(core) == if status == Success then old(Queue(core)) + [signal] else old(Queue(core))
      ensures View() == old(View())[core := Queue(core)]
    {
      var t := tail[core];
      var newTail := if t == size - 1 then 0 else t + 1;
      CapacityIsOneLess(Row(core), head[core], t);
      if Full(head[core], tail[core], size) {
        return ErrSqFull;
      }
      PushAppends(Row(core), head[core], t, signal);
      ghost var before := Row(core);
      received[core, t] := signal;
      tail[core] := newTail;
      assert Row(core) == before[t := signal];
      forall c | 0 <= c < cores && c != core
        ensures Queue(c) == old(Queue(c))
      {
        assert Row(c) == old(Row(c));
      }
      return Success;
    }

    /** mcc_dequeue_signal */
    method DequeueSignal(core: nat) returns (status: Status, signal: Signal)
      requires Valid() && core < cores
      modifies head
      ensures Valid()
      ensures status == if old(Queue(core)) == [] then ErrSqEmpty else Success
      ensures status == Success ==> [signal] + Queue(core) == old(Queue(core))
      ensures status != Success ==> Queue(core) == []
      ensures View() == old(View())[core := Queue(core)]
    {
      var h := head[core];
      signal := FREED_SIGNAL;
      if Empty(head[core], tail[core]) {
        return ErrSqEmpty, signal;
      }
      PopDropsFirst(Row(core), h, tail[core]);
      signal := received[core, h];
      head[core] := if h == size - 1 then 0 else h + 1;
      assert forall c :: 0 <= c < cores ==> Row(c) == old(Row(c));
      return Success, signal;
    }

    /**
     The loop of the interrupt handler: it empties the queue of its core and reports which
     receivers and whether the senders are to be woken.
     */
    method Service(core: nat) returns (ports: set<nat>, freed: bool)
      requires Valid() && core < cores
      modifies head
      ensures Valid() && View() == old(View())[core := []]
      ensures ports == PortsIn(old(Queue(core)), core) && freed == FreedIn(old(Queue(core)))
    {
      hide Contents, Row, Queue, View;
      ports, freed := {}, false;
      ghost var all, n := Queue(core), 0;
      ghost var view := View();
      var status, signal := DequeueSignal(core);
      while status == Success
        invariant Valid() && n <= |all|
        invariant if status == Success then n < |all| && signal == all[n] && Queue(core) == all[n + 1..]
                  else n == |all| && Queue(core) == []
        invariant View() == view[core := Queue(core)]
        invariant ports == PortsIn(all[..n], core) && freed == FreedIn(all[..n])
        decreases |all| - n
      {
        if signal.kind == BufferQueued && signal.destination.core == core {
          ports := ports + {signal.destination.port};
        } else if signal.kind == BufferFreed {
          freed := true;
        }
        assert all[..n + 1][..n] == all[..n];
        n := n + 1;
        ghost var before := View();
        status, signal := DequeueSignal(core);
        assert before[core := Queue(core)] == view[core := Queue(core)];
      }
      assert all[..n] == all;
    }

    /** The two nested loops of mcc_initialize. */
    method Reset()
      requires Shape()
      modifies received, head, tail
      ensures Valid() && View() == seq(cores, _ => [])
    {
      for i := 0 to cores
        invariant forall c :: 0 <= c < i ==> head[c] == 0 && tail[c] == 0
      {
        for j := 0 to size
          invariant forall c :: 0 <= c < i ==> head[c] == 0 && tail[c] == 0
        {
          received[i, j] := Signal(BufferQueued, ZERO_ENDPOINT);
        }
        head[i] := 0;
        tail[i] := 0;
      }
    }
  }
}

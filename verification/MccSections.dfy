/** What each critical section keeps and changes, for every well-formed block. */
module MccSections {
  import opened Options
  import opened MccTypes
  import opened MccShared

  // ---------- signals ----------

  /** A signal is dropped exactly when the ring is full; no other ring and nothing else changes. */
  lemma PostKeepsOk(s: Shared, core: nat, signal: Signal)
    requires s.Ok() && core < |s.rings|
    requires signal.kind == BufferQueued ==> signal.destination.core == core && !signal.destination.Reserved()
    ensures Post(s, core, signal).0.Ok()
  {
  }

  /** Ring c after every other core from i on has been told that a buffer was freed. */
  function Told(s: Shared, self: nat, i: nat, c: nat): seq<Signal>
    requires c < |s.rings|
  {
    if c < i || c == self || s.RingFull(c) then s.rings[c] else s.rings[c] + [FREED_SIGNAL]
  }

  /**
   Telling the other cores: each ring but the caller's own gets one signal or, when full,
   stays as it is.  Nothing else changes, so a dropped signal loses no buffer.
   */
  lemma {:induction false} BroadcastTellsOthers(s: Shared, self: nat, i: nat)
    requires s.Ok() && i <= |s.rings|
    ensures var r := Broadcast(s, self, i);
            && r.Ok() && r == s.(rings := r.rings) && |r.rings| == |s.rings|
            && forall c :: 0 <= c < |s.rings| ==> r.rings[c] == Told(s, self, i, c)
    decreases |s.rings| - i
  {
    if i < |s.rings| {
      var s1 := if i == self then s else Post(s, i, FREED_SIGNAL).0;
      if i != self {
        PostKeepsOk(s, i, FREED_SIGNAL);
      }
      BroadcastTellsOthers(s1, self, i + 1);
    }
  }

  // ---------- ownership ----------

  /** How often each buffer is on some endpoint list. */
  ghost function Queued(table: seq<Slot>): multiset<nat> {
    if table == [] then multiset{} else Queued(table[..|table| - 1]) + multiset(table[|table| - 1].queue)
  }

  lemma QueuedSplit(table: seq<Slot>)
    requires table != []
    ensures Queued(table) == Queued(table[..|table| - 1]) + multiset(table[|table| - 1].queue)
  {
  }

  lemma {:induction false} QueuedUpdate(table: seq<Slot>, i: nat, slot: Slot)
    requires i < |table|
    ensures Queued(table[i := slot]) + multiset(table[i].queue) == Queued(table) + multiset(slot.queue)
    ensures multiset(table[i].queue) <= Queued(table)
    decreases |table|
  {
    hide Queued;
    var n := |table| - 1;
    var updated := table[i := slot];
    QueuedSplit(table);
    QueuedSplit(updated);
    if i == n {
      assert updated[..n] == table[..n];
    } else {
      assert updated[..n] == table[..n][i := slot];
      assert updated[n] == table[n] && table[..n][i] == table[i];
      QueuedUpdate(table[..n], i, slot);
      AddBoth(Queued(updated[..n]), multiset(table[i].queue), Queued(table[..n]), multiset(slot.queue),
              multiset(table[n].queue));
    }
  }

  lemma AddBoth(a: multiset<nat>, b: multiset<nat>, c: multiset<nat>, d: multiset<nat>, more: multiset<nat>)
    requires a + b == c + d
    ensures (a + more) + b == (c + more) + d
  {
    forall x ensures ((a + more) + b)[x] == ((c + more) + d)[x] {
      assert (a + b)[x] == (c + d)[x];
    }
  }

  /** Every place of the block that a buffer can be in. */
  ghost function Owned(s: Shared): multiset<nat> {
    multiset(s.free) + Queued(s.table)
  }

  /** What leaves entry i and the free list is all that leaves the block. */
  lemma MoveBuffers(s: Shared, r: Shared, i: nat, slot: Slot, gone: multiset<nat>)
    requires i < |s.table| && r.table == s.table[i := slot]
    requires multiset(r.free) + multiset(slot.queue) + gone == multiset(s.free) + multiset(s.table[i].queue)
    ensures Owned(r) + gone == Owned(s)
  {
    QueuedUpdate(s.table, i, slot);
    var q, q' := multiset(s.table[i].queue), multiset(slot.queue);
    var f, f' := multiset(s.free), multiset(r.free);
    forall b ensures (Owned(r) + gone)[b] == Owned(s)[b] {
      assert (Queued(r.table) + q)[b] == (Queued(s.table) + q')[b];
      assert (f' + q' + gone)[b] == (f + q)[b];
    }
  }

  // ---------- endpoint table ----------

  /** An endpoint occupies at most one entry, so the lookup finds that entry. */
  lemma LookupFinds(s: Shared, i: nat)
    requires s.TableOk() && i < |s.table| && !s.table[i].endpoint.Reserved()
    ensures Lookup(s, s.table[i].endpoint) == Some(i)
  {
  }

  /** Occupying a free entry keeps the block well formed. */
  lemma OccupyKeepsOk(s: Shared, i: nat, ep: Endpoint)
    requires s.Ok() && i < |s.table| && s.table[i].endpoint.Reserved() && ep.core < |s.rings|
    requires forall j :: 0 <= j < |s.table| ==> s.table[j].endpoint != ep
    ensures var r := s.(table := s.table[i := Slot(ep, [])]); r.Ok() && Owned(r) == Owned(s)
  {
    MoveBuffers(s, s.(table := s.table[i := Slot(ep, [])]), i, Slot(ep, []), multiset{});
    assert s.table[i].queue == [];
  }

  /** The three outcomes of a registration, by what the table holds. */
  lemma RegisterStatus(s: Shared, ep: Endpoint)
    ensures var status := Register(s, ep).1;
            var known := exists i :: 0 <= i < |s.table| && s.table[i].endpoint == ep;
            var full := forall i :: 0 <= i < |s.table| ==> !s.table[i].endpoint.Reserved();
            && (status == ErrEndpoint <==> ep.Reserved() || known)
            && (status == ErrNoMem <==> !ep.Reserved() && !known && full)
            && (status == Success <==> !ep.Reserved() && !known && !full)
  {
    var i := IndexOf(s.table, ep);
    var j := FirstFree(s.table);
  }

  /** A failed registration changes nothing; a successful one takes a free entry, without messages. */
  lemma RegisterEffect(s: Shared, ep: Endpoint)
    requires s.Ok() && ep.core < |s.rings|
    ensures var (r, status) := Register(s, ep);
            && r.Ok() && Owned(r) == Owned(s)
            && (status != Success ==> r == s)
            && (status == Success ==>
                  var i := FirstFree(s.table);
                  && i < |s.table| && s.table[i].endpoint.Reserved()
                  && r == s.(table := s.table[i := Slot(ep, [])])
                  && Lookup(r, ep) == Some(i))
  {
    var (r, status) := Register(s, ep);
    if status == Success {
      var i := FirstFree(s.table);
      assert s.table[i].queue == [];
      OccupyKeepsOk(s, i, ep);
      LookupFinds(r, i);
    }
  }

  /** Clearing an entry moves its buffers to the free list and keeps the block well formed. */
  lemma ReleaseKeepsOk(s: Shared, i: nat)
    requires s.Ok() && i < |s.table|
    ensures Release(s, i).Ok() && Owned(Release(s, i)) == Owned(s)
  {
    var r := Release(s, i);
    assert multiset(r.free) == multiset(s.free) + multiset(s.table[i].queue);
    MoveBuffers(s, r, i, r.table[i], multiset{});
  }

  /** Removal frees exactly the entry that holds the endpoint, and fails exactly when there is none. */
  lemma RemoveEffect(s: Shared, ep: Endpoint)
    requires s.Ok()
    ensures var (r, status) := Remove(s, ep);
            && r.Ok() && Owned(r) == Owned(s)
            && !r.Registered(ep)
            && match Lookup(s, ep)
               case None => status == ErrEndpoint && r == s
               case Some(i) => status == Success && r == Release(s, i)
  {
    if i :| Lookup(s, ep) == Some(i) {
      ReleaseKeepsOk(s, i);
      var r := Release(s, i);
      assert forall j :: 0 <= j < |r.table| ==> r.table[j].endpoint != ep;
    }
  }

  /** Removing a freshly registered endpoint undoes the registration, up to the stale core and node. */
  lemma RemoveUndoesRegister(s: Shared, ep: Endpoint)
    requires s.Ok() && ep.core < |s.rings| && Register(s, ep).1 == Success
    ensures var i := FirstFree(s.table);
            var back := Remove(Register(s, ep).0, ep);
            && back.1 == Success
            && back.0 == s.(table := s.table[i := Slot(ep.(port := RESERVED_PORT), [])])
            && forall e :: back.0.Registered(e) <==> s.Registered(e)
  {
    RegisterEffect(s, ep);
    var i := FirstFree(s.table);
    var r := Register(s, ep).0;
    assert r.free + [] == r.free;
    assert Release(r, i).table == s.table[i := Slot(ep.(port := RESERVED_PORT), [])];
    var back := Release(r, i);
    forall e ensures back.Registered(e) <==> s.Registered(e) {
      SameRegistrations(s, back, e);
    }
  }

  /** Registration depends only on which entries hold the endpoint. */
  lemma SameRegistrations(s: Shared, r: Shared, e: Endpoint)
    requires |s.table| == |r.table|
    requires forall j :: 0 <= j < |s.table| ==>
               s.table[j].endpoint == r.table[j].endpoint
               || (s.table[j].endpoint.Reserved() && r.table[j].endpoint.Reserved())
    ensures s.Registered(e) <==> r.Registered(e)
  {
    var i, j := IndexOf(s.table, e), IndexOf(r.table, e);
  }

  // ---------- destroying a node ----------

  predicate OfNode(slot: Slot, node: nat) {
    slot.endpoint.node == node && !slot.endpoint.Reserved()
  }

  /** The queues of the endpoints of a node, in table order from entry i on. */
  function QueuesOf(table: seq<Slot>, node: nat, i: nat := 0): seq<nat>
    requires i <= |table|
    decreases |table| - i
  {
    if i == |table| then []
    else (if OfNode(table[i], node) then table[i].queue else []) + QueuesOf(table, node, i + 1)
  }

  lemma {:induction false} QueuesOfFrame(t: seq<Slot>, u: seq<Slot>, node: nat, i: nat)
    requires |t| == |u| && i <= |t|
    requires forall j :: i <= j < |t| ==> t[j] == u[j]
    ensures QueuesOf(t, node, i) == QueuesOf(u, node, i)
    decreases |t| - i
  {
    if i < |t| {
      QueuesOfFrame(t, u, node, i + 1);
    }
  }

  /** What destroying a node makes of one entry. */
  function Cleared(slot: Slot, node: nat): Slot {
    if OfNode(slot, node) then Slot(slot.endpoint.(port := RESERVED_PORT), []) else slot
  }

  /** One iteration of the loop of mcc_destroy; a free entry of the node is passed over. */
  lemma NodeStep(s: Shared, node: nat, i: nat)
    requires s.Ok() && i < |s.table|
    ensures RemoveNode(s, node, i) == RemoveNode(if OfNode(s.table[i], node) then Release(s, i) else s, node, i + 1)
  {
    if OfNode(s.table[i], node) {
      LookupFinds(s, i);
    }
  }

  /**
   mcc_destroy: no endpoint of the node stays registered, and every entry of another node is
   left exactly as it was.
   */
  lemma {:induction false} RemoveNodeTable(s: Shared, node: nat, i: nat)
    requires s.Ok() && i <= |s.table|
    ensures var r := RemoveNode(s, node, i);
            && r.Ok() && Owned(r) == Owned(s)
            && r == s.(free := r.free, table := r.table)
            && forall j :: 0 <= j < |s.table| ==>
                 r.table[j] == if i <= j then Cleared(s.table[j], node) else s.table[j]
    decreases |s.table| - i
  {
    if i < |s.table| {
      NodeStep(s, node, i);
      if OfNode(s.table[i], node) {
        ReleaseKeepsOk(s, i);
        RemoveNodeTable(Release(s, i), node, i + 1);
      } else {
        RemoveNodeTable(s, node, i + 1);
      }
    }
  }

  /** mcc_destroy: the queues of the node go to the end of the free list in table order. */
  lemma {:induction false} RemoveNodeDrains(s: Shared, node: nat, i: nat)
    requires s.Ok() && i <= |s.table|
    ensures RemoveNode(s, node, i).free == s.free + QueuesOf(s.table, node, i)
    decreases |s.table| - i
  {
    hide RemoveNode, Shared.Ok;
    RemoveNodeEnds(s, node);
    if i < |s.table| {
      NodeStep(s, node, i);
      if OfNode(s.table[i], node) {
        var s1 := Release(s, i);
        ReleaseKeepsOk(s, i);
        RemoveNodeDrains(s1, node, i + 1);
        QueuesOfFrame(s.table, s1.table, node, i + 1);
        assert s1.free + QueuesOf(s.table, node, i + 1)
            == s.free + (s.table[i].queue + QueuesOf(s.table, node, i + 1));
      } else {
        RemoveNodeDrains(s, node, i + 1);
      }
    }
  }

  // ---------- sending ----------

  /** Taking the first free buffer and writing a message into it. */
  function Prepared(s: Shared, msg: seq<Byte>): Shared
    requires s.Ok() && s.free != [] && |msg| <= s.bufferSize
  {
    var b := s.free[0];
    assert b in s.free;
    s.(free := s.free[1..], cells := s.cells[b := s.cells[b].Store(msg)])
  }

  lemma PreparedKeepsOk(s: Shared, msg: seq<Byte>)
    requires s.Ok() && s.free != [] && |msg| <= s.bufferSize
    ensures Prepared(s, msg).Ok() && Owned(Prepared(s, msg)) + multiset{s.free[0]} == Owned(s)
  {
    assert s.free[0] in s.free;
    assert s.free == [s.free[0]] + s.free[1..];
    assert forall b :: b in s.free[1..] ==> b in s.free;
  }

  lemma QueueKeepsOk(s: Shared, i: nat, b: nat)
    requires s.Ok() && i < |s.table| && !s.table[i].endpoint.Reserved() && b < |s.cells|
    ensures var r := s.WithQueue(i, s.table[i].queue + [b]);
            r.Ok() && Owned(r) == Owned(s) + multiset{b}
  {
    var q := s.table[i].queue;
    var r := s.WithQueue(i, q + [b]);
    MoveBuffers(r, s, i, s.table[i], multiset{b});
  }

  lemma ReturnKeepsOk(s: Shared, b: nat)
    requires s.Ok() && b < |s.cells|
    ensures var r := s.(free := s.free + [b]); r.Ok() && Owned(r) == Owned(s) + multiset{b}
  {
  }

  /**
   A buffer that holds a message ends on the endpoint's list together with exactly one signal,
   or back on the free list with table and rings as they were.
   */
  lemma DeliverEffect(s: Shared, ep: Endpoint, b: nat)
    requires s.Ok() && b < |s.cells|
    ensures var (r, status) := Deliver(s, ep, b);
            && r.Ok() && Owned(r) == Owned(s) + multiset{b}
            && match Lookup(s, ep)
               case None => status == ErrEndpoint && r == s.(free := s.free + [b])
               case Some(i) =>
                 if s.RingFull(ep.core) then status == ErrSqFull && r == s.(free := s.free + [b])
                 else status == Success
                      && r == s.WithQueue(i, s.table[i].queue + [b])
                               .(rings := s.rings[ep.core := s.rings[ep.core] + [Signal(BufferQueued, ep)]])
  {
    ReturnKeepsOk(s, b);
    if i :| Lookup(s, ep) == Some(i) && !s.RingFull(ep.core) {
      var s1 := Post(s, ep.core, Signal(BufferQueued, ep)).0;
      PostKeepsOk(s, ep.core, Signal(BufferQueued, ep));
      QueueKeepsOk(s1, i, b);
    }
  }

  /**
   A critical section of mcc_send is all or nothing.  It fails for want of a buffer, of the
   endpoint or of room in the signal ring, in this order, and a failure leaves the table and
   the rings alone and the free list either empty or with its head moved to its tail.
   */
  lemma SendAllOrNothing(s: Shared, ep: Endpoint, msg: seq<Byte>)
    requires s.Ok() && |msg| <= s.bufferSize
    ensures var (r, status) := SendSection(s, ep, msg);
            && r.Ok() && Owned(r) == Owned(s) && SameShape(s, r)
            && status == (if s.free == [] then None
                          else if !s.Registered(ep) then Some(ErrEndpoint)
                          else if s.RingFull(ep.core) then Some(ErrSqFull)
                          else Some(Success))
            && (status == None ==> r == s)
            && (status != None ==>
                  && s.free[0] < |s.cells|
                  && (forall k :: 0 <= k < |s.cells| && k != s.free[0] ==> r.cells[k] == s.cells[k])
                  && r.cells[s.free[0]] == s.cells[s.free[0]].Store(msg))
            && (status != Some(Success) ==>
                  r.table == s.table && r.rings == s.rings
                  && r.free == if s.free == [] then [] else s.free[1..] + [s.free[0]])
            && (status == Some(Success) ==>
                  && r.free == s.free[1..]
                  && r.rings == s.rings[ep.core := s.rings[ep.core] + [Signal(BufferQueued, ep)]]
                  && Lookup(s, ep).Some?
                  && var i := Lookup(s, ep).value;
                     r.table == s.table[i := Slot(ep, s.table[i].queue + [s.free[0]])])
  {
    if s.free != [] {
      assert s.free[0] in s.free;
      var p := Prepared(s, msg);
      PreparedKeepsOk(s, msg);
      DeliverEffect(p, ep, s.free[0]);
      assert Lookup(p, ep) == Lookup(s, ep);
    }
  }

  // ---------- receiving ----------

  lemma DropHeadKeepsOk(s: Shared, i: nat)
    requires s.Ok() && i < |s.table| && s.table[i].queue != []
    ensures var q := s.table[i].queue;
            var r := s.WithQueue(i, q[1..]);
            r.Ok() && q[0] < |s.cells| && Owned(r) + multiset{q[0]} == Owned(s)
            && !s.table[i].endpoint.Reserved()
  {
    var q := s.table[i].queue;
    assert q[0] in q && q == [q[0]] + q[1..];
    assert forall b :: b in q[1..] ==> b in q;
    var r := s.WithQueue(i, q[1..]);
    MoveBuffers(s, r, i, r.table[i], multiset{q[0]});
  }

  /**
   Freeing puts the buffer at the end of the free list whether or not the rings of the other
   cores have room for the notification.
   */
  lemma FreeEffect(s: Shared, b: nat, self: nat)
    requires s.Ok() && b < |s.cells|
    ensures var r := FreeSection(s, b, self);
            && r.Ok() && Owned(r) == Owned(s) + multiset{b}
            && r == s.(free := s.free + [b], rings := r.rings)
            && |r.rings| == |s.rings| && forall c :: 0 <= c < |s.rings| ==> r.rings[c] == Told(s, self, 0, c)
  {
    ReturnKeepsOk(s, b);
    BroadcastTellsOthers(s.(free := s.free + [b]), self, 0);
  }

  lemma TruncateKeepsOk(s: Shared, b: nat, len: nat)
    requires s.Ok() && b < |s.cells| && len <= s.cells[b].len
    ensures var r := s.(cells := s.cells[b := s.cells[b].(len := len)]); r.Ok() && Owned(r) == Owned(s)
  {
  }

  /** The head of a list goes to the end of the free list. */
  lemma ReturnHeadEffect(s: Shared, i: nat, self: nat)
    requires s.Ok() && i < |s.table| && s.table[i].queue != []
    ensures var r := ReturnHead(s, i, self);
            var q := s.table[i].queue;
            && r.Ok() && Owned(r) == Owned(s) && !s.table[i].endpoint.Reserved()
            && q[0] < |s.cells|
            && r == s.(free := s.free + [q[0]], table := s.table[i := Slot(s.table[i].endpoint, q[1..])],
                       rings := r.rings)
            && |r.rings| == |s.rings| && forall c :: 0 <= c < |s.rings| ==> r.rings[c] == Told(s, self, 0, c)
  {
    var q := s.table[i].queue;
    DropHeadKeepsOk(s, i);
    FreeEffect(s.WithQueue(i, q[1..]), q[0], self);
  }

  /**
   A copying receive succeeds exactly when the list is not empty at that moment; it delivers
   the first bytes of the head message that fit, and recycles the buffer.
   */
  lemma CopyEffect(s: Shared, i: nat, size: nat, self: nat)
    requires s.Ok() && i < |s.table|
    ensures var (r, receipt) := CopySection(s, i, size, self);
            var q := s.table[i].queue;
            && r.Ok() && Owned(r) == Owned(s)
            && (receipt.Nothing? <==> q == [])
            && (q == [] ==> r == s)
            && (q != [] ==>
                  && q[0] < |s.cells| && !s.table[i].endpoint.Reserved()
                  && receipt.buffer == q[0]
                  && receipt.message == s.cells[q[0]].Message()
                  && receipt.output == receipt.message[..if |receipt.message| < size then |receipt.message| else size]
                  && r == s.(free := s.free + [q[0]], table := s.table[i := Slot(s.table[i].endpoint, q[1..])],
                             rings := r.rings, cells := s.cells[q[0] := s.cells[q[0]].(len := |receipt.output|)])
                  && |r.rings| == |s.rings| && forall c :: 0 <= c < |s.rings| ==> r.rings[c] == Told(s, self, 0, c))
  {
    var q := s.table[i].queue;
    if q != [] {
      assert q[0] in q;
      var cell := s.cells[q[0]];
      var copied := if cell.len > size then size else cell.len;
      TruncateKeepsOk(s, q[0], copied);
      ReturnHeadEffect(s.(cells := s.cells[q[0] := cell.(len := copied)]), i, self);
      assert cell.data[..copied] == cell.Message()[..copied];
    }
  }

  /** A zero-copy receive takes the head buffer out of the block and writes no buffer. */
  lemma NoCopyEffect(s: Shared, i: nat)
    requires s.Ok() && i < |s.table|
    ensures var (r, receipt) := NoCopySection(s, i);
            var q := s.table[i].queue;
            && r.Ok()
            && (receipt.Nothing? <==> q == [])
            && (q == [] ==> r == s)
            && (q != [] ==>
                  && q[0] < |s.cells| && !s.table[i].endpoint.Reserved()
                  && Owned(r) + multiset{q[0]} == Owned(s)
                  && receipt == Received(q[0], s.cells[q[0]].Message(), s.cells[q[0]].Message())
                  && r == s.(table := s.table[i := Slot(s.table[i].endpoint, q[1..])]))
  {
    if s.table[i].queue != [] {
      DropHeadKeepsOk(s, i);
    }
  }

  /** Each of the first n buffers once. */
  ghost function AllBuffers(n: nat): (all: multiset<nat>)
    ensures forall b: nat :: all[b] == if b < n then 1 else 0
  {
    if n == 0 then multiset{} else AllBuffers(n - 1) + multiset{n - 1}
  }

  /** The first initialisation establishes everything that the sections keep, with every buffer free. */
  lemma InitialOk(buffers: nat, endpoints: nat, cores: nat, ringSize: nat, bufferSize: nat)
    requires 0 < ringSize
    ensures var s := Initial(buffers, endpoints, cores, ringSize, bufferSize);
            && s.Ok() && Owned(s) == AllBuffers(buffers)
            && forall ep :: !s.Registered(ep)
  {
    hide Owned, Shared.Shaped, Shared.TableOk, Shared.RingsOk, Initial, IndexOf;
    InitialShaped(buffers, endpoints, cores, ringSize, bufferSize);
    InitialTable(buffers, endpoints, cores, ringSize, bufferSize);
    InitialRings(buffers, endpoints, cores, ringSize, bufferSize);
    InitialOwned(buffers, endpoints, cores, ringSize, bufferSize);
  }

  lemma InitialShaped(buffers: nat, endpoints: nat, cores: nat, ringSize: nat, bufferSize: nat)
    ensures Initial(buffers, endpoints, cores, ringSize, bufferSize).Shaped()
  {
    hide Owned;
  }

  lemma InitialTable(buffers: nat, endpoints: nat, cores: nat, ringSize: nat, bufferSize: nat)
    ensures var s := Initial(buffers, endpoints, cores, ringSize, bufferSize);
            s.TableOk() && forall ep :: !s.Registered(ep)
  {
    hide Owned;
  }

  lemma InitialRings(buffers: nat, endpoints: nat, cores: nat, ringSize: nat, bufferSize: nat)
    requires 0 < ringSize
    ensures Initial(buffers, endpoints, cores, ringSize, bufferSize).RingsOk()
  {
    hide Owned;
  }

  lemma InitialOwned(buffers: nat, endpoints: nat, cores: nat, ringSize: nat, bufferSize: nat)
    ensures Owned(Initial(buffers, endpoints, cores, ringSize, bufferSize)) == AllBuffers(buffers)
  {
    var s := Initial(buffers, endpoints, cores, ringSize, bufferSize);
    IdentityIsAll(s.free);
    NothingQueued(s.table);
  }

  lemma {:induction false} IdentityIsAll(s: seq<nat>)
    requires forall i :: 0 <= i < |s| ==> s[i] == i
    ensures multiset(s) == AllBuffers(|s|)
  {
    if s != [] {
      var n := |s| - 1;
      IdentityIsAll(s[..n]);
      assert s == s[..n] + [n];
    }
  }

  lemma {:induction false} NothingQueued(table: seq<Slot>)
    requires forall i :: 0 <= i < |table| ==> table[i].queue == []
    ensures Queued(table) == multiset{}
  {
    if table != [] {
      NothingQueued(table[..|table| - 1]);
    }
  }
}

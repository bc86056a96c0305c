/**
 The shared bookkeeping block as a value, and each semaphore-protected section of the
 library as a function on it.  The heap model is proved to implement these functions, and
 the interleaving model takes them as its atomic steps.
 */
module MccShared {
  import opened Options
  import opened MccTypes

  /** One entry of the endpoint table with the positions of its queued buffers. */
  datatype Slot = Slot(endpoint: Endpoint, queue: seq<nat>)

  datatype Shared = Shared(
    ringSize: nat,             // MCC_MAX_OUTSTANDING_SIGNALS
    bufferSize: nat,           // MCC_ATTR_BUFFER_SIZE_IN_BYTES
    free: seq<nat>,
    table: seq<Slot>,
    rings: seq<seq<Signal>>,   // per core, the signals queued and not yet serviced
    cells: seq<Cell>)
  {
    /** What the memory layout alone gives: buffer positions exist and cells have their size. */
    ghost predicate Shaped() {
      && (forall b :: b in free ==> b < |cells|)
      && (forall i, b :: 0 <= i < |table| && b in table[i].queue ==> b < |cells|)
      && (forall b :: 0 <= b < |cells| ==> cells[b].Valid() && |cells[b].data| == bufferSize)
    }

    /** What every section keeps about the endpoint table. */
    ghost predicate TableOk() {
      && (forall i, j :: 0 <= i < j < |table| && !table[i].endpoint.Reserved() ==>
            table[i].endpoint != table[j].endpoint)
      && (forall i :: 0 <= i < |table| && table[i].endpoint.Reserved() ==> table[i].queue == [])
      && (forall i :: 0 <= i < |table| && !table[i].endpoint.Reserved() ==> table[i].endpoint.core < |rings|)
    }

    /** What every section keeps about the signal rings. */
    ghost predicate RingsOk() {
      && 0 < ringSize
      && (forall c :: 0 <= c < |rings| ==> |rings[c]| < ringSize)
      && (forall c, sig :: 0 <= c < |rings| && sig in rings[c] && sig.kind == BufferQueued ==>
            sig.destination.core == c && !sig.destination.Reserved())
    }

    ghost predicate Ok() {
      Shaped() && TableOk() && RingsOk()
    }

    function WithQueue(i: nat, q: seq<nat>): Shared
      requires i < |table|
    {
      this.(table := table[i := Slot(table[i].endpoint, q)])
    }

    predicate Registered(ep: Endpoint) {
      !ep.Reserved() && IndexOf(table, ep) < |table|
    }

    predicate RingFull(core: nat)
      requires core < |rings|
    {
      |rings[core]| + 1 >= ringSize
    }
  }

  /** The fixed sizes of the block, which no section changes. */
  ghost predicate SameShape(s: Shared, r: Shared) {
    && r.ringSize == s.ringSize && r.bufferSize == s.bufferSize
    && |r.table| == |s.table| && |r.rings| == |s.rings| && |r.cells| == |s.cells|
  }

  /** The first entry at or after i that holds ep, or the table size. */
  function IndexOf(table: seq<Slot>, ep: Endpoint, i: nat := 0): (r: nat)
    requires i <= |table|
    ensures i <= r <= |table|
    ensures r < |table| ==> table[r].endpoint == ep
    ensures forall j :: i <= j < r ==> table[j].endpoint != ep
    decreases |table| - i
  {
    if i == |table| || table[i].endpoint == ep then i else IndexOf(table, ep, i + 1)
  }

  /** The first free entry at or after i, or the table size. */
  function FirstFree(table: seq<Slot>, i: nat := 0): (r: nat)
    requires i <= |table|
    ensures i <= r <= |table|
    ensures r < |table| ==> table[r].endpoint.Reserved()
    ensures forall j :: i <= j < r ==> !table[j].endpoint.Reserved()
    decreases |table| - i
  {
    if i == |table| || table[i].endpoint.Reserved() then i else FirstFree(table, i + 1)
  }

  /** mcc_get_endpoint_list */
  function Lookup(s: Shared, ep: Endpoint): Option<nat> {
    if s.Registered(ep) then Some(IndexOf(s.table, ep)) else None
  }

  /** Every core index that a send uses is in range, because only registered endpoints pass the lookup. */
  lemma LookupCore(s: Shared, ep: Endpoint)
    requires s.TableOk() && Lookup(s, ep).Some?
    ensures ep.core < |s.rings|
  {
  }

  /** mcc_register_endpoint */
  function Register(s: Shared, ep: Endpoint): (Shared, Status) {
    if ep.Reserved() || Lookup(s, ep).Some? then (s, ErrEndpoint) else
    var i := FirstFree(s.table);
    if i == |s.table| then (s, ErrNoMem)
    else (s.(table := s.table[i := s.table[i].(endpoint := ep)]), Success)
  }

  /** Entry i gives its queue to the free list and is marked free. */
  function Release(s: Shared, i: nat): Shared
    requires i < |s.table|
  {
    s.(free := s.free + s.table[i].queue,
       table := s.table[i := Slot(s.table[i].endpoint.(port := RESERVED_PORT), [])])
  }

  /** mcc_remove_endpoint: the drained queue goes to the end of the free list. */
  function Remove(s: Shared, ep: Endpoint): (Shared, Status) {
    match Lookup(s, ep)
    case None => (s, ErrEndpoint)
    case Some(i) => (Release(s, i), Success)
  }

  /**
   Part-way through draining entry i: n buffers have moved to the free list, and possibly
   one more has been taken off the queue and not yet put anywhere.
   */
  ghost function Draining(s: Shared, i: nat, n: nat, inHand: bool): Shared
    requires i < |s.table| && n + (if inHand then 1 else 0) <= |s.table[i].queue|
  {
    var q := s.table[i].queue;
    s.WithQueue(i, q[n + (if inHand then 1 else 0)..]).(free := s.free + q[..n])
  }

  lemma DrainingEnds(s: Shared, i: nat)
    requires i < |s.table|
    ensures Draining(s, i, 0, false) == s
    ensures var d := Draining(s, i, |s.table[i].queue|, false);
            d == s.WithQueue(i, []).(free := s.free + s.table[i].queue)
            && d.(table := d.table[i := d.table[i].(endpoint := s.table[i].endpoint.(port := RESERVED_PORT))])
               == Release(s, i)
  {
    var q := s.table[i].queue;
    assert q[|q|..] == [] && q[..|q|] == q && q[0..] == q;
    assert s.free + q[..0] == s.free;
    assert s.table[i := Slot(s.table[i].endpoint, q)] == s.table;
    var d := Draining(s, i, |q|, false);
    assert d.table[i := d.table[i].(endpoint := s.table[i].endpoint.(port := RESERVED_PORT))] == Release(s, i).table;
  }

  lemma DrainingTakes(s: Shared, i: nat, n: nat)
    requires i < |s.table| && n < |s.table[i].queue|
    ensures var d := Draining(s, i, n, false); var q := d.table[i].queue;
            q != [] && q[0] == s.table[i].queue[n] && d.WithQueue(i, q[1..]) == Draining(s, i, n, true)
  {
    var q := s.table[i].queue;
    assert q[n..][1..] == q[n + 1..];
    assert s.table[i := Slot(s.table[i].endpoint, q[n..])][i := Slot(s.table[i].endpoint, q[n + 1..])]
        == s.table[i := Slot(s.table[i].endpoint, q[n + 1..])];
  }

  lemma DrainingPuts(s: Shared, i: nat, n: nat)
    requires i < |s.table| && n < |s.table[i].queue|
    ensures var d := Draining(s, i, n, true);
            d.(free := d.free + [s.table[i].queue[n]]) == Draining(s, i, n + 1, false)
  {
    var q := s.table[i].queue;
    assert q[..n] + [q[n]] == q[..n + 1];
    assert s.free + q[..n] + [q[n]] == s.free + q[..n + 1];
  }

  /** The loop of mcc_destroy over the table entries from i on. */
  function RemoveNode(s: Shared, node: nat, i: nat := 0): (r: Shared)
    requires i <= |s.table|
    ensures |r.table| == |s.table|
    decreases |s.table| - i
  {
    if i == |s.table| then s
    else if s.table[i].endpoint.node == node then RemoveNode(Remove(s, s.table[i].endpoint).0, node, i + 1)
    else RemoveNode(s, node, i + 1)
  }

  /** One iteration of that loop. */
  lemma RemoveNodeIterates(s: Shared, node: nat, i: nat)
    requires i < |s.table|
    ensures var r := if s.table[i].endpoint.node == node then Remove(s, s.table[i].endpoint).0 else s;
            |r.table| == |s.table| && RemoveNode(s, node, i) == RemoveNode(r, node, i + 1)
  {
  }

  lemma RemoveNodeEnds(s: Shared, node: nat)
    ensures RemoveNode(s, node, |s.table|) == s
  {
  }

  /** mcc_queue_signal */
  function Post(s: Shared, core: nat, signal: Signal): (r: (Shared, Status))
    requires core < |s.rings|
    ensures |r.0.rings| == |s.rings|
  {
    if s.RingFull(core) then (s, ErrSqFull)
    else (s.(rings := s.rings[core := s.rings[core] + [signal]]), Success)
  }

  /** The loop that tells every other core, from core i on, that a buffer was freed. */
  function Broadcast(s: Shared, self: nat, i: nat := 0): (r: Shared)
    requires i <= |s.rings|
    ensures |r.rings| == |s.rings|
    decreases |s.rings| - i
  {
    if i == |s.rings| then s
    else Broadcast(if i == self then s else Post(s, i, FREED_SIGNAL).0, self, i + 1)
  }

  /** The rest of a critical section of mcc_send once buffer b holds the message. */
  function Deliver(s: Shared, ep: Endpoint, b: nat): (Shared, Status)
    requires Lookup(s, ep).Some? ==> ep.core < |s.rings|
  {
    match Lookup(s, ep)
    case None => (s.(free := s.free + [b]), ErrEndpoint)
    case Some(i) =>
      var (s1, status) := Post(s, ep.core, Signal(BufferQueued, ep));
      if status != Success then (s1.(free := s1.free + [b]), status)
      else (s1.WithQueue(i, s1.table[i].queue + [b]), Success)
  }

  /** One critical section of mcc_send; None when no free buffer was found. */
  function SendSection(s: Shared, ep: Endpoint, msg: seq<Byte>): (Shared, Option<Status>)
    requires s.Ok() && |msg| <= s.bufferSize
  {
    if s.free == [] then (s, None) else
    var b := s.free[0];
    assert b in s.free;
    var (s1, status) := Deliver(s.(free := s.free[1..], cells := s.cells[b := s.cells[b].Store(msg)]), ep, b);
    (s1, Some(status))
  }

  /** What the second section of a receive hands to the application. */
  datatype Receipt = Nothing | Received(buffer: nat, message: seq<Byte>, output: seq<Byte>)

  /** The first buffer of entry i goes back to the free list and every other core is told. */
  function ReturnHead(s: Shared, i: nat, self: nat): Shared
    requires i < |s.table| && s.table[i].queue != []
  {
    var q := s.table[i].queue;
    FreeSection(s.WithQueue(i, q[1..]), q[0], self)
  }

  /** The second section of mcc_recv_copy on the list of entry i. */
  function CopySection(s: Shared, i: nat, size: nat, self: nat): (Shared, Receipt)
    requires s.Ok() && i < |s.table|
  {
    var q := s.table[i].queue;
    if q == [] then (s, Nothing) else
    assert q[0] in q;
    var cell := s.cells[q[0]];
    var copied := if cell.len > size then size else cell.len;
    (ReturnHead(s.(cells := s.cells[q[0] := cell.(len := copied)]), i, self),
     Received(q[0], cell.Message(), cell.data[..copied]))
  }

  /** The second section of mcc_recv_nocopy on the list of entry i. */
  function NoCopySection(s: Shared, i: nat): (Shared, Receipt)
    requires s.Ok() && i < |s.table|
  {
    var q := s.table[i].queue;
    if q == [] then (s, Nothing) else
    assert q[0] in q;
    var cell := s.cells[q[0]];
    (s.WithQueue(i, q[1..]), Received(q[0], cell.Message(), cell.Message()))
  }

  /** mcc_free_buffer */
  function FreeSection(s: Shared, b: nat, self: nat): Shared {
    Broadcast(s.(free := s.free + [b]), self)
  }

  /** The interrupt handler empties the queue of its core. */
  function ServiceSection(s: Shared, core: nat): Shared
    requires core < |s.rings|
  {
    s.(rings := s.rings[core := []])
  }

  /** The block that the first mcc_initialize leaves behind. */
  function Initial(buffers: nat, endpoints: nat, cores: nat, ringSize: nat, bufferSize: nat): (s: Shared) {
    Shared(ringSize, bufferSize,
      seq(buffers, i => i),
      seq(endpoints, _ => Slot(ZERO_ENDPOINT, [])),
      seq(cores, _ => []),
      seq(buffers, _ => Cell(0, seq(bufferSize, _ => 0))))
  }
}

/**
 The bookkeeping block in shared memory: buffers, lists, endpoint table and signal queues
 as objects that the library updates in place.  Every method is one semaphore-protected
 section, or a step of one, and leaves exactly the block that MccShared says.
 */
module MccBookkeeping {
  import opened Options
  import opened MccTypes
  import opened MccLists
  import opened MccSignals
  import S = MccShared

  class EndpointMapItem {
    var endpoint: Endpoint
    const list: ReceiveList

    constructor (list: ReceiveList)
      ensures this.list == list && endpoint == ZERO_ENDPOINT
    {
      this.list := list;
      endpoint := ZERO_ENDPOINT;
    }
  }

  class Bookkeeping {
    var initString: string
    const freeList: ReceiveList
    const signals: SignalQueues
    const table: seq<EndpointMapItem>
    const buffers: seq<ReceiveBuffer>
    const bufferSize: nat

    /** Lays the block out in memory; nothing is initialised yet. */
    constructor (buffers: nat, endpoints: nat, cores: nat, ringSize: nat, bufferSize: nat, memory: string)
      requires 0 < buffers && 0 < ringSize
      ensures Layout() && fresh(Repr()) && initString == memory
      ensures |this.buffers| == buffers && |table| == endpoints && this.bufferSize == bufferSize
      ensures signals.cores == cores && signals.size == ringSize
    {
      var pool: seq<ReceiveBuffer> := [];
      for i := 0 to buffers
        invariant |pool| == i
        invariant forall k :: 0 <= k < i ==> fresh(pool[k]) && fresh(pool[k].data)
        invariant forall k :: 0 <= k < i ==> pool[k].index == k && pool[k].data.Length == bufferSize
        invariant forall j, k :: 0 <= j < k < i ==> pool[j].data != pool[k].data
      {
        var b := new ReceiveBuffer(i, bufferSize);
        pool := pool + [b];
      }
      var free := new ReceiveList();
      var entries: seq<EndpointMapItem> := [];
      for i := 0 to endpoints
        invariant |entries| == i
        invariant forall k :: 0 <= k < i ==> fresh(entries[k]) && fresh(entries[k].list) && entries[k].list != free
        invariant forall j, k :: 0 <= j < k < i ==> entries[j] != entries[k] && entries[j].list != entries[k].list
      {
        var list := new ReceiveList();
        var e := new EndpointMapItem(list);
        entries := entries + [e];
      }
      var queues := new SignalQueues(cores, ringSize);
      this.initString, this.bufferSize, this.buffers, this.table := memory, bufferSize, pool, entries;
      this.freeList, this.signals := free, queues;
    }

    /** Everything in the block except the init string. */
    ghost function Repr(): set<object> {
      {freeList, signals.received, signals.head, signals.tail}
      + (set e | e in table) + (set e | e in table :: e.list)
      + (set b | b in buffers) + (set b | b in buffers :: b.data)
    }

    /** The block is laid out once; its parts are distinct objects. */
    ghost predicate Layout() {
      && signals.Shape()
      && 0 < |buffers|
      && (forall i :: 0 <= i < |buffers| ==> buffers[i].index == i && buffers[i].data.Length == bufferSize)
      && (forall b :: b in Pool() ==> b.data as object !in {signals.received as object, signals.head, signals.tail})
      && (forall i, j :: 0 <= i < j < |buffers| ==> buffers[i].data != buffers[j].data)
      && (forall i, j :: 0 <= i < j < |table| ==> table[i] != table[j] && table[i].list != table[j].list)
      && (forall e :: e in table ==> e.list != freeList)
    }

    /** What every section needs before the block can be read as a value. */
    ghost predicate Readable()
      reads signals.received, signals.head, signals.tail
    {
      Layout() && signals.Valid()
    }

    ghost function Pool(): set<ReceiveBuffer> {
      set b | b in buffers
    }

    ghost function Lists(): set<ReceiveList> {
      {freeList} + set e | e in table :: e.list
    }

    /** Every list is well formed and threads buffers of the block; a buffer with an owner is on its list. */
    ghost predicate Linked()
      reads Lists(), Pool()
    {
      && (forall l :: l in Lists() ==> (forall b :: b in l.contents ==> b in Pool()) && l.Valid())
      && (forall b, l :: b in Pool() && b.owner == l && l != null ==> l in Lists() && b in l.contents)
    }

    ghost function Entries(): (r: seq<S.Slot>)
      reads table, set e | e in table :: e.list
      ensures |r| == |table|
      ensures forall i :: 0 <= i < |table| ==>
                r[i].endpoint == table[i].endpoint && r[i].queue == Indices(table[i].list.contents)
    {
      seq(|table|, i requires 0 <= i < |table| reads table, set e | e in table :: e.list =>
        S.Slot(table[i].endpoint, Indices(table[i].list.contents)))
    }

    ghost function Cells(n: nat := |buffers|): (r: seq<Cell>)
      requires n <= |buffers|
      reads buffers`dataLen, set b | b in buffers :: b.data
      ensures |r| == n
      ensures forall i :: 0 <= i < n ==> r[i] == Cell(buffers[i].dataLen, buffers[i].data[..])
    {
      if n == 0 then [] else Cells(n - 1) + [Cell(buffers[n - 1].dataLen, buffers[n - 1].data[..])]
    }

    /** The block as a value. */
    ghost function View(): (s: S.Shared)
      requires Readable()
      ensures |s.table| == |table|
      reads signals.received, signals.head, signals.tail
      reads freeList, table, set e | e in table :: e.list, buffers`dataLen, set b | b in buffers :: b.data
    {
      S.Shared(signals.size, bufferSize, Indices(freeList.contents), Entries(), signals.View(), Cells())
    }

    ghost predicate Valid()
      reads signals.received, signals.head, signals.tail
      reads freeList, set e | e in table :: e.list, set b | b in buffers
    {
      Readable() && Linked()
    }

    /** A buffer that is on no list. */
    ghost predicate Detached(b: ReceiveBuffer)
      reads b
    {
      b in Pool() && b.owner == null
    }


    /** mcc_queue_buffer on one of the lists of the block. */
    method Queue(list: ReceiveList, b: ReceiveBuffer)
      requires Valid() && Detached(b) && list in Lists()
      modifies list, Pool()`next, Pool()`owner
      ensures Valid()
      ensures list.contents == old(list.contents) + [b]
    {
      list.QueueBuffer(b);
    }

    method QueueFree(b: ReceiveBuffer)
      requires Valid() && Detached(b)
      modifies freeList, Pool()`next, Pool()`owner
      ensures Valid()
      ensures View() == var s := old(View()); s.(free := s.free + [b.index])
    {
      Queue(freeList, b);
    }

    method QueueEntry(list: ReceiveList, ghost i: nat, b: ReceiveBuffer)
      requires Valid() && Detached(b) && i < |table| && list == table[i].list
      modifies list, Pool()`next, Pool()`owner
      ensures Valid()
      ensures View() == var s := old(View());
                        s.WithQueue(i, s.table[i].queue + [b.index])
    {
      Queue(list, b);
      assert Indices(list.contents) == old(Indices(list.contents)) + [b.index];
      EntryChanged(i);
    }

    /** Changing one entry changes one position of the table. */
    twostate lemma EntryChanged(i: nat)
      requires Layout() && i < |table|
      requires forall k :: 0 <= k < |table| && k != i ==>
                 table[k].endpoint == old(table[k].endpoint) && table[k].list.contents == old(table[k].list.contents)
      ensures Entries() == old(Entries())[i := S.Slot(table[i].endpoint, Indices(table[i].list.contents))]
    {
      forall k | 0 <= k < |table| && k != i
        ensures Entries()[k] == old(Entries())[k]
      {
      }
    }

    /** mcc_dequeue_buffer on one of the lists of the block. */
    method Dequeue(list: ReceiveList) returns (b: ReceiveBuffer?)
      requires Valid() && list in Lists()
      modifies list, Pool()`owner
      ensures Valid()
      ensures old(list.contents) == [] ==> b == null && list.contents == []
      ensures old(list.contents) != [] ==>
                b == old(list.contents[0]) && list.contents == old(list.contents)[1..] && Detached(b)
    {
      b := list.DequeueBuffer();
    }

    method DequeueFree() returns (b: ReceiveBuffer?)
      requires Valid()
      modifies freeList, Pool()`owner
      ensures Valid()
      ensures var s := old(View());
              if s.free == [] then b == null && View() == s
              else b != null && Detached(b) && b.index == s.free[0] && View() == s.(free := s.free[1..])
    {
      b := Dequeue(freeList);
    }

    method DequeueEntry(list: ReceiveList, ghost i: nat) returns (b: ReceiveBuffer?)
      requires Valid() && i < |table| && list == table[i].list
      modifies list, Pool()`owner
      ensures Valid() && b == old(list.head)
      ensures var s := old(View()); var q := s.table[i].queue;
              if q == [] then b == null && View() == s
              else b != null && Detached(b) && b.index == q[0]
                   && View() == s.WithQueue(i, q[1..])
    {
      assert Layout();
      hide Readable;
      b := Dequeue(list);
      EntryChanged(i);
      if b != null {
        assert Indices(list.contents) == old(Indices(list.contents))[1..];
      }
    }

    /** mcc_queue_signal */
    method Post(core: nat, signal: Signal) returns (status: Status)
      requires Valid() && core < signals.cores
      modifies signals.received, signals.tail
      ensures Valid()
      ensures (View(), status) == S.Post(old(View()), core, signal)
    {
      hide Linked;
      status := signals.QueueSignal(core, signal);
      if status != Success {
        assert signals.View() == old(signals.View());
      }
      LinksKept();
    }

    /** Telling every core except self that a buffer was freed. */
    method Broadcast(self: nat)
      requires Valid()
      modifies signals.received, signals.tail
      ensures Valid()
      ensures View() == S.Broadcast(old(View()), self)
    {
      hide Linked, Readable, Layout;
      for i := 0 to signals.cores
        invariant Valid()
        invariant S.Broadcast(View(), self, i) == S.Broadcast(old(View()), self)
      {
        if i != self {
          var _ := Post(i, FREED_SIGNAL);
        }
      }
    }

    /** mcc_get_endpoint_list */
    method GetEndpointList(endpoint: Endpoint) returns (list: ReceiveList?)
      requires Valid()
      ensures match S.Lookup(View(), endpoint)
              case None => list == null
              case Some(i) => list == table[i].list
    {
      if endpoint.port == RESERVED_PORT {
        return null;
      }
      for i := 0 to |table|
        invariant forall j :: 0 <= j < i ==> table[j].endpoint != endpoint
      {
        if table[i].endpoint == endpoint {
          return table[i].list;
        }
      }
      return null;
    }

    method SetEndpoint(i: nat, endpoint: Endpoint)
      requires Valid() && i < |table|
      modifies table[i]
      ensures Valid()
      ensures View() == var s := old(View()); s.(table := s.table[i := s.table[i].(endpoint := endpoint)])
    {
      table[i].endpoint := endpoint;
      EntryChanged(i);
    }

    /** mcc_register_endpoint */
    method RegisterEndpoint(endpoint: Endpoint) returns (status: Status)
      requires Valid()
      modifies table
      ensures Valid()
      ensures (View(), status) == S.Register(old(View()), endpoint)
    {
      hide Linked, Readable, Layout;
      if endpoint.port == RESERVED_PORT {
        return ErrEndpoint;
      }
      var list := GetEndpointList(endpoint);
      if list != null {
        return ErrEndpoint;
      }
      for i := 0 to |table|
        invariant Valid() && View() == old(View())
        invariant forall j :: 0 <= j < i ==> table[j].endpoint.port != RESERVED_PORT
      {
        if table[i].endpoint.port == RESERVED_PORT {
          SetEndpoint(i, endpoint);
          return Success;
        }
      }
      return ErrNoMem;
    }

    /** mcc_remove_endpoint */
    method RemoveEndpoint(endpoint: Endpoint) returns (status: Status)
      requires Valid()
      modifies Repr()
      ensures Valid()
      ensures (View(), status) == S.Remove(old(View()), endpoint)
    {
      hide Linked, Readable, Layout;
      if endpoint.port == RESERVED_PORT {
        return ErrEndpoint;
      }
      for i := 0 to |table|
        invariant Valid() && View() == old(View())
        invariant forall j :: 0 <= j < i ==> table[j].endpoint != endpoint
      {
        if table[i].endpoint == endpoint {
          Release(i);
          return Success;
        }
      }
      return ErrEndpoint;
    }

    /** The body of mcc_remove_endpoint for the entry it found. */
    method Release(i: nat)
      requires Valid() && i < |table|
      modifies Repr()
      ensures Valid()
      ensures View() == S.Release(old(View()), i)
    {
      hide Linked, Readable, Layout;
      ghost var s := View();
      Drain(i);
      SetEndpoint(i, table[i].endpoint.(port := RESERVED_PORT));
      S.DrainingEnds(s, i);
    }

    /** The loop of mcc_remove_endpoint that clears a queue. */
    method Drain(i: nat)
      requires Valid() && i < |table|
      modifies Lists(), Pool()`next, Pool()`owner
      ensures Valid()
      ensures View() == var s := old(View());
                        s.WithQueue(i, []).(free := s.free + s.table[i].queue)
    {
      hide Linked, Readable, Layout;
      ghost var s := View();
      ghost var q := s.table[i].queue;
      ghost var n := 0;
      S.DrainingEnds(s, i);
      if q != [] {
        S.DrainingTakes(s, i, 0);
      }
      var buffer := DequeueEntry(table[i].list, i);
      while buffer != null
        invariant Valid() && n <= |q|
        invariant buffer != null <==> n < |q|
        invariant buffer != null ==> Detached(buffer) && buffer.index == q[n]
        invariant View() == S.Draining(s, i, n, buffer != null)
        decreases |q| - n
      {
        QueueFree(buffer);
        S.DrainingPuts(s, i, n);
        n := n + 1;
        if n < |q| {
          S.DrainingTakes(s, i, n);
        }
        buffer := DequeueEntry(table[i].list, i);
      }
    }

    /** The loop of mcc_destroy. */
    method RemoveNode(node: nat)
      requires Valid()
      modifies Repr()
      ensures Valid()
      ensures View() == S.RemoveNode(old(View()), node)
    {
      hide Linked, Readable, Layout, View, S.RemoveNode, S.Remove;
      for i := 0 to |table|
        invariant Valid()
        invariant S.RemoveNode(View(), node, i) == S.RemoveNode(old(View()), node)
      {
        ViewEntry(i);
        S.RemoveNodeIterates(View(), node, i);
        if table[i].endpoint.node == node {
          var _ := RemoveEndpoint(table[i].endpoint);
        }
      }
      S.RemoveNodeEnds(View(), node);
    }

    lemma ViewEntry(i: nat)
      requires Readable() && i < |table|
      ensures View().table[i].endpoint == table[i].endpoint
    {
    }

    /** mcc_create_endpoint on the given core and node. */
    method CreateEndpoint(core: nat, node: nat, port: nat) returns (endpoint: Endpoint, status: Status)
      requires Valid()
      modifies table
      ensures Valid() && endpoint == Endpoint(core, node, port)
      ensures (View(), status) == S.Register(old(View()), endpoint)
    {
      endpoint := Endpoint(core, node, port);
      status := RegisterEndpoint(endpoint);
    }

    /** One critical section of mcc_send; None when no free buffer was found. */
    method SendSection(endpoint: Endpoint, msg: seq<Byte>) returns (status: Option<Status>)
      requires Valid() && View().Ok() && |msg| <= bufferSize
      modifies Repr()
      ensures Valid()
      ensures (View(), status) == S.SendSection(old(View()), endpoint, msg)
    {
      var b := DequeueFree();
      if b == null {
        return None;
      }
      WriteMessage(b, msg);
      var delivered := Deliver(endpoint, b);
      return Some(delivered);
    }

    /** The rest of a critical section of mcc_send once b holds the message. */
    method Deliver(endpoint: Endpoint, b: ReceiveBuffer) returns (status: Status)
      requires Valid() && View().TableOk() && Detached(b)
      modifies Repr()
      ensures Valid()
      ensures View() == S.Deliver(old(View()), endpoint, b.index).0
      ensures status == S.Deliver(old(View()), endpoint, b.index).1
    {
      hide Linked, Readable, Layout, S.Shared.TableOk;
      var list := GetEndpointList(endpoint);
      if list == null {
        QueueFree(b);
        return ErrEndpoint;
      }
      S.LookupCore(View(), endpoint);
      ghost var i := S.Lookup(View(), endpoint).value;
      status := Post(endpoint.core, Signal(BufferQueued, endpoint));
      if status != Success {
        QueueFree(b);
        return;
      }
      QueueEntry(list, i, b);
    }

    /** Copying a message into a buffer taken from the free list. */
    method WriteMessage(b: ReceiveBuffer, msg: seq<Byte>)
      requires Valid() && Detached(b) && |msg| <= bufferSize
      modifies b.data, b`dataLen
      ensures Valid()
      ensures View() == var s := old(View()); s.(cells := s.cells[b.index := s.cells[b.index].Store(msg)])
    {
      assert Layout();
      hide Linked;
      CopyIn(b.data, msg);
      b.dataLen := |msg|;
      LinksKept();
      CellChanged(b.index);
    }

    /** mcc_memcpy into a receive buffer. */
    static method CopyIn(data: array<Byte>, msg: seq<Byte>)
      requires |msg| <= data.Length
      modifies data
      ensures data[..] == msg + old(data[..])[|msg|..]
    {
      forall k | 0 <= k < |msg| {
        data[k] := msg[k];
      }
    }

    /** The lists stay well formed as long as no link is written. */
    twostate lemma LinksKept()
      requires old(Linked())
      requires forall l :: l in Lists() ==>
                 l.head == old(l.head) && l.tail == old(l.tail) && l.contents == old(l.contents)
      requires forall b :: b in Pool() ==> b.next == old(b.next) && b.owner == old(b.owner)
      ensures Linked()
    {
    }

    /** Changing one buffer changes one cell. */
    twostate lemma CellChanged(i: nat)
      requires Layout() && i < |buffers|
      requires forall k :: 0 <= k < |buffers| && k != i ==>
                 buffers[k].dataLen == old(buffers[k].dataLen) && buffers[k].data[..] == old(buffers[k].data[..])
      ensures Cells() == old(Cells())[i := Cell(buffers[i].dataLen, buffers[i].data[..])]
    {
      forall k | 0 <= k < |buffers| && k != i
        ensures Cells()[k] == old(Cells())[k]
      {
      }
    }

    /** The unlocked look at a list between the two sections of a receive. */
    method Peek(list: ReceiveList, ghost i: nat) returns (empty: bool)
      requires Valid() && i < |table| && list == table[i].list
      ensures empty <==> View().table[i].queue == []
    {
      empty := list.head == null;
    }

    /** Copying the first message of a list out, which may shorten the stored length. */
    method ReadMessage(list: ReceiveList, ghost i: nat, buffer: array<Byte>, size: nat) returns (count: nat)
      requires Valid() && View().Ok() && i < |table| && list == table[i].list && View().table[i].queue != []
      requires size <= buffer.Length && buffer !in Repr()
      modifies Pool()`dataLen, buffer
      ensures Valid()
      ensures var s := old(View()); var q := s.table[i].queue;
              && q != [] && q[0] < |s.cells|
              && count == (if s.cells[q[0]].len > size then size else s.cells[q[0]].len)
              && View() == s.(cells := s.cells[q[0] := s.cells[q[0]].(len := count)])
              && count <= buffer.Length && count <= |s.cells[q[0]].data|
              && buffer[..] == s.cells[q[0]].data[..count] + old(buffer[..])[count..]
    {
      hide Linked, Readable, Layout, S.Shared.RingsOk, S.Shared.TableOk;
      HeadOfList(list, i);
      hide Valid, View;
      TruncateLength(list.head, size);
      count := list.head.dataLen;
      CopyOut(list.head.data, buffer, count);
    }

    /** mcc_memcpy out of a receive buffer. */
    static method CopyOut(data: array<Byte>, buffer: array<Byte>, count: nat)
      requires count <= data.Length && count <= buffer.Length && data != buffer
      modifies buffer
      ensures buffer[..] == data[..count] + old(buffer[..])[count..]
    {
      forall k | 0 <= k < count {
        buffer[k] := data[k];
      }
    }

    lemma HeadOfList(list: ReceiveList, i: nat)
      requires Valid() && i < |table| && list == table[i].list && View().table[i].queue != []
      ensures list.head in Pool() && list.head.index == View().table[i].queue[0]
      ensures list.head.index < |buffers| && list.head.data in set b | b in buffers :: b.data
      ensures View().cells[list.head.index] == Cell(list.head.dataLen, list.head.data[..])
    {
      assert list in Lists();
    }

    method TruncateLength(b: ReceiveBuffer, size: nat)
      requires Valid() && b in Pool()
      modifies b`dataLen
      ensures Valid() && b.dataLen == if old(b.dataLen) > size then size else old(b.dataLen)
      ensures View() == var s := old(View()); s.(cells := s.cells[b.index := s.cells[b.index].(len := b.dataLen)])
    {
      assert Layout();
      hide Linked;
      if b.dataLen > size {
        b.dataLen := size;
      }
      LinksKept();
      CellChanged(b.index);
    }

    /** The first buffer of a list goes back to the free list and every other core is told. */
    method ReturnHead(list: ReceiveList, ghost i: nat, self: nat)
      requires Valid() && i < |table| && list == table[i].list && View().table[i].queue != []
      modifies Repr()
      ensures Valid()
      ensures View() == S.ReturnHead(old(View()), i, self)
    {
      hide Linked, Readable, Layout;
      var b := DequeueEntry(list, i);
      QueueFree(b);
      Broadcast(self);
    }

    /** The second section of mcc_recv_copy on the list it looked up. */
    method ReceiveCopy(list: ReceiveList, ghost i: nat, buffer: array<Byte>, size: nat, self: nat)
      returns (status: Status, count: nat)
      requires Valid() && View().Ok() && i < |table| && list == table[i].list
      requires size <= buffer.Length && buffer !in Repr()
      modifies Repr(), buffer
      ensures Valid()
      ensures View() == S.CopySection(old(View()), i, size, self).0
      ensures match S.CopySection(old(View()), i, size, self).1
              case Nothing => status == ErrTimeout && buffer[..] == old(buffer[..])
              case Received(_, _, output) =>
                status == Success && count == |output| <= size
                && buffer[..] == output + old(buffer[..])[count..]
    {
      hide Linked, Readable, Layout;
      var empty := Peek(list, i);
      if empty {
        return ErrTimeout, 0;
      }
      count := ReadMessage(list, i, buffer, size);
      ReturnHead(list, i, self);
      status := Success;
    }

    /** The second section of mcc_recv_nocopy on the list it looked up. */
    method ReceiveNoCopy(list: ReceiveList, ghost i: nat) returns (status: Status, b: ReceiveBuffer?, count: nat)
      requires Valid() && View().Ok() && i < |table| && list == table[i].list
      modifies Repr()
      ensures Valid()
      ensures View() == S.NoCopySection(old(View()), i).0
      ensures match S.NoCopySection(old(View()), i).1
              case Nothing => status == ErrTimeout && b == null
              case Received(k, message, _) =>
                status == Success && b != null && Detached(b) && b.index == k
                && count == |message| && count <= b.data.Length && b.data[..count] == message
    {
      hide Linked, Readable, Layout, S.Shared.RingsOk, S.Shared.TableOk;
      var empty := Peek(list, i);
      if empty {
        return ErrTimeout, null, 0;
      }
      b, count := TakeHead(list, i);
      status := Success;
    }

    /** The first buffer comes off its list, with the length of its message. */
    method TakeHead(list: ReceiveList, ghost i: nat) returns (b: ReceiveBuffer, count: nat)
      requires Valid() && i < |table| && list == table[i].list && View().table[i].queue != []
      modifies list, Pool()`owner
      ensures Valid()
      ensures var s := old(View()); var q := s.table[i].queue;
              && q != [] && Detached(b) && b.index == q[0] < |s.cells| && View() == s.WithQueue(i, q[1..])
              && s.cells[q[0]] == Cell(count, b.data[..])
    {
      HeadOfList(list, i);
      hide Linked, Readable, Layout, View, Valid;
      count := list.head.dataLen;
      b := DequeueEntry(list, i);
    }

    /** mcc_free_buffer: the caller gives back a buffer that a zero-copy receive handed out. */
    method FreeBuffer(b: ReceiveBuffer, self: nat)
      requires Valid() && Detached(b)
      modifies Repr()
      ensures Valid()
      ensures View() == S.FreeSection(old(View()), b.index, self)
    {
      QueueFree(b);
      Broadcast(self);
    }

    /** mcc_msgs_available */
    method MsgsAvailable(endpoint: Endpoint) returns (status: Status, count: nat)
      requires Valid()
      ensures match S.Lookup(View(), endpoint)
              case None => status == ErrEndpoint
              case Some(i) => status == Success && count == |View().table[i].queue|
    {
      var list := GetEndpointList(endpoint);
      if list == null {
        return ErrEndpoint, 0;
      }
      count := list.Length();
      status := Success;
    }

    /** The interrupt handler of a core. */
    method ServiceInterrupt(core: nat) returns (ports: set<nat>, freed: bool)
      requires Valid() && core < signals.cores
      modifies signals.head
      ensures Valid()
      ensures View() == S.ServiceSection(old(View()), core)
      ensures ports == PortsIn(old(View()).rings[core], core) && freed == FreedIn(old(View()).rings[core])
    {
      ports, freed := signals.Service(core);
    }

    /** Every entry of the table is zero and has an empty list. */
    ghost predicate TableZero()
      reads table, set e | e in table :: e.list
    {
      forall e :: e in table ==> e.endpoint == ZERO_ENDPOINT && e.list.contents == [] && e.list.Valid()
    }

    /** The payload part of every buffer is zero. */
    ghost predicate CellsZero()
      reads Pool()`dataLen, set b | b in buffers :: b.data
    {
      forall b :: b in Pool() ==> b.dataLen == 0 && b.data[..] == seq(bufferSize, _ => 0)
    }

    /** _mem_zero over the endpoint table. */
    method ZeroTable()
      requires Layout()
      modifies table, set e | e in table :: e.list
      ensures TableZero()
    {
      forall e | e in table {
        e.list.head := null;
      }
      forall e | e in table {
        e.list.tail := null;
      }
      forall e | e in table {
        e.list.contents := [];
      }
      forall e | e in table {
        e.endpoint := ZERO_ENDPOINT;
      }
    }

    /** _mem_zero over the buffers. */
    method ZeroBuffers()
      requires Layout()
      modifies Pool()`next, Pool()`dataLen, set b | b in buffers :: b.data
      ensures CellsZero()
    {
      forall b | b in buffers {
        b.next := null;
      }
      forall b | b in buffers {
        b.dataLen := 0;
      }
      forall b, k | b in buffers && 0 <= k < b.data.Length {
        b.data[k] := 0;
      }
    }

    /** The loop of mcc_initialize that chains every buffer into the free list. */
    method ChainBuffers()
      requires Layout()
      modifies freeList, Pool()`next, Pool()`owner
      ensures freeList.contents == buffers && freeList.Valid()
    {
      freeList.head := buffers[0];
      freeList.tail := buffers[|buffers| - 1];
      for i := 0 to |buffers| - 1
        invariant freeList.head == buffers[0] && freeList.tail == buffers[|buffers| - 1]
        invariant forall k :: 0 <= k < i ==> buffers[k].next == buffers[k + 1]
      {
        assert buffers[i] in Pool();
        buffers[i].next := buffers[i + 1];
      }
      assert buffers[|buffers| - 1] in Pool();
      buffers[|buffers| - 1].next := null;
      freeList.contents := buffers;
      forall b | b in Pool() {
        b.owner := freeList;
      }
    }

    /** The loop of mcc_initialize that marks every endpoint port as free. */
    method MarkPortsFree()
      requires Layout() && TableZero()
      modifies table
      ensures TableZero()
    {
      for i := 0 to |table|
        invariant TableZero()
      {
        table[i].endpoint := table[i].endpoint.(port := RESERVED_PORT);
      }
    }

    /** Everything that mcc_initialize does to buffers, lists and endpoint table. */
    method ChainAndMark()
      requires Layout()
      modifies Lists(), table, Pool(), set b | b in buffers :: b.data
      ensures freeList.contents == buffers && freeList.Valid() && TableZero() && CellsZero()
    {
      hide CellsZero, TableZero;
      ZeroBuffers();
      freeList.head, freeList.tail := null, null;
      ZeroTable();
      assert CellsZero();
      ChainBuffers();
      assert CellsZero();
      MarkPortsFree();
    }

    /** The bookkeeping part of mcc_initialize, on memory with any contents. */
    method Initialize()
      requires Layout()
      modifies this, Repr()
      ensures initString == INIT_STRING
      ensures old(initString) == INIT_STRING ==> unchanged(Repr())
      ensures old(initString) != INIT_STRING ==>
                Valid() && View() == S.Initial(|buffers|, |table|, signals.cores, signals.size, bufferSize)
    {
      hide TableZero, CellsZero, Linked;
      if initString != INIT_STRING {
        initString := INIT_STRING;
        ChainAndMark();
        signals.Reset();
        ZeroView();
      }
    }

    lemma ZeroView()
      requires Readable() && freeList.contents == buffers && freeList.Valid() && TableZero() && CellsZero()
      requires signals.View() == seq(signals.cores, _ => [])
      ensures Valid() && View() == S.Initial(|buffers|, |table|, signals.cores, signals.size, bufferSize)
    {
      var s := S.Initial(|buffers|, |table|, signals.cores, signals.size, bufferSize);
      assert View().free == s.free;
      assert View().table == s.table;
      assert View().rings == s.rings;
      assert View().cells == s.cells;
    }
  }
}

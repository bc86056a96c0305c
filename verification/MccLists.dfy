/**
 The intrusive singly linked buffer lists: a list is a head and a tail pointer, and the
 links are fields of the buffers themselves.  A buffer that has been taken off a list
 keeps its old link, so nothing is said about the link of a detached buffer.
 */
module MccLists {
  import opened MccTypes

  class ReceiveBuffer {
    const index: nat  // position in r_buffers
    var next: ReceiveBuffer?
    var dataLen: nat
    const data: array<Byte>
    ghost var owner: ReceiveList?  // the list that the buffer is threaded on, if any

    constructor (index: nat, size: nat)
      ensures this.index == index && next == null && dataLen == 0 && owner == null
      ensures fresh(data) && data[..] == seq(size, _ => 0)
    {
      this.index := index;
      next, dataLen, owner := null, 0, null;
      data := new Byte[size](_ => 0);
    }
  }

  /** The positions of the buffers of a list, in order. */
  ghost function Indices(s: seq<ReceiveBuffer>): (r: seq<nat>)
    ensures |r| == |s|
    ensures forall i :: 0 <= i < |s| ==> r[i] == s[i].index
  {
    seq(|s|, i requires 0 <= i < |s| => s[i].index)
  }

  class ReceiveList {
    var head: ReceiveBuffer?
    var tail: ReceiveBuffer?
    ghost var contents: seq<ReceiveBuffer>

    ghost predicate Valid()
      reads this, contents
    {
      && (contents == [] ==> head == null && tail == null)
      && (contents != [] ==>
            head == contents[0] && tail == contents[|contents| - 1] && contents[|contents| - 1].next == null)
      && (forall i :: 0 <= i < |contents| - 1 ==> contents[i].next == contents[i + 1])
      && (forall i, j :: 0 <= i < j < |contents| ==> contents[i] != contents[j])
      && (forall i :: 0 <= i < |contents| ==> contents[i].owner == this)
    }

    constructor ()
      ensures Valid() && contents == []
    {
      head, tail, contents := null, null, [];
    }

    /** mcc_queue_buffer */
    method QueueBuffer(b: ReceiveBuffer)
      requires Valid() && b.owner == null
      modifies this, b`next, b`owner, contents`next
      ensures Valid() && contents == old(contents) + [b]
      ensures b.owner == this
    {
      var last := tail;
      if last != null {
        last.next := b;
      } else {
        head := b;
      }
      b.next := null;
      tail := b;
      contents := contents + [b];
      b.owner := this;
    }

    /** mcc_dequeue_buffer */
    method DequeueBuffer() returns (b: ReceiveBuffer?)
      requires Valid()
      modifies this, contents`owner
      ensures Valid()
      ensures old(contents) == [] ==> b == null && contents == []
      ensures old(contents) != [] ==>
                b == old(contents[0]) && contents == old(contents)[1..] && b.owner == null
    {
      b := head;
      if b != null {
        head := b.next;
        if tail == b {
          tail := null;
        }
        contents := contents[1..];
        b.owner := null;
      }
    }

    /** The walk of mcc_msgs_available over the links. */
    method Length() returns (count: nat)
      requires Valid()
      ensures count == |contents|
    {
      count := 0;
      var buf := head;
      while buf != null
        invariant count <= |contents|
        invariant buf == if count < |contents| then contents[count] else null
        decreases |contents| - count
      {
        count := count + 1;
        buf := buf.next;
      }
    }
  }
}

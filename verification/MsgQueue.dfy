/** The linked queue under the message handler. */
module MsgQueue {
  import opened MsgHandle

  const UINT32: nat := 0x1_0000_0000

  class Entry {
    const msg: Msg
    var next: Entry?

    constructor (msg: Msg)
      ensures this.msg == msg && next == null
    {
      this.msg := msg;
      next := null;
    }
  }

  class Queue {
    var head: Entry?
    var tail: Entry?
    var entries: nat
    /** The entries from head to tail. */
    ghost var spine: seq<Entry>

    ghost predicate Valid()
      reads this, spine
    {
      && (forall i, j :: 0 <= i < j < |spine| ==> spine[i] != spine[j])
      && (forall i {:trigger spine[i].next} :: 0 <= i < |spine| - 1 ==> spine[i].next == spine[i + 1])
      && (if spine == [] then head == null && tail == null
          else head == spine[0] && tail == spine[|spine| - 1] && tail.next == null)
      && entries == |spine| % UINT32
    }

    ghost function Contents(): (s: seq<Msg>)
      reads this
      ensures |s| == |spine|
    {
      seq(|spine|, i requires 0 <= i < |spine| reads this => spine[i].msg)
    }

    /** msg_queue_new */
    constructor ()
      ensures Valid() && Contents() == [] && fresh(this)
    {
      head, tail, entries := null, null, 0;
      spine := [];
    }

    /** queue_push_tail */
    method PushTail(m: Msg)
      requires Valid()
      modifies this, spine
      ensures Valid() && Contents() == old(Contents()) + [m]
      ensures spine[..|spine| - 1] == old(spine) && fresh(spine[|spine| - 1])
    {
      var entry := new Entry(m);
      if tail != null {
        tail.next := entry;
      }
      tail := entry;
      if head == null {
        head := entry;
      }
      entries := (entries + 1) % UINT32;
      spine := spine + [entry];
      assert forall i :: 0 <= i < |old(spine)| ==> spine[i] == old(spine)[i];
    }

    /** queue_pop_head */
    method PopHead() returns (m: Msg)
      requires Valid()
      modifies this
      ensures Valid() && (m, Contents()) == MsgHandle.PopHead(old(Contents()))
    {
      assert |spine| > 1 ==> spine[0].next == spine[0 + 1];
      if head == null {
        return Msg(CMD_ERROR, 0);
      }
      var entry := head;
      if head.next == null {
        head, tail := null, null;
      } else {
        head := head.next;
      }
      m := entry.msg;
      entries := (entries + UINT32 - 1) % UINT32;
      spine := spine[1..];
      assert Contents() == old(Contents())[1..];
    }

    /** msg_queue_remove_all: the number of entries freed */
    method RemoveAll() returns (count: nat)
      requires Valid()
      modifies this
      ensures Valid() && Contents() == [] && count == |old(Contents())| % UINT32
    {
      var entry := head;
      ghost var all := spine;
      ghost var freed: nat := 0;
      head, tail, entries := null, null, 0;
      spine := [];
      count := 0;
      while entry != null
        invariant Valid() && spine == []
        invariant freed <= |all| && count == freed % UINT32
        invariant forall i :: 0 <= i < |all| - 1 ==> all[i].next == all[i + 1]
        invariant all != [] ==> all[|all| - 1].next == null
        invariant if freed < |all| then entry == all[freed] else entry == null
        decreases |all| - freed
      {
        entry := entry.next;
        count := (count + 1) % UINT32;
        freed := freed + 1;
      }
    }
  }
}

// The PQ daemon's command queue, a circular list under one lock.
module CmdQueue {
  import opened IntrusiveList

  class CmdQueue {
    const head: Link            // request_list
    ghost var pending: seq<Link> // its members, the first one first

    ghost predicate Valid()
      reads this, head, pending
    {
      Ring([head] + pending)
    }

    constructor ()
      ensures Valid() && fresh(head) && pending == []
    {
      head := new Link(0);
      pending := [];
    }

    method Queue(base: Link)
      requires Valid() && base != head && base !in pending
      modifies this, base, head, pending
      ensures Valid() && pending == [base] + old(pending)
    {
      ListAdd(base, head, [head] + pending);
      pending := [base] + pending;
      assert [head] + pending == [head, base] + ([head] + old(pending))[1..];
    }

    method Dequeue() returns (out: Link?)
      requires Valid()
      modifies this, head, pending
      ensures Valid()
      ensures if old(pending) == [] then out == null && pending == []
              else out == old(pending)[0] && pending == old(pending)[1..]
    {
      var empty := ListEmpty(head, [head] + pending);
      if empty {
        return null;
      }
      ghost var ring := [head] + pending;
      assert head.next == Succ(ring, 0);
      out := head.next;
      RingRotates(ring, 1);
      assert Rotate(ring, 1) == pending + [head] && (pending + [head])[1..] == pending[1..] + [head];
      hide Ring;
      ListDel(out, pending + [head]);
      LastToFront(pending[1..], head);
      pending := pending[1..];
    }
  }
}

// The decoder's bounded message queue: a pool of nodes, chained in posting order.
// These are the critical sections; how they interleave is module
// MessageQueueProtocol.
module MessageQueue {
  import opened Options

  // A CdcMessage; the queue copies it whole and looks at none of it.
  type Msg = int

  class MessageNode {
    var next: MessageNode?
    var valid: bool
    var msg: Msg
    ghost var ticket: int // the number of messages chained before this one

    constructor (m: Msg)
      ensures !valid
    {
      next, valid, msg := null, false, m;
    }
  }

  // A set of things all found in a sequence is no larger than the sequence.
  lemma {:induction false} SetInSeq<T>(pool: set<T>, chain: seq<T>)
    requires forall x | x in pool :: x in chain
    ensures |pool| <= |chain|
  {
    if chain != [] {
      var last := chain[|chain| - 1];
      forall x | x in pool - {last} ensures x in chain[..|chain| - 1] {
        var i :| 0 <= i < |chain| && chain[i] == x;
        assert chain[..|chain| - 1][i] == x;
      }
      SetInSeq(pool - {last}, chain[..|chain| - 1]);
    }
  }

  lemma DropOfAppend<T>(s: seq<T>, x: T, k: nat)
    requires k <= |s|
    ensures (s + [x])[k..] == s[k..] + [x]
  {
  }

  class MessageQueue {
    const nodes: seq<MessageNode>
    var head: MessageNode?
    var count: int

    ghost const pool: set<MessageNode> // the nodes, as a set

    // Every message ever chained and the node it was chained on; those before
    // `gone` have been taken or flushed.
    ghost var log: seq<MessageNode>
    ghost var posted: seq<Msg>
    ghost var gone: nat

    ghost function Contents(): seq<Msg>
      requires gone <= |posted|
      reads `posted, `gone
    {
      posted[gone..]
    }

    // What the chain holds at position t of the log.
    ghost function At(t: nat): MessageNode?
      reads `log
    {
      if t < |log| then log[t] else null
    }

    ghost predicate Chained()
      reads this, pool
    {
      && |posted| == |log| && gone <= |log|
      && (forall t | gone <= t < |log| ::
            log[t] in pool && log[t].valid && log[t].ticket == t && log[t].msg == posted[t])
      && (forall t {:trigger log[t].next} | gone <= t < |log| :: log[t].next == At(t + 1))
    }

    ghost predicate Valid()
      reads this, pool
    {
      && (forall i | 0 <= i < |nodes| :: nodes[i] in pool)
      && (forall x | x in pool :: x in nodes)
      && |pool| == |nodes| && gone <= |log|
      && count == |log| - gone
      && head == At(gone)
      && Chained()
      && (forall x | x in pool && x.valid :: gone <= x.ticket < |log| && log[x.ticket] == x)
    }

    constructor (maxMessageNum: nat, blank: Msg)
      ensures Valid() && Contents() == [] && |nodes| == maxMessageNum && fresh(pool)
    {
      var slots: seq<MessageNode> := [];
      ghost var all := {};
      for i := 0 to maxMessageNum
        invariant |slots| == |all| == i && fresh(all)
        invariant forall k | 0 <= k < i :: slots[k] in all
        invariant forall x | x in all :: x in slots && !x.valid
      {
        var n := new MessageNode(blank);
        slots := slots + [n];
        all := all + {n};
      }
      nodes := slots;
      pool := all;
      head, count := null, 0;
      log, posted, gone := [], [], 0;
    }

    // Under the mutex, first half of a post: the slot to use.  While the queue is
    // not full there is one.
    method FindFree() returns (node: MessageNode?)
      requires Valid() && count < |nodes|
      ensures node != null && node in pool && !node.valid
    {
      node := null;
      var i := 0;
      while i < |nodes| && node == null
        invariant 0 <= i <= |nodes|
        invariant if node == null then forall k | 0 <= k < i :: nodes[k].valid
                  else node in pool && !node.valid
      {
        if !nodes[i].valid {
          node := nodes[i];
        }
        i := i + 1;
      }
      if node == null {
        forall x | x in pool ensures x in log[gone..] {
          assert x in nodes;
          assert log[gone..][x.ticket - gone] == x;
        }
        SetInSeq(pool, log[gone..]);
      }
    }

    // The last node of a non-empty chain.
    method FindTail() returns (ptr: MessageNode)
      requires Valid() && gone < |log|
      ensures ptr == log[|log| - 1]
    {
      ghost var k := gone;
      ptr := head;
      while ptr.next != null
        invariant gone <= k < |log| && ptr == log[k]
        decreases |log| - k
      {
        ptr := ptr.next;
        k := k + 1;
      }
    }

    // Hang a node that is not in use behind the last one.
    method Link(node: MessageNode, m: Msg)
      requires Valid() && node in pool && !node.valid
      modifies `head, pool
      ensures head == if gone < |log| then old(head) else node
      ensures node.valid && node.msg == m && node.next == null && node.ticket == |log|
      ensures forall x | x in pool && x != node ::
                x.valid == old(x.valid) && x.msg == old(x.msg) && x.ticket == old(x.ticket)
      ensures forall t {:trigger log[t].next} | gone <= t < |log| ::
                log[t].next == if t + 1 < |log| then log[t + 1] else node
    {
      if head == null {
        head := node;
      } else {
        var ptr := FindTail();
        ptr.next := node;
      }
      node.msg := m;
      node.valid := true;
      node.next := null;
      node.ticket := |log|;
    }

    method Append(m: Msg)
      requires Valid() && count < |nodes|
      modifies this, pool
      ensures Valid() && Contents() == old(Contents()) + [m]
    {
      var node := FindFree();
      Link(node, m);
      count := count + 1;
      log := log + [node];
      DropOfAppend(posted, m, gone);
      posted := posted + [m];
    }

    method PostMessage(m: Msg) returns (ok: bool)
      requires Valid()
      modifies this, pool
      ensures Valid()
      ensures ok <==> |old(Contents())| < |nodes|
      ensures Contents() == if ok then old(Contents()) + [m] else old(Contents())
    {
      if count >= |nodes| {
        return false;
      }
      Append(m);
      ok := true;
    }

    // Under the mutex, what a getter does once it has passed the semaphore.
    method TakeMessage() returns (r: Option<Msg>)
      requires Valid()
      modifies this, pool
      ensures Valid()
      ensures match r
        case None => old(Contents()) == [] && Contents() == []
        case Some(m) => old(Contents()) == [m] + Contents()
    {
      if count <= 0 {
        return None;
      }
      var node := head;
      assert node == log[gone] && node.msg == posted[gone] && node.next == At(gone + 1);
      head := node.next;
      r := Some(node.msg);
      node.valid := false;
      count := count - 1;
      gone := gone + 1;
      assert posted[gone - 1..] == [posted[gone - 1]] + posted[gone..];
    }

    // Under the mutex, flushing the pool.
    method Clear()
      requires Valid()
      modifies this, pool
      ensures Valid() && Contents() == []
    {
      head := null;
      count := 0;
      for i := 0 to |nodes|
        invariant forall k | 0 <= k < i :: !nodes[k].valid
        modifies pool
      {
        nodes[i].valid := false;
      }
      assert forall x | x in pool :: x in nodes && !x.valid;
      gone := |log|;
    }

    // The count, the chain and the pool agree: exactly `count` slots are valid.
    lemma CountIsValidSlots()
      requires Valid()
      ensures |set x | x in pool && x.valid| == count == |Contents()|
    {
      var used := set x | x in pool && x.valid;
      forall x | x in used ensures x in log[gone..] {
        assert log[gone..][x.ticket - gone] == x;
      }
      SetInSeq(used, log[gone..]);
      forall t | gone <= t < |log| ensures log[t] in used {
      }
      TicketsInUse(used, |log|);
    }

    lemma {:induction false} TicketsInUse(used: set<MessageNode>, n: nat)
      requires gone <= n <= |log| && Chained()
      requires forall t | gone <= t < n :: log[t] in used
      ensures |used| >= n - gone
      decreases n
    {
      if gone < n {
        TicketsInUse(used - {log[n - 1]}, n - 1);
      }
    }
  }
}

// The list of the saved PQ settings: nodes with an entry and a link each, in a circle
// through the list's head.
module PqList {
  import opened PqStore
  import opened IntrusiveList

  class EntryList {
    const head: Link
    var nodes: map<Link, Entry> // list_entry: what the node of a link holds

    // the links of the members and what they hold, the first one first
    ghost var members: seq<Link>
    ghost var entries: seq<Entry>
    ghost var links: set<Link> // they, the head and those that have been taken out

    ghost predicate Valid()
      reads this, links
    {
      && head in links && (forall m | m in members :: m in links)
      && Ring([head] + members) && Holds(nodes, members, entries)
    }

    // The link of the k-th member; the head comes behind the last.
    ghost function LinkAt(k: nat): Link
      reads this
    {
      if k < |members| then members[k] else head
    }

    constructor ()
      ensures Valid() && entries == [] && fresh(links)
    {
      head := new Link(0);
      nodes, members, entries, links := map[], [], [], {head};
    }

    method First() returns (link: Link)
      requires Valid()
      ensures link == LinkAt(0) && (link == head <==> entries == [])
    {
      ghost var ring := [head] + members;
      assert ring[0].next == Succ(ring, 0);
      assert |ring| > 1 ==> ring[0] != ring[1];
      link := head.next;
    }

    method Next(link: Link, ghost k: nat) returns (next: Link)
      requires Valid() && k < |members| && link == members[k]
      ensures next == LinkAt(k + 1) && (next == head <==> k + 1 == |entries|)
    {
      ghost var ring := [head] + members;
      assert ring[k + 1].next == Succ(ring, k + 1);
      assert k + 2 < |ring| ==> ring[0] != ring[k + 2];
      next := link.next;
    }

    // A node made for the entry is added behind a member, the k-th, or behind the head.
    method AddBehind(link: Link, e: Entry, ghost k: nat)
      requires Valid() && k <= |members| && link == ([head] + members)[k]
      modifies this, links
      ensures Valid() && entries == With(old(entries), k, e)
      ensures fresh(links - old(links))
    {
      var node := new Link(0); // INIT_LIST_HEAD
      ghost var ring := [head] + members;
      assert node !in ring && ring[1..] == members;
      HoldsOneMore(nodes, members, entries, k, node, e);
      hide Holds, Ring;
      LinkBehind(node, link, ring, k);
      nodes, links := nodes[node := e], links + {node};
      members := With(members, k, node);
      entries := With(entries, k, e);
    }

    // The k-th member is taken out.
    method Remove(link: Link, ghost k: nat)
      requires Valid() && k < |members| && link == members[k]
      modifies this, links
      ensures Valid() && entries == Without(old(entries), k)
      ensures links == old(links)
    {
      ghost var ring := [head] + members;
      RingRotates(ring, k + 1);
      ListDel(link, Rotate(ring, k + 1));
      WithoutRotated(ring, k + 1);
      members := Without(members, k);
      entries := Without(entries, k);
    }
  }

  // list_add behind a link that is anywhere in the ring.
  method LinkBehind(node: Link, link: Link, ghost ring: seq<Link>, ghost k: nat)
    requires Ring(ring) && k < |ring| && link == ring[k] && node !in ring
    modifies node, ring
    ensures Ring([ring[0]] + With(ring[1..], k, node))
  {
    RingRotates(ring, k);
    ghost var rotated := Rotate(ring, k);
    hide Ring;
    ListAdd(node, link, rotated);
    RotatedBack(ring, k, node);
  }

  // Seen from the head again.
  lemma RotatedBack(ring: seq<Link>, k: nat, node: Link)
    requires k < |ring| && Ring([ring[k], node] + Rotate(ring, k)[1..])
    ensures Ring([ring[0]] + With(ring[1..], k, node))
  {
    hide Ring;
    RotateWith(ring, k, node);
    if k > 0 {
      RingRotates([ring[k], node] + Rotate(ring, k)[1..], |ring| + 1 - k);
    }
  }

  lemma RotateWith<T>(ring: seq<T>, k: nat, node: T)
    requires k < |ring|
    ensures var now, back := [ring[k], node] + Rotate(ring, k)[1..], [ring[0]] + With(ring[1..], k, node);
      back == if k == 0 then now else Rotate(now, |ring| + 1 - k)
  {
    var front, tail := ring[..k], [ring[k], node] + ring[k + 1..];
    assert [ring[k], node] + Rotate(ring, k)[1..] == tail + front;
    RotateTwoParts(tail, front);
    hide Rotate;
    assert [ring[0]] + With(ring[1..], k, node) == front + tail;
    assert k == 0 ==> front + tail == tail + front;
  }

  lemma RotateTwoParts<T>(front: seq<T>, tail: seq<T>)
    ensures Rotate(front + tail, |front|) == tail + front
  {
  }

  lemma WithoutRotated(ring: seq<Link>, k: nat)
    requires 0 < k < |ring| && Ring(Rotate(ring, k)[1..])
    ensures Ring([ring[0]] + Without(ring[1..], k - 1))
  {
    hide Ring;
    RotateWithout(ring, k);
    RingRotates(Rotate(ring, k)[1..], |ring| - 1 - k);
  }

  lemma RotateWithout<T>(ring: seq<T>, k: nat)
    requires 0 < k < |ring|
    ensures [ring[0]] + Without(ring[1..], k - 1) == Rotate(Rotate(ring, k)[1..], |ring| - 1 - k)
  {
    assert Rotate(ring, k)[1..] == ring[k + 1..] + ring[..k];
    assert ring[..k] == [ring[0]] + ring[1..][..k - 1] && ring[1..][k..] == ring[k + 1..];
  }

  // What the nodes of these links hold.
  ghost predicate Holds(nodes: map<Link, Entry>, members: seq<Link>, entries: seq<Entry>) {
    && |entries| == |members|
    && forall i | 0 <= i < |members| :: members[i] in nodes && nodes[members[i]] == entries[i]
  }

  lemma HoldsOneMore(nodes: map<Link, Entry>, members: seq<Link>, entries: seq<Entry>, k: nat, node: Link, e: Entry)
    requires Holds(nodes, members, entries) && k <= |members| && node !in members
    ensures Holds(nodes[node := e], With(members, k, node), With(entries, k, e))
  {
  }
}

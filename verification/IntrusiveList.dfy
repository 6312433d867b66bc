// Circular doubly linked lists whose links live inside the listed structures.
module IntrusiveList {

  class Link {
    var next: Link
    var prev: Link
    const request: int // names the structure the link is part of

    // INIT_LIST_HEAD
    constructor (request: int)
      ensures this.request == request && Ring([this])
    {
      this.request := request;
      next := this;
      prev := this;
    }
  }

  // The one after position i, coming round to the front.
  ghost function Succ(ring: seq<Link>, i: nat): Link
    requires ring != []
  {
    if i + 1 < |ring| then ring[i + 1] else ring[0]
  }

  // The one before position i, coming round to the back.
  ghost function Pred(ring: seq<Link>, i: nat): Link
    requires i < |ring|
  {
    if i > 0 then ring[i - 1] else ring[|ring| - 1]
  }

  // Following next from ring[0] visits ring in order and comes round; prev goes back.
  ghost predicate Ring(ring: seq<Link>)
    reads ring
  {
    && ring != []
    && (forall i, j | 0 <= i < j < |ring| :: ring[i] != ring[j])
    && (forall i {:trigger ring[i].next} | 0 <= i < |ring| :: ring[i].next == Succ(ring, i))
    && (forall i {:trigger ring[i].prev} | 0 <= i < |ring| :: ring[i].prev == Pred(ring, i))
  }

  function Rotate<T>(ring: seq<T>, k: nat): seq<T>
    requires k <= |ring|
  {
    ring[k..] + ring[..k]
  }

  // A ring has no first element.
  lemma RingRotates(ring: seq<Link>, k: nat)
    requires Ring(ring) && k < |ring|
    ensures Ring(Rotate(ring, k))
  {
    var r, n := Rotate(ring, k), |ring|;
    forall i | 0 <= i < |r| ensures r[i].next == Succ(r, i) && r[i].prev == Pred(r, i) {
      var m := if i + k < n then i + k else i + k - n;
      assert r[i] == ring[m] && Succ(r, i) == Succ(ring, m) && Pred(r, i) == Pred(ring, m);
    }
  }

  lemma LastToFront(members: seq<Link>, head: Link)
    requires Ring(members + [head])
    ensures Ring([head] + members)
  {
    RingRotates(members + [head], |members|);
    assert Rotate(members + [head], |members|) == [head] + members;
  }

  method ListEmpty(head: Link, ghost ring: seq<Link>) returns (empty: bool)
    requires Ring(ring) && ring[0] == head
    ensures empty <==> |ring| == 1
  {
    empty := head.next == head;
  }

  // newp goes right behind head.
  method ListAdd(newp: Link, head: Link, ghost ring: seq<Link>)
    requires Ring(ring) && ring[0] == head && newp !in ring
    modifies newp, ring
    ensures Ring([head, newp] + ring[1..])
  {
    assert head.next == if |ring| > 1 then ring[1] else head;
    newp.next := head.next;
    newp.prev := head;
    head.next.prev := newp;
    head.next := newp;
  }

  method ListDel(elem: Link, ghost ring: seq<Link>)
    requires Ring(ring) && ring[0] == elem && |ring| > 1
    modifies ring
    ensures Ring(ring[1..])
  {
    assert elem.next == ring[1] && elem.prev == ring[|ring| - 1];
    elem.next.prev := elem.prev;
    elem.prev.next := elem.next;
  }

  // The ring that splicing makes, by position.
  lemma Spliced(ring: seq<Link>, other: seq<Link>)
    requires ring != [] && other != []
    requires forall i, j | 0 <= i < j < |ring| :: ring[i] != ring[j]
    requires forall i, j | 0 <= i < j < |other| :: other[i] != other[j]
    requires forall i, j | 0 <= i < |ring| && 0 <= j < |other| :: ring[i] != other[j]
    ensures var r, n := [ring[0]] + other[1..] + ring[1..], |other|;
      && (forall i | 0 <= i < |r| :: r[i] == if i == 0 then ring[0] else if i < n then other[i] else ring[i - n + 1])
      && (forall i, j | 0 <= i < j < |r| :: r[i] != r[j])
  {
  }

  // The members of one list go right behind the head of the other.
  method ListSplice(add: Link, head: Link, ghost ring: seq<Link>, ghost other: seq<Link>)
    requires Ring(other) && other[0] == add
    requires Ring(ring) && ring[0] == head
    requires forall i, j | 0 <= i < |ring| && 0 <= j < |other| :: ring[i] != other[j]
    modifies ring, other
    ensures Ring([head] + other[1..] + ring[1..])
  {
    if add != add.next {
      assert add.next == other[1] && add.prev == other[|other| - 1];
      assert head.next == if |ring| > 1 then ring[1] else head;
      add.next.prev := head;
      add.prev.next := head.next;
      head.next.prev := add.prev;
      head.next := add.next;
      Spliced(ring, other);
      ghost var r, n := [head] + other[1..] + ring[1..], |other|;
      forall i | 0 <= i < |r| ensures r[i].next == Succ(r, i) && r[i].prev == Pred(r, i) {
        assert r[i] == if i == 0 then head else if i < n then other[i] else ring[i - n + 1];
      }
    } else {
      assert [head] + other[1..] + ring[1..] == ring;
    }
  }
}

// The ION buffers a process holds: what they stand for in the kernel, and where they
// are in virtual and in physical memory.
module IonLedger {

  datatype Heap = Iommu | Carveout

  datatype Node = Node(heap: Heap, phy: int, vir: int, size: int, handle: int, fd: int, fdClosed: bool)

  const WORD_RANGE := 0x1_0000_0000_0000_0000 // addresses are of 64 bits

  // ----- What the listed buffers hold of the kernel -----

  ghost function Handles(list: seq<Node>): set<int> { set n | n in list :: n.handle }

  ghost function OpenFds(list: seq<Node>): set<int> { set n | n in list && !n.fdClosed :: n.fd }

  ghost function Mappings(list: seq<Node>): set<int> { set n | n in list :: n.vir }

  ghost function EngineRefs(list: seq<Node>): nat {
    if list == [] then 0 else EngineRefs(list[1..]) + if list[0].heap.Iommu? then 1 else 0
  }

  // No two buffers share anything.
  ghost predicate Unshared(list: seq<Node>) {
    forall i, j | 0 <= i < j < |list| ::
      && list[i].handle != list[j].handle && list[i].vir != list[j].vir
      && (list[i].fdClosed || list[j].fdClosed || list[i].fd != list[j].fd)
  }

  function Removed(list: seq<Node>, k: nat): seq<Node>
    requires k < |list|
  {
    list[..k] + list[k + 1..]
  }

  lemma InRemoved(list: seq<Node>, k: nat, n: Node)
    requires k < |list| && Unshared(list)
    ensures n in Removed(list, k) <==> n in list && n != list[k]
  {
    var w := Removed(list, k);
    if n in list && n != list[k] {
      var i :| 0 <= i < |list| && list[i] == n;
      assert w[if i < k then i else i - 1] == n;
    }
    if n in w {
      var i :| 0 <= i < |w| && w[i] == n;
      assert list[if i < k then i else i + 1] == n;
    }
  }

  lemma {:induction false} EngineRefsOfTwo(a: seq<Node>, b: seq<Node>)
    ensures EngineRefs(a + b) == EngineRefs(a) + EngineRefs(b)
  {
    if a == [] {
      assert a + b == b;
    } else {
      assert (a + b)[1..] == a[1..] + b;
      EngineRefsOfTwo(a[1..], b);
    }
  }

  lemma EngineRefsOfOne(n: Node)
    ensures EngineRefs([n]) == if n.heap.Iommu? then 1 else 0
  {
    assert [n][1..] == [];
  }

  // Dropping a buffer gives up exactly what it held.
  lemma DropGivesUp(list: seq<Node>, k: nat)
    requires k < |list| && Unshared(list)
    ensures var n, w := list[k], Removed(list, k);
      && Unshared(w) && n.handle in Handles(list) && n.vir in Mappings(list)
      && Handles(w) == Handles(list) - {n.handle} && Mappings(w) == Mappings(list) - {n.vir}
      && OpenFds(w) == OpenFds(list) - (if n.fdClosed then {} else {n.fd})
      && EngineRefs(list) == EngineRefs(w) + (if n.heap.Iommu? then 1 else 0)
  {
    DropUnshared(list, k);
    DropSets(list, k);
    DropEngineRef(list, k);
    hide *;
  }

  lemma DropUnshared(list: seq<Node>, k: nat)
    requires k < |list| && Unshared(list)
    ensures Unshared(Removed(list, k))
  {
    var w := Removed(list, k);
    forall i, j | 0 <= i < j < |w|
      ensures w[i].handle != w[j].handle && w[i].vir != w[j].vir
      ensures w[i].fdClosed || w[j].fdClosed || w[i].fd != w[j].fd
    {
      var i', j' := if i < k then i else i + 1, if j < k then j else j + 1;
      assert w[i] == list[i'] && w[j] == list[j'];
    }
  }

  lemma DropSets(list: seq<Node>, k: nat)
    requires k < |list| && Unshared(list)
    ensures var n, w := list[k], Removed(list, k);
      && n.handle in Handles(list) && n.vir in Mappings(list)
      && Handles(w) == Handles(list) - {n.handle} && Mappings(w) == Mappings(list) - {n.vir}
      && OpenFds(w) == OpenFds(list) - (if n.fdClosed then {} else {n.fd})
  {
    var n, w := list[k], Removed(list, k);
    assert n in list;
    forall m: Node ensures m in w <==> m in list && m != n {
      InRemoved(list, k, m);
    }
    forall m | m in list && m != n
      ensures m.handle != n.handle && m.vir != n.vir && (m.fdClosed || n.fdClosed || m.fd != n.fd)
    {
      var i :| 0 <= i < |list| && list[i] == m;
      assert i < k || k < i;
    }
    hide Removed, Unshared;
  }

  lemma DropEngineRef(list: seq<Node>, k: nat)
    requires k < |list|
    ensures EngineRefs(list) == EngineRefs(Removed(list, k)) + (if list[k].heap.Iommu? then 1 else 0)
  {
    var n := list[k];
    assert list == list[..k] + ([n] + list[k + 1..]);
    EngineRefsOfTwo(list[..k], [n] + list[k + 1..]);
    EngineRefsOfTwo([n], list[k + 1..]);
    EngineRefsOfTwo(list[..k], list[k + 1..]);
    EngineRefsOfOne(n);
  }

  // Adding one takes exactly what it holds.
  lemma AddTakes(list: seq<Node>, n: Node)
    requires Unshared(list) && n.handle !in Handles(list) && n.vir !in Mappings(list)
    requires !n.fdClosed && n.fd !in OpenFds(list)
    ensures var a := list + [n];
      && Unshared(a) && Handles(a) == Handles(list) + {n.handle} && Mappings(a) == Mappings(list) + {n.vir}
      && OpenFds(a) == OpenFds(list) + {n.fd}
      && EngineRefs(a) == EngineRefs(list) + (if n.heap.Iommu? then 1 else 0)
  {
    EngineRefsOfTwo(list, [n]);
    EngineRefsOfOne(n);
  }

  // ----- Where the buffers are -----

  ghost predicate Placed(n: Node) {
    n.size > 0 && 0 < n.vir && n.vir + n.size <= WORD_RANGE && 0 <= n.phy && n.phy + n.size <= WORD_RANGE
  }

  ghost predicate Separate(m: Node, n: Node) {
    && (m.vir + m.size <= n.vir || n.vir + n.size <= m.vir)
    && (m.phy + m.size <= n.phy || n.phy + n.size <= m.phy)
  }

  ghost predicate Disjoint(list: seq<Node>) {
    && (forall n | n in list :: Placed(n))
    && forall i, j | 0 <= i < j < |list| :: Separate(list[i], list[j])
  }

  predicate InVir(n: Node, a: int) { n.vir <= a < n.vir + n.size }

  predicate InPhy(n: Node, a: int) { n.phy <= a < n.phy + n.size }

  // The first buffer with the address; |list| if there is none.
  function OwnerByVir(list: seq<Node>, a: int): (k: nat)
    ensures k <= |list| && (k < |list| ==> InVir(list[k], a)) && forall i | 0 <= i < k :: !InVir(list[i], a)
  {
    if list == [] || InVir(list[0], a) then 0 else 1 + OwnerByVir(list[1..], a)
  }

  function OwnerByPhy(list: seq<Node>, a: int): (k: nat)
    ensures k <= |list| && (k < |list| ==> InPhy(list[k], a)) && forall i | 0 <= i < k :: !InPhy(list[i], a)
  {
    if list == [] || InPhy(list[0], a) then 0 else 1 + OwnerByPhy(list[1..], a)
  }

  // 0 is NULL: no address.
  function VirToPhy(list: seq<Node>, a: int): int {
    var k := OwnerByVir(list, a);
    if a == 0 || k == |list| then 0 else list[k].phy + a - list[k].vir
  }

  function PhyToVir(list: seq<Node>, a: int): int {
    var k := OwnerByPhy(list, a);
    if a == 0 || k == |list| then 0 else list[k].vir + a - list[k].phy
  }

  function BufferFd(list: seq<Node>, a: int): int {
    var k := OwnerByVir(list, a);
    if a == 0 || k == |list| then -1 else list[k].fd
  }

  lemma OneOwner(list: seq<Node>, k: nat, a: int)
    requires Disjoint(list) && k < |list|
    ensures InVir(list[k], a) ==> OwnerByVir(list, a) == k
    ensures InPhy(list[k], a) ==> OwnerByPhy(list, a) == k
  {
    if InVir(list[k], a) {
      var i := OwnerByVir(list, a);
      assert i < k ==> Separate(list[i], list[k]);
    }
    if InPhy(list[k], a) {
      var i := OwnerByPhy(list, a);
      assert i < k ==> Separate(list[i], list[k]);
    }
  }

  // Inside a buffer the translations undo each other, the descriptor is the buffer's
  // and the offset is kept.  There is one exception: physical address 0 reads as "no
  // address" and does not translate back.
  lemma TranslationsInvert(list: seq<Node>, k: nat, offset: int)
    requires Disjoint(list) && k < |list| && 0 <= offset < list[k].size
    ensures var v, p := list[k].vir + offset, list[k].phy + offset;
      && VirToPhy(list, v) == p && BufferFd(list, v) == list[k].fd
      && (PhyToVir(list, VirToPhy(list, v)) == v <==> p != 0)
      && (VirToPhy(list, PhyToVir(list, p)) == p)
  {
    var v, p := list[k].vir + offset, list[k].phy + offset;
    assert list[k] in list && Placed(list[k]);
    OneOwner(list, k, v);
    OneOwner(list, k, p);
    hide OwnerByVir, OwnerByPhy;
    NullIsNothing(list);
  }

  lemma NullIsNothing(list: seq<Node>)
    ensures VirToPhy(list, 0) == 0 && PhyToVir(list, 0) == 0
  {
  }

  // Outside every buffer nothing translates.
  lemma OutsideTranslatesToNull(list: seq<Node>, a: int)
    requires Disjoint(list)
    ensures (forall n | n in list :: a < n.vir || n.vir + n.size <= a) ==>
              VirToPhy(list, a) == 0 && BufferFd(list, a) == -1
    ensures (forall n | n in list :: a < n.phy || n.phy + n.size <= a) ==> PhyToVir(list, a) == 0
    ensures PhyToVir(list, a) == 0 ==> a == 0 || forall n | n in list :: a < n.phy || n.phy + n.size <= a
  {
    var k := OwnerByPhy(list, a);
    if k < |list| {
      assert list[k] in list && Placed(list[k]);
    }
  }

  lemma AddKeepsDisjoint(list: seq<Node>, n: Node)
    requires Disjoint(list) && Placed(n) && forall m | m in list :: Separate(m, n)
    ensures Disjoint(list + [n])
  {
    var a := list + [n];
    forall i, j | 0 <= i < j < |a| ensures Separate(a[i], a[j]) {
      if j == |list| {
        assert a[i] in list;
      }
    }
  }

  lemma DropKeepsDisjoint(list: seq<Node>, k: nat)
    requires Disjoint(list) && k < |list|
    ensures Disjoint(Removed(list, k))
  {
    var w := Removed(list, k);
    forall n | n in w ensures Placed(n) {
      var i :| 0 <= i < |w| && w[i] == n;
      assert list[if i < k then i else i + 1] == n;
    }
    forall i, j | 0 <= i < j < |w| ensures Separate(w[i], w[j]) {
      assert Separate(list[if i < k then i else i + 1], list[if j < k then j else j + 1]);
    }
  }
}

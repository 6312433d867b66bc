// The ION allocator of a process: opened and closed by reference count, with a list of
// the buffers handed out.  What the kernel answers comes in as parameters.
module IonAlloc {
  import opened IonLedger

  // The kernel's answers to one allocation: whether each call succeeds, and with what.
  // `engineOk` is ENGINE_REQ, `addrOk` the call for the physical or IOMMU address.
  datatype Kernel = Kernel(allocOk: bool, handle: int, mapOk: bool, fd: int, mmapOk: bool, vir: int,
                           engineOk: bool, addrOk: bool, phy: int)

  predicate Mapped(k: Kernel) { k.allocOk && k.mapOk && k.mmapOk }

  // Every call the allocation makes succeeds.
  predicate Answered(k: Kernel, heap: Heap) { Mapped(k) && (heap.Iommu? ==> k.engineOk) && k.addrOk }

  function Made(k: Kernel, heap: Heap, len: int): Node {
    Node(heap, k.phy, k.vir, len, k.handle, k.fd, false)
  }

  lemma WhateverHeap(list: seq<Node>, k: Kernel, heap: Heap, len: int)
    requires Placed(Made(k, Carveout, len)) && forall m | m in list :: Separate(m, Made(k, Carveout, len))
    ensures Placed(Made(k, heap, len)) && k.vir != 0 && forall m | m in list :: Separate(m, Made(k, heap, len))
  {
  }

  class IonAlloc {
    const iommu: bool // built with CONF_KERNEL_IOMMU

    // g_ion_alloc_context
    var isOpen: bool
    var refCnt: int
    var list: seq<Node>

    // what the process holds of the kernel: ION handles, dma-buf descriptors,
    // mappings, references to the engine behind the IOMMU, open devices
    var handles: set<int>
    var fds: set<int>
    var maps: set<int>
    var engineRefs: int
    var devices: int

    // what error paths have left behind
    ghost var lostHandles: set<int>
    ghost var lostFds: set<int>
    ghost var lostMaps: set<int>
    ghost var lostEngineRefs: int
    ghost var lostDevices: int

    // The kernel resources in use are those of the listed buffers and the lost ones.
    ghost predicate Ledger()
      reads `list, `handles, `fds, `maps, `engineRefs, `lostHandles, `lostFds, `lostMaps, `lostEngineRefs
    {
      && Unshared(list)
      && handles == Handles(list) + lostHandles && Handles(list) !! lostHandles
      && fds == OpenFds(list) + lostFds && OpenFds(list) !! lostFds
      && maps == Mappings(list) + lostMaps && Mappings(list) !! lostMaps
      && engineRefs == EngineRefs(list) + lostEngineRefs
    }

    ghost predicate Valid()
      reads this
    {
      && (if isOpen then refCnt >= 1 else refCnt == 0 && list == [])
      && devices == lostDevices + (if !isOpen then 0 else if iommu then 2 else 1)
      && Ledger() && Disjoint(list)
    }

    constructor (iommu: bool)
      ensures Valid() && !isOpen && this.iommu == iommu
      ensures handles == {} && fds == {} && maps == {} && engineRefs == 0 && devices == 0
      ensures lostHandles == {} && lostFds == {} && lostMaps == {} && lostEngineRefs == 0 && lostDevices == 0
    {
      this.iommu := iommu;
      isOpen, refCnt, list := false, 0, [];
      handles, fds, maps, engineRefs, devices := {}, {}, {}, 0, 0;
      lostHandles, lostFds, lostMaps, lostEngineRefs, lostDevices := {}, {}, {}, 0, 0;
    }

    // `ionFd` and `iommuFd` are what open() answers for the two devices.  Descriptor 0
    // is taken for a failure and not closed.
    method Open(mallocOk: bool, ionFd: int, iommuFd: int) returns (ret: int)
      requires Valid()
      modifies `isOpen, `refCnt, `devices, `lostDevices
      ensures Valid()
      ensures ret == 0 <==> old(isOpen) || (mallocOk && ionFd > 0 && (iommu ==> iommuFd > 0))
      ensures ret == 0 ==> isOpen && refCnt == old(refCnt) + 1 && lostDevices == old(lostDevices)
      ensures ret != 0 ==> !isOpen && refCnt == old(refCnt)
      ensures ret != 0 ==>
        var zero := mallocOk && (ionFd == 0 || (ionFd > 0 && iommuFd == 0));
        lostDevices == old(lostDevices) + if zero then 1 else 0
    {
      hide Ledger, Disjoint;
      if isOpen {
        refCnt := refCnt + 1;
        return 0;
      }
      if !mallocOk {
        return -1;
      }
      devices := devices + if ionFd >= 0 then 1 else 0;
      if ionFd <= 0 {
        lostDevices := lostDevices + if ionFd == 0 then 1 else 0;
        return -1;
      }
      if iommu {
        devices := devices + if iommuFd >= 0 then 1 else 0;
        if iommuFd <= 0 {
          devices := devices - 1; // the ION device
          lostDevices := lostDevices + if iommuFd == 0 then 1 else 0;
          return -1;
        }
      }
      isOpen := true;
      refCnt := refCnt + 1;
      ret := 0;
    }

    // ion_alloc_pfree_l
    method Release(n: Node)
      modifies `handles, `fds, `maps, `engineRefs
      ensures maps == old(maps) - {n.vir} && handles == old(handles) - {n.handle}
      ensures fds == old(fds) - (if n.fdClosed then {} else {n.fd})
      ensures engineRefs == old(engineRefs) - (if n.heap.Iommu? then 1 else 0)
    {
      maps := maps - {n.vir}; // munmap
      if n.heap == Iommu {
        engineRefs := engineRefs - 1; // IOCTL_ENGINE_REL
      }
      if !n.fdClosed {
        fds := fds - {n.fd}; // close
      }
      handles := handles - {n.handle}; // ION_IOC_FREE
    }

    method Drop(k: nat)
      requires Ledger() && Disjoint(list) && k < |list|
      modifies `list, `handles, `fds, `maps, `engineRefs
      ensures Ledger() && Disjoint(list) && list == Removed(old(list), k)
      ensures var n := old(list)[k];
        && n.handle in old(handles) && n.vir in old(maps) && (n.fdClosed || n.fd in old(fds))
        && n.handle !in handles && n.vir !in maps && (n.fdClosed || n.fd !in fds)
    {
      var n := list[k];
      DropGivesUp(list, k);
      DropKeepsDisjoint(list, k);
      hide Unshared, Disjoint, Handles, OpenFds, Mappings, EngineRefs;
      Release(n);
      list := Removed(list, k); // list_del
    }

    // The last close gives back everything that has not been lost on an error path.
    method Close()
      requires Valid() && isOpen
      modifies `isOpen, `refCnt, `list, `handles, `fds, `maps, `engineRefs, `devices
      ensures Valid()
      ensures old(refCnt) > 1 ==> isOpen && refCnt == old(refCnt) - 1 && list == old(list)
      ensures old(refCnt) == 1 ==>
        && !isOpen && handles == lostHandles && fds == lostFds && maps == lostMaps
        && engineRefs == lostEngineRefs && devices == lostDevices
    {
      hide Disjoint, Unshared;
      refCnt := refCnt - 1;
      if refCnt <= 0 {
        while list != []
          invariant Ledger() && Disjoint(list)
          decreases |list|
          modifies `list, `handles, `fds, `maps, `engineRefs
        {
          Drop(0);
        }
        devices := devices - 1;
        if iommu {
          devices := devices - 1;
        }
        isOpen := false;
      }
    }

    // What the kernel may answer to an allocation: handles, descriptors and mappings
    // that are not in use, and memory that is nobody else's.
    ghost predicate Unused(k: Kernel)
      reads `handles, `fds, `maps
    {
      && (k.allocOk ==> k.handle !in handles) && (k.allocOk && k.mapOk ==> k.fd !in fds)
      && (Mapped(k) ==> k.vir !in maps)
    }

    ghost predicate Honest(k: Kernel, len: int)
      reads `list, `handles, `fds, `maps
    {
      && Unused(k)
      && (Mapped(k) && k.addrOk && len > 0 ==>
            Placed(Made(k, Carveout, len)) && forall m | m in list :: Separate(m, Made(k, Carveout, len)))
    }

    // The calls to the kernel, up to the first that fails; what they have taken by
    // then is lost.
    method Acquire(heap: Heap, k: Kernel) returns (ok: bool)
      requires Unused(k)
      modifies `handles, `fds, `maps, `engineRefs, `lostHandles, `lostFds, `lostMaps, `lostEngineRefs
      ensures ok <==> Answered(k, heap)
      ensures handles == old(handles) + (if k.allocOk then {k.handle} else {})
      ensures fds == old(fds) + (if k.allocOk && k.mapOk then {k.fd} else {})
      ensures maps == old(maps) + (if Mapped(k) then {k.vir} else {})
      ensures engineRefs == old(engineRefs) + (if Mapped(k) && heap.Iommu? && k.engineOk then 1 else 0)
      ensures lostHandles == old(lostHandles) + (if !ok && k.allocOk then {k.handle} else {})
      ensures lostFds == old(lostFds) + (if !ok && k.allocOk && k.mapOk then {k.fd} else {})
      ensures lostMaps == old(lostMaps) + (if !ok && Mapped(k) then {k.vir} else {})
      ensures lostEngineRefs == old(lostEngineRefs) + (if !ok && Mapped(k) && heap.Iommu? && k.engineOk then 1 else 0)
    {
      if !k.allocOk {
        return false;
      }
      handles := handles + {k.handle}; // ION_IOC_ALLOC
      if !k.mapOk {
        lostHandles := lostHandles + {k.handle};
        return false;
      }
      fds := fds + {k.fd}; // ION_IOC_MAP
      if !k.mmapOk {
        lostHandles, lostFds := lostHandles + {k.handle}, lostFds + {k.fd};
        return false;
      }
      maps := maps + {k.vir}; // mmap
      ok := true;
      if heap == Iommu {
        if k.engineOk {
          engineRefs := engineRefs + 1; // IOCTL_ENGINE_REQ
          ok := k.addrOk; // IOCTL_GET_IOMMU_ADDR
        } else {
          ok := false;
        }
      } else {
        ok := k.addrOk; // ION_IOC_SUNXI_PHYS_ADDR
      }
      if !ok {
        lostHandles, lostFds, lostMaps := lostHandles + {k.handle}, lostFds + {k.fd}, lostMaps + {k.vir};
        lostEngineRefs := lostEngineRefs + if heap.Iommu? && k.engineOk then 1 else 0;
      }
    }

    // A buffer whose resources have been taken goes on the list.
    method Record(n: Node)
      requires Unshared(list) && Disjoint(list) && Placed(n) && forall m | m in list :: Separate(m, n)
      requires !n.fdClosed && handles == Handles(list) + {n.handle} + lostHandles
      requires fds == OpenFds(list) + {n.fd} + lostFds
      requires maps == Mappings(list) + {n.vir} + lostMaps
      requires engineRefs == EngineRefs(list) + lostEngineRefs + if n.heap.Iommu? then 1 else 0
      requires n.handle !in Handles(list) + lostHandles && Handles(list) !! lostHandles
      requires n.fd !in OpenFds(list) + lostFds && OpenFds(list) !! lostFds
      requires n.vir !in Mappings(list) + lostMaps && Mappings(list) !! lostMaps
      modifies `list
      ensures Ledger() && Disjoint(list) && list == old(list) + [n]
    {
      hide Disjoint, Unshared, OpenFds, Handles, Mappings, EngineRefs, Placed, Separate;
      AddTakes(list, n);
      AddKeepsDisjoint(list, n);
      list := list + [n]; // list_add_tail
    }

    // sunxi_ion_alloc_pallocExtend.  An error after ION_IOC_ALLOC loses what has been
    // taken by then, except that the failing malloc gives everything back.
    method PallocExtend(len: int, wanted: Heap, k: Kernel, mallocOk: bool) returns (vir: int)
      requires Valid() && Honest(k, len)
      modifies `list, `handles, `fds, `maps, `engineRefs, `lostHandles, `lostFds, `lostMaps, `lostEngineRefs
      ensures Valid()
      ensures var heap := if iommu then wanted else Carveout;
        if isOpen && len > 0 && Answered(k, heap) && mallocOk
        then vir == k.vir != 0 && list == old(list) + [Made(k, heap, len)]
        else vir == 0 && list == old(list)
      ensures var heap := if iommu then wanted else Carveout;
        var lost := isOpen && len > 0 && k.allocOk && !Answered(k, heap);
        && lostHandles == old(lostHandles) + (if lost then {k.handle} else {})
        && lostFds == old(lostFds) + (if lost && k.mapOk then {k.fd} else {})
        && lostMaps == old(lostMaps) + (if lost && Mapped(k) then {k.vir} else {})
        && lostEngineRefs == old(lostEngineRefs) + (if lost && Mapped(k) && heap.Iommu? && k.engineOk then 1 else 0)
    {
      hide *;
      vir := 0;
      if !isOpen || len <= 0 {
        return;
      }
      vir := Allocate(len, if iommu then wanted else Carveout, k, mallocOk);
    }

    method Allocate(len: int, heap: Heap, k: Kernel, mallocOk: bool) returns (vir: int)
      requires Valid() && isOpen && len > 0 && Honest(k, len)
      modifies `list, `handles, `fds, `maps, `engineRefs, `lostHandles, `lostFds, `lostMaps, `lostEngineRefs
      ensures Valid()
      ensures if Answered(k, heap) && mallocOk then vir == k.vir != 0 && list == old(list) + [Made(k, heap, len)]
              else vir == 0 && list == old(list)
      ensures var lost := k.allocOk && !Answered(k, heap);
        && lostHandles == old(lostHandles) + (if lost then {k.handle} else {})
        && lostFds == old(lostFds) + (if lost && k.mapOk then {k.fd} else {})
        && lostMaps == old(lostMaps) + (if lost && Mapped(k) then {k.vir} else {})
        && lostEngineRefs == old(lostEngineRefs) + (if lost && Mapped(k) && heap.Iommu? && k.engineOk then 1 else 0)
    {
      hide Disjoint, Unshared, OpenFds, Handles, Mappings, EngineRefs, Placed, Separate;
      vir := 0;
      if Answered(k, heap) {
        WhateverHeap(list, k, heap, len);
      }
      var ok := Acquire(heap, k);
      if !ok {
        return;
      }
      var node := Made(k, heap, len);
      if !mallocOk {
        Release(node);
        return;
      }
      Record(node);
      vir := k.vir;
    }

    // sunxi_ion_alloc_pfree
    method Free(vir: int)
      requires Valid()
      modifies `list, `handles, `fds, `maps, `engineRefs
      ensures Valid()
      ensures if vir != 0 && exists k :: 0 <= k < |old(list)| && old(list)[k].vir == vir
              then exists k: nat :: k < |old(list)| && old(list)[k].vir == vir && list == Removed(old(list), k)
              else list == old(list) && handles == old(handles) && fds == old(fds) && maps == old(maps)
    {
      if vir == 0 {
        return;
      }
      if !isOpen {
        return;
      }
      hide Ledger, Disjoint;
      var k := 0;
      while k < |list| && list[k].vir != vir
        invariant 0 <= k <= |list| && forall i | 0 <= i < k :: list[i].vir != vir
      {
        k := k + 1;
      }
      if k < |list| {
        Drop(k);
      }
    }

    // Close a buffer's descriptor before the buffer is freed.  The ledger survives
    // unless the descriptor has been closed before and its number is in use again.
    method CloseFdByVirAddr(vir: int)
      requires Valid()
      modifies `list, `fds
      ensures |list| == |old(list)| && Disjoint(list)
      ensures var k := FirstAt(old(list), vir);
        if vir == 0 || k == |old(list)| then list == old(list) && fds == old(fds)
        else list == old(list)[k := old(list)[k].(fdClosed := true)] && fds == old(fds) - {old(list)[k].fd}
      ensures var k := FirstAt(old(list), vir);
        Valid() <==> vir == 0 || k == |old(list)| || !old(list)[k].fdClosed || old(list)[k].fd !in old(fds)
    {
      hide Disjoint, Unshared, OpenFds, Handles, Mappings, EngineRefs;
      if vir == 0 {
        return;
      }
      if !isOpen {
        return;
      }
      var k := 0;
      while k < |list| && list[k].vir != vir
        invariant 0 <= k <= |list| && forall i | 0 <= i < k :: list[i].vir != vir
      {
        k := k + 1;
      }
      FirstAtIs(list, vir, k);
      if k < |list| {
        ClosedEarly(list, k, fds, lostFds);
        ClosedDisjoint(list, k);
        fds := fds - {list[k].fd};
        list := list[k := list[k].(fdClosed := true)];
      }
    }

    // The translations read the list without looking whether there is one.
    method VirToPhyCpu(a: int) returns (phy: int)
      requires a != 0 ==> isOpen
      ensures phy == VirToPhy(list, a)
    {
      if a == 0 {
        return 0;
      }
      var k := 0;
      while k < |list|
        invariant 0 <= k <= |list| && forall i | 0 <= i < k :: !InVir(list[i], a)
      {
        if InVir(list[k], a) {
          FirstOwner(list, k, a);
          return list[k].phy + a - list[k].vir;
        }
        k := k + 1;
      }
      phy := 0;
    }

    method PhyToVirCpu(a: int) returns (vir: int)
      requires a != 0 ==> isOpen
      ensures vir == PhyToVir(list, a)
    {
      if a == 0 {
        return 0;
      }
      var k := 0;
      while k < |list|
        invariant 0 <= k <= |list| && forall i | 0 <= i < k :: !InPhy(list[i], a)
      {
        if InPhy(list[k], a) {
          FirstOwner(list, k, a);
          return list[k].vir + a - list[k].phy;
        }
        k := k + 1;
      }
      vir := 0;
    }

    method GetBufferFd(a: int) returns (fd: int)
      requires a != 0 ==> isOpen
      ensures fd == BufferFd(list, a)
    {
      if a == 0 {
        return -1;
      }
      var k := 0;
      while k < |list|
        invariant 0 <= k <= |list| && forall i | 0 <= i < k :: !InVir(list[i], a)
      {
        if InVir(list[k], a) {
          FirstOwner(list, k, a);
          return list[k].fd;
        }
        k := k + 1;
      }
      fd := -1;
    }
  }

  // The first buffer that begins at the address.
  function FirstAt(list: seq<Node>, vir: int): (k: nat)
    ensures k <= |list|
  {
    if list == [] || list[0].vir == vir then 0 else 1 + FirstAt(list[1..], vir)
  }

  lemma {:induction false} FirstAtIs(list: seq<Node>, vir: int, k: nat)
    requires k <= |list| && (forall i | 0 <= i < k :: list[i].vir != vir) && (k < |list| ==> list[k].vir == vir)
    ensures FirstAt(list, vir) == k
  {
    if k > 0 {
      FirstAtIs(list[1..], vir, k - 1);
    }
  }

  lemma ClosedEarly(list: seq<Node>, k: nat, fds: set<int>, lost: set<int>)
    requires k < |list| && Unshared(list) && fds == OpenFds(list) + lost && OpenFds(list) !! lost
    ensures var n, after := list[k], list[k := list[k].(fdClosed := true)];
      && Unshared(after) && Handles(after) == Handles(list) && Mappings(after) == Mappings(list)
      && EngineRefs(after) == EngineRefs(list)
      && (fds - {n.fd} == OpenFds(after) + lost && OpenFds(after) !! lost <==> !n.fdClosed || n.fd !in fds)
  {
    var n, c := list[k], list[k].(fdClosed := true);
    var after := list[k := c];
    assert list == list[..k] + ([n] + list[k + 1..]) && after == list[..k] + ([c] + list[k + 1..]);
    EngineRefsOfTwo(list[..k], [n] + list[k + 1..]);
    EngineRefsOfTwo(list[..k], [c] + list[k + 1..]);
    EngineRefsOfTwo([n], list[k + 1..]);
    EngineRefsOfTwo([c], list[k + 1..]);
    EngineRefsOfOne(n);
    EngineRefsOfOne(c);
    hide EngineRefs;
    ClosedSets(list, k);
  }

  lemma ClosedSets(list: seq<Node>, k: nat)
    requires k < |list| && Unshared(list)
    ensures var n, after := list[k], list[k := list[k].(fdClosed := true)];
      && Unshared(after) && Handles(after) == Handles(list) && Mappings(after) == Mappings(list)
      && OpenFds(after) == OpenFds(list) - (if n.fdClosed then {} else {n.fd})
  {
    var n, c := list[k], list[k].(fdClosed := true);
    var after := list[k := c];
    forall m: Node ensures m in after <==> m == c || (m in list && m != n) {
      UpdatedItems(list, k, c, m);
    }
    assert n in list && c in after;
    forall m | m in list && m != n
      ensures m.handle != n.handle && m.vir != n.vir && (m.fdClosed || n.fdClosed || m.fd != n.fd)
    {
      var i :| 0 <= i < |list| && list[i] == m;
      assert i < k || k < i;
    }
  }

  lemma ClosedDisjoint(list: seq<Node>, k: nat)
    requires k < |list| && Disjoint(list)
    ensures Disjoint(list[k := list[k].(fdClosed := true)])
  {
    var after := list[k := list[k].(fdClosed := true)];
    forall n | n in after ensures Placed(n) {
      var i :| 0 <= i < |after| && after[i] == n;
      assert list[i] in list;
    }
    forall i, j | 0 <= i < j < |after| ensures Separate(after[i], after[j]) {
      assert Separate(list[i], list[j]);
    }
  }

  lemma UpdatedItems(list: seq<Node>, k: nat, c: Node, m: Node)
    requires k < |list| && Unshared(list)
    ensures m in list[k := c] <==> m == c || (m in list && m != list[k])
  {
    var after := list[k := c];
    assert after[k] == c;
    if m in list && m != list[k] {
      var i :| 0 <= i < |list| && list[i] == m;
      assert after[i] == m;
    }
    if m in after && m != c {
      var i :| 0 <= i < |after| && after[i] == m;
      assert list[i] == m && (i < k || k < i);
    }
  }

  lemma FirstOwner(list: seq<Node>, k: nat, a: int)
    requires k < |list|
    ensures InVir(list[k], a) && (forall i | 0 <= i < k :: !InVir(list[i], a)) ==> OwnerByVir(list, a) == k
    ensures InPhy(list[k], a) && (forall i | 0 <= i < k :: !InPhy(list[i], a)) ==> OwnerByPhy(list, a) == k
  {
  }

  // ----- Several calls -----

  lemma NewBufferTranslates(list: seq<Node>, k: Kernel, heap: Heap, len: int, offset: int)
    requires Disjoint(list + [Made(k, heap, len)]) && 0 <= offset < len
    ensures var all := list + [Made(k, heap, len)];
      && VirToPhy(all, k.vir + offset) == k.phy + offset && BufferFd(all, k.vir + offset) == k.fd
      && (k.phy + offset != 0 ==> PhyToVir(all, k.phy + offset) == k.vir + offset)
      && (list == [] ==> VirToPhy(all, k.vir + len) == 0)
  {
    var all := list + [Made(k, heap, len)];
    TranslationsInvert(all, |list|, offset);
    if list == [] {
      OutsideTranslatesToNull(all, k.vir + len);
    }
    hide VirToPhy, PhyToVir, BufferFd, Disjoint;
  }

  method Translate(a: IonAlloc, vir: int, phy: int, end: int) returns (toPhy: int, toVir: int, fd: int, behind: int)
    requires a.isOpen
    ensures toPhy == VirToPhy(a.list, vir) && toVir == PhyToVir(a.list, phy)
    ensures fd == BufferFd(a.list, vir) && behind == VirToPhy(a.list, end)
  {
    toPhy := a.VirToPhyCpu(vir);
    toVir := a.PhyToVirCpu(phy);
    fd := a.GetBufferFd(vir);
    behind := a.VirToPhyCpu(end);
  }

  // What the process holds.
  lemma Held(a: IonAlloc)
    requires a.Valid()
    ensures Disjoint(a.list)
    ensures a.handles == Handles(a.list) + a.lostHandles && a.fds == OpenFds(a.list) + a.lostFds
    ensures a.maps == Mappings(a.list) + a.lostMaps && a.engineRefs == EngineRefs(a.list) + a.lostEngineRefs
  {
    hide Disjoint, Unshared, OpenFds, Handles, Mappings, EngineRefs;
  }

  lemma AnsweredMeans(k: Kernel, heap: Heap)
    ensures Answered(k, heap) <==>
      k.allocOk && k.mapOk && k.mmapOk && k.addrOk && (heap == Iommu ==> k.engineOk)
  {
  }

  // An allocation succeeds exactly if each of its calls does.
  method Allocated(a: IonAlloc, len: int, wanted: Heap, k: Kernel, mallocOk: bool) returns (vir: int, ghost heap: Heap)
    requires a.Valid() && a.Honest(k, len) && len > 0
    modifies a
    ensures a.Valid() && a.isOpen == old(a.isOpen)
    ensures vir != 0 <==>
      && a.isOpen && k.allocOk && k.mapOk && k.mmapOk && k.addrOk && mallocOk
      && (a.iommu && wanted == Iommu ==> k.engineOk)
    ensures if vir != 0 then vir == k.vir && a.list == old(a.list) + [Made(k, heap, len)] else a.list == old(a.list)
  {
    heap := if a.iommu then wanted else Carveout;
    AnsweredMeans(k, heap);
    hide *;
    vir := a.PallocExtend(len, wanted, k, mallocOk);
  }

  // Allocate a buffer and translate the addresses in it: the kernel's answers come back.
  method AllocateAndTranslate(a: IonAlloc, len: int, wanted: Heap, k: Kernel, mallocOk: bool, offset: int)
      returns (vir: int, phy: int, back: int, fd: int, behind: int)
    requires a.Valid() && a.Honest(k, len) && 0 <= offset < len
    modifies a
    ensures a.Valid()
    ensures vir != 0 <==>
      && a.isOpen && k.allocOk && k.mapOk && k.mmapOk && k.addrOk && mallocOk
      && (a.iommu && wanted == Iommu ==> k.engineOk)
    ensures vir != 0 ==> vir == k.vir && phy == k.phy + offset && fd == k.fd
    ensures vir != 0 && k.phy + offset != 0 ==> back == k.vir + offset
    ensures old(a.list) == [] ==> behind == 0
  {
    hide *;
    ghost var list, heap := a.list, Carveout;
    vir, heap := Allocated(a, len, wanted, k, mallocOk);
    phy, back, fd, behind := 0, 0, -1, 0;
    if vir != 0 {
      Held(a);
      NewBufferTranslates(list, k, heap, len, offset);
      phy, back, fd, behind := Translate(a, vir + offset, k.phy + offset, vir + len);
    }
  }

  lemma OnlyTheLast(list: seq<Node>, n: Node, j: nat)
    requires Disjoint(list + [n]) && j <= |list| && (list + [n])[j].vir == n.vir
    ensures Removed(list + [n], j) == list
  {
    var all := list + [n];
    assert all[j] in all && all[|list|] in all && all[|list|] == n;
    assert Placed(all[j]) && Placed(n);
    assert forall i | 0 <= i < |list| :: Separate(all[i], all[|list|]);
    assert Removed(all, |list|) == list;
    hide Disjoint;
  }

  // Freeing what has just been allocated leaves the process as it was.
  method AllocateAndFree(a: IonAlloc, len: int, wanted: Heap, k: Kernel)
    requires a.Valid() && a.Honest(k, len)
    modifies a
    ensures a.Valid() && a.list == old(a.list)
    ensures
      var works := a.isOpen && k.allocOk && k.mapOk && k.mmapOk && k.addrOk;
      works && (a.iommu && wanted == Iommu ==> k.engineOk) ==>
        && a.handles == old(a.handles) && a.fds == old(a.fds) && a.maps == old(a.maps)
        && a.engineRefs == old(a.engineRefs)
  {
    ghost var heap, list := if a.iommu then wanted else Carveout, a.list;
    AnsweredMeans(k, heap);
    Held(a);
    assert Made(k, heap, len).vir == k.vir;
    hide *;
    var vir := a.PallocExtend(len, wanted, k, true);
    FreeNew(a, vir, list, Made(k, heap, len));
    Held(a);
  }

  method FreeNew(a: IonAlloc, vir: int, ghost list: seq<Node>, ghost n: Node)
    requires a.Valid() && (vir != 0 ==> a.list == list + [n] && n.vir == vir)
    modifies a`list, a`handles, a`fds, a`maps, a`engineRefs
    ensures a.Valid() && a.list == if vir != 0 then list else old(a.list)
  {
    Held(a);
    hide *;
    ghost var all := a.list;
    a.Free(vir);
    if vir != 0 {
      assert all[|list|].vir == vir;
      ghost var j: nat :| j < |all| && all[j].vir == vir && a.list == Removed(all, j);
      OnlyTheLast(list, n, j);
    }
  }

  const FIRST := Kernel(true, 1, true, 7, true, 4096, true, true, 8192)
  const SECOND := Kernel(true, 2, true, 7, true, 8192, true, true, 16384)

  // A process with one buffer, its descriptor closed early.
  method CloseEarly() returns (a: IonAlloc)
    ensures fresh(a) && a.Valid() && a.isOpen && !a.iommu
    ensures a.list == [Made(FIRST, Carveout, 100).(fdClosed := true)]
    ensures a.handles == {1} && a.fds == {} && a.maps == {4096}
  {
    a := new IonAlloc(false);
    var _ := a.Open(true, 3, 0);
    var _ := a.PallocExtend(100, Carveout, FIRST, true);
    assert a.list == [Made(FIRST, Carveout, 100)];
    a.CloseFdByVirAddr(4096);
  }

  // And one for which the ledger fails: the kernel gives the number to a second buffer,
  // and the first one's descriptor is closed again.
  method CloseEarlyTwice() returns (a: IonAlloc)
    ensures !a.Valid() && |a.list| == 2 && !a.list[1].fdClosed && a.list[1].fd !in a.fds
  {
    a := CloseEarly();
    var _ := a.PallocExtend(100, Carveout, SECOND, true);
    assert a.list == [Made(FIRST, Carveout, 100).(fdClosed := true), Made(SECOND, Carveout, 100)];
    SecondIsOpen(a);
    a.CloseFdByVirAddr(4096);
  }

  lemma SecondIsOpen(a: IonAlloc)
    requires a.Valid() && |a.list| == 2 && !a.list[1].fdClosed
    ensures a.list[1].fd in a.fds
  {
  }
}

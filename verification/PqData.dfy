// The daemon's settings in memory and the code that searches, changes, stores,
// loads and replays them.
module PqData {
  import opened Bytes
  import opened Options
  import opened PqStore
  import opened PqList
  import opened IntrusiveList
  import opened PqFile
  import opened PqCore

  // How pqdata_from_file ends: an error return, a read beyond the mapping, or
  // the number of entries.
  datatype LoadResult = Error | Crash | Count(n: nat)

  class PqData {
    const magic: int32
    const version: int32
    const list: EntryList  // pqdata_entry_list_
    var calls: seq<HwCall> // what was asked of the hardware so far

    constructor (magic: int32, version: int32)
      ensures this.magic == magic && this.version == version && calls == []
      ensures fresh(list) && fresh(list.links) && list.Valid() && list.entries == []
    {
      this.magic := magic;
      this.version := version;
      list := new EntryList();
      calls := [];
    }

    // The first node under the key, the k-th; the head stands for NULL.
    method FindNode(key: Key) returns (node: Link, ghost k: nat)
      requires list.Valid()
      ensures k == Find(list.entries, key) && node == list.LinkAt(k) && (node == list.head <==> k == |list.entries|)
    {
      k := 0;
      node := list.First();
      while node != list.head && list.nodes[node].key != key
        invariant k <= |list.entries| && node == list.LinkAt(k) && (node == list.head <==> k == |list.entries|)
        invariant forall j | 0 <= j < k :: list.entries[j].key != key
        decreases |list.entries| - k
      {
        node := list.Next(node, k);
        k := k + 1;
      }
    }

    // Keep the entries of one port and type together.
    method InsertNode(node: Entry)
      requires list.Valid()
      modifies list, list.links
      ensures list.Valid() && list.entries == Insert(old(list.entries), node)
      ensures fresh(list.links - old(list.links))
    {
      var found := FindMember(node);
      list.AddBehind(found, node, InsertionPoint(list.entries, node));
    }

    // The first node of the group; the head if there is none.
    method FindMember(node: Entry) returns (found: Link)
      requires list.Valid()
      ensures found == ([list.head] + list.members)[InsertionPoint(list.entries, node)]
    {
      ghost var k: nat := 0;
      found := list.First();
      while found != list.head && Group(list.nodes[found]) != Group(node)
        invariant k <= |list.entries| && found == list.LinkAt(k) && (found == list.head <==> k == |list.entries|)
        invariant forall j | 0 <= j < k :: Group(list.entries[j]) != Group(node)
        decreases |list.entries| - k
      {
        found := list.Next(found, k);
        k := k + 1;
      }
      assert k == FindGroup(list.entries, node);
    }

    method SaveData(key: Key, data: seq<byte>)
      requires list.Valid() && Inv(list.entries)
      modifies list, list.links
      ensures list.Valid() && Inv(list.entries) && list.entries == Save(old(list.entries), Entry(key, data))
      ensures AsMap(list.entries) == old(AsMap(list.entries))[key := data]
      ensures fresh(list.links - old(list.links))
    {
      SaveKeeps(list.entries, Entry(key, data));
      SaveIsMapUpdate(list.entries, Entry(key, data));
      assert Save(list.entries, Entry(key, data)) == Insert(Delete(list.entries, key), Entry(key, data));
      hide *;
      DeleteNode(key);
      InsertNode(Entry(key, data));
    }

    // Take out the node under the key, if there is one.
    method DeleteNode(key: Key)
      requires list.Valid()
      modifies list, list.links
      ensures list.Valid() && list.entries == Delete(old(list.entries), key)
      ensures fresh(list.links - old(list.links))
    {
      var node, k := FindNode(key);
      hide Find, Without;
      if node != list.head {
        list.Remove(node, k);
      }
    }

    method FindData(key: Key) returns (r: Option<seq<byte>>)
      requires list.Valid()
      ensures r == if key in AsMap(list.entries) then Some(AsMap(list.entries)[key]) else None
    {
      var node, k := FindNode(key);
      FindIsLookup(list.entries, key);
      r := if node != list.head then Some(list.nodes[node].data) else None;
    }

    method Size() returns (count: nat)
      requires list.Valid()
      ensures count == |list.entries|
    {
      count := 0;
      var link := list.First();
      while link != list.head
        invariant count <= |list.entries| && link == list.LinkAt(count)
        invariant link == list.head <==> count == |list.entries|
        decreases |list.entries| - count
      {
        link := list.Next(link, count);
        count := count + 1;
      }
    }

    method ToFile() returns (file: seq<byte>)
      requires list.Valid() && CanStore(list.entries)
      ensures file == FileBytes(magic, version, list.entries)
    {
      hide EntryBytes, EntriesBytes, FileHeader;
      var size := Size();
      file := FileHeader(magic, version, size);
      ghost var k: nat := 0;
      var link := list.First();
      while link != list.head
        invariant k <= |list.entries| && link == list.LinkAt(k) && (link == list.head <==> k == |list.entries|)
        invariant file + EntriesBytes(list.entries[k..]) == FileBytes(magic, version, list.entries)
        decreases |list.entries| - k
      {
        NextToWrite(file, list.entries, k);
        file := file + EntryBytes(list.nodes[link]);
        link := list.Next(link, k);
        k := k + 1;
      }
      NothingToWrite(file, list.entries);
    }

    // Each entry read goes to the front of the list.
    method FromFile(file: StoredFile) returns (r: LoadResult)
      requires list.Valid()
      modifies list, list.links
      ensures r == (match file
        case Absent => Error
        case Present(bytes) =>
          match PqFile.Load(bytes, magic, version)
          case Failed => Error
          case Crashed => Crash
          case Found(es) => Count(|es|))
      ensures list.Valid() && (r.Error? ==> list.entries == old(list.entries))
      ensures r.Count? ==> list.entries == Reverse(PqFile.Load(file.bytes, magic, version).es) + old(list.entries)
      ensures fresh(list.links - old(list.links))
    {
      if file.Absent? {
        return Error;
      }
      var bin := file.bytes;
      if |bin| == 0 {
        return Error; // mmap fails
      }
      if |bin| < FILE_HEADER_SIZE {
        return Crash;
      }
      if WordAt(bin, 0) != ENTRY_HEADER || WordAt(bin, 4) != magic || WordAt(bin, 8) != version {
        return Error;
      }
      r := ReadEntries(bin[FILE_HEADER_SIZE..], WordAt(bin, 12));
    }

    method ReadEntries(data: seq<byte>, size: int) returns (r: LoadResult)
      requires list.Valid()
      modifies list, list.links
      ensures match DecodeEntries(data, size)
        case Fault => r == Crash
        case Entries(es, _) => r == Count(|es|) && list.entries == Reverse(es) + old(list.entries)
      ensures list.Valid() && fresh(list.links - old(list.links))
    {
      hide *;
      var entry, entryCount := data, 0;
      ghost var done: seq<Entry> := [];
      NothingRead(data, size, list.entries);
      while entryCount < size
        invariant list.Valid() && fresh(list.links - old(list.links))
        invariant 0 <= entryCount == |done| && list.entries == Reverse(done) + old(list.entries)
        invariant DecodeEntries(data, size) == Before(done, DecodeEntries(entry, size - entryCount))
        decreases size - entryCount
      {
        match NextEntry(entry) {
          case Beyond =>
            ReadBeyond(done, entry, size - entryCount);
            return Crash;
          case NoMore =>
            ReadAll(done, entry, size - entryCount);
            return Count(entryCount);
          case One(node, rest) =>
            ReadOne(done, entry, size - entryCount, old(list.entries));
            done := done + [node];
            AddFirst(node);
            entry := rest;
            entryCount := entryCount + 1;
        }
      }
      ReadAll(done, entry, size - entryCount);
      r := Count(entryCount);
    }

    // pqdata_entry_list_add
    method AddFirst(e: Entry)
      requires list.Valid()
      modifies list, list.links
      ensures list.Valid() && list.entries == [e] + old(list.entries)
      ensures fresh(list.links - old(list.links))
    {
      list.AddBehind(list.head, e, 0);
      assert With(old(list.entries), 0, e) == [e] + old(list.entries);
    }

    // Only an empty list is filled from the file; what it holds then is copied out.
    method Load(file: StoredFile) returns (r: LoadResult, out: seq<Entry>)
      requires list.Valid()
      modifies list, list.links
      ensures list.Valid() && (r.Count? ==> out == list.entries)
      ensures old(list.entries) != [] ==> list.entries == old(list.entries) && r == Count(|list.entries|)
      ensures old(list.entries) == [] ==> match ListFrom(file, magic, version)
        case None => r == Crash
        case Some(es) => list.entries == es && r == Count(|es|)
      ensures fresh(list.links - old(list.links))
    {
      hide PqFile.Load;
      out := [];
      var first := list.First();
      if first == list.head {
        var loaded := FromFile(file);
        if loaded.Crash? {
          return Crash, [];
        }
        if loaded.Count? {
          var es := Reverse(PqFile.Load(file.bytes, magic, version).es);
          assert es + [] == es;
        }
      }
      out := CopyOut();
      r := Count(|out|);
    }

    method CopyOut() returns (out: seq<Entry>)
      requires list.Valid()
      ensures out == list.entries
    {
      out := [];
      var link := list.First();
      while link != list.head
        invariant |out| <= |list.entries| && link == list.LinkAt(|out|)
        invariant link == list.head <==> |out| == |list.entries|
        invariant out == list.entries[..|out|]
        decreases |list.entries| - |out|
      {
        var e := list.nodes[link];
        link := list.Next(link, |out|);
        out := out + [e];
      }
    }

    // Replay the settings to the hardware, in list order, and go back to port 0.
    method Recover(file: StoredFile) returns (r: LoadResult)
      requires list.Valid()
      modifies `calls, list, list.links
      ensures list.Valid() && fresh(list.links - old(list.links))
      ensures r.Crash? ==> calls == old(calls)
      ensures r.Count? ==> calls == old(calls) + Recovery(list.entries)
      ensures old(list.entries) != [] ==> list.entries == old(list.entries) && r == Count(|list.entries|)
      ensures old(list.entries) == [] ==> match ListFrom(file, magic, version)
        case None => r == Crash
        case Some(es) => list.entries == es && r == Count(|es|)
    {
      hide ListFrom, Replay;
      var entries;
      r, entries := Load(file);
      if r.Crash? {
        return;
      }
      ReplayAll(entries);
    }

    method ReplayAll(entries: seq<Entry>)
      modifies `calls
      ensures calls == old(calls) + Recovery(entries)
    {
      hide Replay;
      var p := 0;
      NothingReplayed(calls);
      while p < |entries|
        invariant 0 <= p <= |entries|
        invariant calls == old(calls) + Replay(entries[..p])
      {
        var e := entries[p];
        OneMoreReplayed(old(calls), entries, p);
        calls := calls + [SwitchPort(e.key.port)];
        if e.key.kind == PQ_GAMMA_LUT {
          calls := calls + [Configure(Gamma, e.data)];
        } else if e.key.kind == PQ_COLOR_ENHANCE {
          calls := calls + [Configure(ColorEnhance, e.data)];
        } else if e.key.kind == PQ_COLOR_MATRIX_IN || e.key.kind == PQ_COLOR_MATRIX_OUT {
          calls := calls + [Configure(ColorMatrix, e.data)];
        } else if e.key.kind == PQ_FCM {
          calls := calls + [Configure(Fcm, e.data)];
        } else if e.key.kind == PQ_CDC {
          calls := calls + [Configure(Cdc, e.data)];
        }
        p := p + 1;
      }
      assert entries[..p] == entries;
      assert (old(calls) + Replay(entries)) + [SwitchPort(0)] == old(calls) + Recovery(entries);
      calls := calls + [SwitchPort(0)];
    }

    // CMD_SAVE_CONFIG: file the payload under the port in effect, the type and the
    // index it names, and store the whole list.
    method SaveConfig(port: int32, data: seq<byte>, ix: StoreIndex) returns (file: seq<byte>)
      requires list.Valid() && Inv(list.entries)
      requires CanStore(Save(list.entries, Entry(KeyOf(port, data, ix), data)))
      modifies list, list.links
      ensures list.Valid() && Inv(list.entries) && fresh(list.links - old(list.links))
      ensures list.entries == Save(old(list.entries), Entry(KeyOf(port, data, ix), data))
      ensures AsMap(list.entries) == old(AsMap(list.entries))[KeyOf(port, data, ix) := data]
      ensures file == FileBytes(magic, version, list.entries)
      ensures PqFile.Load(file, magic, version) == Found(list.entries)
    {
      hide Save, Inv, AsMap;
      SaveData(KeyOf(port, data, ix), data);
      file := ToFile();
      LoadOfStore(magic, version, list.entries, magic, version);
    }
  }

  // Save and store, restart, recover: what the next daemon asks of the hardware puts
  // every setting of a replayed type into effect, the new one included.
  method SaveAndRestart(daemon: PqData, port: int32, data: seq<byte>, ghost hw: Hardware, ix: StoreIndex)
      returns (next: PqData)
    requires daemon.list.Valid() && Kept(daemon.list.entries, ix)
    requires CanStore(Save(daemon.list.entries, Entry(KeyOf(port, data, ix), data)))
    modifies daemon.list, daemon.list.links
    ensures AsMap(next.list.entries) == old(AsMap(daemon.list.entries))[KeyOf(port, data, ix) := data]
    ensures Kept(next.list.entries, ix) && next.calls == Recovery(next.list.entries)
    ensures ApplyAll(hw, next.calls, ix) ==
      Hardware(0, hw.settings + Replayed(old(AsMap(daemon.list.entries))[KeyOf(port, data, ix) := data]))
  {
    ghost var es := Save(daemon.list.entries, Entry(KeyOf(port, data, ix), data));
    SaveOneKeeps(daemon.list.entries, Entry(KeyOf(port, data, ix), data), ix);
    var file := daemon.SaveConfig(port, data, ix);
    StoreThenLoad(es, daemon.magic, daemon.version);
    ReverseKeeps(es);
    ReverseItems(es);
    next := new PqData(daemon.magic, daemon.version);
    var r := next.Recover(Present(file));
    RecoveryInstallsMap(hw, Reverse(es), ix);
    assert [] + Recovery(next.list.entries) == Recovery(next.list.entries);
  }

  // The same for a payload by its bytes: a set call to the unit of its type, on its port.
  method SaveKindAndRestart(daemon: PqData, port: int32, kind: byte, body: seq<byte>,
                            ghost hw: Hardware, ix: StoreIndex)
      returns (next: PqData)
    requires daemon.list.Valid() && Kept(daemon.list.entries, ix)
    requires var data := [kind, 0, 0, 0] + body;
      CanStore(Save(daemon.list.entries, Entry(Key(port, kind, ix(kind, data)), data)))
    modifies daemon.list, daemon.list.links
    ensures var data := [kind, 0, 0, 0] + body;
      && (kind == 11 ==> (port, Gamma, data) in SetCalls(next.calls, 0))
      && (kind == 14 ==> (port, ColorEnhance, data) in SetCalls(next.calls, 0))
      && (kind == 15 || kind == 16 ==> (port, ColorMatrix, data) in SetCalls(next.calls, 0))
      && (kind == 17 ==> (port, Fcm, data) in SetCalls(next.calls, 0))
      && (kind == 19 ==> (port, Cdc, data) in SetCalls(next.calls, 0))
    ensures kind !in {11, 14, 15, 16, 17, 19} ==>
      forall slot: Slot | slot.key == Key(port, kind, ix(kind, [kind, 0, 0, 0] + body)) ::
        slot in ApplyAll(hw, next.calls, ix).settings <==> slot in hw.settings
  {
    var data := [kind, 0, 0, 0] + body;
    ghost var key := Key(port, kind, ix(kind, data));
    SmallWord(kind);
    FiledUnderFirstWord(port, kind, body, ix);
    ghost var m := AsMap(daemon.list.entries)[key := data];
    next := SaveAndRestart(daemon, port, data, hw, ix);
    ItemsAreEntries(next.list.entries, Entry(key, data));
    OneCallPerEntry(next.list.entries, 0);
    WantedOf(next.list.entries, Entry(key, data));
    forall slot: Slot | slot.key == key ensures slot in Replayed(m) <==> UnitOf(kind) == Some(slot.unit) {
      ReplayedAt(m, slot);
    }
  }

  lemma NothingReplayed(calls: seq<HwCall>)
    ensures calls == calls + Replay([])
  {
  }

  lemma OneMoreReplayed(calls: seq<HwCall>, es: seq<Entry>, p: nat)
    requires p < |es|
    ensures var before := calls + Replay(es[..p]);
      calls + Replay(es[..p + 1]) ==
        match UnitOf(es[p].key.kind)
        case None => before + [SwitchPort(es[p].key.port)]
        case Some(unit) => before + [SwitchPort(es[p].key.port)] + [Configure(unit, es[p].data)]
  {
    assert es[..p + 1] == es[..p] + [es[p]];
    ReplaySnoc(es[..p], es[p]);
  }

  // The writer's loop.
  lemma NextToWrite(file: seq<byte>, es: seq<Entry>, k: nat)
    requires k < |es| && forall e | e in es :: Storable(e)
    ensures es[k] in es && Storable(es[k])
    ensures file + EntriesBytes(es[k..]) == (file + EntryBytes(es[k])) + EntriesBytes(es[k + 1..])
  {
    assert es[k..][0] == es[k] && es[k..][1..] == es[k + 1..];
    hide EntryBytes;
    assert (file + EntryBytes(es[k])) + EntriesBytes(es[k + 1..])
        == file + (EntryBytes(es[k]) + EntriesBytes(es[k + 1..]));
  }

  lemma NothingToWrite(file: seq<byte>, es: seq<Entry>)
    ensures file + EntriesBytes(es[|es|..]) == file
  {
    assert es[|es|..] == [];
  }

  // The loader's loop, between two entries: `done` has been read and the file goes
  // on with s.
  lemma NothingRead(s: seq<byte>, count: int, list: seq<Entry>)
    ensures DecodeEntries(s, count) == Before([], DecodeEntries(s, count))
    ensures list == Reverse([]) + list
  {
  }

  lemma ReadBeyond(done: seq<Entry>, s: seq<byte>, count: int)
    requires count > 0 && NextEntry(s) == Beyond
    ensures Before(done, DecodeEntries(s, count)) == Fault
  {
  }

  lemma ReadAll(done: seq<Entry>, s: seq<byte>, count: int)
    requires count <= 0 || NextEntry(s) == NoMore
    ensures Before(done, DecodeEntries(s, count)) == Entries(done, s)
  {
    assert done + [] == done;
  }

  lemma ReadOne(done: seq<Entry>, s: seq<byte>, count: int, list: seq<Entry>)
    requires count > 0 && NextEntry(s).One?
    ensures var One(e, rest) := NextEntry(s);
      && Before(done, DecodeEntries(s, count)) == Before(done + [e], DecodeEntries(rest, count - 1))
      && [e] + (Reverse(done) + list) == Reverse(done + [e]) + list
  {
    var One(e, rest) := NextEntry(s);
    hide NextEntry, Reverse;
    ReverseSnoc(done, e);
    assert ([e] + Reverse(done)) + list == [e] + (Reverse(done) + list);
    BeforeOne(done, e, DecodeEntries(rest, count - 1));
  }

  lemma BeforeOne(done: seq<Entry>, e: Entry, d: Decoded)
    ensures Before(done, Before([e], d)) == Before(done + [e], d)
  {
    if d.Entries? {
      assert done + ([e] + d.es) == (done + [e]) + d.es;
    }
  }

  lemma ReverseSnoc(es: seq<Entry>, e: Entry)
    ensures Reverse(es + [e]) == [e] + Reverse(es)
  {
  }
}

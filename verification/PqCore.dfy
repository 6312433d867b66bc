// Saving PQ settings and replaying them to the hardware after a restart.
module PqCore {
  import opened Bytes
  import opened Options
  import opened PqStore
  import opened PqFile

  // ----- The hardware, as far as recovery sees it -----

  datatype Unit = Gamma | ColorEnhance | ColorMatrix | Fcm | Cdc

  datatype HwCall = SwitchPort(port: int32) | Configure(unit: Unit, data: seq<byte>)

  const PQ_GAMMA_LUT: int32 := 11
  const PQ_COLOR_ENHANCE: int32 := 14
  const PQ_COLOR_MATRIX_IN: int32 := 15
  const PQ_COLOR_MATRIX_OUT: int32 := 16
  const PQ_FCM: int32 := 17
  const PQ_CDC: int32 := 19

  // The unit that settings of a type are replayed to, if any.
  function UnitOf(kind: int32): Option<Unit> {
    if kind == PQ_GAMMA_LUT then Some(Gamma)
    else if kind == PQ_COLOR_ENHANCE then Some(ColorEnhance)
    else if kind == PQ_COLOR_MATRIX_IN || kind == PQ_COLOR_MATRIX_OUT then Some(ColorMatrix)
    else if kind == PQ_FCM then Some(Fcm)
    else if kind == PQ_CDC then Some(Cdc)
    else None
  }

  // A place in the hardware: a unit, and what it keeps apart.
  datatype Slot = Slot(unit: Unit, key: Key)

  datatype Hardware = Hardware(port: int32, settings: map<Slot, seq<byte>>)

  // get_packet_store_index: which of several sets of a type a payload is.
  type StoreIndex = (int32, seq<byte>) -> int32

  // A payload begins with its type.
  function IdOf(data: seq<byte>): int32 {
    if |data| < 4 then 0 else Word(data[..4])
  }

  function KeyOf(port: int32, data: seq<byte>, ix: StoreIndex): Key {
    Key(port, IdOf(data), ix(IdOf(data), data))
  }

  function Apply(hw: Hardware, call: HwCall, ix: StoreIndex): Hardware {
    match call
    case SwitchPort(port) => hw.(port := port)
    case Configure(unit, data) => hw.(settings := hw.settings[Slot(unit, KeyOf(hw.port, data, ix)) := data])
  }

  function ApplyAll(hw: Hardware, calls: seq<HwCall>, ix: StoreIndex): Hardware
    decreases |calls|
  {
    if calls == [] then hw else ApplyAll(Apply(hw, calls[0], ix), calls[1..], ix)
  }

  lemma {:induction false} ApplyInTwoParts(hw: Hardware, a: seq<HwCall>, b: seq<HwCall>, ix: StoreIndex)
    ensures ApplyAll(hw, a + b, ix) == ApplyAll(ApplyAll(hw, a, ix), b, ix)
    decreases |a|
  {
    if a == [] {
      assert a + b == b;
    } else {
      assert (a + b)[1..] == a[1..] + b;
      ApplyInTwoParts(Apply(hw, a[0], ix), a[1..], b, ix);
    }
  }

  // A payload that begins with a word is filed under it.
  lemma FiledUnderFirstWord(port: int32, kind: int32, body: seq<byte>, ix: StoreIndex)
    ensures KeyOf(port, WordBytes(kind) + body, ix) == Key(port, kind, ix(kind, WordBytes(kind) + body))
  {
    WordOfWordBytes(kind);
    assert (WordBytes(kind) + body)[..4] == WordBytes(kind);
    hide WordBytes, Word;
  }

  // ----- Replaying a list of settings -----

  function ReplayOne(e: Entry): seq<HwCall> {
    [SwitchPort(e.key.port)] +
    match UnitOf(e.key.kind)
    case None => []
    case Some(unit) => [Configure(unit, e.data)]
  }

  function Replay(es: seq<Entry>): seq<HwCall> {
    if es == [] then [] else ReplayOne(es[0]) + Replay(es[1..])
  }

  lemma {:induction false} ReplaySnoc(es: seq<Entry>, e: Entry)
    ensures Replay(es + [e]) == Replay(es) + ReplayOne(e)
  {
    if es == [] {
      assert es + [e] == [e] && Replay([e][1..]) == [];
    } else {
      assert (es + [e])[1..] == es[1..] + [e];
      ReplaySnoc(es[1..], e);
    }
  }

  // The settings recovery brings back: those of a type that is replayed, each in the
  // unit of its type.
  function Replayed(m: map<Key, seq<byte>>): map<Slot, seq<byte>> {
    map k | k in m && UnitOf(k.kind).Some? :: Slot(UnitOf(k.kind).value, k) := m[k]
  }

  // The entry is filed under the type and index its own payload names.
  predicate WellFiled(e: Entry, ix: StoreIndex) {
    e.key == KeyOf(e.key.port, e.data, ix)
  }

  lemma ReplayOneInstalls(hw: Hardware, e: Entry, ix: StoreIndex)
    requires WellFiled(e, ix)
    ensures ApplyAll(hw, ReplayOne(e), ix) == Hardware(e.key.port,
      match UnitOf(e.key.kind)
      case None => hw.settings
      case Some(unit) => hw.settings[Slot(unit, e.key) := e.data])
  {
    var c := ReplayOne(e);
    var hw1 := Apply(hw, c[0], ix);
    assert ApplyAll(hw, c, ix) == ApplyAll(hw1, c[1..], ix);
    if UnitOf(e.key.kind).Some? {
      assert c[1..][1..] == [];
      assert ApplyAll(hw1, c[1..], ix) == ApplyAll(Apply(hw1, c[1], ix), [], ix);
    } else {
      assert c[1..] == [];
    }
  }

  lemma AsMapCons(es: seq<Entry>)
    requires es != [] && Distinct(Keys(es))
    ensures Distinct(Keys(es[1..])) && es[0].key !in AsMap(es[1..])
    ensures AsMap(es) == AsMap(es[1..])[es[0].key := es[0].data]
  {
    var e, t := es[0], es[1..];
    KeysOfTail(es);
    FindIsLookup(t, e.key);
    var m, u := AsMap(es), AsMap(t)[e.key := e.data];
    hide AsMap, Keys;
    forall k | k in m || k in u ensures k in m && k in u && m[k] == u[k] {
      FindIsLookup(es, k);
      FindIsLookup(t, k);
    }
  }

  lemma KeysOfTail(es: seq<Entry>)
    requires es != [] && Distinct(Keys(es))
    ensures Distinct(Keys(es[1..])) && Find(es[1..], es[0].key) == |es[1..]|
  {
    var t := es[1..];
    assert forall i | 0 <= i < |t| :: Keys(t)[i] == Keys(es)[i + 1];
    assert forall i | 0 <= i < |t| :: t[i].key == Keys(es)[i + 1] && Keys(es)[0] == es[0].key;
  }

  // Replaying a list puts exactly its settings of replayed types into effect, each
  // on its own port; the order of the list does not matter.
  lemma {:induction false} ReplayInstallsMap(hw: Hardware, es: seq<Entry>, ix: StoreIndex)
    requires Distinct(Keys(es)) && forall e | e in es :: WellFiled(e, ix)
    ensures ApplyAll(hw, Replay(es), ix).settings == hw.settings + Replayed(AsMap(es))
    decreases |es|
  {
    if es == [] {
      assert hw.settings + Replayed(AsMap(es)) == hw.settings;
    } else {
      var e, t := es[0], es[1..];
      assert WellFiled(e, ix);
      AsMapCons(es);
      ApplyInTwoParts(hw, ReplayOne(e), Replay(t), ix);
      ReplayOneInstalls(hw, e, ix);
      var hw1 := ApplyAll(hw, ReplayOne(e), ix);
      ReplayInstallsMap(hw1, t, ix);
      ReplayedCons(hw.settings, AsMap(t), e);
    }
  }

  lemma ReplayedCons(settings: map<Slot, seq<byte>>, m: map<Key, seq<byte>>, e: Entry)
    requires e.key !in m
    ensures settings + Replayed(m[e.key := e.data]) ==
      (match UnitOf(e.key.kind) case None => settings case Some(unit) => settings[Slot(unit, e.key) := e.data])
      + Replayed(m)
  {
    ReplayedOneMore(m, e);
    match UnitOf(e.key.kind) {
      case None =>
      case Some(unit) => AddLater(settings, Replayed(m), Slot(unit, e.key), e.data);
    }
  }

  lemma AddLater(a: map<Slot, seq<byte>>, b: map<Slot, seq<byte>>, s: Slot, data: seq<byte>)
    requires s !in b
    ensures a + b[s := data] == a[s := data] + b
  {
  }

  lemma ReplayedOneMore(m: map<Key, seq<byte>>, e: Entry)
    requires e.key !in m
    ensures match UnitOf(e.key.kind)
      case None => Replayed(m[e.key := e.data]) == Replayed(m)
      case Some(unit) => Slot(unit, e.key) !in Replayed(m)
                         && Replayed(m[e.key := e.data]) == Replayed(m)[Slot(unit, e.key) := e.data]
  {
    var r, r' := Replayed(m), Replayed(m[e.key := e.data]);
    forall s: Slot
      ensures s in r' <==> s in r || (s.key == e.key && UnitOf(e.key.kind) == Some(s.unit))
      ensures s in r' ==> r'[s] == if s.key == e.key then e.data else m[s.key]
      ensures s in r ==> s.key != e.key && r[s] == m[s.key]
    {
      ReplayedAt(m, s);
      ReplayedAt(m[e.key := e.data], s);
    }
    hide UnitOf, Replayed;
  }

  lemma ReplayedAt(m: map<Key, seq<byte>>, s: Slot)
    ensures s in Replayed(m) <==> s.key in m && UnitOf(s.key.kind) == Some(s.unit)
    ensures s in Replayed(m) ==> Replayed(m)[s] == m[s.key]
  {
    hide UnitOf;
  }

  lemma RecoveryIgnoresOrder(hw: Hardware, es: seq<Entry>, fs: seq<Entry>, ix: StoreIndex)
    requires Distinct(Keys(es)) && Distinct(Keys(fs))
    requires forall e :: e in es <==> e in fs
    requires forall e | e in es :: WellFiled(e, ix)
    ensures ApplyAll(hw, Recovery(es), ix) == ApplyAll(hw, Recovery(fs), ix)
  {
    SameEntriesSameMap(es, fs);
    RecoveryInstallsMap(hw, es, ix);
    RecoveryInstallsMap(hw, fs, ix);
  }

  // All the calls of a recovery from a loaded list.
  function Recovery(es: seq<Entry>): seq<HwCall> { Replay(es) + [SwitchPort(0)] }

  lemma RecoveryInstallsMap(hw: Hardware, es: seq<Entry>, ix: StoreIndex)
    requires Distinct(Keys(es)) && forall e | e in es :: WellFiled(e, ix)
    ensures ApplyAll(hw, Recovery(es), ix) == Hardware(0, hw.settings + Replayed(AsMap(es)))
  {
    ReplayInstallsMap(hw, es, ix);
    ApplyInTwoParts(hw, Replay(es), [SwitchPort(0)], ix);
    var hw1 := ApplyAll(hw, Replay(es), ix);
    assert [SwitchPort(0)][1..] == [];
    assert ApplyAll(hw1, [SwitchPort(0)], ix) == ApplyAll(Apply(hw1, SwitchPort(0), ix), [], ix);
  }

  // The set calls made, each with the port in effect.
  type SetCall = (int32, Unit, seq<byte>)

  function SetCalls(calls: seq<HwCall>, port: int32): seq<SetCall>
    decreases |calls|
  {
    if calls == [] then []
    else match calls[0]
      case SwitchPort(p) => SetCalls(calls[1..], p)
      case Configure(unit, data) => [(port, unit, data)] + SetCalls(calls[1..], port)
  }

  // One for every entry of a replayed type, on the entry's port.
  function Wanted(es: seq<Entry>): seq<SetCall> {
    if es == [] then []
    else match UnitOf(es[0].key.kind)
      case None => Wanted(es[1..])
      case Some(unit) => [(es[0].key.port, unit, es[0].data)] + Wanted(es[1..])
  }

  lemma {:induction false} OneCallPerEntry(es: seq<Entry>, port: int32)
    ensures SetCalls(Recovery(es), port) == Wanted(es)
  {
    if es == [] {
      assert Recovery(es)[1..] == [];
    } else {
      var e, rest := es[0], Recovery(es[1..]);
      OneCallPerEntry(es[1..], e.key.port);
      assert Recovery(es) == ReplayOne(e) + rest;
      match UnitOf(e.key.kind) {
        case None => assert Recovery(es)[1..] == rest;
        case Some(unit) => assert Recovery(es)[1..][1..] == rest;
      }
    }
  }

  lemma {:induction false} WantedOf(es: seq<Entry>, e: Entry)
    requires e in es
    ensures forall unit: Unit ::
      UnitOf(e.key.kind) == Some(unit) ==> (e.key.port, unit, e.data) in Wanted(es)
  {
    if e != es[0] {
      WantedOf(es[1..], e);
    }
  }

  // ----- Save, store, restart, recover -----

  // The payloads saved over a daemon's life, each with the port in effect.
  type Saves = seq<(int32, seq<byte>)>

  // The list a daemon ends up with, from the one it was left with.
  function SaveAll(from: seq<Entry>, saves: Saves, ix: StoreIndex): seq<Entry> {
    if saves == [] then from
    else
      var (port, data) := saves[|saves| - 1];
      Save(SaveAll(from, saves[..|saves| - 1], ix), Entry(KeyOf(port, data, ix), data))
  }

  // The last payload saved under each key.
  function LastSaved(from: map<Key, seq<byte>>, saves: Saves, ix: StoreIndex): map<Key, seq<byte>> {
    if saves == [] then from
    else
      var (port, data) := saves[|saves| - 1];
      LastSaved(from, saves[..|saves| - 1], ix)[KeyOf(port, data, ix) := data]
  }

  // What every list satisfies that saving and loading have made.
  ghost predicate Kept(es: seq<Entry>, ix: StoreIndex) {
    Inv(es) && forall e | e in es :: WellFiled(e, ix)
  }

  lemma {:induction false} SaveAllKeeps(from: seq<Entry>, saves: Saves, ix: StoreIndex)
    requires Kept(from, ix)
    ensures Kept(SaveAll(from, saves, ix), ix)
    ensures AsMap(SaveAll(from, saves, ix)) == LastSaved(AsMap(from), saves, ix)
  {
    if saves != [] {
      var before := saves[..|saves| - 1];
      var (port, data) := saves[|saves| - 1];
      var e := Entry(KeyOf(port, data, ix), data);
      SaveAllKeeps(from, before, ix);
      SaveOneKeeps(SaveAll(from, before, ix), e, ix);
      hide Kept, Save, AsMap;
    }
  }

  lemma SaveOneKeeps(es: seq<Entry>, e: Entry, ix: StoreIndex)
    requires Kept(es, ix) && WellFiled(e, ix)
    ensures Kept(Save(es, e), ix) && AsMap(Save(es, e)) == AsMap(es)[e.key := e.data]
  {
    SaveKeeps(es, e);
    SaveIsMapUpdate(es, e);
    hide Save, Inv, AsMap;
    forall x | x in Save(es, e) ensures WellFiled(x, ix) {
      SaveItems(es, e, x);
    }
  }

  // One life of a daemon and the start of the next: from whatever list it was left
  // with, and whatever it saved, the next one loads a list that holds the last payload
  // saved under each key, so lives can follow one another.
  lemma NextLife(from: seq<Entry>, saves: Saves, magic: int32, version: int32, ix: StoreIndex)
    requires Kept(from, ix) && CanStore(SaveAll(from, saves, ix))
    ensures var next := ListFrom(Present(FileBytes(magic, version, SaveAll(from, saves, ix))), magic, version);
      && next.Some? && Kept(next.value, ix) && CanStore(next.value)
      && AsMap(next.value) == LastSaved(AsMap(from), saves, ix)
  {
    var es := SaveAll(from, saves, ix);
    SaveAllKeeps(from, saves, ix);
    StoreThenLoad(es, magic, version);
    ReverseKeeps(es);
    ReverseItems(es);
    hide FileBytes, ListFrom, Inv, AsMap, SaveAll;
  }

  // Whatever was saved and in whatever order, after a store and a restart the
  // hardware holds, next to what it held before, the last payload saved under each
  // key of a replayed type in the unit of that type; and port 0 is in effect.
  lemma SaveStoreRestartRecover(from: seq<Entry>, saves: Saves, magic: int32, version: int32,
                                hw: Hardware, ix: StoreIndex)
    requires Kept(from, ix) && CanStore(SaveAll(from, saves, ix))
    ensures var next := ListFrom(Present(FileBytes(magic, version, SaveAll(from, saves, ix))), magic, version);
      && next.Some?
      && ApplyAll(hw, Recovery(next.value), ix)
         == Hardware(0, hw.settings + Replayed(LastSaved(AsMap(from), saves, ix)))
  {
    NextLife(from, saves, magic, version, ix);
    var next := ListFrom(Present(FileBytes(magic, version, SaveAll(from, saves, ix))), magic, version);
    RecoveryInstallsMap(hw, next.value, ix);
  }

  lemma ReverseItems(es: seq<Entry>)
    ensures forall e :: e in Reverse(es) <==> e in es
  {
    forall e | e in es ensures e in Reverse(es) {
      var i :| 0 <= i < |es| && es[i] == e;
      assert Reverse(es)[|es| - 1 - i] == e;
    }
  }
}

// The saved PQ settings as a list: one entry per (port, type, index), entries of
// one port and type side by side.
module PqStore {
  import opened Bytes

  datatype Key = Key(port: int32, kind: int32, index: int32)

  datatype Entry = Entry(key: Key, data: seq<byte>)

  function Group(e: Entry): (int32, int32) { (e.key.port, e.key.kind) }

  // Position of the first entry under a key; |es| if there is none.
  function Find(es: seq<Entry>, key: Key): (i: nat)
    ensures i <= |es|
    ensures i < |es| ==> es[i].key == key
    ensures forall j | 0 <= j < i :: es[j].key != key
  {
    if es == [] || es[0].key == key then 0 else 1 + Find(es[1..], key)
  }

  // Position of the first entry of e's group; |es| if there is none.
  function FindGroup(es: seq<Entry>, e: Entry): (i: nat)
    ensures i <= |es|
    ensures i < |es| ==> Group(es[i]) == Group(e)
    ensures forall j | 0 <= j < i :: Group(es[j]) != Group(e)
  {
    if es == [] || Group(es[0]) == Group(e) then 0 else 1 + FindGroup(es[1..], e)
  }

  function Delete(es: seq<Entry>, key: Key): seq<Entry> {
    var i := Find(es, key);
    if i < |es| then Without(es, i) else es
  }

  // Right behind the first entry of its group, or at the front.
  function InsertionPoint(es: seq<Entry>, e: Entry): (i: nat)
    ensures i <= |es|
  {
    var i := FindGroup(es, e);
    if i < |es| then i + 1 else 0
  }

  function Insert(es: seq<Entry>, e: Entry): seq<Entry> {
    With(es, InsertionPoint(es, e), e)
  }

  function Save(es: seq<Entry>, e: Entry): seq<Entry> {
    Insert(Delete(es, e.key), e)
  }

  // ----- Sequences without repeats, and with equal elements side by side -----

  ghost predicate Distinct<T>(s: seq<T>) {
    forall i, j | 0 <= i < j < |s| :: s[i] != s[j]
  }

  ghost predicate SideBySide<T>(s: seq<T>) {
    forall i, j, k | 0 <= i < j < k < |s| && s[i] == s[k] :: s[i] == s[j]
  }

  function Without<T>(s: seq<T>, n: nat): (t: seq<T>)
    requires n < |s|
    ensures |t| == |s| - 1 && forall i | 0 <= i < |t| :: t[i] == s[if i < n then i else i + 1]
  {
    s[..n] + s[n + 1..]
  }

  function With<T>(s: seq<T>, n: nat, x: T): (t: seq<T>)
    requires n <= |s|
    ensures |t| == |s| + 1 && t[n] == x
    ensures forall i | 0 <= i < |t| && i != n :: t[i] == s[if i < n then i else i - 1]
  {
    s[..n] + [x] + s[n..]
  }

  function Skip(i: nat, n: nat): nat { if i < n then i else i + 1 }

  lemma WithoutKeeps<T>(s: seq<T>, n: nat)
    requires n < |s|
    ensures Distinct(s) ==> Distinct(Without(s, n)) && s[n] !in Without(s, n)
    ensures SideBySide(s) ==> SideBySide(Without(s, n))
  {
    var t := Without(s, n);
    assert forall i | 0 <= i < |t| :: t[i] == s[Skip(i, n)];
  }

  lemma WithKeepsDistinct<T>(s: seq<T>, n: nat, x: T)
    requires n <= |s| && Distinct(s) && x !in s
    ensures Distinct(With(s, n, x))
  {
  }

  // Putting x right behind the first x, or at the front when there is none.
  lemma WithKeepsSideBySide<T>(s: seq<T>, n: nat, x: T)
    requires n <= |s| && SideBySide(s)
    requires if n == 0 then x !in s else s[n - 1] == x && forall i | 0 <= i < n - 1 :: s[i] != x
    ensures SideBySide(With(s, n, x))
  {
    var t := With(s, n, x);
    forall i, j, k | 0 <= i < j < k < |t| && t[i] == t[k] ensures t[i] == t[j] {
      var b := (m: nat) => if m < n then m else m - 1;
      if k == n {
      } else if i == n {
        assert t[k] == s[k - 1];
      } else if j == n {
        assert t[i] == s[i] && t[k] == s[k - 1];
      } else {
        assert t[i] == s[b(i)] && t[j] == s[b(j)] && t[k] == s[b(k)];
      }
    }
  }

  // ----- What every reachable list satisfies -----

  function Keys(es: seq<Entry>): (ks: seq<Key>)
    ensures |ks| == |es| && forall i | 0 <= i < |es| :: ks[i] == es[i].key
  {
    seq(|es|, i requires 0 <= i < |es| => es[i].key)
  }

  function Groups(es: seq<Entry>): (gs: seq<(int32, int32)>)
    ensures |gs| == |es| && forall i | 0 <= i < |es| :: gs[i] == Group(es[i])
  {
    seq(|es|, i requires 0 <= i < |es| => Group(es[i]))
  }

  ghost predicate Inv(es: seq<Entry>) {
    Distinct(Keys(es)) && SideBySide(Groups(es))
  }

  lemma DeleteKeeps(es: seq<Entry>, key: Key)
    requires Inv(es)
    ensures Inv(Delete(es, key)) && key !in Keys(Delete(es, key))
  {
    var n := Find(es, key);
    if n < |es| {
      WithoutKeeps(Keys(es), n);
      WithoutKeeps(Groups(es), n);
      assert Keys(Without(es, n)) == Without(Keys(es), n);
      assert Groups(Without(es, n)) == Without(Groups(es), n);
    }
  }

  lemma InsertKeeps(es: seq<Entry>, e: Entry)
    requires Inv(es) && e.key !in Keys(es)
    ensures Inv(Insert(es, e))
  {
    var n := InsertionPoint(es, e);
    WithKeepsDistinct(Keys(es), n, e.key);
    WithKeepsSideBySide(Groups(es), n, Group(e));
    assert Keys(Insert(es, e)) == With(Keys(es), n, e.key);
    assert Groups(Insert(es, e)) == With(Groups(es), n, Group(e));
  }

  // In plain terms: an entry goes right behind the first one of its port and type, the
  // k-th, or to the front if there is none.
  lemma InsertMeans(es: seq<Entry>, e: Entry, k: nat)
    requires k <= |es|
    requires forall i | 0 <= i < k :: es[i].key.port != e.key.port || es[i].key.kind != e.key.kind
    requires k < |es| ==> es[k].key.port == e.key.port && es[k].key.kind == e.key.kind
    ensures Insert(es, e) == if k == |es| then [e] + es else es[..k + 1] + [e] + es[k + 1..]
  {
    assert k < |es| ==> Group(es[k]) == Group(e);
    assert forall i | 0 <= i < k :: Group(es[i]) != Group(e);
    assert FindGroup(es, e) == k;
    assert k == |es| ==> es[..0] + [e] + es[0..] == [e] + es;
  }

  // In plain terms: no two entries have the same port, type and index, and between two of
  // one port and type there is no other.
  lemma InvMeans(es: seq<Entry>)
    requires Inv(es)
    ensures forall i, j | 0 <= i < j < |es| :: es[i].key != es[j].key
    ensures forall i, j, k {:trigger es[i], es[j], es[k]} | 0 <= i < j < k < |es|
      && es[i].key.port == es[k].key.port && es[i].key.kind == es[k].key.kind ::
      es[j].key.port == es[i].key.port && es[j].key.kind == es[i].key.kind
  {
    assert forall i | 0 <= i < |es| :: Keys(es)[i] == es[i].key;
    forall i, j, k | 0 <= i < j < k < |es|
      && es[i].key.port == es[k].key.port && es[i].key.kind == es[k].key.kind
      ensures es[j].key.port == es[i].key.port && es[j].key.kind == es[i].key.kind
    {
      assert Groups(es)[i] == Groups(es)[k];
      assert Groups(es)[i] == Groups(es)[j];
    }
  }

  lemma SaveKeeps(es: seq<Entry>, e: Entry)
    requires Inv(es)
    ensures Inv(Save(es, e))
  {
    DeleteKeeps(es, e.key);
    InsertKeeps(Delete(es, e.key), e);
  }

  // ----- The list as a keyed store -----

  function AsMap(es: seq<Entry>): (m: map<Key, seq<byte>>)
    ensures forall k | k in m :: Find(es, k) < |es| && m[k] == es[Find(es, k)].data
    ensures forall i | 0 <= i < |es| :: es[i].key in m
  {
    map i | 0 <= i < |es| :: es[i].key := es[Find(es, es[i].key)].data
  }

  // A lookup is a map lookup.
  lemma FindIsLookup(es: seq<Entry>, key: Key)
    ensures key in AsMap(es) <==> Find(es, key) < |es|
    ensures key in AsMap(es) ==> AsMap(es)[key] == es[Find(es, key)].data
  {
  }

  lemma {:induction false} FindUnique(es: seq<Entry>, i: nat)
    requires Distinct(Keys(es)) && i < |es|
    ensures Find(es, es[i].key) == i
  {
    assert Keys(es)[Find(es, es[i].key)] == Keys(es)[i];
  }

  // With unique keys the map's items are the entries, wherever they stand.
  lemma ItemsAreEntries(es: seq<Entry>, e: Entry)
    requires Distinct(Keys(es))
    ensures e in es <==> e.key in AsMap(es) && AsMap(es)[e.key] == e.data
  {
    if e in es {
      var i :| 0 <= i < |es| && es[i] == e;
      FindUnique(es, i);
    }
  }

  lemma SameEntriesSameMap(es: seq<Entry>, fs: seq<Entry>)
    requires Distinct(Keys(es)) && Distinct(Keys(fs))
    requires forall e :: e in es <==> e in fs
    ensures AsMap(es) == AsMap(fs)
  {
    forall k | k in AsMap(es) || k in AsMap(fs)
      ensures k in AsMap(es) && k in AsMap(fs) && AsMap(es)[k] == AsMap(fs)[k]
    {
      var e := if k in AsMap(es) then Entry(k, AsMap(es)[k]) else Entry(k, AsMap(fs)[k]);
      ItemsAreEntries(es, e);
      ItemsAreEntries(fs, e);
    }
  }

  lemma WithItems<T>(s: seq<T>, n: nat, x: T, y: T)
    requires n <= |s|
    ensures y in With(s, n, x) <==> y == x || y in s
  {
    if y in s {
      var i :| 0 <= i < |s| && s[i] == y;
      assert With(s, n, x)[Skip(i, n)] == y;
    }
  }

  lemma WithoutItems<T>(s: seq<T>, n: nat, y: T)
    requires n < |s|
    ensures y in Without(s, n) ==> y in s
    ensures y in s && y != s[n] ==> y in Without(s, n)
  {
    if y in s && y != s[n] {
      var i :| 0 <= i < |s| && s[i] == y;
      assert Without(s, n)[if i < n then i else i - 1] == y;
    }
  }

  lemma DeleteItems(es: seq<Entry>, key: Key, e: Entry)
    requires Inv(es)
    ensures e in Delete(es, key) <==> e in es && e.key != key
  {
    var d, n := Delete(es, key), Find(es, key);
    DeleteKeeps(es, key);
    if n < |es| {
      WithoutItems(es, n, e);
    }
    if e in d {
      var i :| 0 <= i < |d| && d[i] == e;
      assert Keys(d)[i] == e.key;
    }
  }

  lemma SaveItems(es: seq<Entry>, e: Entry, x: Entry)
    requires Inv(es)
    ensures x in Save(es, e) <==> x == e || (x in es && x.key != e.key)
  {
    var d := Delete(es, e.key);
    DeleteItems(es, e.key, x);
    WithItems(d, InsertionPoint(d, e), e, x);
  }

  lemma SaveMapAt(es: seq<Entry>, e: Entry, k: Key, data: seq<byte>)
    requires Inv(es)
    ensures k in AsMap(Save(es, e)) && AsMap(Save(es, e))[k] == data <==>
            if k == e.key then data == e.data else k in AsMap(es) && AsMap(es)[k] == data
  {
    SaveKeeps(es, e);
    SaveItems(es, e, Entry(k, data));
    ItemsAreEntries(Save(es, e), Entry(k, data));
    ItemsAreEntries(es, Entry(k, data));
  }

  // Saving updates the map at one key.
  lemma SaveIsMapUpdate(es: seq<Entry>, e: Entry)
    requires Inv(es)
    ensures AsMap(Save(es, e)) == AsMap(es)[e.key := e.data]
  {
    hide AsMap, Save, Inv;
    var m, u := AsMap(Save(es, e)), AsMap(es)[e.key := e.data];
    forall k | k in m || k in u ensures k in m && k in u && m[k] == u[k] {
      SaveMapAt(es, e, k, if k in m then m[k] else u[k]);
    }
  }

  // ----- Order -----

  function Reverse<T>(s: seq<T>): (t: seq<T>)
    ensures |t| == |s| && forall i | 0 <= i < |s| :: t[i] == s[|s| - 1 - i]
  {
    seq(|s|, i requires 0 <= i < |s| => s[|s| - 1 - i])
  }

  lemma ReverseTwice<T>(s: seq<T>)
    ensures Reverse(Reverse(s)) == s
  {
  }

  // Reading the list backwards changes neither what it satisfies nor its map.
  lemma ReverseKeeps(es: seq<Entry>)
    requires Inv(es)
    ensures Inv(Reverse(es)) && AsMap(Reverse(es)) == AsMap(es)
  {
    ReverseSideBySide(Groups(es));
    assert Keys(Reverse(es)) == Reverse(Keys(es)) && Groups(Reverse(es)) == Reverse(Groups(es));
    forall e: Entry ensures e in es <==> e in Reverse(es) {
      if e in es {
        var i :| 0 <= i < |es| && es[i] == e;
        assert Reverse(es)[|es| - 1 - i] == e;
      }
    }
    SameEntriesSameMap(es, Reverse(es));
  }

  lemma ReverseSideBySide<T>(s: seq<T>)
    requires SideBySide(s)
    ensures SideBySide(Reverse(s))
  {
    var n := |s|;
    forall i, j, k | 0 <= i < j < k < n && Reverse(s)[i] == Reverse(s)[k]
      ensures Reverse(s)[i] == Reverse(s)[j]
    {
      assert s[n - 1 - k] == s[n - 1 - j];
    }
  }
}

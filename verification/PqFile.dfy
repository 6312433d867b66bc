// The file the PQ settings are stored in: a binary header and the entries one
// after another, as C structs of little-endian words.
module PqFile {
  import opened Bytes
  import opened Options
  import opened PqStore

  const ENTRY_HEADER: int32 := 0x5051_4852 // "PQHR"
  const FILE_HEADER_SIZE := 16  // header, magic, version, number of entries
  const ENTRY_HEADER_SIZE := 20 // header, port, type, index, size of the data
  const MAX_INT := 0x7fff_ffff

  // An entry that a C `int` can give the size of.
  predicate Storable(e: Entry) { |e.data| <= MAX_INT }

  // ----- Writing -----

  function EntryBytes(e: Entry): seq<byte>
    requires Storable(e)
  {
    WordBytes(ENTRY_HEADER) + WordBytes(e.key.port) + WordBytes(e.key.kind) + WordBytes(e.key.index)
    + WordBytes(|e.data|) + e.data
  }

  function EntriesBytes(es: seq<Entry>): seq<byte>
    requires forall e | e in es :: Storable(e)
  {
    if es == [] then [] else EntryBytes(es[0]) + EntriesBytes(es[1..])
  }

  function FileHeader(magic: int32, version: int32, count: int32): (h: seq<byte>)
    ensures |h| == FILE_HEADER_SIZE
  {
    WordBytes(ENTRY_HEADER) + WordBytes(magic) + WordBytes(version) + WordBytes(count)
  }

  function FileBytes(magic: int32, version: int32, es: seq<Entry>): seq<byte>
    requires |es| <= MAX_INT && forall e | e in es :: Storable(e)
  {
    FileHeader(magic, version, |es|) + EntriesBytes(es)
  }

  // ----- Reading -----

  // The word at offset i, if it lies within the file.
  function WordAt(s: seq<byte>, i: nat): int32
    requires i + 4 <= |s|
  {
    Word(s[i..i + 4])
  }

  // What stands at the front: an entry, no entry, or a read beyond the file.
  datatype Next = Beyond | NoMore | One(e: Entry, rest: seq<byte>)

  function NextEntry(s: seq<byte>): (r: Next)
    ensures r.One? ==> |r.rest| < |s|
  {
    if |s| < 4 then Beyond
    else if WordAt(s, 0) != ENTRY_HEADER then NoMore
    else if |s| < ENTRY_HEADER_SIZE then Beyond
    else
      var size := WordAt(s, 16);
      if size < 0 || |s| < ENTRY_HEADER_SIZE + size then Beyond
      else One(Entry(Key(WordAt(s, 4), WordAt(s, 8), WordAt(s, 12)),
                     s[ENTRY_HEADER_SIZE..ENTRY_HEADER_SIZE + size]),
               s[ENTRY_HEADER_SIZE + size..])
  }

  // What a pass over the entries finds: entries in file order and the bytes behind
  // them, or a read beyond the end of the file.
  datatype Decoded = Fault | Entries(es: seq<Entry>, behind: seq<byte>)

  function DecodeEntries(s: seq<byte>, count: int): Decoded
    decreases |s|
  {
    if count <= 0 then Entries([], s)
    else match NextEntry(s)
      case Beyond => Fault
      case NoMore => Entries([], s)
      case One(e, rest) => Before([e], DecodeEntries(rest, count - 1))
  }

  function Before(done: seq<Entry>, d: Decoded): Decoded {
    match d
    case Fault => Fault
    case Entries(es, behind) => Entries(done + es, behind)
  }

  // The fields of an entry are where the reader looks for them.
  lemma EntryFields(e: Entry, more: seq<byte>)
    requires Storable(e)
    ensures var s := EntryBytes(e) + more;
      && |s| == ENTRY_HEADER_SIZE + |e.data| + |more|
      && WordAt(s, 0) == ENTRY_HEADER && WordAt(s, 4) == e.key.port && WordAt(s, 8) == e.key.kind
      && WordAt(s, 12) == e.key.index && WordAt(s, 16) == |e.data|
      && s[ENTRY_HEADER_SIZE..ENTRY_HEADER_SIZE + |e.data|] == e.data
      && s[ENTRY_HEADER_SIZE + |e.data|..] == more
  {
    var s := EntryBytes(e) + more;
    WordOfWordBytes(ENTRY_HEADER);
    WordOfWordBytes(e.key.port);
    WordOfWordBytes(e.key.kind);
    WordOfWordBytes(e.key.index);
    WordOfWordBytes(|e.data|);
    hide WordBytes, Word;
    assert s[0..4] == WordBytes(ENTRY_HEADER);
    assert s[4..8] == WordBytes(e.key.port);
    assert s[8..12] == WordBytes(e.key.kind);
    assert s[12..16] == WordBytes(e.key.index);
    assert s[16..20] == WordBytes(|e.data|);
  }

  lemma DecodeFirst(e: Entry, more: seq<byte>, count: int)
    requires Storable(e) && count >= 1
    ensures DecodeEntries(EntryBytes(e) + more, count) == Before([e], DecodeEntries(more, count - 1))
  {
    NextIsFirst(e, more);
    hide NextEntry, EntryBytes;
  }

  lemma NextIsFirst(e: Entry, more: seq<byte>)
    requires Storable(e)
    ensures NextEntry(EntryBytes(e) + more) == One(e, more)
  {
    EntryFields(e, more);
    hide WordAt, EntryBytes;
  }

  // Reading back what was written yields the entries and consumes exactly the
  // bytes written.
  lemma {:induction false} DecodeOfEncode(es: seq<Entry>, more: seq<byte>)
    requires forall e | e in es :: Storable(e)
    ensures DecodeEntries(EntriesBytes(es) + more, |es|) == Entries(es, more)
  {
    hide NextEntry, DecodeEntries, EntriesBytes;
    if es == [] {
      NothingToRead(more, 0);
    } else {
      DecodeOfEncode(es[1..], more);
      FirstRead(es, more, |es|);
    }
  }

  // The first entry comes in front of what is read behind it.
  lemma FirstRead(es: seq<Entry>, more: seq<byte>, n: nat)
    requires es != [] && (forall e | e in es :: Storable(e)) && n >= 1
    requires DecodeEntries(EntriesBytes(es[1..]) + more, n - 1) == Entries(es[1..], more)
    ensures DecodeEntries(EntriesBytes(es) + more, n) == Entries(es, more)
  {
    FirstEntryBytes(es, more);
    hide DecodeEntries, EntriesBytes, EntryBytes;
    DecodeFirst(es[0], EntriesBytes(es[1..]) + more, n);
    assert [es[0]] + es[1..] == es;
  }

  lemma FirstEntryBytes(es: seq<Entry>, more: seq<byte>)
    requires es != [] && forall e | e in es :: Storable(e)
    ensures Storable(es[0])
    ensures EntriesBytes(es) + more == EntryBytes(es[0]) + (EntriesBytes(es[1..]) + more)
  {
    hide EntryBytes;
  }

  // A count that is too large does no harm: reading ends at the first word that is not
  // an entry's.
  lemma ReadingEndsAtOtherWord(es: seq<Entry>, more: seq<byte>, n: nat)
    requires (forall e | e in es :: Storable(e)) && n >= |es|
    requires |more| >= 4 && more[..4] != [0x52, 0x48, 0x51, 0x50]
    ensures DecodeEntries(EntriesBytes(es) + more, n) == Entries(es, more)
  {
    NoEntryAt(more);
    hide NextEntry, DecodeEntries, EntriesBytes;
    ReadingEnds(es, more, n);
  }

  lemma {:induction false} ReadingEnds(es: seq<Entry>, more: seq<byte>, n: nat)
    requires (forall e | e in es :: Storable(e)) && n >= |es| && NextEntry(more) == NoMore
    ensures DecodeEntries(EntriesBytes(es) + more, n) == Entries(es, more)
  {
    hide NextEntry, DecodeEntries, EntriesBytes;
    if es == [] {
      NothingToRead(more, n);
    } else {
      ReadingEnds(es[1..], more, n - 1);
      FirstRead(es, more, n);
    }
  }

  lemma NothingToRead(more: seq<byte>, n: nat)
    requires n == 0 || NextEntry(more) == NoMore
    ensures DecodeEntries(EntriesBytes([]) + more, n) == Entries([], more)
  {
    hide NextEntry;
    assert EntriesBytes([]) + more == more;
  }

  lemma NoEntryAt(s: seq<byte>)
    requires |s| >= 4 && s[..4] != [0x52, 0x48, 0x51, 0x50]
    ensures NextEntry(s) == NoMore
  {
    EntryWord();
    WordIsInjective(s[..4], [0x52, 0x48, 0x51, 0x50]);
    hide Word;
  }

  lemma EntryWord()
    ensures Word([0x52, 0x48, 0x51, 0x50]) == ENTRY_HEADER
    ensures WordBytes(ENTRY_HEADER) == [0x52, 0x48, 0x51, 0x50]
  {
  }

  // The bytes of a small number, as they stand in a file.
  lemma SmallWord(n: int32)
    requires 0 <= n < 256
    ensures WordBytes(n) == [n, 0, 0, 0]
  {
  }

  // An entry byte by byte, where its numbers are small.
  lemma EntryLayout(port: byte, kind: byte, index: byte, data: seq<byte>)
    requires |data| < 256
    ensures EntryBytes(Entry(Key(port, kind, index), data)) ==
      [0x52, 0x48, 0x51, 0x50, port, 0, 0, 0, kind, 0, 0, 0, index, 0, 0, 0, |data|, 0, 0, 0] + data
  {
    EntryWord();
    SmallWord(port);
    SmallWord(kind);
    SmallWord(index);
    SmallWord(|data|);
  }

  // What the loader makes of a file.
  datatype Loaded = Failed | Crashed | Found(es: seq<Entry>)

  function Load(file: seq<byte>, magic: int32, version: int32): Loaded {
    if |file| == 0 then Failed // there is nothing to map
    else if |file| < FILE_HEADER_SIZE then Crashed
    else if WordAt(file, 0) != ENTRY_HEADER then Failed
    else if WordAt(file, 4) != magic then Failed
    else if WordAt(file, 8) != version then Failed
    else match DecodeEntries(file[FILE_HEADER_SIZE..], WordAt(file, 12))
      case Fault => Crashed
      case Entries(es, _) => Found(es)
  }

  lemma HeaderFields(magic: int32, version: int32, count: int32, more: seq<byte>)
    ensures var s := FileHeader(magic, version, count) + more;
      && WordAt(s, 0) == ENTRY_HEADER && WordAt(s, 4) == magic && WordAt(s, 8) == version
      && WordAt(s, 12) == count && s[FILE_HEADER_SIZE..] == more
  {
    var s := FileHeader(magic, version, count) + more;
    WordOfWordBytes(ENTRY_HEADER);
    WordOfWordBytes(magic);
    WordOfWordBytes(version);
    WordOfWordBytes(count);
    hide WordBytes, Word;
    assert s[0..4] == WordBytes(ENTRY_HEADER) && s[4..8] == WordBytes(magic);
    assert s[8..12] == WordBytes(version) && s[12..16] == WordBytes(count);
  }

  // A file that does not begin as one is refused, or read past its end.
  lemma OtherFiles(file: seq<byte>, magic: int32, version: int32)
    ensures file == [] ==> Load(file, magic, version) == Failed
    ensures 0 < |file| < 16 ==> Load(file, magic, version) == Crashed
    ensures |file| >= 16 && file[..4] != [0x52, 0x48, 0x51, 0x50] ==> Load(file, magic, version) == Failed
    ensures |file| >= 16 && Word(file[4..8]) != magic ==> Load(file, magic, version) == Failed
    ensures |file| >= 16 && Word(file[8..12]) != version ==> Load(file, magic, version) == Failed
  {
    if |file| >= 16 {
      EntryWord();
      WordIsInjective(file[..4], [0x52, 0x48, 0x51, 0x50]);
      hide Word, DecodeEntries;
    }
  }

  // A stored list is found again by a daemon with the same magic and version, and
  // refused by every other one.
  lemma LoadOfStore(magic: int32, version: int32, es: seq<Entry>, magic': int32, version': int32)
    requires |es| <= MAX_INT && forall e | e in es :: Storable(e)
    ensures Load(FileBytes(magic, version, es), magic', version') ==
            if magic' == magic && version' == version then Found(es) else Failed
  {
    HeaderFields(magic, version, |es|, EntriesBytes(es));
    DecodeOfEncode(es, []);
    assert EntriesBytes(es) + [] == EntriesBytes(es);
    hide WordAt, FileHeader, DecodeEntries, EntriesBytes;
  }

  // ----- From one daemon to the next -----

  // The settings file: absent, or its bytes.
  datatype StoredFile = Absent | Present(bytes: seq<byte>)

  // The list a daemon that has none is left with by the loader: every entry read goes
  // to the front.  None stands for a read beyond the file.
  function ListFrom(file: StoredFile, magic: int32, version: int32): Option<seq<Entry>> {
    match file
    case Absent => Some([])
    case Present(bytes) =>
      match Load(bytes, magic, version)
      case Failed => Some([])
      case Crashed => None
      case Found(es) => Some(Reverse(es))
  }

  predicate CanStore(es: seq<Entry>) { |es| <= MAX_INT && forall e | e in es :: Storable(e) }

  // A restart turns the list round.
  lemma StoreThenLoad(es: seq<Entry>, magic: int32, version: int32)
    requires CanStore(es)
    ensures ListFrom(Present(FileBytes(magic, version, es)), magic, version) == Some(Reverse(es))
    ensures CanStore(Reverse(es))
  {
    LoadOfStore(magic, version, es, magic, version);
  }

  // A second restart turns it back.
  lemma TwoStoreLoadCycles(es: seq<Entry>, magic: int32, version: int32)
    requires CanStore(es)
    ensures var once := ListFrom(Present(FileBytes(magic, version, es)), magic, version);
      && once.Some? && CanStore(once.value)
      && ListFrom(Present(FileBytes(magic, version, once.value)), magic, version) == Some(es)
  {
    StoreThenLoad(es, magic, version);
    StoreThenLoad(Reverse(es), magic, version);
    ReverseTwice(es);
    hide FileBytes, Load, Reverse;
  }
}

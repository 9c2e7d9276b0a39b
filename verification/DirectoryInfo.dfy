/**
 * Directory listings in FILE_DIRECTORY_INFORMATION form: records chained by the distance to the
 * next one, written into guest memory, and the walk a title makes over them.
 */
module DirectoryInfo {

  import opened Wrappers

  type Byte = b: nat | b < 256
  type U32 = n: nat | n < 0x1_0000_0000
  type U64 = n: nat | n < 0x1_0000_0000_0000_0000

  const HeaderSize: nat := 0x40
  const AttributeNormal: U32 := 0x80
  const AttributeDirectory: U32 := 0x10

  datatype DirectoryEntry = DirectoryEntry(name: seq<Byte>, size: U64, directory: bool)

  // ---------------------------------------------------------------- words

  function Be32(v: U32): (bytes: seq<Byte>)
    ensures |bytes| == 4
  {
    [v / 0x100_0000, v / 0x1_0000 % 0x100, v / 0x100 % 0x100, v % 0x100]
  }

  function Be64(v: U64): (bytes: seq<Byte>)
    ensures |bytes| == 8
  {
    Be32(v / 0x1_0000_0000) + Be32(v % 0x1_0000_0000)
  }

  function FromBe32(bytes: seq<Byte>): U32
    requires |bytes| == 4
  {
    var (b0: int, b1: int, b2: int, b3: int) := (bytes[0], bytes[1], bytes[2], bytes[3]);
    b0 * 0x100_0000 + b1 * 0x1_0000 + b2 * 0x100 + b3
  }

  function FromBe64(bytes: seq<Byte>): U64
    requires |bytes| == 8
  {
    FromBe32(bytes[..4]) * 0x1_0000_0000 + FromBe32(bytes[4..])
  }

  lemma {:induction false} Be32RoundTrip(v: U32)
    ensures FromBe32(Be32(v)) == v
  {
    assert v == v / 0x100 * 0x100 + v % 0x100;
    assert v / 0x100 == v / 0x1_0000 * 0x100 + v / 0x100 % 0x100;
    assert v / 0x1_0000 == v / 0x100_0000 * 0x100 + v / 0x1_0000 % 0x100;
  }

  lemma {:induction false} Be64RoundTrip(v: U64)
    ensures FromBe64(Be64(v)) == v
  {
    var high: U32, low: U32 := v / 0x1_0000_0000, v % 0x1_0000_0000;
    Be32RoundTrip(high);
    Be32RoundTrip(low);
    assert Be64(v)[..4] == Be32(high) && Be64(v)[4..] == Be32(low);
  }

  // ---------------------------------------------------------------- records

  /** A record's size: the header and the name, rounded up to a multiple of eight. */
  function RecordSize(entry: DirectoryEntry): (size: nat)
    ensures size % 8 == 0
    ensures HeaderSize + |entry.name| <= size < HeaderSize + |entry.name| + 8
  {
    var raw := HeaderSize + |entry.name| + 7;
    raw - raw % 8
  }

  function Zeros(n: nat): (bytes: seq<Byte>)
    ensures |bytes| == n
  {
    seq<Byte>(n, _ => 0)
  }

  /** What one record is in memory. */
  function RecordBytes(entry: DirectoryEntry, last: bool): (bytes: seq<Byte>)
    requires RecordSize(entry) < 0x1_0000_0000
    ensures |bytes| == RecordSize(entry)
  {
    Be32(if last then 0 else RecordSize(entry)) + Be32(0) + Zeros(0x20)
    + Be64(entry.size) + Be64(entry.size)
    + Be32(if entry.directory then AttributeDirectory else AttributeNormal) + Be32(|entry.name|)
    + entry.name + Zeros(RecordSize(entry) - HeaderSize - |entry.name|)
  }

  /** Small enough that no 32-bit sum of a listing in this buffer wraps. */
  ghost predicate Listable(entries: seq<DirectoryEntry>, available: nat) {
    forall i :: 0 <= i < |entries| ==> RecordSize(entries[i]) + available < 0x1_0000_0000
  }

  function Total(entries: seq<DirectoryEntry>): nat
    decreases |entries|
  {
    if entries == [] then 0 else Total(entries[..|entries| - 1]) + RecordSize(entries[|entries| - 1])
  }

  /** How many entries fit, counted from the front until the first that does not. */
  function Fitting(entries: seq<DirectoryEntry>, needed: nat, available: nat): (n: nat)
    ensures n <= |entries|
    decreases |entries|
  {
    if entries == [] || needed + RecordSize(entries[0]) > available then 0
    else 1 + Fitting(entries[1..], needed + RecordSize(entries[0]), available)
  }

  lemma {:induction false} TotalPrepend(e: DirectoryEntry, rest: seq<DirectoryEntry>)
    ensures Total([e] + rest) == RecordSize(e) + Total(rest)
    decreases |rest|
  {
    var all := [e] + rest;
    if rest == [] {
      assert all[..0] == [];
    } else {
      assert all[..|all| - 1] == [e] + rest[..|rest| - 1];
      TotalPrepend(e, rest[..|rest| - 1]);
    }
  }

  lemma {:induction false} TotalOfMore(entries: seq<DirectoryEntry>, m: nat, n: nat)
    requires m <= n <= |entries|
    ensures Total(entries[..m]) <= Total(entries[..n])
    ensures m < n ==> Total(entries[..m]) < Total(entries[..n])
    decreases n - m
  {
    if m < n {
      TotalOfMore(entries, m, n - 1);
      assert entries[..n][..n - 1] == entries[..n - 1];
    }
  }

  /** A prefix fits exactly when it is no longer than Fitting says. */
  lemma {:induction false} FittingIsLongestPrefix(entries: seq<DirectoryEntry>, needed: nat, available: nat, n: nat)
    requires n <= |entries| && needed <= available
    ensures needed + Total(entries[..n]) <= available <==> n <= Fitting(entries, needed, available)
    decreases |entries|
  {
    if n > 0 {
      var e, rest := entries[0], entries[1..];
      assert entries[..n] == [e] + rest[..n - 1];
      TotalPrepend(e, rest[..n - 1]);
      if needed + RecordSize(e) <= available {
        FittingIsLongestPrefix(rest, needed + RecordSize(e), available, n - 1);
      }
    }
  }

  ghost predicate Recordable(entries: seq<DirectoryEntry>) {
    forall i :: 0 <= i < |entries| ==> RecordSize(entries[i]) < 0x1_0000_0000
  }

  function Records(entries: seq<DirectoryEntry>): (records: seq<seq<Byte>>)
    requires Recordable(entries)
    ensures |records| == |entries|
  {
    seq<seq<Byte>>(|entries|, i requires 0 <= i < |entries| => RecordBytes(entries[i], i + 1 == |entries|))
  }

  function Joined(parts: seq<seq<Byte>>): seq<Byte>
    decreases |parts|
  {
    if parts == [] then [] else Joined(parts[..|parts| - 1]) + parts[|parts| - 1]
  }

  /** The listing of these entries: records end to end, the last one marked as last. */
  function ListingBytes(entries: seq<DirectoryEntry>): seq<Byte>
    requires Recordable(entries)
  {
    Joined(Records(entries))
  }

  lemma {:induction false} JoinedSnoc(parts: seq<seq<Byte>>, i: nat)
    requires i < |parts|
    ensures Joined(parts[..i + 1]) == Joined(parts[..i]) + parts[i]
  {
    assert parts[..i + 1][..i] == parts[..i];
  }

  lemma {:induction false} JoinedPrepend(part: seq<Byte>, rest: seq<seq<Byte>>)
    ensures Joined([part] + rest) == part + Joined(rest)
    decreases |rest|
  {
    var all := [part] + rest;
    if rest == [] {
      assert all[..0] == [];
    } else {
      var n := |rest| - 1;
      assert all[..|all| - 1] == [part] + rest[..n];
      JoinedPrepend(part, rest[..n]);
      assert part + (Joined(rest[..n]) + rest[n]) == (part + Joined(rest[..n])) + rest[n];
    }
  }

  lemma {:induction false} JoinedPrefix(parts: seq<seq<Byte>>, i: nat, n: nat)
    requires i <= n <= |parts|
    ensures |Joined(parts[..i])| <= |Joined(parts[..n])|
    ensures Joined(parts[..n])[..|Joined(parts[..i])|] == Joined(parts[..i])
    decreases n - i
  {
    if i < n {
      JoinedPrefix(parts, i, n - 1);
      JoinedSnoc(parts, n - 1);
    }
  }

  lemma {:induction false} JoinedLength(entries: seq<DirectoryEntry>, i: nat)
    requires Recordable(entries) && i <= |entries|
    ensures |Joined(Records(entries)[..i])| == Total(entries[..i])
  {
    if i > 0 {
      JoinedLength(entries, i - 1);
      JoinedSnoc(Records(entries), i - 1);
      TotalStep(entries, i - 1);
      RecordLength(entries, i - 1);
    }
  }

  lemma {:induction false} RecordLength(entries: seq<DirectoryEntry>, i: nat)
    requires Recordable(entries) && i < |entries|
    ensures |Records(entries)[i]| == RecordSize(entries[i])
  {}

  // ---------------------------------------------------------------- the walk

  function Decoded(bytes: seq<Byte>): Option<DirectoryEntry>
    requires |bytes| >= HeaderSize
  {
    var length := FromBe32(bytes[0x3C..0x40]);
    if HeaderSize + length > |bytes| then None
    else Some(DirectoryEntry(bytes[0x40..0x40 + length], FromBe64(bytes[0x28..0x30]),
                             FromBe32(bytes[0x38..0x3C]) == AttributeDirectory))
  }

  /** What a title finds: it reads a record, and follows its offset until an offset is zero. */
  function Walked(bytes: seq<Byte>): Option<seq<DirectoryEntry>>
    decreases |bytes|
  {
    if |bytes| < HeaderSize then None
    else
      var entry, next := Decoded(bytes), FromBe32(bytes[..4]);
      if entry.None? then None
      else if next == 0 then Some([entry.value])
      else if next > |bytes| then None
      else
        var rest := Walked(bytes[next..]);
        if rest.None? then None else Some([entry.value] + rest.value)
  }

  lemma {:induction false} RecordFields(entry: DirectoryEntry, last: bool, rest: seq<Byte>)
    requires RecordSize(entry) < 0x1_0000_0000
    ensures var bytes := RecordBytes(entry, last) + rest;
            && bytes[..4] == Be32(if last then 0 else RecordSize(entry))
            && bytes[0x28..0x30] == Be64(entry.size)
            && bytes[0x38..0x3C] == Be32(if entry.directory then AttributeDirectory else AttributeNormal)
            && bytes[0x3C..0x40] == Be32(|entry.name|)
            && bytes[0x40..0x40 + |entry.name|] == entry.name
            && bytes[RecordSize(entry)..] == rest
  {}

  /** The rest of a record: a file index and four times of zero, the size again as what is allocated, and zeros behind the name. */
  lemma {:induction false} RecordRest(entry: DirectoryEntry, last: bool)
    requires RecordSize(entry) < 0x1_0000_0000
    ensures var bytes := RecordBytes(entry, last);
            && (forall i :: 4 <= i < 0x28 ==> bytes[i] == 0)
            && bytes[0x30..0x38] == Be64(entry.size)
            && bytes[0x38..0x3C] == Be32(if entry.directory then 0x10 else 0x80)
            && (forall i :: 0x40 + |entry.name| <= i < |bytes| ==> bytes[i] == 0)
  {
    assert RecordBytes(entry, last)[4..8] == Be32(0);
    assert forall i :: 0 <= i < 4 ==> Be32(0)[i] == 0 && RecordBytes(entry, last)[4 + i] == Be32(0)[i];
  }

  lemma {:induction false} RecordDecodes(entry: DirectoryEntry, last: bool, rest: seq<Byte>)
    requires RecordSize(entry) < 0x1_0000_0000
    ensures Decoded(RecordBytes(entry, last) + rest) == Some(entry)
    ensures FromBe32((RecordBytes(entry, last) + rest)[..4]) == if last then 0 else RecordSize(entry)
  {
    RecordFields(entry, last, rest);
    Be32RoundTrip(if last then 0 else RecordSize(entry));
    Be32RoundTrip(|entry.name|);
    Be32RoundTrip(if entry.directory then AttributeDirectory else AttributeNormal);
    Be64RoundTrip(entry.size);
  }

  lemma {:induction false} ListingPrepend(entries: seq<DirectoryEntry>)
    requires Recordable(entries) && entries != []
    ensures ListingBytes(entries) == RecordBytes(entries[0], |entries| == 1) + ListingBytes(entries[1..])
  {
    var records := Records(entries);
    assert records == [records[0]] + Records(entries[1..]);
    JoinedPrepend(records[0], Records(entries[1..]));
  }

  /** The bytes read as this entry, followed by an offset of next. */
  predicate Reads(bytes: seq<Byte>, entry: DirectoryEntry, next: nat) {
    |bytes| >= HeaderSize && Decoded(bytes) == Some(entry) && FromBe32(bytes[..4]) == next
  }

  /** The listing's first record, as the walk meets it. */
  lemma {:induction false} FirstRecord(entries: seq<DirectoryEntry>, rest: seq<Byte>) returns (record: seq<Byte>)
    requires Recordable(entries) && entries != []
    ensures ListingBytes(entries) + rest == record + (ListingBytes(entries[1..]) + rest)
    ensures |record| == RecordSize(entries[0])
    ensures Reads(record + (ListingBytes(entries[1..]) + rest), entries[0], if |entries| == 1 then 0 else |record|)
  {
    record := RecordBytes(entries[0], |entries| == 1);
    ListingPrepend(entries);
    Reassociate(record, ListingBytes(entries[1..]), rest);
    RecordDecodes(entries[0], |entries| == 1, ListingBytes(entries[1..]) + rest);
  }

  lemma {:induction false} WalkStep(record: seq<Byte>, more: seq<Byte>, entries: seq<DirectoryEntry>)
    requires entries != [] && Reads(record + more, entries[0], |record|) && |record| > 0
    requires Walked(more) == Some(entries[1..])
    ensures Walked(record + more) == Some(entries)
  {
    assert (record + more)[|record|..] == more;
    assert entries == [entries[0]] + entries[1..];
  }

  lemma {:induction false} WalkStops(bytes: seq<Byte>, entries: seq<DirectoryEntry>)
    requires |entries| == 1 && Reads(bytes, entries[0], 0)
    ensures Walked(bytes) == Some(entries)
  {
    assert entries == [entries[0]];
  }

  /** Walking a listing finds exactly the entries it was made from, whatever lies behind it. */
  lemma {:induction false} WalkFindsEntries(entries: seq<DirectoryEntry>, rest: seq<Byte>)
    requires entries != [] && Recordable(entries)
    ensures Walked(ListingBytes(entries) + rest) == Some(entries)
    decreases |entries|
  {
    var record := FirstRecord(entries, rest);
    var more := ListingBytes(entries[1..]) + rest;
    if |entries| > 1 {
      WalkFindsEntries(entries[1..], rest);
      WalkStep(record, more, entries);
    } else {
      WalkStops(record + more, entries);
    }
  }

  lemma {:induction false} Reassociate(a: seq<Byte>, b: seq<Byte>, c: seq<Byte>)
    ensures (a + b) + c == a + (b + c)
  {}

  lemma {:induction false} TotalOfWholes(entries: seq<DirectoryEntry>)
    ensures Total(entries) % 8 == 0
    decreases |entries|
  {
    if entries != [] {
      var front, last := Total(entries[..|entries| - 1]), RecordSize(entries[|entries| - 1]);
      TotalOfWholes(entries[..|entries| - 1]);
      assert Total(entries) == front + last;
      SumOfWholes(front, last);
    }
  }

  lemma {:induction false} SumOfWholes(a: nat, b: nat)
    requires a % 8 == 0 && b % 8 == 0
    ensures (a + b) % 8 == 0
  {}

  lemma {:induction false} TotalStep(entries: seq<DirectoryEntry>, i: nat)
    requires i < |entries|
    ensures Total(entries[..i + 1]) == Total(entries[..i]) + RecordSize(entries[i])
  {
    assert entries[..i + 1][..i] == entries[..i];
  }

  lemma {:induction false} ListingLength(entries: seq<DirectoryEntry>)
    requires Recordable(entries)
    ensures |ListingBytes(entries)| == Total(entries)
  {
    JoinedLength(entries, |entries|);
    assert Records(entries)[..|entries|] == Records(entries) && entries[..|entries|] == entries;
  }

  /** Record i lies at the sum of the sizes before it, on a multiple of eight, and ends where i + 1 starts. */
  lemma {:induction false} RecordsInPlace(entries: seq<DirectoryEntry>, i: nat)
    requires Recordable(entries) && i < |entries|
    ensures Total(entries[..i]) % 8 == 0
    ensures Total(entries[..i + 1]) == Total(entries[..i]) + RecordSize(entries[i])
    ensures Total(entries[..i + 1]) <= |ListingBytes(entries)| == Total(entries)
    ensures ListingBytes(entries)[Total(entries[..i])..Total(entries[..i + 1])]
         == RecordBytes(entries[i], i + 1 == |entries|)
  {
    var records := Records(entries);
    TotalOfWholes(entries[..i]);
    TotalStep(entries, i);
    JoinedLength(entries, i);
    JoinedLength(entries, i + 1);
    ListingLength(entries);
    JoinedSnoc(records, i);
    JoinedPrefix(records, i + 1, |records|);
    assert records[..|records|] == records;
    SlicePrefix(ListingBytes(entries), Joined(records[..i]), records[i]);
  }

  lemma {:induction false} SlicePrefix(all: seq<Byte>, front: seq<Byte>, next: seq<Byte>)
    requires |front| + |next| <= |all| && all[..|front| + |next|] == front + next
    ensures all[|front|..|front| + |next|] == next
  {
    assert all[|front|..|front| + |next|] == all[..|front| + |next|][|front|..];
  }

  // ---------------------------------------------------------------- the writer

  /** Memory with bytes stored at an offset, and nothing else changed. */
  function Stored(memory: seq<Byte>, at: nat, bytes: seq<Byte>): (after: seq<Byte>)
    requires at + |bytes| <= |memory|
    ensures |after| == |memory|
  {
    memory[..at] + bytes + memory[at + |bytes|..]
  }

  method StoreBE32(memory: array<Byte>, at: nat, v: U32)
    requires at + 4 <= memory.Length
    modifies memory
    ensures memory[..] == Stored(old(memory[..]), at, Be32(v))
  {
    memory[at] := v / 0x100_0000;
    memory[at + 1] := v / 0x1_0000 % 0x100;
    memory[at + 2] := v / 0x100 % 0x100;
    memory[at + 3] := v % 0x100;
  }

  method StoreBE64(memory: array<Byte>, at: nat, v: U64)
    requires at + 8 <= memory.Length
    modifies memory
    ensures memory[..] == Stored(old(memory[..]), at, Be64(v))
  {
    StoreBE32(memory, at, v / 0x1_0000_0000);
    StoreBE32(memory, at + 4, v % 0x1_0000_0000);
  }

  /** A record under construction: what has been stored, then zeros. */
  function Padded(done: seq<Byte>, size: nat): (bytes: seq<Byte>)
    requires |done| <= size
    ensures |bytes| == size
  {
    done + Zeros(size - |done|)
  }

  /** A later field stored into it, with zeros in between. */
  function Extended(done: seq<Byte>, at: nat, field: seq<Byte>): (bytes: seq<Byte>)
    requires |done| <= at
    ensures |bytes| == at + |field|
  {
    done + Zeros(at - |done|) + field
  }

  predicate Shows(memory: seq<Byte>, was: seq<Byte>, address: nat, size: nat, done: seq<Byte>) {
    |done| <= size && address + size <= |was| && memory == Stored(was, address, Padded(done, size))
  }

  lemma {:induction false} PaddedStored(done: seq<Byte>, size: nat, at: nat, field: seq<Byte>)
    requires |done| <= at && at + |field| <= size
    ensures Stored(Padded(done, size), at, field) == Padded(Extended(done, at, field), size)
  {}

  /** A store inside a stored block changes the block. */
  lemma {:induction false} StoredInside(memory: seq<Byte>, address: nat, block: seq<Byte>, at: nat, bytes: seq<Byte>)
    requires address + |block| <= |memory| && at + |bytes| <= |block|
    ensures Stored(Stored(memory, address, block), address + at, bytes)
         == Stored(memory, address, Stored(block, at, bytes))
  {}

  lemma {:induction false} FieldShows(before: seq<Byte>, now: seq<Byte>, was: seq<Byte>, address: nat, size: nat,
                                      done: seq<Byte>, at: nat, field: seq<Byte>)
    requires Shows(before, was, address, size, done) && |done| <= at && at + |field| <= size
    requires now == Stored(before, address + at, field)
    ensures Shows(now, was, address, size, Extended(done, at, field))
  {
    StoredInside(was, address, Padded(done, size), at, field);
    PaddedStored(done, size, at, field);
  }

  function Chained(entry: DirectoryEntry, last: bool): (bytes: seq<Byte>)
    requires RecordSize(entry) < 0x1_0000_0000
    ensures |bytes| == 8
  {
    Extended(Extended([], 0, Be32(if last then 0 else RecordSize(entry))), 4, Be32(0))
  }

  function Sized(entry: DirectoryEntry, last: bool): (bytes: seq<Byte>)
    requires RecordSize(entry) < 0x1_0000_0000
    ensures |bytes| == 0x38
  {
    Extended(Extended(Chained(entry, last), 0x28, Be64(entry.size)), 0x30, Be64(entry.size))
  }

  function Marked(entry: DirectoryEntry, last: bool): (bytes: seq<Byte>)
    requires RecordSize(entry) < 0x1_0000_0000
    ensures |bytes| == 0x40
  {
    Extended(Extended(Sized(entry, last), 0x38, Be32(if entry.directory then AttributeDirectory else AttributeNormal)),
             0x3C, Be32(|entry.name|))
  }

  lemma {:induction false} MarkedIsHeader(entry: DirectoryEntry, last: bool)
    requires RecordSize(entry) < 0x1_0000_0000
    ensures Padded(Extended(Marked(entry, last), 0x40, entry.name), RecordSize(entry)) == RecordBytes(entry, last)
  {}

  method Fill(memory: array<Byte>, at: nat, bytes: seq<Byte>)
    requires at + |bytes| <= memory.Length
    modifies memory
    ensures memory[..] == Stored(old(memory[..]), at, bytes)
  {
    forall k | 0 <= k < |bytes| {
      memory[at + k] := bytes[k];
    }
  }

  method StoreChain(memory: array<Byte>, address: nat, entry: DirectoryEntry, last: bool, ghost was: seq<Byte>)
    requires RecordSize(entry) < 0x1_0000_0000 && memory.Length == |was|
    requires Shows(memory[..], was, address, RecordSize(entry), [])
    modifies memory
    ensures Shows(memory[..], was, address, RecordSize(entry), Chained(entry, last))
  {
    ghost var size := RecordSize(entry);
    ghost var before := memory[..];
    var next := if last then 0 else RecordSize(entry);
    StoreBE32(memory, address, next);
    FieldShows(before, memory[..], was, address, size, [], 0, Be32(next));
    before := memory[..];
    StoreBE32(memory, address + 4, 0);
    FieldShows(before, memory[..], was, address, size, Extended([], 0, Be32(next)), 4, Be32(0));
  }

  method StoreSizes(memory: array<Byte>, address: nat, entry: DirectoryEntry, ghost last: bool, ghost was: seq<Byte>)
    requires RecordSize(entry) < 0x1_0000_0000 && memory.Length == |was|
    requires Shows(memory[..], was, address, RecordSize(entry), Chained(entry, last))
    modifies memory
    ensures Shows(memory[..], was, address, RecordSize(entry), Sized(entry, last))
  {
    ghost var size := RecordSize(entry);
    ghost var before := memory[..];
    StoreBE64(memory, address + 0x28, entry.size);
    FieldShows(before, memory[..], was, address, size, Chained(entry, last), 0x28, Be64(entry.size));
    before := memory[..];
    StoreBE64(memory, address + 0x30, entry.size);
    FieldShows(before, memory[..], was, address, size,
               Extended(Chained(entry, last), 0x28, Be64(entry.size)), 0x30, Be64(entry.size));
  }

  method StoreMarks(memory: array<Byte>, address: nat, entry: DirectoryEntry, ghost last: bool, ghost was: seq<Byte>)
    requires RecordSize(entry) < 0x1_0000_0000 && memory.Length == |was|
    requires Shows(memory[..], was, address, RecordSize(entry), Sized(entry, last))
    modifies memory
    ensures Shows(memory[..], was, address, RecordSize(entry), Marked(entry, last))
  {
    ghost var size := RecordSize(entry);
    ghost var before := memory[..];
    var attributes := if entry.directory then AttributeDirectory else AttributeNormal;
    StoreBE32(memory, address + 0x38, attributes);
    FieldShows(before, memory[..], was, address, size, Sized(entry, last), 0x38, Be32(attributes));
    before := memory[..];
    StoreBE32(memory, address + 0x3C, |entry.name|);
    FieldShows(before, memory[..], was, address, size,
               Extended(Sized(entry, last), 0x38, Be32(attributes)), 0x3C, Be32(|entry.name|));
  }

  method WriteDirectoryEntry(memory: array<Byte>, address: nat, available: nat, entry: DirectoryEntry, last: bool)
    returns (written: nat)
    requires address + available <= memory.Length && RecordSize(entry) < 0x1_0000_0000
    modifies memory
    ensures RecordSize(entry) > available ==> written == 0 && memory[..] == old(memory[..])
    ensures RecordSize(entry) <= available ==>
              && written == RecordSize(entry)
              && memory[..] == Stored(old(memory[..]), address, RecordBytes(entry, last))
  {
    var size := RecordSize(entry);
    if size > available {
      return 0;
    }
    ghost var was := memory[..];
    Fill(memory, address, Zeros(size));
    assert Padded([], size) == Zeros(size);
    StoreChain(memory, address, entry, last, was);
    StoreSizes(memory, address, entry, last, was);
    StoreMarks(memory, address, entry, last, was);
    ghost var before := memory[..];
    Fill(memory, address + 0x40, entry.name);
    FieldShows(before, memory[..], was, address, size, Marked(entry, last), 0x40, entry.name);
    MarkedIsHeader(entry, last);
    return size;
  }

  lemma {:induction false} StoredGrows(memory: seq<Byte>, at: nat, done: seq<Byte>, more: seq<Byte>)
    requires at + |done| + |more| <= |memory|
    ensures Stored(Stored(memory, at, done), at + |done|, more) == Stored(memory, at, done + more)
  {}

  method CountFitting(entries: seq<DirectoryEntry>, available: nat) returns (fitting: nat)
    ensures fitting == Fitting(entries, 0, available)
  {
    fitting := 0;
    var needed: nat := 0;
    for i := 0 to |entries|
      invariant fitting == i
      invariant fitting + Fitting(entries[i..], needed, available) == Fitting(entries, 0, available)
    {
      var size := RecordSize(entries[i]);
      assert entries[i..][0] == entries[i] && entries[i..][1..] == entries[i + 1..];
      if needed + size > available {
        break;
      }
      needed := needed + size;
      fitting := fitting + 1;
    }
  }

  /**
   * What a listing leaves: the longest prefix of the entries that fits is in memory as one chain of
   * records, the size is exact, no byte outside it has changed, and a walk finds those entries.
   */
  ghost predicate Listed(entries: seq<DirectoryEntry>, address: nat, available: nat,
                         was: seq<Byte>, now: seq<Byte>, offset: nat)
    requires Listable(entries, available)
  {
    var listed := entries[..Fitting(entries, 0, available)];
    && offset == |ListingBytes(listed)| <= available
    && address + offset <= |was|
    && now == Stored(was, address, ListingBytes(listed))
    && (listed != [] ==> Walked(now[address..]) == Some(listed))
  }

  lemma {:induction false} StoredIsListed(entries: seq<DirectoryEntry>, address: nat, available: nat,
                                          was: seq<Byte>, now: seq<Byte>)
    requires Listable(entries, available) && address + available <= |was|
    requires Total(entries[..Fitting(entries, 0, available)]) <= available
    requires |ListingBytes(entries[..Fitting(entries, 0, available)])| <= available
    requires now == Stored(was, address, ListingBytes(entries[..Fitting(entries, 0, available)]))
    ensures Listed(entries, address, available, was, now, |ListingBytes(entries[..Fitting(entries, 0, available)])|)
  {
    var listed := entries[..Fitting(entries, 0, available)];
    var bytes := ListingBytes(listed);
    StoredTail(was, address, bytes);
    if listed != [] {
      WalkFindsEntries(listed, was[address + |bytes|..]);
    }
  }

  lemma {:induction false} StoredTail(was: seq<Byte>, address: nat, bytes: seq<Byte>)
    requires address + |bytes| <= |was|
    ensures Stored(was, address, bytes)[address..] == bytes + was[address + |bytes|..]
  {}

  method WriteDirectoryListing(memory: array<Byte>, address: nat, available: nat, entries: seq<DirectoryEntry>)
    returns (offset: nat)
    requires address + available <= memory.Length && Listable(entries, available)
    modifies memory
    ensures Listed(entries, address, available, old(memory[..]), memory[..], offset)
  {
    var fitting := CountFitting(entries, available);
    FittingIsLongestPrefix(entries, 0, available, fitting);
    ghost var was := memory[..];
    offset := WriteRecords(memory, address, available, entries[..fitting]);
    StoredIsListed(entries, address, available, was, memory[..]);
  }

  method WriteRecords(memory: array<Byte>, address: nat, available: nat, listed: seq<DirectoryEntry>)
    returns (offset: nat)
    requires address + available <= memory.Length && Recordable(listed) && Total(listed) <= available
    modifies memory
    ensures offset == |ListingBytes(listed)| <= available
    ensures memory[..] == Stored(old(memory[..]), address, ListingBytes(listed))
  {
    ghost var was := memory[..];
    ghost var records := Records(listed);
    ListingLength(listed);
    assert records[..|records|] == records && listed[..|listed|] == listed;
    offset := 0;
    for i := 0 to |listed|
      invariant offset == Total(listed[..i]) <= available
      invariant Placed(memory[..], was, address, records[..i], offset)
    {
      TotalStep(listed, i);
      TotalOfMore(listed, i + 1, |listed|);
      var written := WriteNext(memory, address, available, listed, i, offset, was);
      offset := offset + written;
    }
  }

  /** One turn of the writing loop. A record that was counted always fits, so none is refused. */
  method WriteNext(memory: array<Byte>, address: nat, available: nat, listed: seq<DirectoryEntry>, i: nat, offset: nat,
                   ghost was: seq<Byte>)
    returns (written: nat)
    requires Recordable(listed) && i < |listed| && memory.Length == |was|
    requires offset + RecordSize(listed[i]) <= available && address + available <= memory.Length
    requires Placed(memory[..], was, address, Records(listed)[..i], offset)
    modifies memory
    ensures written == RecordSize(listed[i])
    ensures Placed(memory[..], was, address, Records(listed)[..i + 1], offset + written)
  {
    ghost var before := memory[..];
    written := WriteDirectoryEntry(memory, address + offset, available - offset, listed[i], i + 1 == |listed|);
    RecordLength(listed, i);
    PlacedSnoc(before, memory[..], was, address, Records(listed), i, offset);
  }

  /** The first records are in memory end to end, and nothing else has changed. */
  predicate Placed(memory: seq<Byte>, was: seq<Byte>, address: nat, parts: seq<seq<Byte>>, offset: nat) {
    && offset == |Joined(parts)| && address + offset <= |was|
    && memory == Stored(was, address, Joined(parts))
  }

  lemma {:induction false} PlacedSnoc(before: seq<Byte>, now: seq<Byte>, was: seq<Byte>, address: nat,
                                      parts: seq<seq<Byte>>, i: nat, offset: nat)
    requires i < |parts| && Placed(before, was, address, parts[..i], offset)
    requires address + offset + |parts[i]| <= |was|
    requires now == Stored(before, address + offset, parts[i])
    ensures Placed(now, was, address, parts[..i + 1], offset + |parts[i]|)
  {
    JoinedSnoc(parts, i);
    StoredGrows(was, address, Joined(parts[..i]), parts[i]);
  }
}

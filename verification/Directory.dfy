/** Abstractions: the directory blocks of HEXAFS, eleven 44-byte entries and a
    link to one more block, all under a checksum. */
module Directory {
  import opened Bytes
  import opened BlockCache
  import opened Store

  const MAX_ENTRIES := 11

  /** A C string argument: the bytes before its terminator. */
  type CStr = s: seq<byte> | forall i :: 0 <= i < |s| ==> s[i] != 0

  datatype Option<T> = None | Some(value: T)
  datatype Entry = Entry(name: CStr, obj: u32, kind: byte)

  /** Names are cut to 31 bytes when they are stored. */
  function Cut(name: CStr): (r: CStr)
    ensures |r| <= 31
  {
    if |name| <= 31 then name else name[..31]
  }

  /** Length of the string at offset o, never looking past max bytes. */
  function StrLen(s: seq<byte>, o: nat, max: nat): (n: nat)
    requires o + max <= |s|
    ensures n <= max
    ensures forall i :: o <= i < o + n ==> s[i] != 0
    ensures n < max ==> s[o + n] == 0
    decreases max
  {
    if max == 0 || s[o] == 0 then 0 else 1 + StrLen(s, o + 1, max - 1)
  }

  lemma {:induction false} StrLenIs(s: seq<byte>, o: nat, max: nat, n: nat)
    requires o + max <= |s| && n <= max
    requires forall i :: o <= i < o + n ==> s[i] != 0
    requires n < max ==> s[o + n] == 0
    ensures StrLen(s, o, max) == n
    decreases n
  {
    if n > 0 {
      StrLenIs(s, o + 1, max - 1, n - 1);
    }
  }

  function StrAt(s: seq<byte>, o: nat): CStr
    requires o + 32 <= |s|
  {
    s[o..o + StrLen(s, o, 31)]
  }

  /** The 32-byte field at o holds a terminated string. */
  predicate Terminated(s: seq<byte>, o: nat)
    requires o + 32 <= |s|
  {
    s[o + StrLen(s, o, 31)] == 0
  }

  lemma StrSame(s: seq<byte>, t: seq<byte>, o: nat)
    requires o + 32 <= |s| && o + 32 <= |t|
    requires forall i :: o <= i < o + 32 ==> s[i] == t[i]
    ensures StrAt(s, o) == StrAt(t, o) && Terminated(s, o) == Terminated(t, o)
  {
    hide StrLen;
    StrLenIs(t, o, 31, StrLen(s, o, 31));
  }

  /** strncpy-like store of a name into a 32-byte field. */
  function PutName(s: seq<byte>, o: nat, name: CStr): (r: seq<byte>)
    requires o + 32 <= |s|
    ensures |r| == |s|
  {
    Patch(s, o, Cut(name) + [0])
  }

  lemma PutNameReads(s: seq<byte>, o: nat, name: CStr)
    requires o + 32 <= |s|
    ensures var r := PutName(s, o, name);
            && StrAt(r, o) == Cut(name) && Terminated(r, o)
            && forall i :: 0 <= i < |s| && !(o <= i < o + 32) ==> r[i] == s[i]
  {
    hide StrLen;
    var r, n := PutName(s, o, name), Cut(name);
    assert r[o + |n|] == 0;
    forall i | o <= i < o + |n| ensures r[i] == n[i - o] {
    }
    StrLenIs(r, o, 31, |n|);
    assert r[o..o + |n|] == n;
  }

  /** The byte-by-byte comparison of a 32-byte field with a C string. */
  predicate FieldMatches(s: seq<byte>, o: nat, name: CStr, j: nat)
    requires o + 32 <= |s| && j <= 32
    decreases 32 - j
  {
    j == 32 ||
    var c: byte := if j < |name| then name[j] else 0;
    s[o + j] == c && (c == 0 || FieldMatches(s, o, name, j + 1))
  }

  /** On a terminated field the comparison decides string equality. */
  lemma FieldMatchIsEquality(s: seq<byte>, o: nat, name: CStr)
    requires o + 32 <= |s| && Terminated(s, o)
    ensures FieldMatches(s, o, name, 0) <==> StrAt(s, o) == name
  {
    hide StrLen, FieldMatches;
    FieldMatchFrom(s, o, name, 0);
    var n := StrLen(s, o, 31);
    if |name| == n && forall i :: 0 <= i < n ==> s[o + i] == name[i] {
      assert s[o..o + n] == name;
    }
    if StrAt(s, o) == name {
      forall i | 0 <= i < n ensures s[o + i] == name[i] {
        assert s[o..o + n][i] == s[o + i];
      }
    }
  }

  lemma {:induction false} FieldMatchFrom(s: seq<byte>, o: nat, name: CStr, j: nat)
    requires o + 32 <= |s| && Terminated(s, o)
    requires j <= StrLen(s, o, 31) && j <= |name|
    ensures FieldMatches(s, o, name, j) <==>
            |name| == StrLen(s, o, 31) && forall i :: j <= i < |name| ==> s[o + i] == name[i]
    decreases 32 - j
  {
    hide StrLen;
    var n := StrLen(s, o, 31);
    if j < n && j < |name| && s[o + j] == name[j] {
      FieldMatchFrom(s, o, name, j + 1);
    }
  }

  // ---- one directory block ------------------------------------------------

  function EntryOff(i: nat): nat { 12 + 44 * i }
  function DirCount(s: Sector): u32 { Get32(s, 4) }
  function DirNext(s: Sector): u32 { Get32(s, 496) }

  function EntryAt(s: Sector, i: nat): Entry
    requires i < MAX_ENTRIES
  {
    Entry(StrAt(s, EntryOff(i)), Get32(s, EntryOff(i) + 32), s[EntryOff(i) + 36])
  }

  function Entries(s: Sector): (es: seq<Entry>)
    requires DirCount(s) <= MAX_ENTRIES
    ensures |es| == DirCount(s)
    ensures forall i :: 0 <= i < |es| ==> es[i] == EntryAt(s, i)
  {
    seq(DirCount(s), i requires 0 <= i < DirCount(s) => EntryAt(s, i))
  }

  predicate IsDir(s: Sector) { Get32(s, 0) == ABSTRACT_MAGIC }

  predicate DirBlockOk(s: Sector) {
    && IsDir(s)
    && DirCount(s) <= MAX_ENTRIES
    && forall i :: 0 <= i < DirCount(s) ==> Terminated(s, EntryOff(i))
  }

  function EmptyDir(): Sector {
    Seal(Put32(ZERO_SECTOR, 0, ABSTRACT_MAGIC), 8)
  }

  lemma EmptyDirFields()
    ensures var s := EmptyDir();
            DirBlockOk(s) && DirCount(s) == 0 && DirNext(s) == 0 && Sealed(s, 8)
  {
    hide Hash, Get32, Put32, Le32;
    var z := Put32(ZERO_SECTOR, 0, ABSTRACT_MAGIC);
    PutGet(ZERO_SECTOR, 0, ABSTRACT_MAGIC);
    SealSeals(z, 8);
    SameWord(EmptyDir(), z, 0);
    SameWord(EmptyDir(), ZERO_SECTOR, 4);
    SameWord(EmptyDir(), ZERO_SECTOR, 496);
    ZeroWord(4);
    ZeroWord(496);
  }

  /** Append one entry to a block and refresh its checksum. */
  function PutEntry(s: Sector, name: CStr, obj: u32, kind: byte): Sector
    requires DirCount(s) < MAX_ENTRIES
  {
    var c := DirCount(s);
    var a := PutName(s, EntryOff(c), name);
    var b := Put32(a, EntryOff(c) + 32, obj)[EntryOff(c) + 36 := kind];
    Seal(Put32(b, 4, c + 1), 8)
  }

  lemma PutEntryAppends(s: Sector, name: CStr, obj: u32, kind: byte)
    requires DirBlockOk(s) && DirCount(s) < MAX_ENTRIES
    ensures var t := PutEntry(s, name, obj, kind);
            && DirBlockOk(t) && Sealed(t, 8) && DirNext(t) == DirNext(s)
            && Entries(t) == Entries(s) + [Entry(Cut(name), obj, kind)]
  {
    hide Hash, Get32, Put32, Le32, StrLen, StrAt, PutName, Terminated, Seal, Sealed;
    var c := DirCount(s);
    var o := EntryOff(c);
    var a := PutName(s, o, name);
    PutNameReads(s, o, name);
    var a1 := Put32(a, o + 32, obj);
    PutGet(a, o + 32, obj);
    var b := a1[o + 36 := kind];
    var b1 := Put32(b, 4, c + 1);
    PutGet(b, 4, c + 1);
    var t: Sector := Seal(b1, 8);
    SealSeals(b1, 8);
    assert t == PutEntry(s, name, obj, kind);
    assert forall i :: 12 <= i < 512 && !(o <= i < o + 37) ==> t[i] == s[i];
    SameWord(t, s, 0);
    SameWord(t, b1, 4);
    SameWord(t, s, 496);
    SameWord(t, a1, o + 32);
    StrSame(t, a, o);
    assert EntryAt(t, c) == Entry(Cut(name), obj, kind);
    forall i | 0 <= i < c ensures EntryAt(t, i) == EntryAt(s, i) && Terminated(t, EntryOff(i)) {
      assert EntryOff(i) + 44 <= o;
      StrSame(t, s, EntryOff(i));
      SameWord(t, s, EntryOff(i) + 32);
    }
    assert Entries(t) == Entries(s) + [Entry(Cut(name), obj, kind)];
  }

  /** Linking a second block leaves the entries alone but, because the checksum
      is not refreshed, always breaks the seal of the first. */
  lemma LinkBreaksSeal(s: Sector, next: nat)
    requires DirBlockOk(s) && Sealed(s, 8) && DirNext(s) == 0
    requires 0 < next < DISK_BLOCKS
    ensures var t: Sector := Put32(s, 496, next);
            && DirBlockOk(t) && !Sealed(t, 8) && DirNext(t) == next
            && DirCount(t) == DirCount(s) && Entries(t) == Entries(s)
  {
    hide Hash, Get32, Put32, Le32, StrLen, StrAt, Terminated;
    var t: Sector := Put32(s, 496, next);
    ZeroBytes(s, 496);
    LinkChangesHash(s, next);
    PutGet(s, 496, next);
    SameWord(t, s, 0);
    SameWord(t, s, 4);
    SameWord(t, s, 8);
    forall i | 0 <= i < DirCount(s) ensures EntryAt(t, i) == EntryAt(s, i) && Terminated(t, EntryOff(i)) {
      StrSame(t, s, EntryOff(i));
      SameWord(t, s, EntryOff(i) + 32);
    }
    assert Entries(t) == Entries(s);
  }

  lemma ZeroBytes(s: Sector, o: nat)
    requires o + 4 <= 512 && Get32(s, o) == 0
    ensures s[o] == 0 && s[o + 1] == 0 && s[o + 2] == 0 && s[o + 3] == 0
  {
  }

  lemma LinkChangesHash(s: Sector, next: nat)
    requires 0 < next < DISK_BLOCKS
    requires s[496] == 0 && s[497] == 0 && s[498] == 0 && s[499] == 0
    ensures Checksum(Put32(s, 496, next), 8) != Checksum(s, 8)
  {
    hide Hash, Put32;
    var z := Put32(s, 8, 0);
    ClearedWord(s, 8);
    LinkBytes(s, z, next);
    HashTwoBytes(z, 496, next % 256, next / 256);
  }

  lemma ClearedWord(s: Sector, o: nat)
    requires o + 4 <= 512
    ensures forall i :: 0 <= i < 512 && !(o <= i < o + 4) ==> Put32(s, o, 0)[i] == s[i]
  {
  }

  /** Only two bytes of the link word of a block number are not zero. */
  lemma LinkBytes(s: Sector, z: Sector, next: nat)
    requires 0 < next < DISK_BLOCKS && z == Put32(s, 8, 0)
    requires s[496] == 0 && s[497] == 0 && s[498] == 0 && s[499] == 0
    ensures next % 256 != 0 || next / 256 != 0
    ensures Put32(Put32(s, 496, next), 8, 0) == Patch(z, 496, [next % 256, next / 256])
  {
    SmallWord(next);
    hide Le32;
  }

  lemma SmallWord(v: nat)
    requires v < DISK_BLOCKS
    ensures Le32(v) == [v % 256, v / 256, 0, 0]
  {
  }

  // ---- a whole directory --------------------------------------------------

  /** A directory as create and add_entry leave it: one block, or a full first
      block whose seal is broken and one linked block. */
  predicate DirOk(disk: Disk, d: nat) {
    && InStore(d)
    && DirBlockOk(disk[d])
    && (Sealed(disk[d], 8) <==> DirNext(disk[d]) == 0)
    && (DirNext(disk[d]) != 0 ==>
          && DirCount(disk[d]) == MAX_ENTRIES
          && InStore(DirNext(disk[d])) && DirNext(disk[d]) != d
          && DirBlockOk(disk[DirNext(disk[d])])
          && Sealed(disk[DirNext(disk[d])], 8)
          && DirNext(disk[DirNext(disk[d])]) == 0)
  }

  function DirEntries(disk: Disk, d: nat): seq<Entry>
    requires DirOk(disk, d)
  {
    var s := disk[d];
    Entries(s) + if DirNext(s) == 0 then [] else Entries(disk[DirNext(s)])
  }

  predicate DirBlock(disk: Disk, d: nat, b: nat)
    requires d < DISK_BLOCKS
  {
    b == d || (b != 0 && b == DirNext(disk[d]))
  }

  function CreateDir(fs: Fs): (r: (Fs, nat)) {
    var (fs1, b) := AllocBlock(fs);
    if b == 0 then (fs1, 0) else (WriteBlock(fs1, b, EmptyDir()), b)
  }

  /** hexafs_abstraction_add_entry.  A block that is sealed, full and linked
      does not occur, so the source's walk stops at the first block. */
  function AddEntry(fs: Fs, d: nat, name: CStr, obj: u32, kind: byte): (r: (Fs, bool))
    requires DirOk(fs.disk, d)
  {
    var s := fs.disk[d];
    if !Sealed(s, 8) then (fs, false)
    else if DirCount(s) < MAX_ENTRIES then (WriteBlock(fs, d, PutEntry(s, name, obj, kind)), true)
    else
      var (fs1, b) := CreateDir(fs);
      if b == 0 then (fs1, false)
      else
        var fs2 := WriteBlock(fs1, d, Put32(fs1.disk[d], 496, b));
        EmptyDirFields();
        if DirCount(fs2.disk[b]) < MAX_ENTRIES then
          (WriteBlock(fs2, b, PutEntry(fs2.disk[b], name, obj, kind)), true)
        else (fs2, false)
  }

  /** Adding succeeds exactly while the directory is not yet linked (and a block
      is free when the twelfth entry needs one); then it appends the entry.
      Otherwise nothing at all changes. */
  lemma AddEntryAppends(fs: Fs, d: nat, name: CStr, obj: u32, kind: byte)
    requires DirOk(fs.disk, d) && d !in Free(fs.bitmap)
    ensures var (fs', ok) := AddEntry(fs, d, name, obj, kind);
            && DirOk(fs'.disk, d)
            && (ok <==> DirNext(fs.disk[d]) == 0 && (DirCount(fs.disk[d]) < MAX_ENTRIES || Free(fs.bitmap) != {}))
            && (ok ==> DirEntries(fs'.disk, d) == DirEntries(fs.disk, d) + [Entry(Cut(name), obj, kind)])
            && (!ok ==> fs' == fs)
            && (ok && DirCount(fs.disk[d]) < MAX_ENTRIES ==> DirNext(fs'.disk[d]) == 0 && fs'.bitmap == fs.bitmap)
            && (ok && DirCount(fs.disk[d]) == MAX_ENTRIES ==> DirNext(fs'.disk[d]) != 0)
  {
    hide Hash, Get32, Put32, Seal, Sealed, PutEntry, EmptyDir, Entries, Terminated;
    var s := fs.disk[d];
    if Sealed(s, 8) {
      if DirCount(s) < MAX_ENTRIES {
        PutEntryAppends(s, name, obj, kind);
        CountOfEntries(s);
        CountOfEntries(PutEntry(s, name, obj, kind));
      } else {
        var (fs1, b) := CreateDir(fs);
        if b != 0 {
          EmptyDirFields();
          LinkBreaksSeal(s, b);
          PutEntryAppends(EmptyDir(), name, obj, kind);
          assert Entries(EmptyDir()) == [] by { CountOfEntries(EmptyDir()); }
          var fs' := AddEntry(fs, d, name, obj, kind).0;
          assert fs'.disk[d] == Put32(s, 496, b) && fs'.disk[b] == PutEntry(EmptyDir(), name, obj, kind);
          assert DirEntries(fs'.disk, d) == Entries(s) + [Entry(Cut(name), obj, kind)];
          assert DirEntries(fs.disk, d) == Entries(s);
        }
      }
    }
  }

  /** The twelfth entry costs one block for the link, every other one none. */
  lemma AddEntryCost(fs: Fs, d: nat, name: CStr, obj: u32, kind: byte)
    requires DirOk(fs.disk, d) && d !in Free(fs.bitmap)
    ensures var (fs', ok) := AddEntry(fs, d, name, obj, kind);
            |Free(fs'.bitmap)| == |Free(fs.bitmap)| - if ok && DirCount(fs.disk[d]) >= MAX_ENTRIES then 1 else 0
  {
    hide Get32, Put32, Sealed, PutEntry, EmptyDir, Entries, Terminated, Free;
    EmptyDirFields();
    var (a, b) := AllocBlock(fs);
    if b != 0 {
      assert |Free(a.bitmap)| == |Free(fs.bitmap)| - 1;
    }
  }

  lemma CountOfEntries(s: Sector)
    requires DirCount(s) <= MAX_ENTRIES
    ensures |Entries(s)| == DirCount(s)
  {
  }

  /** Entries whose names are as the disk keeps them. */
  function CutAll(es: seq<Entry>): (r: seq<Entry>)
    ensures |r| == |es|
    ensures forall i :: 0 <= i < |es| ==> r[i] == Entry(Cut(es[i].name), es[i].obj, es[i].kind)
  {
    seq(|es|, i requires 0 <= i < |es| => Entry(Cut(es[i].name), es[i].obj, es[i].kind))
  }

  function AddAll(fs: Fs, d: nat, es: seq<Entry>): (r: (Fs, seq<bool>))
    requires DirOk(fs.disk, d) && d !in Free(fs.bitmap)
    ensures DirOk(r.0.disk, d) && d !in Free(r.0.bitmap)
  {
    if es == [] then (fs, [])
    else
      var (a, oks) := AddAll(fs, d, es[..|es| - 1]);
      var e := es[|es| - 1];
      AddEntryAppends(a, d, e.name, e.obj, e.kind);
      var (b, ok) := AddEntry(a, d, e.name, e.obj, e.kind);
      (b, oks + [ok])
  }

  function AtMost(n: nat, cap: nat): nat {
    if n < cap then n else cap
  }

  /** From an empty directory exactly the first twelve adds succeed, in order;
      every later one fails. */
  lemma {:induction false} DirectoryTakesTwelve(fs: Fs, d: nat, es: seq<Entry>)
    requires DirOk(fs.disk, d) && d !in Free(fs.bitmap) && Free(fs.bitmap) != {}
    requires DirEntries(fs.disk, d) == []
    ensures var (fs', oks) := AddAll(fs, d, es);
            && |oks| == |es| && (forall i :: 0 <= i < |es| ==> oks[i] == (i < 12))
            && DirEntries(fs'.disk, d) == CutAll(es[..AtMost(|es|, 12)])
            && (|es| >= 12 ==> DirNext(fs'.disk[d]) != 0)
            && (|es| < 12 ==> DirNext(fs'.disk[d]) == 0 && fs'.bitmap == fs.bitmap)
  {
    hide DirOk, DirEntries, AddEntry, DirNext, DirCount;
    if |es| == 0 {
      assert CutAll(es[..0]) == [];
      SizeOfDir(fs.disk, d);
    } else {
      var n, es' := |es| - 1, es[..|es| - 1];
      DirectoryTakesTwelve(fs, d, es');
      var (a, oks) := AddAll(fs, d, es');
      var e := es[n];
      SizeOfDir(a.disk, d);
      AddEntryAppends(a, d, e.name, e.obj, e.kind);
      if n < 12 {
        assert es'[..AtMost(n, 12)] == es' && es[..AtMost(n + 1, 12)] == es;
        assert CutAll(es) == CutAll(es') + [Entry(Cut(e.name), e.obj, e.kind)];
      } else {
        assert es'[..12] == es[..12];
      }
    }
  }

  lemma SizeOfDir(disk: Disk, d: nat)
    requires DirOk(disk, d)
    ensures DirCount(disk[d]) <= MAX_ENTRIES
    ensures DirNext(disk[d]) == 0 ==> |DirEntries(disk, d)| == DirCount(disk[d])
    ensures DirNext(disk[d]) != 0 ==> |DirEntries(disk, d)| >= MAX_ENTRIES
  {
  }

  /** The first entry with that name, across the linked blocks. */
  function FirstMatch(es: seq<Entry>, name: CStr): (r: Option<Entry>)
    ensures r.None? ==> forall i :: 0 <= i < |es| ==> es[i].name != name
    ensures r.Some? ==> exists i :: 0 <= i < |es| && es[i] == r.value && es[i].name == name
                                    && forall j :: 0 <= j < i ==> es[j].name != name
  {
    if es == [] then None
    else if es[0].name == name then Some(es[0])
    else
      var r := FirstMatch(es[1..], name);
      assert r.Some? ==> forall i :: 0 <= i < |es[1..]| && es[1..][i] == r.value ==> es[i + 1] == r.value;
      r
  }

  function FindEntry(disk: Disk, d: nat, name: CStr): Option<Entry>
    requires DirOk(disk, d)
  {
    FirstMatch(DirEntries(disk, d), name)
  }
}

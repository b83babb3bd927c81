/** Where each field lies in the sectors and records that HEXAFS stores, byte by
    byte, least significant byte first. */
module Layout {
  import opened Bytes
  import opened Bitmap
  import opened BlockCache
  import opened Store
  import opened Directory
  import opened Objects
  import opened Forms
  import opened Snapshots
  import History
  import opened Users

  /** The 32-bit word at offset o is v. */
  predicate WordAt(s: seq<byte>, o: nat, v: int)
    requires o + 4 <= |s|
  {
    var b0: int, b1: int, b2: int, b3: int := s[o], s[o + 1], s[o + 2], s[o + 3];
    b0 + 0x100 * b1 + 0x1_0000 * b2 + 0x100_0000 * b3 == v
  }

  lemma ReadWord(s: seq<byte>, o: nat, v: int)
    requires o + 4 <= |s|
    ensures WordAt(s, o, v) <==> Get32(s, o) == v
  {
  }

  /** The name lies at o, cut to 31 bytes and terminated. */
  predicate NameAt(s: seq<byte>, o: nat, name: CStr)
    requires o + 32 <= |s|
  {
    var n := if |name| <= 31 then |name| else 31;
    s[o..o + n] == name[..n] && s[o + n] == 0
  }

  lemma StoredWord(s: seq<byte>, o: nat, v: u32)
    requires o + 4 <= |s|
    ensures WordAt(Put32(s, o, v), o, v)
    ensures forall i :: 0 <= i < |s| && !(o <= i < o + 4) ==> Put32(s, o, v)[i] == s[i]
  {
    hide Put32;
    PutGet(s, o, v);
  }

  lemma SameWordAt(s: seq<byte>, t: seq<byte>, o: nat, v: int)
    requires o + 4 <= |s| && o + 4 <= |t| && WordAt(s, o, v)
    requires forall i :: o <= i < o + 4 ==> t[i] == s[i]
    ensures WordAt(t, o, v)
  {
  }

  lemma StoredName(s: seq<byte>, o: nat, name: CStr)
    requires o + 32 <= |s|
    ensures NameAt(PutName(s, o, name), o, name)
    ensures forall i :: 0 <= i < |s| && !(o <= i < o + 32) ==> PutName(s, o, name)[i] == s[i]
  {
    hide StrLen;
    var n := if |name| <= 31 then |name| else 31;
    assert Cut(name) == name[..n];
    var r := PutName(s, o, name);
    assert r[o..o + n] == name[..n];
  }

  lemma SameNameAt(s: seq<byte>, t: seq<byte>, o: nat, name: CStr)
    requires o + 32 <= |s| && o + 32 <= |t| && NameAt(s, o, name)
    requires forall i :: o <= i < o + 32 ==> t[i] == s[i]
    ensures NameAt(t, o, name)
  {
    var n := if |name| <= 31 then |name| else 31;
    assert t[o..o + n] == s[o..o + n];
  }

  /** The superblock that a commit or a format writes to sector 100. */
  lemma SuperLayout(fs: Fs)
    ensures var s := WriteSuper(fs).disk[100];
            && s[..8] == [0x48, 0x45, 0x58, 0x41, 0x46, 0x53, 0x30, 0]
            && WordAt(s, 8, 1) && WordAt(s, 12, 4096) && WordAt(s, 16, 101) && WordAt(s, 20, 2) && WordAt(s, 24, 109)
            && (forall root :: WordAt(fs.sb, 28, root) ==> WordAt(s, 28, root))
            && (forall time :: WordAt(fs.sb, 36, time) ==> WordAt(s, 36, time))
            && (forall gen :: WordAt(fs.sb, 40, gen) ==> WordAt(s, 40, if gen == 0xFFFF_FFFF then 0 else gen + 1))
            && Sealed(s, 32) && forall i :: 44 <= i < 512 ==> s[i] == 0
  {
    hide BuildSuper, Sealed, WordAt, Get32;
    BuiltSuper(SuperRoot(fs.sb), SuperTime(fs.sb), (SuperGen(fs.sb) + 1) % TWO32);
    forall v | WordAt(fs.sb, 28, v) ensures v == SuperRoot(fs.sb) {
      ReadWord(fs.sb, 28, v);
    }
    forall v | WordAt(fs.sb, 36, v) ensures v == SuperTime(fs.sb) {
      ReadWord(fs.sb, 36, v);
    }
    forall v | WordAt(fs.sb, 40, v) ensures v == SuperGen(fs.sb) {
      ReadWord(fs.sb, 40, v);
    }
  }

  lemma BuiltSuper(root: u32, time: u32, gen: u32)
    ensures var s := BuildSuper(root, time, gen);
            && s[..8] == [0x48, 0x45, 0x58, 0x41, 0x46, 0x53, 0x30, 0]
            && WordAt(s, 8, 1) && WordAt(s, 12, 4096) && WordAt(s, 16, 101) && WordAt(s, 20, 2) && WordAt(s, 24, 109)
            && WordAt(s, 28, root) && WordAt(s, 36, time) && WordAt(s, 40, gen)
            && Sealed(s, 32) && forall i :: 44 <= i < 512 ==> s[i] == 0
  {
    hide Hash, Get32, Put32, Le32, Sealed, WordAt, Seal;
    var m := Patch(ZERO_SECTOR, 0, SUPER_MAGIC);
    var a := Put32(m, 8, 1);
    var b := Put32(a, 12, DISK_BLOCKS);
    var c := Put32(b, 16, ALLOC_LBA);
    StoredWord(m, 8, 1);
    StoredWord(a, 12, DISK_BLOCKS);
    StoredWord(b, 16, ALLOC_LBA);
    var d := Put32(c, 20, 2);
    var e := Put32(d, 24, OBJECT_LBA);
    var f := Put32(e, 28, root);
    StoredWord(c, 20, 2);
    StoredWord(d, 24, OBJECT_LBA);
    StoredWord(e, 28, root);
    var g := Put32(f, 36, time);
    var h := Put32(g, 40, gen);
    StoredWord(f, 36, time);
    StoredWord(g, 40, gen);
    var s := Seal(h, 32);
    SealSeals(h, 32);
    SameWordAt(a, s, 8, 1);
    SameWordAt(b, s, 12, DISK_BLOCKS);
    SameWordAt(c, s, 16, ALLOC_LBA);
    SameWordAt(d, s, 20, 2);
    SameWordAt(e, s, 24, OBJECT_LBA);
    SameWordAt(f, s, 28, root);
    SameWordAt(g, s, 36, time);
    SameWordAt(h, s, 40, gen);
    assert s[..8] == SUPER_MAGIC;
  }

  /** A superblock is accepted exactly when it starts with the magic word and its
      checksum is that of the block with the checksum's own bytes zero. */
  lemma SuperAcceptedIff(s: Sector, z: Sector)
    requires forall i :: 0 <= i < 512 ==> z[i] == if 32 <= i < 36 then 0 else s[i]
    ensures SuperOk(s) <==>
            && s[..8] == [0x48, 0x45, 0x58, 0x41, 0x46, 0x53, 0x30, 0]
            && WordAt(s, 32, (5381 * Pow33(512) + Weighted(z)) % TWO32)
  {
    hide Sealed, WordAt, Get32, Weighted, Pow33;
    SealedIff(s, 32, z);
    ReadWord(s, 32, (5381 * Pow33(512) + Weighted(z)) % TWO32);
  }

  /** A format writes an empty volume of the second generation. */
  lemma FormatLayout(fs: Fs)
    ensures var s := Format(fs).disk[100];
            && WordAt(s, 28, 0) && WordAt(s, 36, 0) && WordAt(s, 40, 2)
    ensures forall b: nat :: b < 4096 ==> (Used(DiskBitmap(Format(fs).disk), b) <==> b < 109)
  {
    hide BuildSuper, WordAt, Used, MarkRange;
    SuperFields(0, 0, 1);
    BuiltSuper(0, 0, 2);
    RangeMarked(109);
    var m := MarkRange(ZeroMap(), 109);
    assert BitmapSector(m, 0) + BitmapSector(m, 1) == m;
  }

  lemma {:induction false} RangeMarked(n: nat)
    ensures forall b: nat :: b < 4096 ==> (Used(MarkRange(ZeroMap(), n), b) <==> b < n)
  {
    if n == 0 {
      forall b: nat | b < 4096 ensures !Used(ZeroMap(), b) {
        History.ZeroBits(b);
      }
    } else {
      RangeMarked(n - 1);
      hide Used;
    }
  }

  lemma SnapLayout(parent: u32, root: u32, time: u32, name: CStr)
    ensures var s := BuildSnap(parent, root, time, name);
            && WordAt(s, 0, 0x534E4150) && WordAt(s, 4, parent) && WordAt(s, 8, root) && WordAt(s, 12, time)
            && NameAt(s, 16, name) && Sealed(s, 48) && forall i :: 52 <= i < 512 ==> s[i] == 0
  {
    hide Hash, Get32, Put32, Sealed, WordAt, NameAt, Seal, PutName;
    var a := Put32(ZERO_SECTOR, 0, SNAP_MAGIC);
    var b := Put32(a, 4, parent);
    StoredWord(ZERO_SECTOR, 0, SNAP_MAGIC);
    StoredWord(a, 4, parent);
    var c := Put32(b, 8, root);
    var d := Put32(c, 12, time);
    StoredWord(b, 8, root);
    StoredWord(c, 12, time);
    var e := PutName(d, 16, name);
    StoredName(d, 16, name);
    var s := Seal(e, 48);
    SealSeals(e, 48);
    SameWordAt(a, s, 0, SNAP_MAGIC);
    SameWordAt(b, s, 4, parent);
    SameWordAt(c, s, 8, root);
    SameWordAt(d, s, 12, time);
    SameNameAt(e, s, 16, name);
  }

  /** A new object names its type twice, its time, and nothing else. */
  lemma NewObjectLayout(kind: byte, time: u32)
    ensures var s := NewObj(kind, time);
            && WordAt(s, 0, 0x4F424A00 + kind) && WordAt(s, 4, kind) && WordAt(s, 56, time) && Sealed(s, 60)
            && forall i :: 8 <= i < 512 && !(56 <= i < 64) ==> s[i] == 0
  {
    hide Hash, Get32, Put32, Sealed, Seal;
    var a := Put32(ZERO_SECTOR, 0, OBJ_MAGIC_BASE + kind);
    StoredWord(ZERO_SECTOR, 0, OBJ_MAGIC_BASE + kind);
    var b := a[4 := kind];
    var c := Put32(b, 56, time);
    StoredWord(b, 56, time);
    var s := Seal(c, 60);
    SealSeals(c, 60);
    SameWordAt(a, s, 0, OBJ_MAGIC_BASE + kind);
    SameWordAt(c, s, 56, time);
  }

  /** The i-th of the four block numbers in an object's header. */
  predicate NamesBlock(s: Sector, i: nat, b: int)
    requires i < 4
  {
    WordAt(s, 16 + 4 * i, b)
  }

  /** The header of a written object: its size, the blocks of its pieces, and the
      hash of all its bytes; type and time stay. */
  lemma HeaderLayout(s: Sector, bs: seq<u32>, data: seq<byte>)
    requires |bs| == 4 && |data| < 0x8000_0000
    ensures var t := SetObj(s, bs, |data|, Hash(data));
            && WordAt(t, 12, |data|) && (forall i :: 0 <= i < 4 ==> NamesBlock(t, i, bs[i]))
            && WordAt(t, 32, Hash(data)) && Sealed(t, 60)
            && forall i :: 0 <= i < 512 && !(12 <= i < 36 || 60 <= i < 64) ==> t[i] == s[i]
  {
    hide Hash, Get32, Put32, Sealed, WordAt, Seal;
    var a := Put32(s, 16, bs[0]);
    var b := Put32(a, 20, bs[1]);
    var c := Put32(b, 24, bs[2]);
    var d := Put32(c, 28, bs[3]);
    StoredWord(s, 16, bs[0]);
    StoredWord(a, 20, bs[1]);
    StoredWord(b, 24, bs[2]);
    StoredWord(c, 28, bs[3]);
    var e := Put32(d, 12, |data|);
    var f := Put32(e, 32, Hash(data));
    StoredWord(d, 12, |data|);
    StoredWord(e, 32, Hash(data));
    var t := Seal(f, 60);
    SealSeals(f, 60);
    SameWordAt(a, t, 16, bs[0]);
    SameWordAt(b, t, 20, bs[1]);
    SameWordAt(c, t, 24, bs[2]);
    SameWordAt(d, t, 28, bs[3]);
    SameWordAt(e, t, 12, |data|);
    SameWordAt(f, t, 32, Hash(data));
    forall i | 0 <= i < 4 ensures NamesBlock(t, i, bs[i]) {
    }
  }

  /** A successful write leaves that header, naming the blocks of the pieces. */
  lemma ObjectLayout(fs: Fs, o: nat, data: seq<byte>)
    requires ObjShape(fs.disk, o) && Allocated(fs, o) && |data| < 0x8000_0000
    ensures var (fs', ok) := WriteObject(fs, o, data);
            var s := fs'.disk[o];
            ok ==>
              && WordAt(s, 12, |data|) && WordAt(s, 32, Hash(data)) && Sealed(s, 60)
              && forall i, b: nat :: 0 <= i < BlocksFor(|data|) && NamesBlock(s, i, b) ==>
                  b < DISK_BLOCKS && fs'.disk[b] == Chunk(data, i)
  {
    hide Hash, Get32, SetObj, Chunk, WriteChunks, Sealed, Free, BlocksFor, ObjBlocks, WordAt;
    var olds, n := ObjBlocks(fs.disk[o]), BlocksFor(|data|);
    OwnBlocksHeld(fs, o);
    WriteChunksSpec(fs, olds, data, n);
    var (a, got, ok) := WriteChunks(fs, olds, data, n);
    if ok {
      var t := SetObj(fs.disk[o], Fill(got), |data|, Hash(data));
      HeaderLayout(fs.disk[o], Fill(got), data);
      forall i, b: nat | 0 <= i < n && NamesBlock(t, i, b)
        ensures b == got[i] && b != o && b < DISK_BLOCKS && a.disk[b] == Chunk(data, i)
      {
        OneWord(t, 16 + 4 * i, b, Fill(got)[i]);
      }
    }
  }

  /** A piece: 512 bytes of the data, padded with zeros. */
  lemma PieceLayout(data: seq<byte>, i: nat, k: nat)
    requires i < BlocksFor(|data|) && k < 512
    ensures Chunk(data, i)[k] == if 512 * i + k < |data| then data[512 * i + k] else 0
  {
    hide BlocksFor;
    PieceFits(data, i);
  }

  lemma PieceFits(data: seq<byte>, i: nat)
    requires i < BlocksFor(|data|)
    ensures 512 * i < |data|
  {
  }

  lemma OneWord(s: seq<byte>, o: nat, v: int, w: int)
    requires o + 4 <= |s| && WordAt(s, o, v) && WordAt(s, o, w)
    ensures v == w
  {
  }

  lemma EmptyDirLayout()
    ensures var s := EmptyDir();
            WordAt(s, 0, 0x42534241) && WordAt(s, 4, 0) && Sealed(s, 8) && forall i :: 12 <= i < 512 ==> s[i] == 0
  {
    hide Hash, Get32, Put32, Sealed, Seal;
    var a := Put32(ZERO_SECTOR, 0, ABSTRACT_MAGIC);
    StoredWord(ZERO_SECTOR, 0, ABSTRACT_MAGIC);
    SealSeals(a, 8);
    SameWordAt(a, EmptyDir(), 0, ABSTRACT_MAGIC);
  }

  /** The k-th entry added to a directory block, of 44 bytes from 12 + 44k on;
      the count is raised and every other entry stays. */
  lemma EntryLayout(s: Sector, name: CStr, obj: u32, kind: byte, k: nat)
    requires DirBlockOk(s) && WordAt(s, 4, k) && k < 11
    ensures var o := 12 + 44 * k;
            && DirCount(s) == k
            && var t := PutEntry(s, name, obj, kind);
            && NameAt(t, o, name) && WordAt(t, o + 32, obj) && t[o + 36] == kind
            && WordAt(t, 4, k + 1) && Sealed(t, 8)
            && forall i :: 0 <= i < 512 && !(4 <= i < 12 || o <= i < o + 44) ==> t[i] == s[i]
  {
    ReadWord(s, 4, k);
    hide Sealed, WordAt, NameAt, Get32, DirBlockOk;
    EntryBytes(s, name, obj, kind, 12 + 44 * k);
  }

  lemma EntryBytes(s: Sector, name: CStr, obj: u32, kind: byte, o: nat)
    requires DirCount(s) < MAX_ENTRIES && o == EntryOff(DirCount(s)) && 12 <= o && o + 44 <= 496
    ensures var t := PutEntry(s, name, obj, kind);
            && NameAt(t, o, name) && WordAt(t, o + 32, obj) && t[o + 36] == kind
            && WordAt(t, 4, DirCount(s) + 1) && Sealed(t, 8)
            && forall i :: 0 <= i < 512 && !(4 <= i < 12 || o <= i < o + 44) ==> t[i] == s[i]
  {
    hide Hash, Get32, Put32, Sealed, WordAt, NameAt, Seal, PutName, DirCount, EntryOff;
    var a := PutName(s, o, name);
    StoredName(s, o, name);
    var b := Put32(a, o + 32, obj);
    StoredWord(a, o + 32, obj);
    var c := b[o + 36 := kind];
    var d := Put32(c, 4, DirCount(s) + 1);
    StoredWord(c, 4, DirCount(s) + 1);
    var t := Seal(d, 8);
    SealSeals(d, 8);
    SameNameAt(a, t, o, name);
    SameWordAt(b, t, o + 32, obj);
    SameWordAt(d, t, 4, DirCount(s) + 1);
  }

  /** The twelfth entry: a full block gets the number of a new one at 496 and no
      other byte of it changes; the new block holds the entry. */
  lemma LinkLayout(fs: Fs, d: nat, name: CStr, obj: u32, kind: byte)
    requires DirOk(fs.disk, d) && d !in Free(fs.bitmap) && Free(fs.bitmap) != {}
    requires DirNext(fs.disk[d]) == 0 && DirCount(fs.disk[d]) == MAX_ENTRIES
    ensures var (fs', ok) := AddEntry(fs, d, name, obj, kind);
            var next := CreateDir(fs).1;
            && ok && next in Free(fs.bitmap) && next != d && next < DISK_BLOCKS
            && WordAt(fs'.disk[d], 496, next)
            && (forall i :: 0 <= i < 512 && !(496 <= i < 500) ==> fs'.disk[d][i] == fs.disk[d][i])
            && NameAt(fs'.disk[next], 12, name) && WordAt(fs'.disk[next], 44, obj) && fs'.disk[next][48] == kind
            && WordAt(fs'.disk[next], 4, 1) && Sealed(fs'.disk[next], 8)
  {
    hide Hash, Get32, Put32, Sealed, PutEntry, EmptyDir, Entries, Terminated, WordAt, NameAt, DirBlockOk, Free;
    EmptyDirFields();
    var (a, b) := CreateDir(fs);
    StoredWord(fs.disk[d], 496, b);
    EntryBytes(EmptyDir(), name, obj, kind, 12);
  }

  /** The 68 bytes of each user, from 4 + 68i on: name, password record, root flag. */
  lemma UserLayout(us: seq<User>, i: nat)
    requires |us| < 0x800_0000 && i < |us|
    ensures var raw, o := Encode(us), 4 + 68 * i;
            && WordAt(raw, 0, |us|)
            && raw[o..o + 32] == us[i].name && raw[o + 32..o + 64] == us[i].hash
            && raw[o + 64..o + 68] == [us[i].isRoot, 0, 0, 0]
  {
    hide Records;
    RecordAt(us, i);
    var raw, o, r := Encode(us), 4 + 68 * i, Record(us[i]);
    hide Encode;
    assert raw[o..o + 68] == r by {
      assert raw == Le32(|us|) + Records(us);
    }
    assert raw[o..o + 32] == r[..32] && raw[o + 32..o + 64] == r[32..64] && raw[o + 64..o + 68] == r[64..];
    CountFirst(us);
  }

  lemma CountFirst(us: seq<User>)
    requires |us| < 0x800_0000
    ensures WordAt(Encode(us), 0, |us|)
  {
    hide Records;
    var raw := Encode(us);
    assert raw[..4] == Le32(|us|);
    HeadWord(raw, |us|);
  }

  /** Owner, mode and a zero word in front of the content. */
  lemma PayloadLayout(f: Form)
    ensures var p := Payload(f);
            && WordAt(p, 0, if f.owner < 0 then f.owner + 0x1_0000_0000 else f.owner)
            && p[4..6] == [f.mode % 256, f.mode / 256] && p[6..10] == [0, 0, 0, 0]
            && p[10..] == f.content[..if |f.content| < 2038 then |f.content| else 2038]
  {
    var p := Payload(f);
    assert p[..4] == Le32(Unsigned(f.owner));
    HeadWord(p, Unsigned(f.owner));
    assert p[4] == f.mode % 256 && p[5] == f.mode / 256;
    assert p[6..10] == Le32(0);
    var copy := if 10 + |f.content| > 2048 then 2038 else |f.content|;
    assert p[10..] == f.content[..copy];
  }
}

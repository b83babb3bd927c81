/** The state of a mounted HEXAFS volume and its block layer: allocation
    bitmap, superblock, and the order in which sectors reach the disk. */
module Store {
  import opened Bytes
  import opened Bitmap
  import opened BlockCache

  const SUPER_LBA := 100
  const ALLOC_LBA := 101
  const OBJECT_LBA := 109

  // "HEXAFS0" and its terminator
  const SUPER_MAGIC: seq<byte> := [0x48, 0x45, 0x58, 0x41, 0x46, 0x53, 0x30, 0]
  const SNAP_MAGIC: u32 := 0x534E4150
  const OBJ_MAGIC_BASE: u32 := 0x4F424A00
  const ABSTRACT_MAGIC: u32 := 0x42534241

  const FORM: byte := 1
  const CONFIG: byte := 5

  type MapBytes = s: seq<byte> | |s| == 1024 witness Zeros(1024)
  type Hint = x: nat | 109 <= x <= 4096 witness 109

  datatype Tx = Tx(active: bool, tid: nat, parent: u32, newRoot: u32, snap: u32, dirty: bool)

  const NO_TX := Tx(false, 0, 0, 0, 0, false)

  /** disk is what the platter holds, log every sector written so far; the rest
      is memory: allocation bitmap and its dirty flag, allocation hint, the
      cached superblock and the current transaction. */
  datatype Fs = Fs(disk: Disk, log: seq<Write>, bitmap: MapBytes, dirty: bool, hint: Hint,
                   mounted: bool, sb: Sector, tx: Tx, txGen: nat)

  function Free(bm: MapBytes): set<nat> {
    FreeUnits(bm, OBJECT_LBA, DISK_BLOCKS)
  }

  predicate InStore(b: nat) {
    OBJECT_LBA <= b < DISK_BLOCKS
  }

  function WriteBlock(fs: Fs, lba: nat, s: Sector): Fs
    requires lba < DISK_BLOCKS
  {
    fs.(disk := fs.disk[lba := s], log := fs.log + [Write(lba, s)])
  }

  lemma ZeroWord(o: nat)
    requires o + 4 <= 512
    ensures Get32(ZERO_SECTOR, o) == 0
  {
  }

  // ---- block allocation ---------------------------------------------------

  function Claim(fs: Fs, b: nat): Fs
    requires InStore(b)
  {
    WriteBlock(fs.(bitmap := Mark(fs.bitmap, b), dirty := true, hint := b + 1), b, ZERO_SECTOR)
  }

  /** hexafs_alloc_block: the zeroed new block, or 0 exactly when none is free. */
  function AllocBlock(fs: Fs): (r: (Fs, nat))
    ensures r.1 == 0 <==> Free(fs.bitmap) == {}
    ensures r.1 == 0 ==> r.0 == fs
    ensures r.1 != 0 ==> r.1 in Free(fs.bitmap) && r.0 == Claim(fs, r.1) && Free(r.0.bitmap) == Free(fs.bitmap) - {r.1}
  {
    var i := Scan(fs.bitmap, OBJECT_LBA, fs.hint, DISK_BLOCKS);
    if i == DISK_BLOCKS then (fs, 0) else (Claim(fs, i), i)
  }

  function FreeBlock(fs: Fs, lba: nat): (r: Fs)
    ensures InStore(lba) ==> Free(r.bitmap) == Free(fs.bitmap) + {lba}
    ensures r.disk == fs.disk && r.log == fs.log && r.sb == fs.sb && r.tx == fs.tx && r.mounted == fs.mounted
  {
    if !InStore(lba) then fs
    else fs.(bitmap := Unmark(fs.bitmap, lba), dirty := true, hint := if lba < fs.hint then lba else fs.hint)
  }

  /** The whole effect of an allocation: one block is in use, zeroed on the disk by
      one write, and the hint stands behind it; without a free block nothing changes. */
  lemma AllocTakes(fs: Fs)
    ensures var (a, b) := AllocBlock(fs);
            && (b == 0 ==> a == fs && forall k :: InStore(k) ==> Used(fs.bitmap, k))
            && (b != 0 ==>
                  && InStore(b) && !Used(fs.bitmap, b)
                  && (forall k: nat :: Used(a.bitmap, k) <==> k == b || Used(fs.bitmap, k))
                  && a.disk == fs.disk[b := Zeros(512)] && a.log == fs.log + [Write(b, Zeros(512))]
                  && a == fs.(disk := a.disk, log := a.log, bitmap := a.bitmap, dirty := true, hint := b + 1))
  {
    hide Used;
    var (a, b) := AllocBlock(fs);
    if b == 0 {
      forall k | InStore(k) ensures Used(fs.bitmap, k) {
        assert k !in Free(fs.bitmap);
      }
    }
  }

  /** The whole effect of a release: one block of the store is free, and the hint
      is not behind it; any other number changes nothing. */
  lemma FreeGives(fs: Fs, lba: nat)
    ensures var a := FreeBlock(fs, lba);
            && (!(109 <= lba < 4096) ==> a == fs)
            && (109 <= lba < 4096 ==>
                  && (forall k: nat :: Used(a.bitmap, k) <==> k != lba && Used(fs.bitmap, k))
                  && a == fs.(bitmap := a.bitmap, dirty := true, hint := if lba < fs.hint then lba else fs.hint))
  {
    hide Used;
  }

  /** The block allocator is the hinted allocator over blocks 109..4095. */
  lemma BlockAllocatorRefinesScan(fs: Fs, lba: nat)
    ensures var (fs', _) := AllocBlock(fs);
            Allocator(fs'.bitmap, fs'.hint) == AllocStep(Allocator(fs.bitmap, fs.hint), Take, OBJECT_LBA, DISK_BLOCKS)
    ensures var fs' := FreeBlock(fs, lba);
            Allocator(fs'.bitmap, fs'.hint) ==
            AllocStep(Allocator(fs.bitmap, fs.hint), Release(lba), OBJECT_LBA, DISK_BLOCKS)
  {
  }

  // ---- bitmap persistence -------------------------------------------------

  function BitmapSector(bm: MapBytes, i: nat): Sector
    requires i < 2
  {
    bm[i * 512..(i + 1) * 512]
  }

  function SaveBitmap(fs: Fs): Fs {
    if !fs.dirty then fs
    else
      var a := WriteBlock(fs, ALLOC_LBA, BitmapSector(fs.bitmap, 0));
      var b := WriteBlock(a, ALLOC_LBA + 1, BitmapSector(fs.bitmap, 1));
      b.(dirty := false)
  }

  function DiskBitmap(d: Disk): MapBytes {
    var lo: seq<byte>, hi: seq<byte> := d[ALLOC_LBA], d[ALLOC_LBA + 1];
    lo + hi
  }

  // ---- superblock ---------------------------------------------------------

  function SuperRoot(s: Sector): u32 { Get32(s, 28) }
  function SuperTime(s: Sector): u32 { Get32(s, 36) }
  function SuperGen(s: Sector): u32 { Get32(s, 40) }
  function SetRoot(s: Sector, root: u32): Sector { Put32(s, 28, root) }

  predicate SuperOk(s: Sector) {
    s[..8] == SUPER_MAGIC && Sealed(s, 32)
  }

  function BuildSuper(root: u32, time: u32, gen: u32): Sector {
    var a := Patch(ZERO_SECTOR, 0, SUPER_MAGIC);
    var b := Put32(Put32(Put32(a, 8, 1), 12, DISK_BLOCKS), 16, ALLOC_LBA);
    var c := Put32(Put32(b, 20, 2), 24, OBJECT_LBA);
    Seal(Put32(Put32(Put32(c, 28, root), 36, time), 40, gen), 32)
  }

  function WriteSuper(fs: Fs): Fs {
    var sb := BuildSuper(SuperRoot(fs.sb), SuperTime(fs.sb), (SuperGen(fs.sb) + 1) % TWO32);
    WriteBlock(fs.(sb := sb), SUPER_LBA, sb)
  }

  lemma SuperFields(root: u32, time: u32, gen: u32)
    ensures var s := BuildSuper(root, time, gen);
            SuperOk(s) && SuperRoot(s) == root && SuperTime(s) == time && SuperGen(s) == gen
  {
    hide Hash, Get32, Put32, Le32;
    var a := Patch(ZERO_SECTOR, 0, SUPER_MAGIC);
    var b := Put32(Put32(Put32(a, 8, 1), 12, DISK_BLOCKS), 16, ALLOC_LBA);
    PutGet(a, 8, 1);
    PutGet(Put32(a, 8, 1), 12, DISK_BLOCKS);
    PutGet(Put32(Put32(a, 8, 1), 12, DISK_BLOCKS), 16, ALLOC_LBA);
    var c := Put32(Put32(b, 20, 2), 24, OBJECT_LBA);
    PutGet(b, 20, 2);
    PutGet(Put32(b, 20, 2), 24, OBJECT_LBA);
    var d := Put32(c, 28, root);
    PutGet(c, 28, root);
    var e := Put32(d, 36, time);
    PutGet(d, 36, time);
    var f := Put32(e, 40, gen);
    PutGet(e, 40, gen);
    var s := Seal(f, 32);
    SealSeals(f, 32);
    SameWord(s, d, 28);
    SameWord(s, e, 36);
    SameWord(s, f, 40);
    assert s[..8] == SUPER_MAGIC;
  }

  lemma SetRootReads(s: Sector, root: u32)
    ensures SuperRoot(SetRoot(s, root)) == root
    ensures SuperTime(SetRoot(s, root)) == SuperTime(s) && SuperGen(SetRoot(s, root)) == SuperGen(s)
  {
    PutGet(s, 28, root);
    SameWord(SetRoot(s, root), s, 36);
    SameWord(SetRoot(s, root), s, 40);
  }

  /** A superblock that was written is accepted, and every copy of it that
      differs in exactly one byte is rejected. */
  lemma SuperblockIntegrity(fs: Fs, i: nat, v: byte)
    requires i < 512
    ensures var fs' := WriteSuper(fs);
            && SuperOk(fs'.disk[SUPER_LBA])
            && SuperRoot(fs'.disk[SUPER_LBA]) == SuperRoot(fs.sb)
            && (v != fs'.disk[SUPER_LBA][i] ==> !SuperOk(fs'.disk[SUPER_LBA][i := v]))
  {
    hide Hash, Get32, Put32, Patch, Seal, Sealed, BuildSuper;
    SuperFields(SuperRoot(fs.sb), SuperTime(fs.sb), (SuperGen(fs.sb) + 1) % TWO32);
    var s := WriteSuper(fs).disk[SUPER_LBA];
    if v != s[i] {
      SealedRejectsByte(s, 32, i, v);
    }
  }

  // ---- crashes ------------------------------------------------------------

  /** The sectors written between two states of one run. */
  function Written(fs: Fs, fs': Fs): seq<Write>
    requires |fs.log| <= |fs'.log|
  {
    fs'.log[|fs.log|..]
  }

  /** The platter when power fails after the first k of those writes. */
  function CrashDisk(fs: Fs, fs': Fs, k: nat): Disk
    requires |fs.log| <= |fs'.log| && k <= |Written(fs, fs')|
    requires WritesFit(Written(fs, fs'))
  {
    Replay(fs.disk, Written(fs, fs')[..k])
  }

  /** hexafs_mount_disk after a boot: memory is rebuilt from the platter. */
  function Boot(d: Disk): Fs {
    Fs(d, [], DiskBitmap(d), false, OBJECT_LBA, true, d[SUPER_LBA], NO_TX, 0)
  }
}

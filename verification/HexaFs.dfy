/** HEXAFS as the kernel runs it: one volume whose cache, bitmap, hint,
    superblock and transaction are updated in place.  Every operation is proved
    to take the state of memory and disk to the one its specification gives. */
module HexaFs {
  import opened Bytes
  import opened Bitmap
  import opened BlockCache
  import opened Store
  import opened Directory
  import opened Objects
  import opened Forms
  import opened Snapshots
  import History
  import opened Users

  // ---- loops over buffers -------------------------------------------------

  /** The byte-by-byte copy of a name into a 32-byte field. */
  method CopyName(s: seq<byte>, o: nat, name: CStr) returns (r: seq<byte>)
    requires o + 32 <= |s|
    ensures r == PutName(s, o, name)
  {
    r := s;
    var i := 0;
    while i < |name| && i < 31
      invariant i <= |name| && i <= 31 && |r| == |s|
      invariant forall k :: 0 <= k < |s| ==> r[k] == if o <= k < o + i then name[k - o] else s[k]
    {
      r := r[o + i := name[i]];
      i := i + 1;
    }
    r := r[o + i := 0];
    assert r == PutName(s, o, name);
  }

  /** The byte-by-byte comparison of a field with a C string. */
  method CompareName(s: seq<byte>, o: nat, name: CStr) returns (same: bool)
    requires o + 32 <= |s| && Terminated(s, o)
    ensures same <==> StrAt(s, o) == name
  {
    hide StrLen, FieldMatches;
    FieldMatchIsEquality(s, o, name);
    same := MatchLoop(s, o, name);
  }

  method MatchLoop(s: seq<byte>, o: nat, name: CStr) returns (same: bool)
    requires o + 32 <= |s|
    ensures same <==> FieldMatches(s, o, name, 0)
  {
    var j := 0;
    same := true;
    while j < 32
      invariant 0 <= j <= 32
      invariant FieldMatches(s, o, name, 0) <==> FieldMatches(s, o, name, j)
    {
      var c: byte := if j < |name| then name[j] else 0;
      if s[o + j] != c { return false; }
      if c == 0 { return true; }
      j := j + 1;
    }
  }

  /** The copy of a stored name up to its terminator. */
  method ReadName(s: seq<byte>, o: nat) returns (name: CStr)
    requires o + 32 <= |s|
    ensures name == StrAt(s, o)
  {
    hide StrLen;
    var j := 0;
    name := [];
    while j < 31 && s[o + j] != 0
      invariant j <= 31 && name == s[o..o + j]
      invariant forall k :: o <= k < o + j ==> s[k] != 0
    {
      name := name + [s[o + j]];
      j := j + 1;
    }
    StrLenIs(s, o, 31, j);
  }

  /** A checksum word computed over the block with that word zeroed. */
  method SealBlock(s: seq<byte>, o: nat) returns (r: seq<byte>)
    requires o + 4 <= |s|
    ensures r == Seal(s, o)
  {
    hide Hash, Patch;
    var h := ContentHash(Put32(s, o, 0));
    r := Put32(s, o, h);
  }

  /** The fields of a superblock, stored one by one, then its checksum. */
  method FillSuper(root: u32, time: u32, gen: u32) returns (s: Sector)
    ensures s == BuildSuper(root, time, gen)
  {
    hide Hash, Patch, Put32, Seal;
    var a := Patch(ZERO_SECTOR, 0, SUPER_MAGIC);
    var b := Put32(Put32(Put32(a, 8, 1), 12, DISK_BLOCKS), 16, ALLOC_LBA);
    var c := Put32(Put32(b, 20, 2), 24, OBJECT_LBA);
    s := SealBlock(Put32(Put32(Put32(c, 28, root), 36, time), 40, gen), 32);
  }

  method FillEntry(s: Sector, name: CStr, obj: u32, kind: byte) returns (t: Sector)
    requires DirCount(s) < MAX_ENTRIES
    ensures t == PutEntry(s, name, obj, kind)
  {
    hide Hash, Put32, PutName, Get32, Seal;
    var c := DirCount(s);
    var a := CopyName(s, EntryOff(c), name);
    var b := Put32(a, EntryOff(c) + 32, obj)[EntryOff(c) + 36 := kind];
    t := SealBlock(Put32(b, 4, c + 1), 8);
  }

  method FillObject(s: Sector, bs: seq<u32>, size: u32, hash: u32) returns (t: Sector)
    requires |bs| == 4
    ensures t == SetObj(s, bs, size, hash)
  {
    hide Hash, Put32, Seal;
    var a := Put32(Put32(s, 16, bs[0]), 20, bs[1]);
    var b := Put32(Put32(a, 24, bs[2]), 28, bs[3]);
    t := SealBlock(Put32(Put32(b, 12, size), 32, hash), 60);
  }

  /** The first entry of that name in one directory block. */
  method ScanBlock(s: Sector, name: CStr) returns (found: Option<Entry>)
    requires DirBlockOk(s)
    ensures found == FirstMatch(Entries(s), name)
  {
    hide Get32, StrAt, Terminated, StrLen, FirstMatch;
    ghost var es := Entries(s);
    assert es[0..] == es;
    var i := 0;
    while i < DirCount(s)
      invariant 0 <= i <= DirCount(s)
      invariant FirstMatch(es, name) == FirstMatch(es[i..], name)
    {
      assert Terminated(s, EntryOff(i));
      var same := CompareName(s, EntryOff(i), name);
      MatchHead(es, i, name);
      if same { return Some(EntryAt(s, i)); }
      i := i + 1;
    }
    NoMatch(name);
    found := None;
  }

  lemma MatchHead(es: seq<Entry>, i: nat, name: CStr)
    requires i < |es|
    ensures FirstMatch(es[i..], name) == if es[i].name == name then Some(es[i]) else FirstMatch(es[i + 1..], name)
  {
    assert es[i..][1..] == es[i + 1..];
  }

  lemma MatchSplit(a: seq<Entry>, b: seq<Entry>, name: CStr)
    ensures FirstMatch(a + b, name) == if FirstMatch(a, name).Some? then FirstMatch(a, name) else FirstMatch(b, name)
  {
    if a == [] {
      assert a + b == b;
    } else {
      assert (a + b)[1..] == a[1..] + b;
      MatchSplit(a[1..], b, name);
    }
  }

  lemma NoMatch(name: CStr)
    ensures FirstMatch([], name) == None
  {
  }

  /** The entries of the first block, then those of the linked one. */
  lemma DirParts(disk: Disk, d: nat)
    requires DirOk(disk, d)
    ensures var next := DirNext(disk[d]);
            DirEntries(disk, d) == Entries(disk[d]) + if next != 0 then Entries(disk[next]) else []
  {
    hide Get32, Sealed, Entries, Terminated;
  }

  /** The block a directory link points to was just created empty. */
  lemma NewDirContent(fs: Fs)
    ensures var (fs', b) := Directory.CreateDir(fs);
            b != 0 ==>
                fs'.disk[b] == EmptyDir() && b in Free(fs.bitmap) && forall c :: 0 <= c < DISK_BLOCKS && c != b ==>
                    fs'.disk[c] == fs.disk[c]
  {
    hide EmptyDir;
  }

  /** Once a piece finds no block, the rest of the data loop does nothing. */
  lemma {:induction false} ChunksStop(fs: Fs, olds: seq<u32>, data: seq<byte>, i: nat, n: nat)
    requires Pointers(olds) && i <= n <= BlocksFor(|data|) && !WriteChunks(fs, olds, data, i).2
    ensures WriteChunks(fs, olds, data, n) == WriteChunks(fs, olds, data, i)
    decreases n
  {
    if i < n {
      ChunksStop(fs, olds, data, i, n - 1);
    }
  }

  lemma NoChunks(fs: Fs, olds: seq<u32>, data: seq<byte>)
    requires Pointers(olds)
    ensures WriteChunks(fs, olds, data, 0) == (fs, [], true)
  {
  }

  /** One more piece: into the block the header names, or into a new one. */
  lemma ChunkStep(fs: Fs, olds: seq<u32>, data: seq<byte>, i: nat, a: Fs, got: seq<u32>)
    requires Pointers(olds) && i < BlocksFor(|data|) && WriteChunks(fs, olds, data, i) == (a, got, true)
    ensures olds[i] != 0 ==>
              WriteChunks(fs, olds, data, i + 1) == (WriteBlock(a, olds[i], Chunk(data, i)), got + [olds[i]], true)
    ensures olds[i] == 0 ==>
              var (b, x) := Store.AllocBlock(a);
              var r := if x == 0 then (b, got, false) else (WriteBlock(b, x, Chunk(data, i)), got + [x], true);
              WriteChunks(fs, olds, data, i + 1) == r
  {
    hide Store.AllocBlock, Chunk;
  }

  lemma GatherStep(disk: Disk, bs: seq<u32>, i: nat, left: nat, buf: seq<byte>)
    requires Pointers(bs) && i < 4 && left > 0 && bs[i] != 0
    ensures var copy := if left < 512 then left else 512;
            buf + Gather(disk, bs, i, left) == buf + disk[bs[i]][..copy] + Gather(disk, bs, i + 1, left - copy)
  {
  }

  lemma GatherEnd(disk: Disk, bs: seq<u32>, i: nat, left: nat)
    requires Pointers(bs) && i <= 4 && (i == 4 || left == 0 || bs[i] == 0)
    ensures Gather(disk, bs, i, left) == []
  {
  }

  /** What a load needs: the live root, if any, is a readable snapshot. */
  predicate Loadable(fs: Fs) {
    LoadReady(fs.disk, SuperRoot(fs.sb))
  }

  /** The snapshots a walk along the parent links meets before it ends, at 0 or
      at a block that is no snapshot. */
  predicate Walk(disk: Disk, root: nat, snaps: seq<nat>)
    decreases snaps
  {
    if snaps == [] then root < DISK_BLOCKS && (root == 0 || !IsSnap(disk[root]))
    else
      && root == snaps[0] && 0 < root < DISK_BLOCKS && IsSnap(disk[root])
      && Walk(disk, SnapParent(disk[root]), snaps[1..])
  }

  /** A sound store meets the preconditions of loading, of searching the
      snapshots by name and of saving the user table. */
  lemma SoundIsLoadable(fs: Fs, snaps: seq<nat>)
    requires StoreOk(fs, snaps)
    ensures Loadable(fs)
    ensures Walk(fs.disk, SuperRoot(fs.sb), snaps)
    ensures forall i :: 0 <= i < |snaps| ==> 0 < snaps[i] < DISK_BLOCKS && Terminated(fs.disk[snaps[i]], 16)
    ensures SuperRoot(fs.sb) < DISK_BLOCKS && (HasLiveDir(fs) ==> DirKept(fs, LiveDir(fs)))
  {
    hide Get32, DirGood, DirUses, Free, Terminated, SuperOk, DiskBitmap, DirKept, HasLiveDir, SnapUses;
    RecoversSelf(fs, snaps);
    SoundHasDir(fs, snaps);
    ChainIsWalk(fs.disk, SuperRoot(fs.sb), snaps);
    forall i | 0 <= i < |snaps| ensures 0 < snaps[i] < DISK_BLOCKS && Terminated(fs.disk[snaps[i]], 16) {
      assert SnapSafe(fs.disk, fs.bitmap, snaps[i]);
    }
  }

  lemma {:induction false} ChainIsWalk(disk: Disk, root: nat, snaps: seq<nat>)
    requires ChainOk(disk, root, snaps)
    ensures Walk(disk, root, snaps)
    decreases snaps
  {
    hide IsSnap, SnapParent;
    if snaps != [] {
      ChainIsWalk(disk, SnapParent(disk[root]), snaps[1..]);
    }
  }

  lemma HeadEntries(disk: Disk, d: nat)
    requires DirGood(disk, d)
    ensures DirCount(disk[d]) <= MAX_ENTRIES && DirCount(disk[d]) <= |DirEntries(disk, d)|
    ensures forall i :: 0 <= i < DirCount(disk[d]) ==> DirEntries(disk, d)[i] == EntryAt(disk[d], i)
  {
    hide Get32, Terminated, Sealed, StrAt;
  }

  lemma TxKeepsDir(fs: Fs, fs': Fs, d: nat)
    requires DirKept(fs, d) && fs' == fs.(tx := fs'.tx, txGen := fs'.txGen)
    ensures DirKept(fs', d)
  {
  }

  // ---- the volume ---------------------------------------------------------

  class Volume {
    const dev: Cache
    const bitmap: array<byte>
    var dirty: bool
    var hint: nat
    var mounted: bool
    var sb: Sector
    var tx: Tx
    var txGen: nat

    ghost predicate Valid()
      reads this, dev, dev.slots, bitmap
    {
      && dev.Valid()
      && bitmap as object != dev.slots as object
      && bitmap.Length == 1024
      && OBJECT_LBA <= hint <= DISK_BLOCKS
    }

    /** Memory and disk as one value; the cache slots do not show. */
    ghost function View(): Fs
      reads this, dev, bitmap
      requires bitmap.Length == 1024 && OBJECT_LBA <= hint <= DISK_BLOCKS
    {
      Fs(dev.disk, dev.log, bitmap[..], dirty, hint, mounted, sb, tx, txGen)
    }

    /** Memory when the kernel starts in front of disk d. */
    constructor (d: Disk)
      ensures Valid() && View() == PowerOn(d)
      ensures fresh(dev) && fresh(dev.slots) && fresh(bitmap)
    {
      dev := new Cache(d);
      bitmap := new byte[1024](_ => 0);
      dirty, hint, mounted := false, OBJECT_LBA, false;
      sb, tx, txGen := ZERO_SECTOR, NO_TX, 0;
      new;
      assert bitmap[..] == ZeroMap();
    }

    method BlockRead(lba: nat) returns (s: Sector)
      requires Valid() && 0 < lba < DISK_BLOCKS
      modifies dev.slots
      ensures Valid() && View() == old(View()) && s == View().disk[lba]
    {
      s := dev.Read(lba);
    }

    method BlockWrite(lba: nat, s: Sector)
      requires Valid() && 0 < lba < DISK_BLOCKS
      modifies dev, dev.slots
      ensures Valid() && View() == WriteBlock(old(View()), lba, s)
    {
      dev.Store(lba, s);
    }

    // ---- bitmap -----------------------------------------------------------

    method BitmapTest(b: nat) returns (used: bool)
      requires Valid()
      ensures used == Used(bitmap[..], b)
    {
      if b / 8 >= bitmap.Length { return true; }
      used := Bit(bitmap[b / 8], b % 8);
    }

    method BitmapSet(b: nat)
      requires Valid()
      modifies bitmap, this`dirty
      ensures Valid() && bitmap[..] == Mark(old(bitmap[..]), b)
      ensures dirty == (old(dirty) || b / 8 < 1024)
    {
      hide Bit;
      if b / 8 >= bitmap.Length { return; }
      bitmap[b / 8] := SetBit(bitmap[b / 8], b % 8);
      dirty := true;
      assert bitmap[..] == Mark(old(bitmap[..]), b);
    }

    method FreeBlock(lba: nat)
      requires Valid()
      modifies bitmap, this`dirty, this`hint
      ensures Valid() && View() == Store.FreeBlock(old(View()), lba)
    {
      hide Bit;
      if lba < OBJECT_LBA || lba >= DISK_BLOCKS { return; }
      bitmap[lba / 8] := ClearBit(bitmap[lba / 8], lba % 8);
      dirty := true;
      assert bitmap[..] == Unmark(old(bitmap[..]), lba);
      if lba < hint { hint := lba; }
    }

    method AllocBlock() returns (b: nat)
      requires Valid()
      modifies this`dirty, this`hint, bitmap, dev, dev.slots
      ensures Valid() && (View(), b) == Store.AllocBlock(old(View()))
    {
      hide Bit;
      ghost var bm := bitmap[..];
      var i := hint;
      while i < DISK_BLOCKS
        invariant Valid() && View() == old(View())
        invariant hint <= i <= DISK_BLOCKS
        invariant forall k: nat :: hint <= k < i ==> Used(bm, k)
      {
        var used := BitmapTest(i);
        if !used {
          assert FindFree(bm, hint, DISK_BLOCKS) == i;
          Take(i);
          return i;
        }
        i := i + 1;
      }
      assert FindFree(bm, hint, DISK_BLOCKS) == DISK_BLOCKS;
      i := OBJECT_LBA;
      while i < hint
        invariant Valid() && View() == old(View())
        invariant OBJECT_LBA <= i <= hint
        invariant forall k: nat :: OBJECT_LBA <= k < i ==> Used(bm, k)
      {
        var used := BitmapTest(i);
        if !used {
          assert FindFree(bm, OBJECT_LBA, hint) == i;
          Take(i);
          return i;
        }
        i := i + 1;
      }
      assert FindFree(bm, OBJECT_LBA, hint) == hint;
      return 0;
    }

    method Take(i: nat)
      requires Valid() && InStore(i)
      modifies this`dirty, this`hint, bitmap, dev, dev.slots
      ensures Valid() && View() == Claim(old(View()), i)
    {
      BitmapSet(i);
      BlockWrite(i, ZERO_SECTOR);
      hint := i + 1;
    }

    method SaveBitmap()
      requires Valid()
      modifies this`dirty, dev, dev.slots
      ensures Valid() && View() == Store.SaveBitmap(old(View()))
    {
      if !dirty { return; }
      var i := 0;
      ghost var fs := View();
      ghost var a := WriteBlock(fs, ALLOC_LBA, BitmapSector(fs.bitmap, 0));
      ghost var b := WriteBlock(a, ALLOC_LBA + 1, BitmapSector(fs.bitmap, 1));
      while i < 2
        invariant 0 <= i <= 2 && Valid()
        invariant View() == if i == 0 then fs else if i == 1 then a else b
      {
        assert bitmap[i * 512..(i + 1) * 512] == BitmapSector(fs.bitmap, i);
        BlockWrite(ALLOC_LBA + i, bitmap[i * 512..(i + 1) * 512]);
        i := i + 1;
      }
      dirty := false;
    }

    method LoadBitmap()
      requires Valid()
      modifies this`dirty, bitmap, dev.slots
      ensures Valid() && View() == old(View()).(bitmap := DiskBitmap(old(View()).disk), dirty := false)
    {
      var i := 0;
      ghost var d := dev.disk;
      while i < 2
        invariant 0 <= i <= 2 && Valid() && dev.disk == d
        invariant bitmap[..i * 512] == DiskBitmap(d)[..i * 512]
      {
        var buf := BlockRead(ALLOC_LBA + i);
        var j := 0;
        while j < 512
          invariant 0 <= j <= 512 && Valid() && dev.disk == d
          invariant bitmap[..i * 512 + j] == DiskBitmap(d)[..i * 512 + j]
        {
          bitmap[i * 512 + j] := buf[j];
          assert DiskBitmap(d)[i * 512 + j] == buf[j];
          assert bitmap[..i * 512 + j + 1] == bitmap[..i * 512 + j] + [buf[j]];
          assert DiskBitmap(d)[..i * 512 + j + 1] == DiskBitmap(d)[..i * 512 + j] + [buf[j]];
          j := j + 1;
        }
        i := i + 1;
      }
      assert bitmap[..] == bitmap[..2 * 512] == DiskBitmap(d)[..2 * 512] == DiskBitmap(d);
      dirty := false;
    }

    // ---- superblock, format, mount ------------------------------------------

    method WriteSuper()
      requires Valid()
      modifies this`sb, dev, dev.slots
      ensures Valid() && View() == Store.WriteSuper(old(View()))
    {
      hide BuildSuper, Get32;
      var s := FillSuper(SuperRoot(sb), SuperTime(sb), (SuperGen(sb) + 1) % TWO32);
      sb := s;
      BlockWrite(SUPER_LBA, s);
    }

    /** The superblock in memory changes only when the one on disk is accepted. */
    method ReadSuper() returns (ok: bool)
      requires Valid()
      modifies this`sb, dev.slots
      ensures Valid() && ok == SuperOk(old(View()).disk[SUPER_LBA])
      ensures View() == if ok then old(View()).(sb := old(View()).disk[SUPER_LBA]) else old(View())
    {
      hide Hash, Put32, Get32;
      var s := BlockRead(SUPER_LBA);
      if s[..8] != SUPER_MAGIC { return false; }
      var ck := ContentHash(Put32(s, 32, 0));
      if ck != Get32(s, 32) { return false; }
      sb := s;
      return true;
    }

    method InitBitmap()
      requires Valid()
      modifies bitmap, this`dirty
      ensures Valid() && View() == old(View()).(bitmap := MarkRange(ZeroMap(), OBJECT_LBA), dirty := true)
    {
      hide Bit, Used, Mark;
      forall i | 0 <= i < bitmap.Length {
        bitmap[i] := 0;
      }
      assert bitmap[..] == ZeroMap();
      for i := 0 to OBJECT_LBA
        invariant Valid() && bitmap[..] == MarkRange(ZeroMap(), i)
      {
        BitmapSet(i);
      }
      dirty := true;
    }

    method Format()
      requires Valid()
      modifies this`sb, this`dirty, this`mounted, bitmap, dev, dev.slots
      ensures Valid() && View() == Snapshots.Format(old(View()))
    {
      hide BuildSuper, MarkRange, BitmapSector, Get32;
      sb := BuildSuper(0, 0, 1);
      dev.Clear();
      InitBitmap();
      WriteSuper();
      SaveBitmap();
      mounted := true;
    }

    method MountDisk() returns (ok: bool)
      requires Valid()
      modifies this`sb, this`dirty, this`mounted, bitmap, dev.slots
      ensures Valid() && ok == SuperOk(old(View()).disk[SUPER_LBA])
      ensures View() == if ok then MountFrom(old(View())) else old(View())
    {
      hide SuperOk, MountFresh;
      dev.Clear();
      ok := ReadSuper();
      if !ok { return; }
      LoadBitmap();
      mounted := true;
    }

    method Mount()
      requires Valid()
      modifies this, bitmap, dev, dev.slots
      ensures Valid() && View() == MountFrom(old(View()))
    {
      hide SuperOk, Snapshots.Format, Directory.CreateDir, Snapshots.SnapCreate, Snapshots.TxCommit, SuperRoot;
      var ok := MountDisk();
      if ok { return; }
      Format();
      var d := CreateDir();
      if d == 0 { return; }
      TxBegin();
      tx := tx.(newRoot := d, dirty := true);
      var s := SnapCreate(BOOT_OK);
      TxCommit();
    }

    // ---- directories ----------------------------------------------------------

    method CreateDir() returns (d: nat)
      requires Valid()
      modifies this`dirty, this`hint, bitmap, dev, dev.slots
      ensures Valid() && (View(), d) == Directory.CreateDir(old(View()))
      ensures d < DISK_BLOCKS
    {
      hide Hash, Store.AllocBlock;
      d := AllocBlock();
      if d == 0 { return; }
      var s := SealBlock(Put32(ZERO_SECTOR, 0, ABSTRACT_MAGIC), 8);
      BlockWrite(d, s);
    }

    // ---- transactions and snapshots -------------------------------------------

    method TxBegin()
      requires Valid()
      modifies this`tx, this`txGen
      ensures Valid() && View() == Snapshots.TxBegin(old(View()))
    {
      hide Get32;
      if tx.active { return; }
      txGen := txGen + 1;
      tx := Tx(true, txGen, SuperRoot(sb), 0, 0, false);
    }

    method TxAbort()
      requires Valid()
      modifies this`tx
      ensures Valid() && View() == Snapshots.TxAbort(old(View()))
    {
      if !tx.active { return; }
      tx := tx.(active := false);
    }

    method TxCommit()
      requires Valid()
      modifies this`tx, this`dirty, this`sb, dev, dev.slots
      ensures Valid() && View() == Snapshots.TxCommit(old(View()))
    {
      hide Store.SaveBitmap, Store.WriteSuper;
      if !tx.active { return; }
      if !tx.dirty {
        tx := tx.(active := false);
        return;
      }
      SaveBitmap();
      WriteSuper();
      tx := tx.(active := false);
    }

    method SnapCreate(name: CStr) returns (b: nat)
      requires Valid()
      modifies this`tx, this`dirty, this`hint, this`sb, bitmap, dev, dev.slots
      ensures Valid() && (View(), b) == Snapshots.SnapCreate(old(View()), name)
    {
      hide Hash, Store.AllocBlock, PutName, Get32;
      if !tx.active || !tx.dirty { return 0; }
      b := AllocBlock();
      if b == 0 { return; }
      var a := Put32(Put32(ZERO_SECTOR, 0, SNAP_MAGIC), 4, SuperRoot(sb));
      var c := CopyName(Put32(Put32(a, 8, tx.newRoot), 12, SuperTime(sb)), 16, name);
      var s := SealBlock(c, 48);
      BlockWrite(b, s);
      tx := tx.(snap := b);
      sb := SetRoot(sb, b);
    }

    /** Append an entry; the directory is one that create and add_entry made. */
    method AddEntry(d: nat, name: CStr, obj: u32, kind: byte) returns (ok: bool)
      requires Valid() && DirOk(View().disk, d) && d !in Free(View().bitmap)
      modifies this`dirty, this`hint, bitmap, dev, dev.slots
      ensures Valid() && (View(), ok) == Directory.AddEntry(old(View()), d, name, obj, kind)
    {
      hide Hash, Get32, Put32, Directory.CreateDir, PutEntry, EmptyDir, Terminated;
      var s := BlockRead(d);
      var ck := ContentHash(Put32(s, 8, 0));
      if ck != Get32(s, 8) { return false; }
      if DirCount(s) < MAX_ENTRIES {
        var t := FillEntry(s, name, obj, kind);
        BlockWrite(d, t);
        return true;
      }
      var b := CreateDir();
      if b == 0 { return false; }
      s := BlockRead(d);
      BlockWrite(d, Put32(s, 496, b));
      s := BlockRead(b);
      EmptyDirFields();
      NewDirContent(old(View()));
      var t := FillEntry(s, name, obj, kind);
      BlockWrite(b, t);
      return true;
    }

    /** The first entry of that name across the linked blocks. */
    method FindEntry(d: nat, name: CStr) returns (found: Option<Entry>)
      requires Valid() && DirOk(View().disk, d)
      modifies dev.slots
      ensures Valid() && View() == old(View()) && found == Directory.FindEntry(View().disk, d, name)
    {
      hide Hash, Get32, Sealed, Terminated, StrAt, FirstMatch, DirEntries, Entries, DirNext;
      var cur := d;
      ghost var disk := View().disk;
      ghost var rest := DirEntries(disk, d);
      DirParts(disk, d);
      while cur != 0
        invariant Valid() && View() == old(View())
        invariant FirstMatch(DirEntries(disk, d), name) == FirstMatch(rest, name)
        invariant cur == 0 || cur == d || (cur == DirNext(disk[d]) && cur != d)
        invariant rest == if cur == 0 then [] else if cur == d then DirEntries(disk, d) else Entries(disk[cur])
        decreases if cur == d then 2 else if cur == 0 then 0 else 1
      {
        var s := BlockRead(cur);
        found := ScanBlock(s, name);
        ghost var next := if cur == d && DirNext(s) != 0 then Entries(disk[DirNext(s)]) else [];
        assert rest == Entries(s) + next;
        MatchSplit(Entries(s), next, name);
        if found.Some? { return; }
        rest := next;
        cur := DirNext(s);
      }
      found := None;
      NoMatch(name);
    }

    // ---- objects --------------------------------------------------------------

    method AllocObject(kind: byte) returns (o: nat)
      requires Valid()
      modifies this`dirty, this`hint, bitmap, dev, dev.slots
      ensures Valid() && (View(), o) == Objects.AllocObject(old(View()), kind)
      ensures o < DISK_BLOCKS
    {
      hide Hash, Store.AllocBlock, Put32, Get32;
      o := AllocBlock();
      if o == 0 { return; }
      var a := Put32(ZERO_SECTOR, 0, OBJ_MAGIC_BASE + kind)[4 := kind];
      var s := SealBlock(Put32(a, 56, SuperTime(sb)), 60);
      BlockWrite(o, s);
    }

    method WriteObject(o: nat, data: seq<byte>) returns (ok: bool)
      requires Valid() && 0 < o < DISK_BLOCKS && Pointers(ObjBlocks(View().disk[o])) && |data| < 0x8000_0000
      modifies this`dirty, this`hint, bitmap, dev, dev.slots
      ensures Valid() && (View(), ok) == Objects.WriteObject(old(View()), o, data)
    {
      hide Hash, Store.AllocBlock, Get32, Put32, Chunk, ObjBlocks, WriteChunks, SetObj;
      ghost var fs := View();
      var s := BlockRead(o);
      if Get32(s, 0) / 256 != OBJ_MAGIC_BASE / 256 { return false; }
      var olds := ObjBlocks(s);
      var n := BlocksFor(|data|);
      var got: seq<u32> := [];
      NoChunks(fs, olds, data);
      for i := 0 to n
        invariant Valid() && |got| == i
        invariant WriteChunks(fs, olds, data, i) == (View(), got, true)
      {
        ChunkStep(fs, olds, data, i, View(), got);
        var db := olds[i];
        if db == 0 {
          db := AllocBlock();
          if db == 0 {
            ChunksStop(fs, olds, data, i + 1, n);
            return false;
          }
        }
        BlockWrite(db, Chunk(data, i));
        got := got + [db];
      }
      var h := ContentHash(data);
      var bs := Fill(got);
      var t := FillObject(s, bs, |data|, h);
      BlockWrite(o, t);
      return true;
    }

    method ReadObject(o: nat) returns (c: Content)
      requires Valid() && 0 < o < DISK_BLOCKS && Pointers(ObjBlocks(View().disk[o]))
      modifies dev.slots
      ensures Valid() && View() == old(View()) && c == Objects.ReadObject(View().disk, o)
    {
      hide Get32, ObjBlocks, Gather;
      var s := BlockRead(o);
      if Get32(s, 0) / 256 != OBJ_MAGIC_BASE / 256 { return Absent; }
      var bs := ObjBlocks(s);
      ghost var disk := View().disk;
      var left := ObjSize(s);
      var buf: seq<byte> := [];
      var i := 0;
      while i < 4 && left > 0 && bs[i] != 0
        invariant 0 <= i <= 4 && 0 <= left && Valid() && View() == old(View())
        invariant Gather(disk, bs, 0, ObjSize(s)) == buf + Gather(disk, bs, i, left)
        decreases 4 - i
      {
        var block := BlockRead(bs[i]);
        var copy := if left < 512 then left else 512;
        GatherStep(disk, bs, i, left, buf);
        buf := buf + block[..copy];
        left := left - copy;
        i := i + 1;
      }
      GatherEnd(disk, bs, i, left);
      c := Content(s[4], ObjSize(s), buf);
    }

    // ---- saving and loading the form table ------------------------------------

    method SaveObject(f: Form) returns (o: nat)
      requires Valid()
      modifies this`dirty, this`hint, bitmap, dev, dev.slots
      ensures Valid() && (View(), o) == Forms.SaveObject(old(View()), f)
      ensures o < DISK_BLOCKS
    {
      hide Hash, Get32, NewObj, Objects.WriteObject, Payload, Store.FreeBlock;
      ghost var fs := View();
      o := AllocObject(FORM);
      if o == 0 { return; }
      NewObjFields(FORM, SuperTime(fs.sb));
      var ok := WriteObject(o, Payload(f));
      if !ok {
        FreeBlock(o);
        o := 0;
      }
    }

    method SaveAll(fms: seq<Form>)
      requires Valid()
      modifies this, bitmap, dev, dev.slots
      ensures Valid() && View() == Snapshots.SaveAll(old(View()), fms)
    {
      hide Directory.CreateDir, Forms.SaveObject, Directory.AddEntry, DirHeld, Snapshots.SnapCreate,
        Snapshots.TxCommit, Snapshots.TxBegin, Snapshots.TxAbort, DirKept, DirEntries, Free, DirNext, DirCount;
      if !mounted { return; }
      TxBegin();
      CreateDirSpec(View());
      var d := CreateDir();
      if d == 0 {
        TxAbort();
        return;
      }
      ghost var a := View();
      for i := 0 to |fms|
        invariant Valid() && View() == SaveForms(a, d, fms[..i])
      {
        assert fms[..i + 1][..i] == fms[..i];
        SaveForm(d, fms[i]);
      }
      assert fms[..|fms|] == fms;
      tx := tx.(newRoot := d, dirty := true);
      var s := SnapCreate(LIVE);
      TxCommit();
    }

    /** One round of the save loop; its failures go unnoticed. */
    method SaveForm(d: nat, f: Form)
      requires Valid() && DirHeld(View(), d)
      modifies this`dirty, this`hint, bitmap, dev, dev.slots
      ensures Valid() && View() == Forms.SaveForm(old(View()), d, f)
    {
      hide Forms.SaveObject, Directory.AddEntry, DirOk, DirNext, Free;
      SaveObjectKeepsDir(View(), d, f);
      var o := SaveObject(f);
      if o != 0 {
        var ok := AddEntry(d, f.name, o, FORM);
      }
    }

    /** The form table a load builds from the live snapshot; None leaves the old one. */
    method LoadAll() returns (table: Option<seq<Form>>)
      requires Valid() && Loadable(View())
      modifies dev.slots
      ensures Valid() && View() == old(View()) && table == Load(View().disk, SuperRoot(View().sb))
    {
      hide Get32, Parse, Terminated, Sealed;
      var root := SuperRoot(sb);
      if root == 0 { return None; }
      var snap := BlockRead(root);
      if Get32(snap, 0) != SNAP_MAGIC { return None; }
      var d := SnapRoot(snap);
      if d == 0 { return None; }
      var s := BlockRead(d);
      if Get32(s, 0) != ABSTRACT_MAGIC { return None; }
      ghost var disk := View().disk;
      HeadEntries(disk, d);
      var forms: seq<Form> := [];
      for i := 0 to DirCount(s)
        invariant Valid() && View() == old(View())
        invariant |forms| == i && forall k :: 0 <= k < i ==> forms[k] == Listed(disk, d)[k]
      {
        var f := LoadForm(s, d, i);
        forms := forms + [f];
      }
      assert forms == LoadDir(disk, d);
      table := Some(forms);
    }

    method LoadForm(s: Sector, ghost d: nat, i: nat) returns (f: Form)
      requires Valid() && DirGood(View().disk, d) && s == View().disk[d] && i < DirCount(s)
      modifies dev.slots
      ensures Valid() && View() == old(View())
      ensures i < |Listed(View().disk, d)| && f == Listed(View().disk, d)[i]
    {
      hide Get32, Parse, Terminated, Sealed, StrAt, Objects.ReadObject, ObjBlocks, BlocksFor;
      HeadEntries(View().disk, d);
      var name := ReadName(s, EntryOff(i));
      ghost var e := EntryAt(s, i);
      assert DirEntries(View().disk, d)[i] == e && ObjOk(View().disk, e.obj);
      var c := ReadObject(Get32(s, EntryOff(i) + 32));
      match c
      case Content(kind, _, bytes) =>
        f := if kind == FORM then Parse(name, bytes) else Form(name, [], 0, DEFAULT_MODE);
      case Absent =>
        f := Form(name, [], 0, DEFAULT_MODE);
    }

    /** Walk the parent links until the name matches. */
    method SnapFind(name: CStr, ghost snaps: seq<nat>) returns (r: nat)
      requires Valid() && Walk(View().disk, SuperRoot(View().sb), snaps)
      requires forall i :: 0 <= i < |snaps| ==> 0 < snaps[i] < DISK_BLOCKS && Terminated(View().disk[snaps[i]], 16)
      modifies dev.slots
      ensures Valid() && View() == old(View()) && r == History.SnapFind(View().disk, snaps, name)
    {
      hide Get32, Terminated, StrAt, StrLen;
      var cur := SuperRoot(sb);
      ghost var disk, rest := View().disk, snaps;
      while cur != 0
        invariant Valid() && View() == old(View()) && Walk(disk, cur, rest)
        invariant forall i :: 0 <= i < |rest| ==> 0 < rest[i] < DISK_BLOCKS && Terminated(disk[rest[i]], 16)
        invariant History.SnapFind(disk, snaps, name) == History.SnapFind(disk, rest, name)
        decreases |rest|
      {
        var s := BlockRead(cur);
        if Get32(s, 0) != SNAP_MAGIC { return 0; }
        if name != [] {
          assert Terminated(disk[rest[0]], 16);
          var same := CompareName(s, 16, name);
          if same { return cur; }
        }
        cur := SnapParent(s);
        rest := rest[1..];
      }
      r := 0;
    }

    /** What boot_policy_execute does to the volume. */
    method BootPolicy()
      requires Valid()
      modifies this, bitmap, dev, dev.slots
      ensures Valid() && View() == BootCommit(old(View()))
    {
      hide Snapshots.SnapCreate, Snapshots.TxCommit, Snapshots.TxBegin;
      TxBegin();
      tx := tx.(dirty := true);
      var s := SnapCreate(BOOT_OK);
      TxCommit();
    }

    // ---- the user table ---------------------------------------------------------

    method UsersSave(data: seq<byte>) returns (ok: bool)
      requires Valid() && |data| <= MAX_DATA && SuperRoot(View().sb) < DISK_BLOCKS
      requires mounted && HasLiveDir(View()) ==> DirKept(View(), LiveDir(View()))
      modifies this, bitmap, dev, dev.slots
      ensures Valid() && (View(), ok) == Users.UsersSave(old(View()), data)
    {
      hide Get32, DirKept, Users.UsersObject, Objects.WriteObject, Snapshots.SnapCreate, Snapshots.TxCommit,
        ObjBlocks, Pointers, SuperRoot, SnapRoot, HasUsers, Free, Directory.FindEntry, DirOk, DirUses;
      if !mounted { return false; }
      TxBegin();
      var root := SuperRoot(sb);
      if root == 0 {
        TxAbort();
        return false;
      }
      var snap := BlockRead(root);
      if Get32(snap, 0) != SNAP_MAGIC {
        TxAbort();
        return false;
      }
      var d := SnapRoot(snap);
      if d == 0 {
        TxAbort();
        return false;
      }
      assert DirKept(old(View()), d);
      TxKeepsDir(old(View()), View(), d);
      UsersTarget(View(), d);
      var o := UsersObject(d);
      if o == 0 {
        TxAbort();
        return false;
      }
      ok := WriteObject(o, data);
      if !ok {
        TxAbort();
        return;
      }
      tx := tx.(newRoot := d, dirty := true);
      var s := SnapCreate(USERS_UPDATE);
      TxCommit();
    }

    method UsersObject(d: nat) returns (o: nat)
      requires Valid() && DirKept(View(), d)
      modifies this`dirty, this`hint, bitmap, dev, dev.slots
      ensures Valid() && (View(), o) == Users.UsersObject(old(View()), d)
    {
      hide Get32, DirKept, DirOk, Objects.AllocObject, Directory.AddEntry, Directory.FindEntry;
      KeptIsHeld(View(), d);
      AllocKeepsDir(View(), d, CONFIG);
      var e := FindEntry(d, USERS);
      if e.Some? { return e.value.obj; }
      o := AllocObject(CONFIG);
      if o == 0 { return; }
      var ok := AddEntry(d, USERS, o, CONFIG);
    }

    method UsersLoad() returns (data: Option<seq<byte>>)
      requires Valid() && UsersReady(View())
      modifies dev.slots
      ensures Valid() && View() == old(View()) && data == Users.UsersLoad(View())
    {
      hide Get32, DirOk, Objects.ReadObject, Directory.FindEntry, ObjBlocks, BlocksFor;
      var root := SuperRoot(sb);
      if root == 0 { return None; }
      var snap := BlockRead(root);
      if Get32(snap, 0) != SNAP_MAGIC { return None; }
      var d := SnapRoot(snap);
      if d == 0 { return None; }
      var e := FindEntry(d, USERS);
      if e.None? { return None; }
      var c := ReadObject(e.value.obj);
      data := if c.Absent? then None else Some(c.bytes);
    }
  }
}

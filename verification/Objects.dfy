/** Objects: a header block naming up to four data blocks. */
module Objects {
  import opened Bytes
  import opened BlockCache
  import opened Store

  const MAX_DATA := 2048

  datatype Content = Absent | Content(kind: byte, size: u32, bytes: seq<byte>)

  function ObjBlocks(s: Sector): (r: seq<u32>)
    ensures |r| == 4
  {
    [Get32(s, 16), Get32(s, 20), Get32(s, 24), Get32(s, 28)]
  }

  function ObjSize(s: Sector): u32 { Get32(s, 12) }

  predicate IsObj(s: Sector) {
    Get32(s, 0) / 256 == OBJ_MAGIC_BASE / 256
  }

  predicate Pointers(bs: seq<u32>) {
    |bs| == 4 && forall i :: 0 <= i < 4 ==> bs[i] < DISK_BLOCKS
  }

  function NewObj(kind: byte, time: u32): Sector {
    var a := Put32(ZERO_SECTOR, 0, OBJ_MAGIC_BASE + kind)[4 := kind];
    Seal(Put32(a, 56, time), 60)
  }

  function AllocObject(fs: Fs, kind: byte): (r: (Fs, nat)) {
    var (fs1, b) := AllocBlock(fs);
    if b == 0 then (fs1, 0) else (WriteBlock(fs1, b, NewObj(kind, SuperTime(fs.sb))), b)
  }

  function BlocksFor(n: nat): (k: nat)
    ensures k <= 4
  {
    if (n + 511) / 512 < 4 then (n + 511) / 512 else 4
  }

  /** The i-th 512-byte piece of the data, zero padded. */
  function Chunk(data: seq<byte>, i: nat): Sector
    requires i < BlocksFor(|data|)
  {
    var piece := data[512 * i..if 512 * i + 512 < |data| then 512 * i + 512 else |data|];
    piece + Zeros(512 - |piece|)
  }

  /** The data loop: reuse the blocks the header names, allocate the others. */
  function WriteChunks(fs: Fs, olds: seq<u32>, data: seq<byte>, n: nat): (r: (Fs, seq<u32>, bool))
    requires Pointers(olds) && n <= BlocksFor(|data|)
  {
    if n == 0 then (fs, [], true)
    else
      var (a, got, ok) := WriteChunks(fs, olds, data, n - 1);
      if !ok then (a, got, false)
      else if olds[n - 1] != 0 then (WriteBlock(a, olds[n - 1], Chunk(data, n - 1)), got + [olds[n - 1]], true)
      else
        var (b, x) := AllocBlock(a);
        if x == 0 then (b, got, false) else (WriteBlock(b, x, Chunk(data, n - 1)), got + [x], true)
  }

  function SetObj(s: Sector, bs: seq<u32>, size: u32, hash: u32): Sector
    requires |bs| == 4
  {
    var a := Put32(Put32(s, 16, bs[0]), 20, bs[1]);
    var b := Put32(Put32(a, 24, bs[2]), 28, bs[3]);
    Seal(Put32(Put32(b, 12, size), 32, hash), 60)
  }

  function Fill(bs: seq<u32>): (r: seq<u32>)
    requires |bs| <= 4
    ensures |r| == 4 && forall i :: 0 <= i < 4 ==> r[i] == if i < |bs| then bs[i] else 0
  {
    seq(4, i => if 0 <= i < |bs| then bs[i] else 0)
  }

  /** hexafs_object_write_data */
  function WriteObject(fs: Fs, o: nat, data: seq<byte>): (r: (Fs, bool))
    requires 0 < o < DISK_BLOCKS && Pointers(ObjBlocks(fs.disk[o])) && |data| < 0x8000_0000
  {
    var s := fs.disk[o];
    if !IsObj(s) then (fs, false)
    else
      var (a, got, ok) := WriteChunks(fs, ObjBlocks(s), data, BlocksFor(|data|));
      if !ok || |got| > 4 then (a, false)
      else (WriteBlock(a, o, SetObj(s, Fill(got), |data|, Hash(data))), true)
  }

  /** The data loop of hexafs_object_read_data. */
  function Gather(disk: Disk, bs: seq<u32>, i: nat, left: nat): seq<byte>
    requires Pointers(bs) && i <= 4
    decreases 4 - i
  {
    if i == 4 || left == 0 || bs[i] == 0 then []
    else
      var take := if left < 512 then left else 512;
      disk[bs[i]][..take] + Gather(disk, bs, i + 1, left - take)
  }

  function ReadObject(disk: Disk, o: nat): Content
    requires 0 < o < DISK_BLOCKS && Pointers(ObjBlocks(disk[o]))
  {
    var s := disk[o];
    if !IsObj(s) then Absent
    else Content(s[4], ObjSize(s), Gather(disk, ObjBlocks(s), 0, ObjSize(s)))
  }

  // ---- well-formed objects ------------------------------------------------

  /** The header and data blocks of an object. */
  predicate ObjBlock(disk: Disk, o: nat, b: nat)
    requires o < DISK_BLOCKS
  {
    b == o || (b != 0 && b in ObjBlocks(disk[o]))
  }

  /** An object that fits its four blocks. */
  predicate ObjOk(disk: Disk, o: nat) {
    ObjShape(disk, o) && ObjSize(disk[o]) <= MAX_DATA
  }

  /** A header that names its own distinct blocks, whatever size it records. */
  predicate ObjShape(disk: Disk, o: nat) {
    && InStore(o)
    && IsObj(disk[o])
    && var bs := ObjBlocks(disk[o]);
    && (forall i :: 0 <= i < 4 ==> if i < BlocksFor(ObjSize(disk[o])) then InStore(bs[i]) && bs[i] != o else bs[i] == 0)
    && (forall i, j :: 0 <= i < j < 4 && bs[i] != 0 ==> bs[i] != bs[j])
  }

  /** An object is unchanged on any disk that agrees on its own blocks. */
  lemma ObjectFrame(disk: Disk, disk': Disk, o: nat)
    requires ObjOk(disk, o)
    requires forall b :: 0 <= b < DISK_BLOCKS && ObjBlock(disk, o, b) ==> disk'[b] == disk[b]
    ensures ObjOk(disk', o) && ReadObject(disk', o) == ReadObject(disk, o)
    ensures forall b :: 0 <= b ==> (ObjBlock(disk', o, b) <==> ObjBlock(disk, o, b))
  {
    hide Get32, Gather;
    assert ObjBlock(disk, o, o);
    var bs := ObjBlocks(disk[o]);
    forall i | 0 <= i < 4 && bs[i] != 0 ensures disk'[bs[i]] == disk[bs[i]] {
      assert ObjBlock(disk, o, bs[i]);
    }
    GatherFrame(disk, disk', bs, 0, ObjSize(disk[o]));
  }

  lemma {:induction false} GatherFrame(disk: Disk, disk': Disk, bs: seq<u32>, i: nat, left: nat)
    requires Pointers(bs) && i <= 4
    requires forall k :: 0 <= k < 4 && bs[k] != 0 ==> disk'[bs[k]] == disk[bs[k]]
    ensures Gather(disk', bs, i, left) == Gather(disk, bs, i, left)
    decreases 4 - i
  {
    if i < 4 && left != 0 && bs[i] != 0 {
      GatherFrame(disk, disk', bs, i + 1, left - if left < 512 then left else 512);
    }
  }

  lemma NewObjFields(kind: byte, time: u32)
    ensures var s := NewObj(kind, time);
            IsObj(s) && s[4] == kind && ObjSize(s) == 0 && ObjBlocks(s) == [0, 0, 0, 0]
  {
    hide Hash, Get32, Put32, Seal, Sealed;
    var m := OBJ_MAGIC_BASE + kind;
    var a := Put32(ZERO_SECTOR, 0, m);
    PutGet(ZERO_SECTOR, 0, m);
    var b := a[4 := kind];
    var c := Put32(b, 56, time);
    PutGet(b, 56, time);
    var s := NewObj(kind, time);
    SealSeals(c, 60);
    SameWord(s, a, 0);
    forall o | o in [12, 16, 20, 24, 28] ensures Get32(s, o) == 0 {
      SameWord(s, ZERO_SECTOR, o);
      ZeroWord(o);
    }
    assert 12 in [12, 16, 20, 24, 28] && 16 in [12, 16, 20, 24, 28] && 20 in [12, 16, 20, 24, 28];
    assert 24 in [12, 16, 20, 24, 28] && 28 in [12, 16, 20, 24, 28];
  }

  lemma SetObjFields(s: Sector, bs: seq<u32>, size: u32, hash: u32)
    requires |bs| == 4
    ensures var t := SetObj(s, bs, size, hash);
            && (IsObj(t) <==> IsObj(s)) && t[4] == s[4] && ObjSize(t) == size && ObjBlocks(t) == bs
            && Get32(t, 32) == hash && Sealed(t, 60)
  {
    hide Hash, Get32, Put32, Seal, Sealed;
    var a := Put32(s, 16, bs[0]);
    PutGet(s, 16, bs[0]);
    var b := Put32(a, 20, bs[1]);
    PutGet(a, 20, bs[1]);
    var c := Put32(b, 24, bs[2]);
    PutGet(b, 24, bs[2]);
    var d := Put32(c, 28, bs[3]);
    PutGet(c, 28, bs[3]);
    var e := Put32(d, 12, size);
    PutGet(d, 12, size);
    var f := Put32(e, 32, hash);
    PutGet(e, 32, hash);
    var t := Seal(f, 60);
    SealSeals(f, 60);
    SameWord(t, s, 0);
    SameWord(t, a, 16);
    SameWord(t, b, 20);
    SameWord(t, c, 24);
    SameWord(t, d, 28);
    SameWord(t, e, 12);
    SameWord(t, f, 32);
  }

  // ---- writing ------------------------------------------------------------

  /** The blocks an object already has: distinct, in the store, not free. */
  predicate Held(fs: Fs, olds: seq<u32>) {
    && Pointers(olds)
    && (forall i :: 0 <= i < 4 && olds[i] != 0 ==> InStore(olds[i]) && olds[i] !in Free(fs.bitmap))
    && (forall i, j :: 0 <= i < j < 4 && olds[i] != 0 ==> olds[i] != olds[j])
  }

  /** How many new blocks the first n pieces need. */
  function Missing(olds: seq<u32>, n: nat): nat
    requires n <= |olds|
  {
    if n == 0 then 0 else Missing(olds, n - 1) + if olds[n - 1] == 0 then 1 else 0
  }

  ghost predicate ChunksDone(fs: Fs, olds: seq<u32>, data: seq<byte>, n: nat, a: Fs, got: seq<u32>)
    requires Pointers(olds) && n <= BlocksFor(|data|)
  {
    && |got| == n
    && (forall i :: 0 <= i < n ==>
          && InStore(got[i]) && got[i] !in Free(a.bitmap)
          && (if olds[i] != 0 then got[i] == olds[i] else got[i] in Free(fs.bitmap))
          && a.disk[got[i]] == Chunk(data, i))
    && (forall i, j :: 0 <= i < j < n ==> got[i] != got[j])
  }

  /** Only memory of the allocator, free blocks and the named blocks change. */
  ghost predicate Touches(fs: Fs, a: Fs, olds: seq<u32>) {
    && Free(a.bitmap) <= Free(fs.bitmap)
    && a.sb == fs.sb && a.tx == fs.tx && a.mounted == fs.mounted
    && (forall b :: 0 <= b < DISK_BLOCKS && b !in Free(fs.bitmap) && !(b != 0 && b in olds) ==> a.disk[b] == fs.disk[b])
  }

  ghost predicate ChunksResult(fs: Fs, olds: seq<u32>, data: seq<byte>, n: nat, a: Fs, got: seq<u32>, ok: bool)
    requires Pointers(olds) && n <= BlocksFor(|data|)
  {
    && Touches(fs, a, olds)
    && |got| <= n
    && (ok ==> ChunksDone(fs, olds, data, n, a, got))
    && (ok <==> Missing(olds, n) <= |Free(fs.bitmap)|)
    && (ok ==> |Free(a.bitmap)| == |Free(fs.bitmap)| - Missing(olds, n))
  }

  lemma {:induction false} WriteChunksSpec(fs: Fs, olds: seq<u32>, data: seq<byte>, n: nat)
    requires Held(fs, olds) && n <= BlocksFor(|data|)
    ensures var (a, got, ok) := WriteChunks(fs, olds, data, n);
            ChunksResult(fs, olds, data, n, a, got, ok)
  {
    if n > 0 {
      WriteChunksSpec(fs, olds, data, n - 1);
      var (a, got, ok) := WriteChunks(fs, olds, data, n - 1);
      hide Chunk, Free, WriteBlock, ChunksResult, Held;
      if ok && olds[n - 1] != 0 {
        ReuseBlock(fs, olds, data, n - 1, a, got);
      } else if ok {
        NewBlock(fs, olds, data, n - 1, a, got);
      } else {
        NoBlock(fs, olds, data, n - 1, a, got);
      }
    }
  }

  lemma ReuseBlock(fs: Fs, olds: seq<u32>, data: seq<byte>, n: nat, a: Fs, got: seq<u32>)
    requires Held(fs, olds) && n < BlocksFor(|data|) && olds[n] != 0
    requires ChunksResult(fs, olds, data, n, a, got, true)
    ensures ChunksResult(fs, olds, data, n + 1, WriteBlock(a, olds[n], Chunk(data, n)), got + [olds[n]], true)
  {
    hide Chunk, Free;
    forall i | 0 <= i < n ensures got[i] != olds[n] {
    }
  }

  lemma NewBlock(fs: Fs, olds: seq<u32>, data: seq<byte>, n: nat, a: Fs, got: seq<u32>)
    requires Held(fs, olds) && n < BlocksFor(|data|) && olds[n] == 0
    requires ChunksResult(fs, olds, data, n, a, got, true)
    ensures var (b, x) := AllocBlock(a);
            if x == 0 then ChunksResult(fs, olds, data, n + 1, b, got, false)
            else ChunksResult(fs, olds, data, n + 1, WriteBlock(b, x, Chunk(data, n)), got + [x], true)
  {
    hide Chunk, AllocBlock;
    var (b, x) := AllocBlock(a);
    if x != 0 {
      assert InStore(x);
      hide Free;
      forall i | 0 <= i < n ensures got[i] != x {
      }
      var w := WriteBlock(b, x, Chunk(data, n));
      assert ChunksDone(fs, olds, data, n + 1, w, got + [x]);
    }
  }

  lemma NoBlock(fs: Fs, olds: seq<u32>, data: seq<byte>, n: nat, a: Fs, got: seq<u32>)
    requires Held(fs, olds) && n < BlocksFor(|data|)
    requires ChunksResult(fs, olds, data, n, a, got, false)
    ensures ChunksResult(fs, olds, data, n + 1, a, got, false)
  {
  }

  /** When the data loop fails, every block is in use. */
  lemma {:induction false} WriteChunksFails(fs: Fs, olds: seq<u32>, data: seq<byte>, n: nat)
    requires Pointers(olds) && n <= BlocksFor(|data|)
    ensures var (a, got, ok) := WriteChunks(fs, olds, data, n);
            !ok ==> Free(a.bitmap) == {}
  {
    hide Chunk, Free;
    if n > 0 {
      WriteChunksFails(fs, olds, data, n - 1);
    }
  }

  function Kept(data: seq<byte>): seq<byte> {
    if |data| <= MAX_DATA then data else data[..MAX_DATA]
  }

  /** The header names exactly the blocks that hold the pieces of the data. */
  ghost predicate Laid(disk: Disk, bs: seq<u32>, data: seq<byte>) {
    && Pointers(bs)
    && forall i :: 0 <= i < 4 ==>
        if i < BlocksFor(|data|) then bs[i] != 0 && disk[bs[i]] == Chunk(data, i) else bs[i] == 0
  }

  lemma {:induction false} GatherReassembles(disk: Disk, bs: seq<u32>, data: seq<byte>, i: nat)
    requires Laid(disk, bs, data) && i <= BlocksFor(|data|)
    requires 512 * i <= |data|
    ensures Gather(disk, bs, i, |data| - 512 * i) == Kept(data)[512 * i..]
    decreases 4 - i
  {
    hide Get32;
    if i < BlocksFor(|data|) {
      var left := |data| - 512 * i;
      var take := if left < 512 then left else 512;
      assert disk[bs[i]][..take] == data[512 * i..512 * i + take];
      if left <= 512 {
        assert Gather(disk, bs, i + 1, 0) == [];
      } else {
        GatherReassembles(disk, bs, data, i + 1);
      }
    } else if i < 4 {
      assert 512 * i == |data|;
    }
  }

  predicate Allocated(fs: Fs, o: nat)
    requires o < DISK_BLOCKS
  {
    forall b :: 0 <= b < DISK_BLOCKS && ObjBlock(fs.disk, o, b) ==> b !in Free(fs.bitmap)
  }

  /** Writing an object succeeds exactly when enough blocks are free, keeps the
      first 2048 bytes and records the full size, and touches only the object's
      own blocks and free ones. */
  lemma WriteObjectSpec(fs: Fs, o: nat, data: seq<byte>)
    requires ObjShape(fs.disk, o) && Allocated(fs, o) && |data| < 0x8000_0000
    ensures var (fs', ok) := WriteObject(fs, o, data);
            && Touches(fs, fs', ObjBlocks(fs.disk[o]) + [o])
            && (ok <==> Missing(ObjBlocks(fs.disk[o]), BlocksFor(|data|)) <= |Free(fs.bitmap)|)
            && (ok ==>
                  && |Free(fs'.bitmap)| == |Free(fs.bitmap)| - Missing(ObjBlocks(fs.disk[o]), BlocksFor(|data|))
                  && Pointers(ObjBlocks(fs'.disk[o]))
                  && ReadObject(fs'.disk, o) == Content(fs.disk[o][4], |data|, Kept(data))
                  && Allocated(fs', o)
                  && (forall b :: 0 <= b && ObjBlock(fs'.disk, o, b) ==>
                      ObjBlock(fs.disk, o, b) || b in Free(fs.bitmap))
                  && ObjShape(fs'.disk, o) && (|data| <= MAX_DATA ==> ObjOk(fs'.disk, o)))
            && (!ok ==> fs'.disk[o] == fs.disk[o])
  {
    hide Hash, Get32, ObjBlocks, SetObj, Chunk, WriteChunks, Gather, Free, Patch, BlocksFor;
    var s := fs.disk[o];
    var olds := ObjBlocks(s);
    var n := BlocksFor(|data|);
    OwnBlocksHeld(fs, o);
    WriteChunksSpec(fs, olds, data, n);
    var (a, got, ok) := WriteChunks(fs, olds, data, n);
    if ok {
      HeaderReads(fs, o, data, a, got);
      HeaderBlocks(fs, o, data, a, got);
    }
  }

  lemma OwnBlocksHeld(fs: Fs, o: nat)
    requires ObjShape(fs.disk, o) && Allocated(fs, o)
    ensures Held(fs, ObjBlocks(fs.disk[o]))
    ensures o !in Free(fs.bitmap) && o !in ObjBlocks(fs.disk[o])
  {
    hide Get32, ObjBlocks, Free, BlocksFor;
    assert ObjBlock(fs.disk, o, o);
    var olds := ObjBlocks(fs.disk[o]);
    forall i | 0 <= i < 4 && olds[i] != 0 ensures InStore(olds[i]) && olds[i] !in Free(fs.bitmap) && olds[i] != o {
      assert ObjBlock(fs.disk, o, olds[i]);
    }
  }

  lemma LaidFrom(disk: Disk, got: seq<u32>, data: seq<byte>)
    requires |got| == BlocksFor(|data|)
    requires forall i :: 0 <= i < |got| ==> 0 < got[i] < DISK_BLOCKS && disk[got[i]] == Chunk(data, i)
    ensures Laid(disk, Fill(got), data)
  {
    hide Chunk, BlocksFor;
    var bs := Fill(got);
    forall i | 0 <= i < |got| ensures bs[i] == got[i] && disk[bs[i]] == Chunk(data, i) {
      assert 0 < got[i] < DISK_BLOCKS;
    }
  }

  function NewHeader(fs: Fs, o: nat, data: seq<byte>, got: seq<u32>): Sector
    requires o < DISK_BLOCKS && |got| <= 4 && |data| < 0x8000_0000
  {
    SetObj(fs.disk[o], Fill(got), |data|, Hash(data))
  }

  ghost predicate HeaderReady(fs: Fs, o: nat, data: seq<byte>, a: Fs, got: seq<u32>) {
    && ObjShape(fs.disk, o) && Allocated(fs, o) && |data| < 0x8000_0000
    && Touches(fs, a, ObjBlocks(fs.disk[o]))
    && ChunksDone(fs, ObjBlocks(fs.disk[o]), data, BlocksFor(|data|), a, got)
  }

  /** The header write that makes the new pieces the object's content. */
  lemma HeaderReads(fs: Fs, o: nat, data: seq<byte>, a: Fs, got: seq<u32>)
    requires HeaderReady(fs, o, data, a, got)
    ensures var disk' := WriteBlock(a, o, NewHeader(fs, o, data, got)).disk;
            Pointers(ObjBlocks(disk'[o])) && ReadObject(disk', o) == Content(fs.disk[o][4], |data|, Kept(data))
  {
    hide Hash, Get32, ObjBlocks, SetObj, Chunk, Gather, Free, Patch, BlocksFor;
    OwnBlocksHeld(fs, o);
    var bs := Fill(got);
    SetObjFields(fs.disk[o], bs, |data|, Hash(data));
    var disk' := WriteBlock(a, o, NewHeader(fs, o, data, got)).disk;
    forall i | 0 <= i < |got| ensures got[i] != o && got[i] != 0 && disk'[got[i]] == Chunk(data, i) {
    }
    LaidFrom(disk', got, data);
    GatherReassembles(disk', bs, data, 0);
    assert Kept(data)[0..] == Kept(data);
  }

  lemma HeaderBlocks(fs: Fs, o: nat, data: seq<byte>, a: Fs, got: seq<u32>)
    requires HeaderReady(fs, o, data, a, got)
    ensures var fs' := WriteBlock(a, o, NewHeader(fs, o, data, got));
            && Allocated(fs', o)
            && (forall b :: 0 <= b && ObjBlock(fs'.disk, o, b) ==> ObjBlock(fs.disk, o, b) || b in Free(fs.bitmap))
            && ObjShape(fs'.disk, o) && (|data| <= MAX_DATA ==> ObjOk(fs'.disk, o))
  {
    hide Hash, Get32, ObjBlocks, SetObj, Chunk, Free, BlocksFor;
    OwnBlocksHeld(fs, o);
    var bs := Fill(got);
    SetObjFields(fs.disk[o], bs, |data|, Hash(data));
    var fs' := WriteBlock(a, o, NewHeader(fs, o, data, got));
    forall b | 0 <= b && ObjBlock(fs'.disk, o, b)
      ensures b !in Free(fs'.bitmap) && (ObjBlock(fs.disk, o, b) || b in Free(fs.bitmap))
    {
      if b != o {
        var i :| 0 <= i < 4 && bs[i] == b;
        assert i < |got| && got[i] == b;
      }
    }
  }

  /** A header without the magic word, whatever its low byte, is no object: it
      reads as absent and cannot be written. */
  lemma NotAnObject(fs: Fs, o: nat, data: seq<byte>)
    requires 0 < o < DISK_BLOCKS && Pointers(ObjBlocks(fs.disk[o])) && |data| < 0x8000_0000
    requires Get32(fs.disk[o], 0) / 256 != 0x4F424A
    ensures ReadObject(fs.disk, o) == Absent && WriteObject(fs, o, data) == (fs, false)
  {
    hide Get32;
  }

  // ---- many objects -------------------------------------------------------

  /** The store holds exactly these contents, and no two objects share a block. */
  ghost predicate Holds(fs: Fs, m: map<nat, seq<byte>>) {
    && (forall o :: o in m ==>
          && ObjOk(fs.disk, o) && Allocated(fs, o) && |m[o]| <= MAX_DATA
          && ReadObject(fs.disk, o) == Content(fs.disk[o][4], |m[o]|, m[o]))
    && (forall o, p :: o in m && p in m && o != p ==> Apart(fs.disk, o, p))
  }

  ghost predicate Apart(disk: Disk, o: nat, p: nat)
    requires o < DISK_BLOCKS && p < DISK_BLOCKS
  {
    forall b :: 0 <= b < DISK_BLOCKS && ObjBlock(disk, o, b) ==> !ObjBlock(disk, p, b)
  }

  /** A successful overwrite of one object updates that object and no other. */
  lemma OverwriteOne(fs: Fs, m: map<nat, seq<byte>>, o: nat, data: seq<byte>)
    requires Holds(fs, m) && o in m && |data| <= MAX_DATA
    requires WriteObject(fs, o, data).1
    ensures Holds(WriteObject(fs, o, data).0, m[o := data])
  {
    hide Hash, Get32, ObjBlocks, WriteObject, Gather, Free;
    WriteObjectSpec(fs, o, data);
    var fs' := WriteObject(fs, o, data).0;
    forall p | p in m && p != o
      ensures ObjOk(fs'.disk, p) && ReadObject(fs'.disk, p) == ReadObject(fs.disk, p) && fs'.disk[p] == fs.disk[p]
      ensures forall b :: 0 <= b ==> (ObjBlock(fs'.disk, p, b) <==> ObjBlock(fs.disk, p, b))
    {
      assert Apart(fs.disk, p, o);
      forall b | 0 <= b < DISK_BLOCKS && ObjBlock(fs.disk, p, b) ensures fs'.disk[b] == fs.disk[b] {
        assert !ObjBlock(fs.disk, o, b);
      }
      ObjectFrame(fs.disk, fs'.disk, p);
      assert ObjBlock(fs.disk, p, p);
    }
    forall p | p in m && p != o ensures Apart(fs'.disk, o, p) && Apart(fs'.disk, p, o) {
      assert Apart(fs.disk, o, p) && Apart(fs.disk, p, o);
    }
    forall p, q | p in m && q in m && p != o && q != o && p != q ensures Apart(fs'.disk, p, q) {
      assert Apart(fs.disk, p, q);
    }
  }

  datatype Update = Update(obj: nat, data: seq<byte>)

  ghost predicate UpdatesOk(m: map<nat, seq<byte>>, us: seq<Update>) {
    forall k :: 0 <= k < |us| ==> us[k].obj in m && |us[k].data| <= MAX_DATA
  }

  function Latest(m: map<nat, seq<byte>>, us: seq<Update>): (r: map<nat, seq<byte>>) {
    if us == [] then m else Latest(m, us[..|us| - 1])[us[|us| - 1].obj := us[|us| - 1].data]
  }

  /** Every state of a run of successful object writes. */
  ghost predicate WriteRun(states: seq<Fs>, m: map<nat, seq<byte>>, us: seq<Update>) {
    && |states| == |us| + 1
    && UpdatesOk(m, us)
    && forall k :: 0 <= k < |us| ==>
         && ObjOk(states[k].disk, us[k].obj)
         && WriteObject(states[k], us[k].obj, us[k].data) == (states[k + 1], true)
  }

  /** After any successful run of overwrites each read returns the last write
      and the objects still share no block. */
  lemma {:induction false} OverwriteRun(states: seq<Fs>, m: map<nat, seq<byte>>, us: seq<Update>)
    requires WriteRun(states, m, us) && Holds(states[0], m)
    ensures Holds(states[|us|], Latest(m, us)) && Latest(m, us).Keys == m.Keys
  {
    hide WriteObject, Holds;
    if us != [] {
      var n := |us| - 1;
      OverwriteRun(states[..|us|], m, us[..n]);
      assert WriteObject(states[n], us[n].obj, us[n].data) == (states[n + 1], true);
      OverwriteOne(states[n], Latest(m, us[..n]), us[n].obj, us[n].data);
    }
  }
}

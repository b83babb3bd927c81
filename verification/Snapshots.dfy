/** Snapshots and transactions: hexafs_save_all, what a crash leaves of it, and
    what every run of saves and crashes keeps. */
module Snapshots {
  import opened Bytes
  import opened Bitmap
  import opened BlockCache
  import opened Store
  import opened Directory
  import opened Objects
  import opened Forms

  const LIVE: CStr := [0x6C, 0x69, 0x76, 0x65]
  const BOOT_OK: CStr := [0x62, 0x6F, 0x6F, 0x74, 0x5F, 0x6F, 0x6B]

  // ---- snapshot blocks ----------------------------------------------------

  predicate IsSnap(s: Sector) { Get32(s, 0) == SNAP_MAGIC }
  function SnapParent(s: Sector): u32 { Get32(s, 4) }
  function SnapRoot(s: Sector): u32 { Get32(s, 8) }
  function SnapName(s: Sector): CStr { StrAt(s, 16) }

  function BuildSnap(parent: u32, root: u32, time: u32, name: CStr): Sector {
    var a := Put32(Put32(ZERO_SECTOR, 0, SNAP_MAGIC), 4, parent);
    Seal(PutName(Put32(Put32(a, 8, root), 12, time), 16, name), 48)
  }

  lemma SnapFields(parent: u32, root: u32, time: u32, name: CStr)
    ensures var s := BuildSnap(parent, root, time, name);
            && IsSnap(s) && SnapParent(s) == parent && SnapRoot(s) == root && SnapName(s) == Cut(name)
            && Terminated(s, 16) && Sealed(s, 48)
  {
    hide Hash, Get32, Put32, Seal, Sealed, StrAt, StrLen, Terminated, PutName;
    var a := Put32(ZERO_SECTOR, 0, SNAP_MAGIC);
    PutGet(ZERO_SECTOR, 0, SNAP_MAGIC);
    var b := Put32(a, 4, parent);
    PutGet(a, 4, parent);
    var c := Put32(b, 8, root);
    PutGet(b, 8, root);
    var d := Put32(c, 12, time);
    PutGet(c, 12, time);
    var e := PutName(d, 16, name);
    PutNameReads(d, 16, name);
    var s := Seal(e, 48);
    SealSeals(e, 48);
    SameWord(s, a, 0);
    SameWord(s, b, 4);
    SameWord(s, c, 8);
    StrSame(s, e, 16);
  }

  // ---- transactions -------------------------------------------------------

  function TxBegin(fs: Fs): Fs {
    if fs.tx.active then fs
    else fs.(tx := Tx(true, fs.txGen + 1, SuperRoot(fs.sb), 0, 0, false), txGen := fs.txGen + 1)
  }

  function TxAbort(fs: Fs): Fs {
    if !fs.tx.active then fs else fs.(tx := fs.tx.(active := false))
  }

  /** The bitmap reaches the disk before the superblock does. */
  function TxCommit(fs: Fs): Fs {
    if !fs.tx.active then fs
    else if !fs.tx.dirty then fs.(tx := fs.tx.(active := false))
    else
      var a := WriteSuper(SaveBitmap(fs));
      a.(tx := a.tx.(active := false))
  }

  function SetNewRoot(fs: Fs, d: u32): Fs {
    fs.(tx := fs.tx.(newRoot := d, dirty := true))
  }

  /** hexafs_snap_create: link a new snapshot in front of the current root. */
  function SnapCreate(fs: Fs, name: CStr): (r: (Fs, nat)) {
    if !fs.tx.active || !fs.tx.dirty then (fs, 0)
    else
      var (a, b) := AllocBlock(fs);
      if b == 0 then (a, 0)
      else
        var s := BuildSnap(SuperRoot(fs.sb), fs.tx.newRoot, SuperTime(fs.sb), name);
        var c := WriteBlock(a, b, s);
        (c.(tx := c.tx.(snap := b), sb := SetRoot(c.sb, b)), b)
  }

  /** A transaction starts clean, with the next number and the current root as its
      parent, unless one is active; an abort ends it and takes nothing back. */
  lemma TxStartsAndEnds(fs: Fs)
    ensures fs.tx.active ==> TxBegin(fs) == fs
    ensures !fs.tx.active ==>
              var a := TxBegin(fs);
              && a.tx == Tx(true, a.txGen, SuperRoot(fs.sb), 0, 0, false) && a.txGen == fs.txGen + 1
              && a == fs.(tx := a.tx, txGen := a.txGen)
    ensures !TxAbort(fs).tx.active && TxAbort(fs) == fs.(tx := TxAbort(fs).tx)
    ensures TxAbort(fs).tx.(active := fs.tx.active) == fs.tx
    ensures TxCommit(fs).tx == fs.tx.(active := false)
    ensures !fs.tx.active ==> TxCommit(fs) == fs
    ensures !fs.tx.dirty ==> TxCommit(fs) == TxAbort(fs)
  {
    hide SuperRoot, BuildSuper, BitmapSector, SuperTime, SuperGen;
  }

  lemma CreateDirSpec(fs: Fs)
    ensures var (fs', d) := CreateDir(fs);
            && (d != 0 <==> Free(fs.bitmap) != {})
            && (d == 0 ==> fs' == fs)
            && (d != 0 ==>
                  && InStore(d) && d in Free(fs.bitmap) && Free(fs'.bitmap) == Free(fs.bitmap) - {d}
                  && DirKept(fs', d) && DirHeld(fs', d) && DirEntries(fs'.disk, d) == []
                  && DirNext(fs'.disk[d]) == 0 && DirCount(fs'.disk[d]) == 0)
  {
    hide Get32, Sealed, EmptyDir;
    EmptyDirFields();
    var (fs', d) := CreateDir(fs);
    if d != 0 {
      assert fs'.disk[d] == EmptyDir();
      assert Entries(fs'.disk[d]) == [];
      assert DirEntries(fs'.disk, d) == [];
    }
  }

  // ---- formatting and mounting --------------------------------------------

  function MarkRange(bm: MapBytes, n: nat): (r: MapBytes)
    ensures forall k: nat :: Used(r, k) <==> k < n || Used(bm, k)
  {
    if n == 0 then bm else Mark(MarkRange(bm, n - 1), n - 1)
  }

  function ZeroMap(): MapBytes { Zeros(1024) }

  /** hexafs_format: superblock first, then the bitmap.  The allocation hint
      keeps the value it had. */
  function Format(fs: Fs): Fs {
    var sb := BuildSuper(0, 0, 1);
    var a := fs.(sb := sb, bitmap := MarkRange(ZeroMap(), OBJECT_LBA), dirty := true);
    SaveBitmap(WriteSuper(a)).(mounted := true)
  }

  /** hexafs_mount on a volume without a valid superblock. */
  function MountFresh(fs: Fs): Fs {
    var (a, d) := CreateDir(Format(fs));
    if d == 0 then a
    else TxCommit(SnapCreate(SetNewRoot(TxBegin(a), d), BOOT_OK).0)
  }

  /** Memory as it is when the kernel starts. */
  function PowerOn(d: Disk): Fs {
    Fs(d, [], ZeroMap(), false, OBJECT_LBA, false, ZERO_SECTOR, NO_TX, 0)
  }

  /** hexafs_mount: take over the volume on the disk, or make a new one. */
  function MountFrom(fs: Fs): Fs {
    if SuperOk(fs.disk[SUPER_LBA]) then
      fs.(sb := fs.disk[SUPER_LBA], bitmap := DiskBitmap(fs.disk), dirty := false, mounted := true)
    else MountFresh(fs)
  }

  function Mount(d: Disk): Fs {
    MountFrom(PowerOn(d))
  }

  /** hexafs_save_all up to its commit; the second part is the new directory (0 if none). */
  function Prepare(fs: Fs, fms: seq<Form>): (r: (Fs, nat)) {
    var (a, d) := CreateDir(TxBegin(fs));
    if d == 0 then (TxAbort(a), 0)
    else
      CreateDirSpec(TxBegin(fs));
      (SnapCreate(SetNewRoot(SaveForms(a, d, fms), d), LIVE).0, d)
  }

  function SaveAll(fs: Fs, fms: seq<Form>): Fs {
    if !fs.mounted then fs
    else
      var (mid, d) := Prepare(fs, fms);
      if d == 0 then mid else TxCommit(mid)
  }

  // ---- growing into free space --------------------------------------------

  /** From fs0 to fs only blocks free in fs0 were written, and none of the
      blocks used in fs0 was freed. */
  ghost predicate Grew(fs0: Fs, fs: Fs) {
    && Free(fs.bitmap) <= Free(fs0.bitmap)
    && fs0.log <= fs.log
    && WritesFit(Written(fs0, fs))
    && (forall k :: 0 <= k < |Written(fs0, fs)| ==> Written(fs0, fs)[k].lba in Free(fs0.bitmap))
    && fs.disk == Replay(fs0.disk, Written(fs0, fs))
    && (!fs.dirty ==> !fs0.dirty && fs.bitmap == fs0.bitmap)
    && fs.mounted == fs0.mounted
  }

  lemma GrewWrite(fs0: Fs, fs: Fs, b: nat, s: Sector)
    requires Grew(fs0, fs) && b in Free(fs0.bitmap)
    ensures Grew(fs0, WriteBlock(fs, b, s))
  {
    var ws := Written(fs0, fs);
    var fs' := WriteBlock(fs, b, s);
    assert Written(fs0, fs') == ws + [Write(b, s)];
    assert (ws + [Write(b, s)])[..|ws|] == ws;
  }

  lemma GrewAlloc(fs0: Fs, fs: Fs)
    requires Grew(fs0, fs)
    ensures Grew(fs0, AllocBlock(fs).0) && (AllocBlock(fs).1 != 0 ==> AllocBlock(fs).1 in Free(fs0.bitmap))
  {
    hide Replay, Free;
    var (a, b) := AllocBlock(fs);
    if b != 0 {
      var m := fs.(bitmap := Mark(fs.bitmap, b), dirty := true, hint := b + 1);
      assert Grew(fs0, m) by {
        assert Written(fs0, m) == Written(fs0, fs);
      }
      GrewWrite(fs0, m, b, ZERO_SECTOR);
    }
  }

  lemma GrewFree(fs0: Fs, fs: Fs, b: nat)
    requires Grew(fs0, fs) && b in Free(fs0.bitmap)
    ensures Grew(fs0, FreeBlock(fs, b))
  {
    hide Replay;
    assert Written(fs0, FreeBlock(fs, b)) == Written(fs0, fs);
  }

  lemma {:induction false} GrewChunks(fs0: Fs, fs: Fs, olds: seq<u32>, data: seq<byte>, n: nat)
    requires Grew(fs0, fs) && Pointers(olds) && n <= BlocksFor(|data|)
    requires forall i :: 0 <= i < 4 ==> olds[i] == 0
    ensures Grew(fs0, WriteChunks(fs, olds, data, n).0)
  {
    if n > 0 {
      GrewChunks(fs0, fs, olds, data, n - 1);
      hide Grew, Chunk, Free;
      var (a, got, ok) := WriteChunks(fs, olds, data, n - 1);
      GrewAlloc(fs0, a);
      var (b, x) := AllocBlock(a);
      if ok && x != 0 {
        GrewWrite(fs0, b, x, Chunk(data, n - 1));
      }
    }
  }

  lemma GrewSaveObject(fs0: Fs, fs: Fs, f: Form)
    requires Grew(fs0, fs)
    ensures Grew(fs0, SaveObject(fs, f).0)
  {
    hide Grew, Free, NewObj, Get32, SetObj, Payload, BlocksFor;
    GrewAlloc(fs0, fs);
    var (a, o) := AllocBlock(fs);
    if o != 0 {
      NewObjFields(FORM, SuperTime(fs.sb));
      var b := WriteBlock(a, o, NewObj(FORM, SuperTime(fs.sb)));
      GrewWrite(fs0, a, o, NewObj(FORM, SuperTime(fs.sb)));
      var p := Payload(f);
      var olds := ObjBlocks(b.disk[o]);
      assert olds == [0, 0, 0, 0];
      GrewChunks(fs0, b, olds, p, BlocksFor(|p|));
      hide ObjBlocks, WriteChunks;
      var (c, got, ok) := WriteChunks(b, olds, p, BlocksFor(|p|));
      if ok && |got| <= 4 {
        GrewWrite(fs0, c, o, SetObj(b.disk[o], Fill(got), |p|, Hash(p)));
      } else {
        GrewFree(fs0, c, o);
      }
    }
  }

  lemma GrewAddEntry(fs0: Fs, fs: Fs, d: nat, name: CStr, obj: u32, kind: byte)
    requires Grew(fs0, fs) && DirOk(fs.disk, d) && d in Free(fs0.bitmap)
    ensures Grew(fs0, AddEntry(fs, d, name, obj, kind).0)
  {
    hide Grew, Free, Get32, Put32, Sealed, PutEntry, EmptyDir, Entries, Terminated;
    var s := fs.disk[d];
    if Sealed(s, 8) {
      if DirCount(s) < MAX_ENTRIES {
        GrewWrite(fs0, fs, d, PutEntry(s, name, obj, kind));
      } else {
        GrewAlloc(fs0, fs);
        var (a, b) := AllocBlock(fs);
        if b != 0 {
          EmptyDirFields();
          GrewWrite(fs0, a, b, EmptyDir());
          var c := WriteBlock(a, b, EmptyDir());
          GrewWrite(fs0, c, d, Put32(c.disk[d], 496, b));
          var e := WriteBlock(c, d, Put32(c.disk[d], 496, b));
          if DirCount(e.disk[b]) < MAX_ENTRIES {
            GrewWrite(fs0, e, b, PutEntry(e.disk[b], name, obj, kind));
          }
        }
      }
    }
  }

  lemma GrewForm(fs0: Fs, fs: Fs, d: nat, f: Form)
    requires Grew(fs0, fs) && DirHeld(fs, d) && d in Free(fs0.bitmap)
    ensures Grew(fs0, SaveForm(fs, d, f))
  {
    hide Grew, SaveObject, AddEntry, Free, DirOk;
    GrewSaveObject(fs0, fs, f);
    SaveObjectKeepsDir(fs, d, f);
    var (b, o) := SaveObject(fs, f);
    SaveObjectSpec(fs, f);
    if o != 0 {
      GrewAddEntry(fs0, b, d, f.name, o, FORM);
    }
  }

  lemma {:induction false} GrewForms(fs0: Fs, fs: Fs, d: nat, fms: seq<Form>)
    requires Grew(fs0, fs) && DirHeld(fs, d) && d in Free(fs0.bitmap)
    ensures Grew(fs0, SaveForms(fs, d, fms))
  {
    if fms != [] {
      hide Grew, DirHeld, SaveForm, Free;
      GrewForms(fs0, fs, d, fms[..|fms| - 1]);
      GrewForm(fs0, SaveForms(fs, d, fms[..|fms| - 1]), d, fms[|fms| - 1]);
    }
  }

  // ---- what the new directory holds ---------------------------------------

  lemma {:induction false} SaveFormsKeeps(fs: Fs, d: nat, fms: seq<Form>)
    requires DirKept(fs, d) && DirHeld(fs, d)
    ensures var fs' := SaveForms(fs, d, fms);
            DirKept(fs', d) && fs'.tx == fs.tx && fs'.sb == fs.sb && fs'.mounted == fs.mounted
  {
    if fms != [] {
      var f := fms[|fms| - 1];
      SaveFormsKeeps(fs, d, fms[..|fms| - 1]);
      var a := SaveForms(fs, d, fms[..|fms| - 1]);
      hide DirKept, DirHeld, SaveObject, AddEntry, Free;
      SaveFormSpec(a, d, f);
      SaveObjectSpec(a, f);
      SaveObjectKeepsDir(a, d, f);
      var (b, o) := SaveObject(a, f);
      if o != 0 {
        AddEntryKeepsHeld(b, d, f.name, o, FORM);
      }
    }
  }

  function TotalNeed(fms: seq<Form>): nat {
    if fms == [] then 0 else TotalNeed(fms[..|fms| - 1]) + Need(fms[|fms| - 1])
  }

  function StoredAll(fms: seq<Form>): (r: seq<Form>)
    ensures |r| == |fms| && forall i :: 0 <= i < |r| ==> r[i] == Stored(fms[i])
  {
    seq(|fms|, i requires 0 <= i < |fms| => Stored(fms[i]))
  }

  function LinkNeed(n: nat): nat { if n >= 12 then 1 else 0 }

  /** The directory lists the first twelve of the forms, and is linked from the twelfth on. */
  ghost predicate Lists(fs: Fs, d: nat, fms: seq<Form>) {
    && DirKept(fs, d)
    && Listed(fs.disk, d) == StoredAll(fms[..AtMost(|fms|, 12)])
    && (DirNext(fs.disk[d]) == 0 <==> |fms| < 12)
  }

  lemma ListsSize(fs: Fs, d: nat, fms: seq<Form>)
    requires Lists(fs, d, fms)
    ensures DirCount(fs.disk[d]) == AtMost(|fms|, MAX_ENTRIES)
  {
    hide Stored, Get32, Sealed, DirBlockOk, Free, LoadEntry;
    SizeOfDir(fs.disk, d);
    FullHead(fs.disk, d);
    assert |Listed(fs.disk, d)| == AtMost(|fms|, 12);
  }

  lemma StoredMore(fms: seq<Form>, f: Form)
    ensures StoredAll((fms + [f])[..AtMost(|fms| + 1, 12)])
         == StoredAll(fms[..AtMost(|fms|, 12)]) + (if |fms| < 12 then [Stored(f)] else [])
  {
    hide Stored;
    var all := fms + [f];
    if |fms| < 12 {
      assert fms[..AtMost(|fms|, 12)] == fms && all[..AtMost(|fms| + 1, 12)] == all;
    } else {
      assert fms[..12] == all[..12];
    }
  }

  function Link(n: nat): nat { if n == 11 then 1 else 0 }

  // ---- how much of a table fits -------------------------------------------

  /** The blocks the forms take when all of them fit, the link included. */
  function Spent(fms: seq<Form>): nat { TotalNeed(fms) + LinkNeed(|fms|) }

  /** How many forms, from the front, fit into `free` blocks. */
  function Fitted(free: nat, fms: seq<Form>): (p: nat)
    ensures p <= |fms|
  {
    if fms == [] then 0
    else
      var p := Fitted(free, fms[..|fms| - 1]);
      if p == |fms| - 1 && Spent(fms) <= free then |fms| else p
  }

  /** Some of the forms, from the front, take exactly the free blocks; or the
      first twelve do and nothing is left for the link. */
  predicate UsesUp(free: nat, fms: seq<Form>) {
    exists k :: 0 <= k <= |fms| && TakesAll(free, fms[..k])
  }

  predicate TakesAll(free: nat, fms: seq<Form>) {
    Spent(fms) == free || (|fms| == 12 && TotalNeed(fms) == free)
  }

  lemma {:induction false} NeedGrows(fms: seq<Form>, k: nat)
    requires k <= |fms|
    ensures TotalNeed(fms) >= TotalNeed(fms[..k]) + 2 * (|fms| - k)
  {
    if k < |fms| {
      var t := fms[..|fms| - 1];
      NeedGrows(t, k);
      assert t[..k] == fms[..k];
      assert Need(fms[|fms| - 1]) >= 2;
    } else {
      assert fms[..k] == fms;
    }
  }

  /** The forms that fit are the longest prefix that does. */
  lemma {:induction false} FittedIsLongest(free: nat, fms: seq<Form>)
    ensures var p := Fitted(free, fms);
            && Spent(fms[..p]) <= free
            && forall k :: p < k <= |fms| ==> Spent(fms[..k]) > free
  {
    hide Need;
    if fms == [] {
      assert fms[..0] == [];
    } else {
      var t, n, p := fms[..|fms| - 1], |fms| - 1, Fitted(free, fms);
      FittedIsLongest(free, t);
      assert fms[..|fms|] == fms;
      forall k | 0 <= k <= n ensures fms[..k] == t[..k] {
      }
      if Fitted(free, t) < n {
        NeedGrows(fms, n);
        assert Spent(t[..n]) > free && t[..n] == t;
      }
    }
  }

  /** One form more: what is used up before stays used up, and nothing new is
      unless this form and its link take the last block. */
  lemma UsesUpMore(free: nat, fms: seq<Form>)
    requires fms != []
    ensures UsesUp(free, fms) <==> UsesUp(free, fms[..|fms| - 1]) || TakesAll(free, fms)
  {
    hide TakesAll;
    var t := fms[..|fms| - 1];
    assert fms[..|fms|] == fms;
    forall k | 0 <= k <= |t| ensures fms[..k] == t[..k] {
    }
    if UsesUp(free, t) {
      var k :| 0 <= k <= |t| && TakesAll(free, t[..k]);
      assert TakesAll(free, fms[..k]);
    }
    if UsesUp(free, fms) {
      var k :| 0 <= k <= |fms| && TakesAll(free, fms[..k]);
      if k <= |t| {
        assert TakesAll(free, t[..k]);
      }
    }
  }

  /** What is not spent is not used up. */
  lemma NotUsedUp(free: nat, fms: seq<Form>)
    requires Spent(fms) <= free
    ensures UsesUp(free, fms) <==> Spent(fms) == free
  {
    hide Need, TotalNeed;
    assert fms[..|fms|] == fms;
    if Spent(fms) == free {
      assert TakesAll(free, fms[..|fms|]);
    }
    forall k | 0 <= k < |fms| ensures !TakesAll(free, fms[..k]) {
      NeedGrows(fms, k);
    }
  }

  /** Every table, any free space: the directory lists the forms that fit, up to
      twelve; if not all do, a single block is left over, and none at all if the
      blocks were used up exactly. */
  ghost predicate SavedSoFar(fs: Fs, d: nat, fms: seq<Form>, a: Fs) {
    var free := |Free(fs.bitmap)|;
    var p := Fitted(free, fms);
    && Lists(a, d, fms[..p])
    && |Free(a.bitmap)| == if p == |fms| then free - Spent(fms) else if UsesUp(free, fms) then 0 else 1
  }

  lemma FormFits(fs: Fs, d: nat, fms: seq<Form>, f: Form)
    requires Lists(fs, d, fms) && DirHeld(fs, d)
    requires Need(f) + Link(|fms|) <= |Free(fs.bitmap)|
    ensures Lists(SaveForm(fs, d, f), d, fms + [f])
    ensures |Free(SaveForm(fs, d, f).bitmap)| == |Free(fs.bitmap)| - Need(f) - Link(|fms|)
  {
    hide DirKept, DirHeld, SaveForm, Free, DirNext, DirCount, Stored, StoredAll, Need, DirEntries, DirOk, Listed;
    ListsSize(fs, d, fms);
    SaveFormSpec(fs, d, f);
    StoredMore(fms, f);
  }

  lemma FormDoesNotFit(fs: Fs, d: nat, fms: seq<Form>, f: Form)
    requires Lists(fs, d, fms) && DirHeld(fs, d)
    requires Need(f) + Link(|fms|) > |Free(fs.bitmap)|
    ensures Lists(SaveForm(fs, d, f), d, fms)
    ensures var free := |Free(fs.bitmap)|;
            |Free(SaveForm(fs, d, f).bitmap)| == if free == 0 || Need(f) == free then 0 else 1
  {
    hide DirKept, DirHeld, SaveForm, Free, DirNext, DirCount, Stored, StoredAll, Need, DirEntries, DirOk, Listed;
    ListsSize(fs, d, fms);
    SaveFormSpec(fs, d, f);
  }

  lemma SavedMore(fs: Fs, d: nat, fms: seq<Form>, a: Fs)
    requires fms != [] && DirHeld(a, d) && SavedSoFar(fs, d, fms[..|fms| - 1], a)
    ensures SavedSoFar(fs, d, fms, SaveForm(a, d, fms[|fms| - 1]))
  {
    hide Lists, SaveForm, Free, Need, DirHeld, UsesUp;
    var free, t, f := |Free(fs.bitmap)|, fms[..|fms| - 1], fms[|fms| - 1];
    var p := Fitted(free, t);
    FittedIsLongest(free, t);
    UsesUpMore(free, fms);
    assert t + [f] == fms && fms[..|fms|] == fms && t[..p] == fms[..p] && t[..|t|] == t;
    assert Need(f) >= 2 by {
      NeedGrows(fms, |t|);
    }
    if p == |t| {
      NotUsedUp(free, t);
      assert Spent(fms) == Spent(t) + Need(f) + Link(|t|);
      if Spent(fms) <= free {
        FormFits(a, d, t, f);
      } else {
        FormDoesNotFit(a, d, t, f);
      }
    } else {
      FormDoesNotFit(a, d, t[..p], f);
      FittedIsLongest(free, fms);
      NeedGrows(fms, p + 1);
    }
  }

  lemma {:induction false} SaveFormsExactly(fs: Fs, d: nat, fms: seq<Form>)
    requires Lists(fs, d, []) && DirHeld(fs, d)
    ensures SavedSoFar(fs, d, fms, SaveForms(fs, d, fms))
  {
    hide Lists, SaveForm, Free, DirHeld;
    if fms == [] {
      assert fms[..0] == [];
    } else {
      SaveFormsExactly(fs, d, fms[..|fms| - 1]);
      SavedMore(fs, d, fms, SaveForms(fs, d, fms[..|fms| - 1]));
    }
  }

  /** With room for all of them, the directory lists the first twelve forms. */
  lemma SaveFormsLists(fs: Fs, d: nat, fms: seq<Form>)
    requires Lists(fs, d, []) && DirHeld(fs, d)
    requires Spent(fms) <= |Free(fs.bitmap)|
    ensures Lists(SaveForms(fs, d, fms), d, fms)
    ensures |Free(SaveForms(fs, d, fms).bitmap)| == |Free(fs.bitmap)| - Spent(fms)
  {
    hide Lists, SaveForms, Free, DirHeld, TotalNeed;
    SaveFormsExactly(fs, d, fms);
    FittedIsLongest(|Free(fs.bitmap)|, fms);
    assert fms[..|fms|] == fms;
  }

  lemma FullHead(disk: Disk, d: nat)
    requires DirOk(disk, d)
    ensures DirNext(disk[d]) != 0 ==> DirCount(disk[d]) == MAX_ENTRIES
  {
  }

  // ---- what a snapshot names: a directory, or none (block 0) --------------

  predicate RootGood(disk: Disk, d: nat) { d == 0 || DirGood(disk, d) }

  predicate RootUses(disk: Disk, d: nat, b: nat)
    requires RootGood(disk, d)
  {
    d != 0 && DirUses(disk, d, b)
  }

  function RootForms(disk: Disk, d: nat): seq<Form>
    requires RootGood(disk, d)
  {
    if d == 0 then [] else Listed(disk, d)
  }

  function RootLoad(disk: Disk, d: nat): seq<Form>
    requires RootGood(disk, d)
  {
    if d == 0 then [] else LoadDir(disk, d)
  }

  lemma RootFrame(disk: Disk, disk': Disk, d: nat)
    requires RootGood(disk, d)
    requires forall b :: 0 <= b < DISK_BLOCKS && RootUses(disk, d, b) ==> disk'[b] == disk[b]
    ensures RootGood(disk', d) && RootForms(disk', d) == RootForms(disk, d) && RootLoad(disk', d) == RootLoad(disk, d)
    ensures forall b :: 0 <= b ==> (RootUses(disk', d, b) <==> RootUses(disk, d, b))
  {
    hide DirGood, DirUses, Listed, LoadDir;
    if d != 0 {
      DirectoryFrame(disk, disk', d);
    }
  }

  lemma GoodNotZero(disk: Disk, d: nat)
    requires DirGood(disk, d)
    ensures d != 0
  {
  }

  lemma RootUsesInStore(disk: Disk, d: nat, b: nat)
    requires RootGood(disk, d) && RootUses(disk, d, b)
    ensures InStore(b)
  {
    hide DirGood, DirUses;
    DirUsesInStore(disk, d, b);
  }

  // ---- the store invariant ------------------------------------------------

  /** A block that must survive for snapshot s to be readable. */
  predicate SnapUses(disk: Disk, s: nat, b: nat)
    requires s < DISK_BLOCKS && RootGood(disk, SnapRoot(disk[s]))
  {
    b == s || RootUses(disk, SnapRoot(disk[s]), b)
  }

  /** s is a readable snapshot and all its blocks are marked used in bm. */
  predicate SnapSafe(disk: Disk, bm: MapBytes, s: nat) {
    && InStore(s) && IsSnap(disk[s]) && Terminated(disk[s], 16)
    && RootGood(disk, SnapRoot(disk[s])) && !RootUses(disk, SnapRoot(disk[s]), s)
    && forall b :: 0 <= b < DISK_BLOCKS && SnapUses(disk, s, b) ==> InStore(b) && b !in Free(bm)
  }

  /** Every form the snapshot was saved with. */
  function SnapForms(disk: Disk, s: nat): seq<Form>
    requires s < DISK_BLOCKS && RootGood(disk, SnapRoot(disk[s]))
  {
    RootForms(disk, SnapRoot(disk[s]))
  }

  /** The parent links from root list exactly these snapshots, newest first. */
  predicate ChainOk(disk: Disk, root: nat, snaps: seq<nat>)
    decreases snaps
  {
    if snaps == [] then root == 0
    else root == snaps[0] && InStore(root) && IsSnap(disk[root]) && ChainOk(disk, SnapParent(disk[root]), snaps[1..])
  }

  predicate StoreOk(fs: Fs, snaps: seq<nat>) {
    && SuperOk(fs.disk[SUPER_LBA]) && fs.sb == fs.disk[SUPER_LBA]
    && fs.mounted && !fs.tx.active
    && (!fs.dirty ==> fs.bitmap == DiskBitmap(fs.disk))
    && ChainOk(fs.disk, SuperRoot(fs.sb), snaps)
    && forall i :: 0 <= i < |snaps| ==>
        SnapSafe(fs.disk, fs.bitmap, snaps[i]) && SnapSafe(fs.disk, DiskBitmap(fs.disk), snaps[i])
  }

  /** A directory that carries its magic word was made by create and add_entry. */
  predicate LoadReady(disk: Disk, root: nat) {
    root != 0 ==>
      && root < DISK_BLOCKS
      && (IsSnap(disk[root]) && SnapRoot(disk[root]) != 0 ==>
            var d := SnapRoot(disk[root]);
            d < DISK_BLOCKS && (IsDir(disk[d]) ==> DirGood(disk, d)))
  }

  /** The form table hexafs_load_all builds from a root snapshot block; None
      leaves the table in memory as it was. */
  function Load(disk: Disk, root: nat): Option<seq<Form>>
    requires LoadReady(disk, root)
  {
    if root == 0 || !IsSnap(disk[root]) then None
    else
      var d := SnapRoot(disk[root]);
      if d == 0 || !IsDir(disk[d]) then None else Some(LoadDir(disk, d))
  }

  lemma GoodLoads(disk: Disk, root: nat)
    requires 0 < root < DISK_BLOCKS && IsSnap(disk[root]) && DirGood(disk, SnapRoot(disk[root]))
    ensures LoadReady(disk, root) && Load(disk, root) == Some(LoadDir(disk, SnapRoot(disk[root])))
  {
    hide Get32, LoadDir, Terminated, Sealed, Clear, ObjOk, IsSnap;
  }

  ghost predicate SameSnap(disk: Disk, disk': Disk, s: nat) {
    && s < DISK_BLOCKS
    && RootGood(disk, SnapRoot(disk[s])) && RootGood(disk', SnapRoot(disk'[s]))
    && SnapForms(disk', s) == SnapForms(disk, s)
    && RootLoad(disk', SnapRoot(disk'[s])) == RootLoad(disk, SnapRoot(disk[s]))
    && forall b :: 0 <= b < DISK_BLOCKS && SnapUses(disk, s, b) ==> disk'[b] == disk[b] && SnapUses(disk', s, b)
  }

  lemma SnapFrame(disk: Disk, disk': Disk, bm: MapBytes, bm': MapBytes, s: nat)
    requires SnapSafe(disk, bm, s)
    requires forall b :: 0 <= b < DISK_BLOCKS && SnapUses(disk, s, b) ==> disk'[b] == disk[b] && b !in Free(bm')
    ensures SnapSafe(disk', bm', s) && SameSnap(disk, disk', s)
  {
    hide Get32, RootGood, RootUses, Free, RootForms, RootLoad, Terminated;
    assert SnapUses(disk, s, s);
    var d := SnapRoot(disk[s]);
    forall b | 0 <= b < DISK_BLOCKS && RootUses(disk, d, b) ensures disk'[b] == disk[b] {
      assert SnapUses(disk, s, b);
    }
    RootFrame(disk, disk', d);
  }

  lemma {:induction false} ChainFrame(disk: Disk, disk': Disk, root: nat, snaps: seq<nat>)
    requires ChainOk(disk, root, snaps)
    requires forall i :: 0 <= i < |snaps| ==> snaps[i] < DISK_BLOCKS && disk'[snaps[i]] == disk[snaps[i]]
    ensures ChainOk(disk', root, snaps)
    decreases snaps
  {
    if snaps != [] {
      ChainFrame(disk, disk', SnapParent(disk[root]), snaps[1..]);
    }
  }

  // ---- before the commit point --------------------------------------------

  /** A write that save_all issues before its superblock write. */
  ghost predicate EarlyWrite(fs0: Fs, bm: MapBytes, w: Write) {
    || w.lba in Free(fs0.bitmap)
    || w == Write(ALLOC_LBA, BitmapSector(bm, 0))
    || w == Write(ALLOC_LBA + 1, BitmapSector(bm, 1))
  }

  /** d' differs from the disk of fs0 only where nothing of fs0 lives, and its
      bitmap frees nothing that both bitmaps of fs0 have in use. */
  ghost predicate Quiet(fs0: Fs, d': Disk) {
    && (forall b :: 0 <= b < DISK_BLOCKS && b !in Free(fs0.bitmap) && b != ALLOC_LBA && b != ALLOC_LBA + 1 ==>
        d'[b] == fs0.disk[b])
    && Free(DiskBitmap(d')) <= Free(fs0.bitmap) + Free(DiskBitmap(fs0.disk))
  }

  lemma {:induction false} EarlyReplay(fs0: Fs, bm: MapBytes, ws: seq<Write>)
    requires WritesFit(ws) && forall k :: 0 <= k < |ws| ==> EarlyWrite(fs0, bm, ws[k])
    ensures var d := Replay(fs0.disk, ws);
            && (forall b :: 0 <= b < DISK_BLOCKS && b !in Free(fs0.bitmap) && b != ALLOC_LBA && b != ALLOC_LBA + 1 ==>
                d[b] == fs0.disk[b])
            && (d[ALLOC_LBA] == fs0.disk[ALLOC_LBA] || d[ALLOC_LBA] == BitmapSector(bm, 0))
  {
    hide BitmapSector;
    if ws != [] {
      EarlyReplay(fs0, bm, ws[..|ws| - 1]);
      assert EarlyWrite(fs0, bm, ws[|ws| - 1]);
    }
  }

  /** Every block's bit lies in the first bitmap sector. */
  lemma FirstSectorDecides(bm: MapBytes, bm': MapBytes, s: Sector, b: nat)
    requires b < DISK_BLOCKS && bm[..512] == s && bm'[..512] == s
    ensures b in Free(bm) <==> b in Free(bm')
  {
    hide Bit;
    assert bm[b / 8] == bm[..512][b / 8] && bm'[b / 8] == bm'[..512][b / 8];
  }

  lemma EarlyQuiet(fs0: Fs, bm: MapBytes, ws: seq<Write>)
    requires WritesFit(ws) && forall k :: 0 <= k < |ws| ==> EarlyWrite(fs0, bm, ws[k])
    requires Free(bm) <= Free(fs0.bitmap)
    ensures Quiet(fs0, Replay(fs0.disk, ws))
  {
    hide Replay, FreeUnits, EarlyWrite;
    EarlyReplay(fs0, bm, ws);
    var d := Replay(fs0.disk, ws);
    var s := d[ALLOC_LBA];
    assert DiskBitmap(d)[..512] == s && DiskBitmap(fs0.disk)[..512] == fs0.disk[ALLOC_LBA];
    assert bm[..512] == BitmapSector(bm, 0);
    forall b | b in Free(DiskBitmap(d)) ensures b in Free(fs0.bitmap) || b in Free(DiskBitmap(fs0.disk)) {
      FreeInStore(DiskBitmap(d), b);
      if s == fs0.disk[ALLOC_LBA] {
        FirstSectorDecides(DiskBitmap(d), DiskBitmap(fs0.disk), s, b);
      } else {
        FirstSectorDecides(DiskBitmap(d), bm, s, b);
      }
    }
  }

  /** Whatever reached the disk before the commit point, a boot finds the old
      store: same snapshots, same forms, all their blocks marked used. */
  lemma QuietRecovers(fs0: Fs, snaps: seq<nat>, d': Disk)
    requires StoreOk(fs0, snaps) && Quiet(fs0, d')
    ensures StoreOk(Boot(d'), snaps)
    ensures forall i :: 0 <= i < |snaps| ==> SameSnap(fs0.disk, d', snaps[i])
    ensures SuperRoot(Boot(d').sb) == SuperRoot(fs0.sb)
  {
    hide Get32, SuperOk, Free, DiskBitmap, RootGood, SnapUses, SameSnap, Terminated;
    forall i | 0 <= i < |snaps|
      ensures SnapSafe(d', DiskBitmap(d'), snaps[i]) && SameSnap(fs0.disk, d', snaps[i])
      ensures d'[snaps[i]] == fs0.disk[snaps[i]]
    {
      SnapFrame(fs0.disk, d', fs0.bitmap, DiskBitmap(d'), snaps[i]);
      UsesItself(fs0.disk, snaps[i]);
    }
    ChainFrame(fs0.disk, d', SuperRoot(fs0.sb), snaps);
    ReservedNotFree(fs0.bitmap);
  }

  lemma UsesItself(disk: Disk, s: nat)
    requires s < DISK_BLOCKS && RootGood(disk, SnapRoot(disk[s]))
    ensures SnapUses(disk, s, s)
  {
  }

  lemma ReservedNotFree(bm: MapBytes)
    ensures SUPER_LBA !in Free(bm) && ALLOC_LBA !in Free(bm) && ALLOC_LBA + 1 !in Free(bm)
  {
  }

  // ---- save_all -----------------------------------------------------------

  /** The state just before the commit: the new directory d and, if a block was
      left for it, the new snapshot tx.snap sit in space that was free. */
  ghost predicate Prepared(fs: Fs, mid: Fs, d: nat, name: CStr) {
    && Grew(fs, mid) && mid.tx.active && mid.tx.dirty
    && (d == 0 || (DirKept(mid, d) && d in Free(fs.bitmap)))
    && var b := mid.tx.snap;
    && (b == 0 ==> mid.sb == fs.sb)
    && (b != 0 ==>
          && mid.sb == SetRoot(fs.sb, b)
          && b in Free(fs.bitmap) && b !in Free(mid.bitmap) && !RootUses(mid.disk, d, b)
          && mid.disk[b] == BuildSnap(SuperRoot(fs.sb), d, SuperTime(fs.sb), name))
  }

  lemma GrewRefl(fs: Fs, fs': Fs)
    requires fs' == fs.(tx := fs'.tx, txGen := fs'.txGen)
    ensures Grew(fs, fs')
  {
    assert Written(fs, fs') == [];
  }

  lemma SnapCreateSpec(fs0: Fs, fs: Fs, d: nat, name: CStr)
    requires Grew(fs0, fs) && fs.sb == fs0.sb && (d == 0 || (DirKept(fs, d) && d in Free(fs0.bitmap)))
    requires fs.tx.active && fs.tx.dirty && fs.tx.newRoot == d && fs.tx.snap == 0
    ensures var mid := SnapCreate(fs, name).0;
            && Prepared(fs0, mid, d, name)
            && (d != 0 ==> Listed(mid.disk, d) == Listed(fs.disk, d) && mid.disk[d] == fs.disk[d])
            && (mid.tx.snap != 0 <==> Free(fs.bitmap) != {})
  {
    hide Get32, BuildSnap, Replay, DirKept, DirHeld, Listed, Free, SetRoot, SuperRoot, SuperTime, DirOk;
    var mid := SnapCreate(fs, name).0;
    var (a, b) := AllocBlock(fs);
    if b != 0 {
      GrewAlloc(fs0, fs);
      var s := BuildSnap(SuperRoot(fs.sb), d, SuperTime(fs.sb), name);
      GrewWrite(fs0, a, b, s);
      var c := WriteBlock(a, b, s);
      assert Written(fs0, mid) == Written(fs0, c);
      if d != 0 {
        KeptElsewhere(fs, mid, d, b);
      }
    }
  }

  /** A directory is untouched by a write to a block that was free. */
  lemma KeptElsewhere(fs: Fs, fs': Fs, d: nat, b: nat)
    requires DirKept(fs, d) && b in Free(fs.bitmap) && Free(fs'.bitmap) <= Free(fs.bitmap)
    requires forall c :: 0 <= c < DISK_BLOCKS && c != b ==> fs'.disk[c] == fs.disk[c]
    ensures DirKept(fs', d) && Listed(fs'.disk, d) == Listed(fs.disk, d) && fs'.disk[d] == fs.disk[d]
    ensures !DirUses(fs'.disk, d, b)
  {
    hide Get32, DirGood, DirUses, Listed, FreeUnits, LoadDir;
    FreeInStore(fs.bitmap, b);
    GoodUsesItself(fs.disk, d);
    DirectoryFrame(fs.disk, fs'.disk, d);
  }

  lemma GoodUsesItself(disk: Disk, d: nat)
    requires DirGood(disk, d)
    ensures d < DISK_BLOCKS && DirUses(disk, d, d)
  {
  }

  lemma CreateDirLists(fs: Fs)
    ensures var (fs', d) := CreateDir(fs);
            d != 0 ==> Lists(fs', d, []) && fs'.tx == fs.tx && fs'.sb == fs.sb
  {
    hide Get32, EmptyDir, DirHeld, DirEntries, Stored, Free, DirNext, DirCount, DirOk;
    CreateDirSpec(fs);
    var (fs', d) := CreateDir(fs);
    if d != 0 {
      var none: seq<Form> := [];
      assert none[..AtMost(0, 12)] == none;
      assert Listed(fs'.disk, d) == StoredAll(none);
    }
  }

  lemma GrewCreateDir(fs0: Fs, fs: Fs)
    requires Grew(fs0, fs)
    ensures Grew(fs0, CreateDir(fs).0)
  {
    hide Grew, Free, EmptyDir;
    GrewAlloc(fs0, fs);
    var (a, b) := AllocBlock(fs);
    if b != 0 {
      GrewWrite(fs0, a, b, EmptyDir());
    }
  }

  lemma PrepareSpec(fs: Fs, fms: seq<Form>)
    requires !fs.tx.active
    ensures var (mid, d) := Prepare(fs, fms);
            && (d != 0 <==> Free(fs.bitmap) != {})
            && (d == 0 ==> mid == fs.(tx := mid.tx, txGen := mid.txGen) && !mid.tx.active)
            && (d != 0 ==> Prepared(fs, mid, d, LIVE))
  {
    hide Get32, DirKept, DirHeld, Free, Grew, SaveForms, SnapCreate, CreateDir, DirEntries, Lists, SuperRoot;
    var fs1 := TxBegin(fs);
    GrewRefl(fs, fs1);
    CreateDirSpec(fs1);
    CreateDirLists(fs1);
    GrewCreateDir(fs, fs1);
    var (a, d) := CreateDir(fs1);
    if d != 0 {
      GrewForms(fs, a, d, fms);
      SaveFormsKeeps(a, d, fms);
      var b := SaveForms(a, d, fms);
      RootSet(fs, b, d);
      SnapCreateSpec(fs, SetNewRoot(b, d), d, LIVE);
    }
  }

  lemma RootSet(fs0: Fs, fs: Fs, d: u32)
    requires Grew(fs0, fs) && DirKept(fs, d)
    ensures Grew(fs0, SetNewRoot(fs, d)) && DirKept(SetNewRoot(fs, d), d)
  {
    hide Replay, Free;
    assert Written(fs0, SetNewRoot(fs, d)) == Written(fs0, fs);
  }

  function Commit(mid: Fs): Fs {
    WriteSuper(SaveBitmap(mid))
  }

  /** The writes of a save are early ones, then the superblock. */
  lemma CommitWrites(fs: Fs, mid: Fs)
    requires Grew(fs, mid)
    ensures var fs' := Commit(mid);
            && fs.log <= fs'.log
            && var ws := Written(fs, fs');
            && |ws| > 0 && WritesFit(ws)
            && (forall k :: 0 <= k < |ws| - 1 ==> EarlyWrite(fs, mid.bitmap, ws[k]))
            && fs'.disk == Replay(fs.disk, ws)
  {
    hide Free, BuildSuper, SuperRoot, SuperTime, SuperGen, BitmapSector, Replay;
    var ws := Written(fs, mid);
    var a := SaveBitmap(mid);
    var w0, w1 := Write(ALLOC_LBA, BitmapSector(mid.bitmap, 0)), Write(ALLOC_LBA + 1, BitmapSector(mid.bitmap, 1));
    if mid.dirty {
      ReplaySnoc(fs.disk, ws, w0);
      ReplaySnoc(fs.disk, ws + [w0], w1);
    }
    var early := if mid.dirty then ws + [w0] + [w1] else ws;
    assert Written(fs, a) == early;
    var fs' := Commit(mid);
    var w := Write(SUPER_LBA, fs'.sb);
    ReplaySnoc(fs.disk, early, w);
    assert Written(fs, fs') == early + [w];
  }

  lemma ReplaySnoc(d: Disk, ws: seq<Write>, w: Write)
    requires WritesFit(ws) && w.lba < DISK_BLOCKS
    ensures WritesFit(ws + [w]) && Replay(d, ws + [w]) == Replay(d, ws)[w.lba := w.data]
  {
    assert (ws + [w])[..|ws|] == ws;
  }

  /** The disk right after the commit: superblock with the new root, the bitmap
      of memory, and everything else as prepared. */
  lemma CommitDisk(fs: Fs, mid: Fs)
    requires Grew(fs, mid) && (!fs.dirty ==> fs.bitmap == DiskBitmap(fs.disk))
    ensures var fs' := Commit(mid);
            && SuperOk(fs'.sb) && fs'.disk[SUPER_LBA] == fs'.sb && SuperRoot(fs'.sb) == SuperRoot(mid.sb)
            && fs'.bitmap == mid.bitmap && fs'.mounted == mid.mounted && fs'.tx == mid.tx && !fs'.dirty
            && DiskBitmap(fs'.disk) == mid.bitmap
            && (forall b :: 0 <= b < DISK_BLOCKS && InStore(b) ==> fs'.disk[b] == mid.disk[b])
            && (forall b :: 0 <= b < DISK_BLOCKS && InStore(b) && b !in Free(fs.bitmap) ==> fs'.disk[b] == fs.disk[b])
  {
    hide BuildSuper, SuperRoot, SuperTime, SuperGen, SuperOk, Replay, Used;
    SuperFields(SuperRoot(mid.sb), SuperTime(mid.sb), (SuperGen(mid.sb) + 1) % TWO32);
    var ws := Written(fs, mid);
    forall k | 0 <= k < |ws| ensures EarlyWrite(fs, fs.bitmap, ws[k]) {
    }
    EarlyReplay(fs, fs.bitmap, ws);
    BitmapUntouched(fs, ws);
    assert BitmapSector(mid.bitmap, 0) + BitmapSector(mid.bitmap, 1) == mid.bitmap;
  }

  lemma {:induction false} BitmapUntouched(fs: Fs, ws: seq<Write>)
    requires WritesFit(ws) && forall k :: 0 <= k < |ws| ==> ws[k].lba in Free(fs.bitmap)
    ensures DiskBitmap(Replay(fs.disk, ws)) == DiskBitmap(fs.disk)
  {
    if ws != [] {
      BitmapUntouched(fs, ws[..|ws| - 1]);
      ReservedNotFree(fs.bitmap);
      hide Free;
      assert ws[|ws| - 1].lba in Free(fs.bitmap);
    }
  }

  lemma DirUsesInStore(disk: Disk, d: nat, b: nat)
    requires DirGood(disk, d) && DirUses(disk, d, b)
    ensures InStore(b)
  {
    hide Get32, Sealed, DirBlockOk, Entries;
    if !DirBlock(disk, d, b) {
      hide DirOk, DirEntries, BlocksFor;
      var i :| 0 <= i < |DirEntries(disk, d)| && ObjBlock(disk, DirEntries(disk, d)[i].obj, b);
      var o := DirEntries(disk, d)[i].obj;
      assert ObjOk(disk, o);
      if b != o {
        var j :| 0 <= j < 4 && ObjBlocks(disk[o])[j] == b;
      }
    }
  }

  /** The committed snapshot is safe in the committed bitmap. */
  lemma NewSnapSafe(fs: Fs, mid: Fs, d: nat, name: CStr, disk': Disk)
    requires Prepared(fs, mid, d, name) && mid.tx.snap != 0
    requires forall b :: 0 <= b < DISK_BLOCKS && InStore(b) ==> disk'[b] == mid.disk[b]
    ensures var s := mid.tx.snap;
            && SnapSafe(disk', mid.bitmap, s) && SnapRoot(disk'[s]) == d && SnapParent(disk'[s]) == SuperRoot(fs.sb)
            && SnapName(disk'[s]) == Cut(name)
            && RootGood(disk', d)
            && SnapForms(disk', s) == RootForms(mid.disk, d) && RootLoad(disk', d) == RootLoad(mid.disk, d)
  {
    hide Get32, BuildSnap, Free, DirGood, DirUses, Terminated, StrAt, Grew, SuperRoot, SuperTime, SetRoot, Listed,
      LoadDir;
    var s := mid.tx.snap;
    FreeInStore(fs.bitmap, s);
    if d != 0 {
      FreeInStore(fs.bitmap, d);
    }
    SnapFields(SuperRoot(fs.sb), d, SuperTime(fs.sb), name);
    forall b | 0 <= b < DISK_BLOCKS && RootUses(mid.disk, d, b) ensures disk'[b] == mid.disk[b] && InStore(b) {
      RootUsesInStore(mid.disk, d, b);
    }
    RootFrame(mid.disk, disk', d);
  }

  lemma FreeInStore(bm: MapBytes, b: nat)
    requires b in Free(bm)
    ensures InStore(b)
  {
  }

  /** The snapshots a save leaves, newest first. */
  function Grown(mid: Fs, snaps: seq<nat>): seq<nat> {
    if mid.tx.snap == 0 then snaps else [mid.tx.snap] + snaps
  }

  lemma CommitKeepsStore(fs: Fs, snaps: seq<nat>, mid: Fs, d: nat, name: CStr, fs': Fs)
    requires StoreOk(fs, snaps) && Prepared(fs, mid, d, name)
    requires fs' == Commit(mid).(tx := fs'.tx) && !fs'.tx.active
    ensures StoreOk(fs', Grown(mid, snaps))
    ensures forall i :: 0 <= i < |snaps| ==> SameSnap(fs.disk, fs'.disk, snaps[i])
  {
    hide Get32, SuperOk, Free, DiskBitmap, SameSnap, Commit, SnapSafe, SuperRoot, SetRoot, Prepared, Grew,
      SnapRoot, SnapParent, SnapForms, SnapName;
    PreparedRoot(fs, mid, d, name);
    CommitDisk(fs, mid);
    forall i | 0 <= i < |snaps|
      ensures SnapSafe(fs'.disk, fs'.bitmap, snaps[i]) && SameSnap(fs.disk, fs'.disk, snaps[i])
      ensures snaps[i] < DISK_BLOCKS && fs'.disk[snaps[i]] == fs.disk[snaps[i]]
    {
      OldSnapSafe(fs, fs', snaps[i]);
    }
    ChainFrame(fs.disk, fs'.disk, SuperRoot(fs.sb), snaps);
    if mid.tx.snap != 0 {
      NewSnapSafe(fs, mid, d, name, fs'.disk);
      SetRootReads(fs.sb, mid.tx.snap);
      FreeInStore(fs.bitmap, mid.tx.snap);
      NewChain(fs'.disk, mid.tx.snap, snaps, mid.bitmap);
    }
  }

  lemma PreparedRoot(fs: Fs, mid: Fs, d: nat, name: CStr)
    requires Prepared(fs, mid, d, name)
    ensures Grew(fs, mid) && Free(mid.bitmap) <= Free(fs.bitmap) && mid.mounted == fs.mounted
    ensures mid.tx.snap == 0 ==> mid.sb == fs.sb
    ensures mid.tx.snap != 0 ==> mid.sb == SetRoot(fs.sb, mid.tx.snap) && mid.tx.snap in Free(fs.bitmap)
  {
  }

  lemma NewChain(disk: Disk, s: nat, snaps: seq<nat>, bm: MapBytes)
    requires SnapSafe(disk, bm, s) && ChainOk(disk, SnapParent(disk[s]), snaps)
    ensures ChainOk(disk, s, [s] + snaps)
  {
    assert ([s] + snaps)[1..] == snaps;
  }

  lemma OldSnapSafe(fs: Fs, fs': Fs, s: nat)
    requires SnapSafe(fs.disk, fs.bitmap, s) && Free(fs'.bitmap) <= Free(fs.bitmap)
    requires forall b :: 0 <= b < DISK_BLOCKS && InStore(b) && b !in Free(fs.bitmap) ==> fs'.disk[b] == fs.disk[b]
    ensures SnapSafe(fs'.disk, fs'.bitmap, s) && SameSnap(fs.disk, fs'.disk, s)
    ensures s < DISK_BLOCKS && fs'.disk[s] == fs.disk[s]
  {
    hide Get32, Free, RootGood, SnapUses, Terminated, SameSnap;
    SnapFrame(fs.disk, fs'.disk, fs.bitmap, fs'.bitmap, s);
    UsesItself(fs.disk, s);
  }

  function SnapsAfter(fs: Fs, snaps: seq<nat>, fms: seq<Form>): seq<nat> {
    var (mid, d) := Prepare(fs, fms);
    if d == 0 then snaps else Grown(mid, snaps)
  }

  /** hexafs_save_all keeps the store sound for every table and any amount of
      free space, puts at most one snapshot in front, and leaves every earlier
      snapshot's blocks and forms as they were. */
  lemma SaveAllKeepsStore(fs: Fs, snaps: seq<nat>, fms: seq<Form>)
    requires StoreOk(fs, snaps)
    ensures StoreOk(SaveAll(fs, fms), SnapsAfter(fs, snaps, fms))
    ensures forall i :: 0 <= i < |snaps| ==> SameSnap(fs.disk, SaveAll(fs, fms).disk, snaps[i])
  {
    hide Prepare, SnapSafe, ChainOk, SuperOk, DiskBitmap, SuperRoot, Prepared, SameSnap, Commit, Free;
    PrepareSpec(fs, fms);
    var (mid, d) := Prepare(fs, fms);
    if d == 0 {
      forall i | 0 <= i < |snaps| ensures SameSnap(fs.disk, mid.disk, snaps[i]) {
        SameSnapRefl(fs.disk, fs.bitmap, snaps[i]);
      }
    } else {
      PreparedIsDirty(fs, mid, d, LIVE);
      CommitIs(mid);
      CommitKeepsStore(fs, snaps, mid, d, LIVE, TxCommit(mid));
    }
  }

  /** The table fits in the sense that a block is left for the snapshot after
      the directory and the forms took theirs. */
  predicate LeavesSnapshot(free: nat, fms: seq<Form>) {
    free > 0 && !UsesUp(free - 1, fms)
  }

  lemma PrepareExactly(fs: Fs, fms: seq<Form>)
    requires !fs.tx.active && Free(fs.bitmap) != {}
    ensures var (mid, d) := Prepare(fs, fms);
            var p := Fitted(|Free(fs.bitmap)| - 1, fms);
            && d != 0 && Prepared(fs, mid, d, LIVE) && Lists(mid, d, fms[..p])
            && (mid.tx.snap != 0 <==> LeavesSnapshot(|Free(fs.bitmap)|, fms))
  {
    hide Get32, DirKept, DirHeld, Free, Grew, SaveForms, CreateDir, DirEntries, Lists, SuperRoot, TotalNeed, Fitted;
    PrepareSpec(fs, fms);
    var fs1 := TxBegin(fs);
    GrewRefl(fs, fs1);
    CreateDirSpec(fs1);
    CreateDirLists(fs1);
    GrewCreateDir(fs, fs1);
    var (a, d) := CreateDir(fs1);
    assert |Free(a.bitmap)| == |Free(fs.bitmap)| - 1;
    GrewForms(fs, a, d, fms);
    SaveFormsKeeps(a, d, fms);
    SaveFormsExactly(a, d, fms);
    var b := SaveForms(a, d, fms);
    RootSet(fs, b, d);
    hide SnapCreate, UsesUp, Prepared;
    SnapCreateSpec(fs, SetNewRoot(b, d), d, LIVE);
    NoneFree(b.bitmap);
    FittedOrUsedUp(|Free(a.bitmap)|, fms);
    ListsStay(b, SnapCreate(SetNewRoot(b, d), LIVE).0, d, fms[..Fitted(|Free(fs.bitmap)| - 1, fms)]);
  }

  lemma FittedOrUsedUp(free: nat, fms: seq<Form>)
    ensures Fitted(free, fms) == |fms| ==> Spent(fms) <= free && (UsesUp(free, fms) <==> Spent(fms) == free)
  {
    hide TotalNeed, UsesUp;
    FittedIsLongest(free, fms);
    assert fms[..|fms|] == fms;
    if Fitted(free, fms) == |fms| {
      NotUsedUp(free, fms);
    }
  }

  lemma ListsStay(b: Fs, mid: Fs, d: nat, fms: seq<Form>)
    requires Lists(b, d, fms) && DirKept(mid, d)
    requires Listed(mid.disk, d) == Listed(b.disk, d) && mid.disk[d] == b.disk[d]
    ensures Lists(mid, d, fms)
  {
    hide Get32, DirKept, StoredAll, Listed;
  }

  /** A save adds a snapshot if and only if a block is free for its directory and
      the forms, from the front, never take exactly the blocks left. */
  lemma SaveAddsSnapshotIff(fs: Fs, snaps: seq<nat>, fms: seq<Form>)
    requires !fs.tx.active
    ensures SnapsAfter(fs, snaps, fms) != snaps <==> LeavesSnapshot(|Free(fs.bitmap)|, fms)
    ensures |SnapsAfter(fs, snaps, fms)| == |snaps| + if LeavesSnapshot(|Free(fs.bitmap)|, fms) then 1 else 0
  {
    hide Prepare, Prepared, Free, Lists, UsesUp, Fitted;
    PrepareSpec(fs, fms);
    NoneFree(fs.bitmap);
    if Free(fs.bitmap) != {} {
      PrepareExactly(fs, fms);
    }
  }

  lemma SameSnapRefl(disk: Disk, bm: MapBytes, s: nat)
    requires SnapSafe(disk, bm, s)
    ensures SameSnap(disk, disk, s)
  {
  }

  lemma PreparedIsDirty(fs: Fs, mid: Fs, d: nat, name: CStr)
    requires Prepared(fs, mid, d, name)
    ensures mid.tx.active && mid.tx.dirty && Grew(fs, mid)
  {
  }

  lemma CommitIs(mid: Fs)
    requires mid.tx.active && mid.tx.dirty
    ensures TxCommit(mid) == Commit(mid).(tx := TxCommit(mid).tx) && !TxCommit(mid).tx.active
  {
    hide BuildSuper, BitmapSector, Get32;
  }

  /** The sectors written by a save, in order, account for the whole new disk. */
  lemma SaveAllWrites(fs: Fs, fms: seq<Form>)
    requires !fs.tx.active
    ensures var fs' := SaveAll(fs, fms);
            && |fs.log| <= |fs'.log|
            && WritesFit(Written(fs, fs'))
            && fs'.disk == Replay(fs.disk, Written(fs, fs'))
            && forall k :: 0 <= k < |Written(fs, fs')| ==> Quiet(fs, Replay(fs.disk, Written(fs, fs')[..k]))
  {
    hide Prepare, Prepared, Quiet, Free, EarlyWrite, Commit, TxCommit, Replay;
    PrepareSpec(fs, fms);
    var (mid, d) := Prepare(fs, fms);
    var fs' := SaveAll(fs, fms);
    if !fs.mounted || d == 0 {
      assert Written(fs, fs') == [];
      ReplayNothing(fs.disk);
    } else {
      PreparedIsDirty(fs, mid, d, LIVE);
      CommitIs(mid);
      CommitRuns(fs, mid, fs');
    }
  }

  /** Every proper prefix of the writes of a commit leaves the old store readable. */
  lemma CommitRuns(fs: Fs, mid: Fs, fs': Fs)
    requires Grew(fs, mid) && fs' == Commit(mid).(tx := fs'.tx)
    ensures |fs.log| <= |fs'.log| && WritesFit(Written(fs, fs')) && fs'.disk == Replay(fs.disk, Written(fs, fs'))
    ensures forall k :: 0 <= k < |Written(fs, fs')| ==> Quiet(fs, Replay(fs.disk, Written(fs, fs')[..k]))
  {
    hide Quiet, Free, EarlyWrite, Commit, Replay;
    CommitWrites(fs, mid);
    var ws := Written(fs, fs');
    forall k | 0 <= k < |ws| ensures Quiet(fs, Replay(fs.disk, ws[..k])) {
      forall j | 0 <= j < |ws[..k]| ensures EarlyWrite(fs, mid.bitmap, ws[..k][j]) {
        assert ws[..k][j] == ws[j];
      }
      assert Free(mid.bitmap) <= Free(fs.bitmap);
      EarlyQuiet(fs, mid.bitmap, ws[..k]);
    }
  }

  lemma ReplayNothing(d: Disk)
    ensures Replay(d, []) == d
  {
  }

  ghost predicate LoadsSame(d: Disk, root: nat, d': Disk, root': nat) {
    && LoadReady(d, root) && LoadReady(d', root')
    && Load(d, root) == Load(d', root')
  }

  /** Power may fail after any number of the sector writes of a save.  The next
      boot accepts the superblock and loads exactly the old form table if the
      last write is missing and exactly the new one if it is not; either way
      every block of every listed snapshot is marked used in the bitmap on disk. */
  lemma CrashAtomicity(fs: Fs, snaps: seq<nat>, fms: seq<Form>, k: nat)
    requires StoreOk(fs, snaps)
    ensures var fs' := SaveAll(fs, fms);
            |fs.log| <= |fs'.log| && WritesFit(Written(fs, fs'))
    ensures k <= |Written(fs, SaveAll(fs, fms))| ==>
              var fs' := SaveAll(fs, fms);
              var up := Mount(CrashDisk(fs, fs', k));
              && up.disk == CrashDisk(fs, fs', k)
              && if k < |Written(fs, fs')| then
                   StoreOk(up, snaps) && LoadsSame(up.disk, SuperRoot(up.sb), fs.disk, SuperRoot(fs.sb))
                 else
                   && StoreOk(up, SnapsAfter(fs, snaps, fms))
                   && LoadsSame(up.disk, SuperRoot(up.sb), fs'.disk, SuperRoot(fs'.sb))
  {
    hide SaveAll, SnapsAfter, Quiet, Replay, LoadsSame, SuperRoot, StoreOk, Mount;
    SoundIsIdle(fs, snaps);
    SaveAllWrites(fs, fms);
    SaveAllKeepsStore(fs, snaps, fms);
    CrashPoint(fs, snaps, SaveAll(fs, fms), SnapsAfter(fs, snaps, fms), k);
  }

  lemma SoundIsIdle(fs: Fs, snaps: seq<nat>)
    requires StoreOk(fs, snaps)
    ensures !fs.tx.active && fs.mounted
  {
  }

  /** A run of writes all of whose proper prefixes are quiet is atomic. */
  lemma CrashPoint(fs: Fs, snaps: seq<nat>, fs': Fs, after: seq<nat>, k: nat)
    requires StoreOk(fs, snaps) && StoreOk(fs', after)
    requires |fs.log| <= |fs'.log| && WritesFit(Written(fs, fs')) && fs'.disk == Replay(fs.disk, Written(fs, fs'))
    requires forall i :: 0 <= i < |Written(fs, fs')| ==> Quiet(fs, Replay(fs.disk, Written(fs, fs')[..i]))
    ensures k <= |Written(fs, fs')| ==>
              var up := Mount(CrashDisk(fs, fs', k));
              && up.disk == CrashDisk(fs, fs', k)
              && if k < |Written(fs, fs')| then
                   StoreOk(up, snaps) && LoadsSame(up.disk, SuperRoot(up.sb), fs.disk, SuperRoot(fs.sb))
                 else
                   StoreOk(up, after) && LoadsSame(up.disk, SuperRoot(up.sb), fs'.disk, SuperRoot(fs'.sb))
  {
    hide Quiet, Replay, LoadsSame, SuperRoot, ChainOk, SnapSafe, SuperOk, DiskBitmap, SameSnap, Mount;
    var ws := Written(fs, fs');
    if k < |ws| {
      var d := Replay(fs.disk, ws[..k]);
      QuietRecovers(fs, snaps, d);
      MountIsBoot(d);
      RecoversSame(fs, Boot(d), snaps);
    } else if k == |ws| {
      assert ws[..k] == ws;
      MountIsBoot(fs'.disk);
      RebootKeeps(fs', after);
      forall i | 0 <= i < |after| ensures SameSnap(fs'.disk, fs'.disk, after[i]) {
        SameSnapRefl(fs'.disk, fs'.bitmap, after[i]);
      }
      RecoversSame(fs', Boot(fs'.disk), after);
    }
  }

  // ---- the commit at the end of a boot ------------------------------------

  /** boot_policy_execute: it sets no new root, so the snapshot it commits names
      no directory. */
  function BootCommit(fs: Fs): Fs {
    TxCommit(BootMid(fs))
  }

  function BootMid(fs: Fs): Fs {
    SnapCreate(MarkDirty(TxBegin(fs)), BOOT_OK).0
  }

  function MarkDirty(fs: Fs): Fs {
    fs.(tx := fs.tx.(dirty := true))
  }

  function SnapsBooted(fs: Fs, snaps: seq<nat>): seq<nat> {
    Grown(BootMid(fs), snaps)
  }

  lemma BootPrepared(fs: Fs)
    requires !fs.tx.active
    ensures Prepared(fs, BootMid(fs), 0, BOOT_OK)
    ensures BootMid(fs).tx.snap != 0 <==> Free(fs.bitmap) != {}
  {
    hide Free, Grew, SnapCreate, Prepared;
    var a := MarkDirty(TxBegin(fs));
    GrewRefl(fs, a);
    SnapCreateSpec(fs, a, 0, BOOT_OK);
  }

  /** The boot commit keeps the store sound and every earlier snapshot as it was. */
  lemma BootKeepsStore(fs: Fs, snaps: seq<nat>)
    requires StoreOk(fs, snaps)
    ensures StoreOk(BootCommit(fs), SnapsBooted(fs, snaps))
    ensures forall i :: 0 <= i < |snaps| ==> SameSnap(fs.disk, BootCommit(fs).disk, snaps[i])
  {
    hide SnapSafe, ChainOk, SuperOk, DiskBitmap, SuperRoot, Prepared, SameSnap, Commit, Free, BootMid, TxCommit;
    BootPrepared(fs);
    var mid := BootMid(fs);
    PreparedIsDirty(fs, mid, 0, BOOT_OK);
    CommitIs(mid);
    CommitKeepsStore(fs, snaps, mid, 0, BOOT_OK, TxCommit(mid));
  }

  /** What a load finds after the boot commit: nothing, if a block was free for
      the snapshot, and what it found before otherwise. */
  lemma BootLoads(fs: Fs, snaps: seq<nat>)
    requires StoreOk(fs, snaps)
    ensures var c := BootCommit(fs);
            && LoadReady(fs.disk, SuperRoot(fs.sb)) && LoadReady(c.disk, SuperRoot(c.sb))
            && Load(c.disk, SuperRoot(c.sb)) == if Free(fs.bitmap) != {} then None else Load(fs.disk, SuperRoot(fs.sb))
  {
    hide SnapSafe, ChainOk, SuperOk, DiskBitmap, SuperRoot, SameSnap, Commit, Free, BootMid, TxCommit, Load, LoadReady,
      SetRoot, SnapRoot, SnapParent, SnapName, RootForms, RootLoad;
    BootPrepared(fs);
    BootKeepsStore(fs, snaps);
    var c, mid := BootCommit(fs), BootMid(fs);
    PreparedIsDirty(fs, mid, 0, BOOT_OK);
    CommitIs(mid);
    CommitDisk(fs, mid);
    if mid.tx.snap == 0 {
      RecoversSame(fs, c, snaps);
    } else {
      NewSnapSafe(fs, mid, 0, BOOT_OK, c.disk);
      SetRootReads(fs.sb, mid.tx.snap);
      FreeInStore(fs.bitmap, mid.tx.snap);
      RootlessLoads(c.disk, mid.tx.snap);
      RecoversSelf(fs, snaps);
    }
  }

  lemma RootlessLoads(disk: Disk, root: nat)
    requires 0 < root < DISK_BLOCKS && SnapRoot(disk[root]) == 0
    ensures LoadReady(disk, root) && Load(disk, root) == None
  {
  }

  lemma RecoversSelf(fs: Fs, snaps: seq<nat>)
    requires StoreOk(fs, snaps)
    ensures LoadReady(fs.disk, SuperRoot(fs.sb))
  {
    hide SnapSafe, SuperOk, DiskBitmap, SameSnap, LoadReady;
    forall i | 0 <= i < |snaps| ensures SameSnap(fs.disk, fs.disk, snaps[i]) {
      SameSnapRefl(fs.disk, fs.bitmap, snaps[i]);
    }
    RecoversSame(fs, fs, snaps);
  }

  lemma BootWrites(fs: Fs)
    requires !fs.tx.active
    ensures var fs' := BootCommit(fs);
            && |fs.log| <= |fs'.log|
            && WritesFit(Written(fs, fs'))
            && fs'.disk == Replay(fs.disk, Written(fs, fs'))
            && forall k :: 0 <= k < |Written(fs, fs')| ==> Quiet(fs, Replay(fs.disk, Written(fs, fs')[..k]))
  {
    hide Prepared, Quiet, Commit, TxCommit, Replay, BootMid;
    BootPrepared(fs);
    PreparedIsDirty(fs, BootMid(fs), 0, BOOT_OK);
    CommitIs(BootMid(fs));
    CommitRuns(fs, BootMid(fs), TxCommit(BootMid(fs)));
  }

  /** The boot commit is atomic too. */
  lemma BootAtomicity(fs: Fs, snaps: seq<nat>, k: nat)
    requires StoreOk(fs, snaps)
    ensures var fs' := BootCommit(fs);
            |fs.log| <= |fs'.log| && WritesFit(Written(fs, fs'))
    ensures k <= |Written(fs, BootCommit(fs))| ==>
              var fs' := BootCommit(fs);
              var up := Mount(CrashDisk(fs, fs', k));
              && up.disk == CrashDisk(fs, fs', k)
              && if k < |Written(fs, fs')| then
                   StoreOk(up, snaps) && LoadsSame(up.disk, SuperRoot(up.sb), fs.disk, SuperRoot(fs.sb))
                 else
                   && StoreOk(up, SnapsBooted(fs, snaps))
                   && LoadsSame(up.disk, SuperRoot(up.sb), fs'.disk, SuperRoot(fs'.sb))
  {
    hide BootCommit, SnapsBooted, Quiet, Replay, LoadsSame, SuperRoot, StoreOk, Mount;
    SoundIsIdle(fs, snaps);
    BootWrites(fs);
    BootKeepsStore(fs, snaps);
    CrashPoint(fs, snaps, BootCommit(fs), SnapsBooted(fs, snaps), k);
  }

  /** Mounting a disk whose superblock is accepted writes nothing to it. */
  lemma MountIsBoot(d: Disk)
    ensures SuperOk(d[SUPER_LBA]) ==> Mount(d) == Boot(d)
  {
    hide SuperOk, DiskBitmap, MountFresh;
  }

  /** A clean reboot: only memory is lost. */
  lemma RebootKeeps(fs: Fs, snaps: seq<nat>)
    requires StoreOk(fs, snaps)
    ensures StoreOk(Boot(fs.disk), snaps)
  {
  }

  lemma RecoversSame(fs: Fs, up: Fs, snaps: seq<nat>)
    requires StoreOk(fs, snaps) && StoreOk(up, snaps)
    requires forall i :: 0 <= i < |snaps| ==> SameSnap(fs.disk, up.disk, snaps[i])
    requires SuperRoot(up.sb) == SuperRoot(fs.sb)
    ensures LoadsSame(up.disk, SuperRoot(up.sb), fs.disk, SuperRoot(fs.sb))
  {
    hide Get32, DirGood, LoadDir, Listed, SuperOk, DiskBitmap, Free;
    if snaps != [] {
      assert SameSnap(fs.disk, up.disk, snaps[0]);
      UsesItself(fs.disk, snaps[0]);
      if SnapRoot(fs.disk[snaps[0]]) != 0 {
        GoodLoads(fs.disk, snaps[0]);
        GoodLoads(up.disk, snaps[0]);
      }
    }
  }
}

/** The block allocator over the life of a volume: nothing is ever free below its
    hint, so every block handed out is the lowest free one. */
module Hints {
  import opened Bytes
  import opened Bitmap
  import opened BlockCache
  import opened Store
  import opened Directory
  import opened Objects
  import opened Forms
  import opened Snapshots
  import opened Users
  import opened Lives

  predicate LowestFirst(fs: Fs) {
    HintOk(Allocator(fs.bitmap, fs.hint), OBJECT_LBA, DISK_BLOCKS)
  }

  lemma LowAlloc(fs: Fs)
    requires LowestFirst(fs)
    ensures LowestFirst(AllocBlock(fs).0)
    ensures AllocBlock(fs).1 != 0 ==> forall k :: k in Free(fs.bitmap) ==> AllocBlock(fs).1 <= k
  {
    hide Used;
    BlockAllocatorRefinesScan(fs, 0);
    AllocStepKeepsHint(Allocator(fs.bitmap, fs.hint), Take, OBJECT_LBA, DISK_BLOCKS);
    if Free(fs.bitmap) != {} {
      ScanIsLowest(fs.bitmap, OBJECT_LBA, fs.hint, DISK_BLOCKS);
    }
  }

  lemma LowFree(fs: Fs, b: nat)
    requires LowestFirst(fs)
    ensures LowestFirst(FreeBlock(fs, b))
  {
    hide Used;
    BlockAllocatorRefinesScan(fs, b);
    AllocStepKeepsHint(Allocator(fs.bitmap, fs.hint), Release(b), OBJECT_LBA, DISK_BLOCKS);
  }

  /** Memory of the allocator is all that matters. */
  lemma LowSame(fs: Fs, fs': Fs)
    requires LowestFirst(fs) && fs'.bitmap == fs.bitmap && fs'.hint == fs.hint
    ensures LowestFirst(fs')
  {
  }

  lemma LowAtStart(fs: Fs)
    requires fs.hint == OBJECT_LBA
    ensures LowestFirst(fs)
  {
  }

  lemma LowBlocks(fs: Fs, kind: byte)
    requires LowestFirst(fs)
    ensures LowestFirst(CreateDir(fs).0) && LowestFirst(AllocObject(fs, kind).0)
  {
    hide LowestFirst, EmptyDir, NewObj;
    LowAlloc(fs);
    var (a, b) := AllocBlock(fs);
    if b != 0 {
      FreeInStore(fs.bitmap, b);
      LowSame(a, WriteBlock(a, b, EmptyDir()));
      LowSame(a, WriteBlock(a, b, NewObj(kind, SuperTime(fs.sb))));
    }
  }

  lemma LowAdd(fs: Fs, d: nat, name: CStr, obj: u32, kind: byte)
    requires LowestFirst(fs) && DirOk(fs.disk, d)
    ensures LowestFirst(AddEntry(fs, d, name, obj, kind).0)
  {
    hide LowestFirst, CreateDir, PutEntry, Get32, Put32, Sealed, DirBlockOk;
    LowBlocks(fs, 0);
    var (a, b) := CreateDir(fs);
    var r := AddEntry(fs, d, name, obj, kind).0;
    if r.bitmap == fs.bitmap && r.hint == fs.hint {
      LowSame(fs, r);
    } else {
      LowSame(a, r);
    }
  }

  lemma {:induction false} LowChunks(fs: Fs, olds: seq<u32>, data: seq<byte>, n: nat)
    requires LowestFirst(fs) && Pointers(olds) && n <= BlocksFor(|data|)
    ensures LowestFirst(WriteChunks(fs, olds, data, n).0)
  {
    if n > 0 {
      LowChunks(fs, olds, data, n - 1);
      hide LowestFirst, Chunk, AllocBlock;
      var (a, got, ok) := WriteChunks(fs, olds, data, n - 1);
      LowAlloc(a);
      var b := AllocBlock(a).0;
      var r := WriteChunks(fs, olds, data, n).0;
      if r.bitmap == a.bitmap && r.hint == a.hint {
        LowSame(a, r);
      } else {
        LowSame(b, r);
      }
    }
  }

  lemma LowWrite(fs: Fs, o: nat, data: seq<byte>)
    requires LowestFirst(fs) && 0 < o < DISK_BLOCKS && Pointers(ObjBlocks(fs.disk[o])) && |data| < 0x8000_0000
    ensures LowestFirst(WriteObject(fs, o, data).0)
  {
    hide LowestFirst, WriteChunks, ObjBlocks, SetObj, Hash, BlocksFor;
    LowChunks(fs, ObjBlocks(fs.disk[o]), data, BlocksFor(|data|));
    var (a, got, ok) := WriteChunks(fs, ObjBlocks(fs.disk[o]), data, BlocksFor(|data|));
    var r := WriteObject(fs, o, data).0;
    if r == fs {
    } else {
      LowSame(a, r);
    }
  }

  lemma LowObject(fs: Fs, f: Form)
    requires LowestFirst(fs)
    ensures LowestFirst(SaveObject(fs, f).0)
  {
    hide LowestFirst, AllocObject, WriteObject, ObjBlocks, Payload, FreeBlock;
    LowBlocks(fs, FORM);
    NewTarget(fs, FORM);
    var (a, o) := AllocObject(fs, FORM);
    if o != 0 {
      LowWrite(a, o, Payload(f));
      LowFree(WriteObject(a, o, Payload(f)).0, o);
    }
  }

  lemma {:induction false} LowForms(fs: Fs, d: nat, fms: seq<Form>)
    requires LowestFirst(fs) && DirHeld(fs, d)
    ensures LowestFirst(SaveForms(fs, d, fms))
  {
    if fms != [] {
      var t := fms[..|fms| - 1];
      LowForms(fs, d, t);
      LowForm(SaveForms(fs, d, t), d, fms[|fms| - 1]);
    }
  }

  lemma LowForm(fs: Fs, d: nat, f: Form)
    requires LowestFirst(fs) && DirHeld(fs, d)
    ensures LowestFirst(SaveForm(fs, d, f))
  {
    hide LowestFirst, SaveObject, AddEntry, DirOk;
    LowObject(fs, f);
    SaveObjectKeepsDir(fs, d, f);
    SaveObjectSpec(fs, f);
    var (a, o) := SaveObject(fs, f);
    if o != 0 {
      FreeInStore(fs.bitmap, o);
      LowAdd(a, d, f.name, o, FORM);
    }
  }

  lemma LowSnap(fs: Fs, name: CStr)
    requires LowestFirst(fs)
    ensures LowestFirst(SnapCreate(fs, name).0)
  {
    hide LowestFirst, AllocBlock, BuildSnap, SetRoot;
    LowAlloc(fs);
    var r := SnapCreate(fs, name).0;
    if r == fs {
    } else {
      LowSame(AllocBlock(fs).0, r);
    }
  }

  lemma LowCommit(fs: Fs)
    requires LowestFirst(fs)
    ensures LowestFirst(TxCommit(fs))
  {
    hide LowestFirst, BuildSuper, BitmapSector;
    LowSame(fs, TxCommit(fs));
  }

  lemma LowSaveAll(fs: Fs, fms: seq<Form>)
    requires LowestFirst(fs)
    ensures LowestFirst(SaveAll(fs, fms))
  {
    hide LowestFirst, CreateDir, SaveForms, SnapCreate, TxCommit, DirHeld, Free;
    var fs1 := TxBegin(fs);
    LowSame(fs, fs1);
    LowBlocks(fs1, 0);
    CreateDirSpec(fs1);
    var (a, d) := CreateDir(fs1);
    if d == 0 {
      LowSame(a, TxAbort(a));
    } else {
      LowForms(a, d, fms);
      var b := SaveForms(a, d, fms);
      LowSame(b, SetNewRoot(b, d));
      LowSnap(SetNewRoot(b, d), LIVE);
      LowCommit(SnapCreate(SetNewRoot(b, d), LIVE).0);
    }
  }

  lemma LowBoot(fs: Fs)
    requires LowestFirst(fs)
    ensures LowestFirst(BootCommit(fs))
  {
    hide LowestFirst, SnapCreate, TxCommit;
    LowSame(fs, MarkDirty(TxBegin(fs)));
    LowSnap(MarkDirty(TxBegin(fs)), BOOT_OK);
    LowCommit(BootMid(fs));
  }

  /** A mount starts with the lowest hint. */
  lemma LowMount(d: Disk)
    ensures LowestFirst(Mount(d))
  {
    hide LowestFirst, CreateDir, SnapCreate, TxCommit, BuildSuper, DiskBitmap, SuperOk, MarkRange;
    if SuperOk(d[SUPER_LBA]) {
      LowAtStart(Mount(d));
    } else {
      var fs := Format(PowerOn(d));
      LowAtStart(fs);
      LowBlocks(fs, 0);
      var (a, r) := CreateDir(fs);
      if r != 0 {
        assert InStore(r) by { CreateDirSpec(fs); }
        var b := SetNewRoot(TxBegin(a), r);
        LowSame(a, b);
        LowSnap(b, BOOT_OK);
        LowCommit(SnapCreate(b, BOOT_OK).0);
      }
    }
  }

  lemma LowUsers(fs: Fs, data: seq<byte>)
    requires LowestFirst(fs) && CanSave(fs, data)
    ensures LowestFirst(UsersSave(fs, data).0)
  {
    hide LowestFirst, UsersObject, WriteObject, SnapCreate, TxCommit, DirGood, DirUses, ObjBlocks, HasLiveDir, Free;
    var fs1 := TxBegin(fs);
    LowSame(fs, fs1);
    if fs.mounted && HasLiveDir(fs) {
      var d := LiveDir(fs);
      LowTarget(fs1, d);
      UsersTarget(fs1, d);
      var (a, o) := UsersObject(fs1, d);
      if o == 0 {
        LowSame(a, TxAbort(a));
      } else {
        LowWrite(a, o, data);
        var (b, ok) := WriteObject(a, o, data);
        LowSame(b, TxAbort(b));
        LowSame(b, SetNewRoot(b, d));
        LowSnap(SetNewRoot(b, d), USERS_UPDATE);
        LowCommit(SnapCreate(SetNewRoot(b, d), USERS_UPDATE).0);
      }
    } else {
      LowSame(fs, UsersSave(fs, data).0);
    }
  }

  lemma LowTarget(fs: Fs, d: nat)
    requires LowestFirst(fs) && DirKept(fs, d)
    ensures LowestFirst(UsersObject(fs, d).0)
  {
    hide LowestFirst, AllocObject, AddEntry, DirOk, FindEntry, DirUses, Free, DirEntries, ObjOk, Clear;
    AllocKeepsDir(fs, d, CONFIG);
    LowBlocks(fs, CONFIG);
    NewTarget(fs, CONFIG);
    KeptIsHeld(fs, d);
    var (a, o) := AllocObject(fs, CONFIG);
    if o != 0 {
      LowAdd(a, d, USERS, o, CONFIG);
    }
  }

  lemma LowAct(fs: Fs, a: Act, fs': Fs)
    requires LowestFirst(fs) && Acts(fs, a, fs')
    ensures LowestFirst(fs')
  {
    hide LowestFirst, SaveAll, BootCommit, UsersSave, Mount, Replay;
    match a
    case Forms(e) =>
      match e {
        case Save(fms) => LowSaveAll(fs, fms);
        case Crash(fms, k) => LowMount(CrashDisk(fs, SaveAll(fs, fms), k));
        case BootPolicy => LowBoot(fs);
        case BootCrash(k) => LowMount(CrashDisk(fs, BootCommit(fs), k));
        case Reboot => LowMount(fs.disk);
      }
    case UserTable(data) => LowUsers(fs, data);
    case UserCrash(data, k) => LowMount(CrashDisk(fs, UsersSave(fs, data).0, k));
  }

  /** Over every run from a mount, sound or not, each block handed out is the
      lowest free one. */
  lemma {:induction false} LowestOverLife(states: seq<Fs>, acts: seq<Act>, d: Disk)
    requires |states| == |acts| + 1 && states[0] == Mount(d)
    requires forall k :: 0 <= k < |acts| ==> Acts(states[k], acts[k], states[k + 1])
    ensures LowestFirst(states[|acts|])
    ensures var b := AllocBlock(states[|acts|]).1;
            b != 0 ==> b in Free(states[|acts|].bitmap) && forall k :: k in Free(states[|acts|].bitmap) ==> b <= k
  {
    hide LowestFirst, Acts, Mount, Free;
    if acts == [] {
      LowMount(d);
    } else {
      var n := |acts| - 1;
      LowestOverLife(states[..n + 1], acts[..n], d);
      assert Acts(states[n], acts[n], states[n + 1]);
      LowAct(states[n], acts[n], states[n + 1]);
    }
    LowAlloc(states[|acts|]);
  }
}

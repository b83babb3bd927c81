/** hexafs_users_save write by write: which of its states are sound, when it is
    cut off by a crash and when it fails. */
module UserWrites {
  import opened Bytes
  import opened BlockCache
  import opened Store
  import opened Directory
  import opened Objects
  import opened Forms
  import opened Snapshots
  import opened History
  import opened Users
  import opened Separation
  import opened Lifetime
  import opened Traces

  // ---- what makes a state sound -------------------------------------------

  /** A directory keeps its shape when its own blocks and its objects' headers do. */
  lemma ShapeFrame(disk: Disk, disk': Disk, d: nat)
    requires DirGood(disk, d) && ObjsApart(disk, d)
    requires forall b :: 0 <= b < DISK_BLOCKS && DirBlock(disk, d, b) ==> disk'[b] == disk[b]
    requires forall i :: 0 <= i < |DirEntries(disk, d)| ==>
               disk'[DirEntries(disk, d)[i].obj] == disk[DirEntries(disk, d)[i].obj]
    ensures DirGood(disk', d) && ObjsApart(disk', d) && DirEntries(disk', d) == DirEntries(disk, d)
    ensures forall b :: 0 <= b ==> (DirUses(disk', d, b) <==> DirUses(disk, d, b))
  {
    HeadSame(disk, disk', d);
    GoodUsesItself(disk, d);
    hide Get32, DirEntries, ObjOk, ObjBlock, DirOk, Clear, DirNext;
    var es := DirEntries(disk, d);
    forall i | 0 <= i < |es|
      ensures ObjOk(disk, es[i].obj) && ObjOk(disk', es[i].obj) && Clear(disk', d, es[i].obj)
      ensures es[i].obj < DISK_BLOCKS
      ensures forall b :: 0 <= b ==> (ObjBlock(disk', es[i].obj, b) <==> ObjBlock(disk, es[i].obj, b))
    {
      SameHeader(disk, disk', d, es[i].obj);
    }
    forall i, j | 0 <= i < j < |es| ensures Apart(disk', es[i].obj, es[j].obj) {
      assert Apart(disk, es[i].obj, es[j].obj);
    }
    SameUses(disk, disk', d);
  }

  lemma SameUses(disk: Disk, disk': Disk, d: nat)
    requires DirGood(disk, d) && DirGood(disk', d) && disk'[d] == disk[d]
    requires DirEntries(disk', d) == DirEntries(disk, d)
    requires forall i, b :: 0 <= i < |DirEntries(disk, d)| && 0 <= b ==>
               (ObjBlock(disk', DirEntries(disk, d)[i].obj, b) <==> ObjBlock(disk, DirEntries(disk, d)[i].obj, b))
    ensures forall b :: 0 <= b ==> (DirUses(disk', d, b) <==> DirUses(disk, d, b))
  {
    hide Get32, DirEntries, ObjBlock, DirOk, Clear, DirNext, IsObj, ObjBlocks, BlocksFor;
  }

  lemma SameHeader(disk: Disk, disk': Disk, d: nat, o: nat)
    requires ObjOk(disk, o) && d < DISK_BLOCKS && Clear(disk, d, o) && disk'[o] == disk[o] && disk'[d] == disk[d]
    ensures o < DISK_BLOCKS && ObjOk(disk', o) && Clear(disk', d, o)
    ensures forall b :: 0 <= b ==> (ObjBlock(disk', o, b) <==> ObjBlock(disk, o, b))
  {
    hide Get32, ObjBlocks, IsObj, BlocksFor, DirNext;
  }

  lemma HeadSame(disk: Disk, disk': Disk, d: nat)
    requires DirOk(disk, d)
    requires forall b :: 0 <= b < DISK_BLOCKS && DirBlock(disk, d, b) ==> disk'[b] == disk[b]
    ensures DirOk(disk', d) && DirEntries(disk', d) == DirEntries(disk, d) && disk'[d] == disk[d]
  {
    hide Get32, DirEntries, Sealed, DirBlockOk;
    assert DirBlock(disk, d, d);
    if DirNext(disk[d]) != 0 {
      assert DirBlock(disk, d, DirNext(disk[d]));
    }
    DirFrame(disk, disk', d);
  }

  ghost predicate LiveStore(fs: Fs, snaps: seq<nat>, d: nat) {
    StoreOk(fs, snaps) && Separate(fs.disk, snaps) && HasLive(fs) && LiveDir(fs) == d
  }

  /** u stands where fs did: same superblock, idle, its bitmap on disk unless dirty. */
  ghost predicate SamePlace(fs: Fs, u: Fs) {
    && u.disk[SUPER_LBA] == fs.disk[SUPER_LBA] && u.sb == fs.sb && u.mounted && !u.tx.active && Synced(u)
  }

  function OnDisk(u: Fs): Fs { u.(bitmap := DiskBitmap(u.disk)) }

  /** up is sound and separate with these snapshots, and those of fs that name
      another directory than d are unchanged. */
  ghost predicate Kept(fs: Fs, snaps: seq<nat>, d: nat, up: Fs, after: seq<nat>) {
    && StoreOk(up, after) && Separate(up.disk, after)
    && forall i :: 0 <= i < |snaps| && snaps[i] < DISK_BLOCKS && SnapRoot(fs.disk[snaps[i]]) != d ==>
         SameSnap(fs.disk, up.disk, snaps[i])
  }

  /** The live directory moved within its own and free blocks, by both bitmaps. */
  lemma SoundAt(fs: Fs, snaps: seq<nat>, d: nat, u: Fs)
    requires LiveStore(fs, snaps, d) && DirGood(fs.disk, d) && SamePlace(fs, u)
    requires DirMoved(fs, d, u) && DirMoved(fs, d, OnDisk(u))
    ensures Kept(fs, snaps, d, u, snaps)
  {
    hide Get32, DirGood, DirUses, Free, SnapSafe, SuperOk, DiskBitmap, Separate, DirMoved, SnapRoot, SameSnap;
    LiveIsFirst(fs, snaps);
    FollowsItself(u);
    FollowsItself(OnDisk(u));
    OldSnapsKept(fs, snaps, d, u, u);
    OldSnapsKept(fs, snaps, d, OnDisk(u), OnDisk(u));
    MovedSeparate(fs, snaps, d, 0, u, u.disk);
    forall i | 0 <= i < |snaps| ensures snaps[i] < DISK_BLOCKS && u.disk[snaps[i]] == fs.disk[snaps[i]] {
      OldSnap(fs, snaps, d, 0, u, u.disk, i);
    }
    ChainFrame(fs.disk, u.disk, SuperRoot(fs.sb), snaps);
  }

  lemma FollowsItself(u: Fs)
    ensures Follows(u, u.disk)
  {
  }

  /** A used block that the bitmap on disk has as free makes a store unsound. */
  lemma UnsoundAt(fs: Fs, snaps: seq<nat>, d: nat, u: Fs, w: nat, s: seq<nat>)
    requires LiveStore(fs, snaps, d)
    requires u.disk[SUPER_LBA] == fs.disk[SUPER_LBA] && u.disk[SuperRoot(fs.sb)] == fs.disk[SuperRoot(fs.sb)]
    requires w < DISK_BLOCKS && w in Free(DiskBitmap(u.disk)) && (DirGood(u.disk, d) ==> DirUses(u.disk, d, w))
    ensures !StoreOk(u, s)
  {
    hide Get32, DirGood, DirUses, Free, StoreOk, DiskBitmap, SnapRoot, IsSnap, Separate;
    if StoreOk(u, s) {
      RootInUse(u, s, SuperRoot(fs.sb), d);
      SuperKept(fs, snaps);
      assert false;
    }
  }

  lemma SuperKept(fs: Fs, snaps: seq<nat>)
    requires StoreOk(fs, snaps)
    ensures fs.sb == fs.disk[SUPER_LBA]
  {
  }

  lemma RootInUse(u: Fs, s: seq<nat>, r: nat, d: nat)
    requires StoreOk(u, s) && r < DISK_BLOCKS
    ensures SuperRoot(u.disk[SUPER_LBA]) == r && r != 0 && SnapRoot(u.disk[r]) == d && d != 0 ==>
              && DirGood(u.disk, d)
              && forall b :: 0 <= b < DISK_BLOCKS && DirUses(u.disk, d, b) ==> b !in Free(DiskBitmap(u.disk))
  {
    hide Get32, DirGood, DirUses, Free, SuperOk, DiskBitmap, SnapRoot, IsSnap, Terminated, SnapParent, SuperRoot;
    if SuperRoot(u.disk[SUPER_LBA]) == r && r != 0 && SnapRoot(u.disk[r]) == d && d != 0 {
      assert SnapSafe(u.disk, DiskBitmap(u.disk), s[0]);
      forall b | 0 <= b < DISK_BLOCKS && DirUses(u.disk, d, b) ensures b !in Free(DiskBitmap(u.disk)) {
        assert SnapUses(u.disk, s[0], b);
      }
    }
  }

  // ---- what a head block names --------------------------------------------

  /** A first directory block that links to w, or whose entries name object w. */
  predicate HeadNames(s: Sector, w: nat) {
    if DirNext(s) != 0 then DirNext(s) == w
    else DirCount(s) <= MAX_ENTRIES && exists i :: 0 <= i < DirCount(s) && EntryAt(s, i).obj == w
  }

  lemma HeadNamesUses(disk: Disk, d: nat, w: nat)
    requires DirGood(disk, d) && HeadNames(disk[d], w)
    ensures DirUses(disk, d, w)
  {
    hide Get32, Sealed, Terminated, ObjOk, Clear, EntryAt, DirNext, DirCount;
    if DirNext(disk[d]) == 0 {
      var i :| 0 <= i < DirCount(disk[d]) && EntryAt(disk[d], i).obj == w;
      SizeOfDir(disk, d);
      NamedEntry(disk, d, i);
      assert ObjBlock(disk, w, w);
    }
  }

  lemma NamedEntry(disk: Disk, d: nat, i: nat)
    requires DirGood(disk, d) && DirNext(disk[d]) == 0 && i < DirCount(disk[d]) <= MAX_ENTRIES
    ensures i < |DirEntries(disk, d)| && DirEntries(disk, d)[i] == EntryAt(disk[d], i)
    ensures EntryAt(disk[d], i).obj < DISK_BLOCKS
  {
    hide Get32, Sealed, Terminated, EntryAt, DirNext, DirCount, Clear, ObjBlocks, IsObj, BlocksFor;
    assert DirEntries(disk, d)[i] == EntryAt(disk[d], i);
    assert ObjOk(disk, DirEntries(disk, d)[i].obj);
  }

  // ---- what is written ----------------------------------------------------

  function OwnData(disk: Disk, o: nat): set<nat>
    requires o < DISK_BLOCKS
  {
    set b: nat | b < DISK_BLOCKS && b != 0 && b in ObjBlocks(disk[o])
  }

  /** Finding no ".users": the object goes to free blocks; the head block of the
      directory is written once if it can take an entry, and then names one. */
  lemma MadeWrites(fs: Fs, d: nat) returns (w: nat)
    requires DirKept(fs, d) && FindEntry(fs.disk, d, USERS).None? && UsersObject(fs, d).1 != 0
    ensures var (a, o) := UsersObject(fs, d);
            var F := Free(fs.bitmap);
            && o in F && Free(a.bitmap) <= F
            && if UsersFound(fs, d) then Once(fs, a, d, F) && w in F && HeadNames(a.disk[d], w) else Wrote(fs, a, F)
  {
    hide Get32, DirEntries, DirOk, Free, DirUses, DirNext, DirCount, FirstMatch, AddEntry, AllocObject, ObjOk, Clear,
      ObjBlocks, ObjBlock, Wrote, Sealed, DirBlockOk, NewObj, Once, HeadNames;
    var F := Free(fs.bitmap);
    w := 0;
    GoodUsesItself(fs.disk, d);
    KeptIsHeld(fs, d);
    WroteNothing(fs, fs, F);
    WroteAllocObject(fs, fs, CONFIG, F);
    AllocObjectSpec(fs, CONFIG);
    AllocKeepsDir(fs, d, CONFIG);
    var (a0, o) := AllocObject(fs, CONFIG);
    assert |Free(a0.bitmap)| == |Free(fs.bitmap)| - 1;
    NoneFree(a0.bitmap);
    SizeOfDir(fs.disk, d);
    AddEntryAppends(a0, d, USERS, o, CONFIG);
    AddEntryKeepsHeld(a0, d, USERS, o, CONFIG);
    if UsersFound(fs, d) {
      w := AddedOnce(fs, a0, d, USERS, o, CONFIG);
    }
  }

  lemma AddedOnce(fs: Fs, a0: Fs, d: nat, name: CStr, o: u32, kind: byte) returns (w: nat)
    requires DirHeld(a0, d) && d !in Free(fs.bitmap) && Free(a0.bitmap) <= Free(fs.bitmap) && o in Free(fs.bitmap)
    requires Wrote(fs, a0, Free(fs.bitmap)) && AddEntry(a0, d, name, o, kind).1
    ensures var a := AddEntry(a0, d, name, o, kind).0;
            Once(fs, a, d, Free(fs.bitmap)) && w in Free(fs.bitmap) && HeadNames(a.disk[d], w)
  {
    hide Get32, Put32, DirEntries, Free, DirNext, DirCount, Wrote, DirBlockOk, Sealed, PutEntry, EmptyDir, CreateDir,
      HeadNames;
    var F := Free(fs.bitmap);
    var s := a0.disk[d];
    if DirCount(s) < MAX_ENTRIES {
      w := o;
      var t := PutEntry(s, name, o, kind);
      WroteNothing(WriteBlock(a0, d, t), WriteBlock(a0, d, t), F);
      assert OnceAt(fs, WriteBlock(a0, d, t), d, F, a0, t);
      PutNames(a0, d, name, o, kind);
    } else {
      WroteCreateDir(fs, a0, F);
      NewDirContent2(a0);
      var (a1, b) := CreateDir(a0);
      w := b;
      var t: Sector := Put32(a1.disk[d], 496, b);
      var a2 := WriteBlock(a1, d, t);
      EmptyDirFields();
      var a3 := WriteBlock(a2, b, PutEntry(a2.disk[b], name, o, kind));
      WroteOne(a2, b, PutEntry(a2.disk[b], name, o, kind), F);
      assert OnceAt(fs, a3, d, F, a1, t);
      LinkNames(s, b);
    }
  }

  lemma NewDirContent2(fs: Fs)
    ensures var (a, b) := CreateDir(fs);
            b != 0 ==>
              && b in Free(fs.bitmap) && b < DISK_BLOCKS && a.disk[b] == EmptyDir()
              && forall c :: 0 <= c < DISK_BLOCKS && c != b ==> a.disk[c] == fs.disk[c]
  {
    hide EmptyDir, Free;
    AllocShrinks(fs);
  }

  lemma PutNames(fs: Fs, d: nat, name: CStr, o: u32, kind: byte)
    requires DirOk(fs.disk, d) && DirCount(fs.disk[d]) < MAX_ENTRIES
    ensures HeadNames(PutEntry(fs.disk[d], name, o, kind), o)
  {
    var s := fs.disk[d];
    var t := PutEntry(s, name, o, kind);
    PutEntryAppends(s, name, o, kind);
    hide Get32, PutEntry, EntryAt, Sealed, Terminated;
    CountOfEntries(s);
    CountOfEntries(t);
    assert DirNext(t) == 0;
    assert EntryAt(t, DirCount(s)) == Entries(t)[DirCount(s)];
  }

  lemma LinkNames(s: Sector, b: nat)
    requires 0 < b < DISK_BLOCKS
    ensures HeadNames(Put32(s, 496, b), b)
  {
    hide Get32, Put32;
    PutGet(s, 496, b);
  }

  /** Writing a new object stays within free blocks. */
  lemma NewObjectWrites(a: Fs, o: nat, data: seq<byte>, F: set<nat>)
    requires ObjShape(a.disk, o) && ObjBlocks(a.disk[o]) == [0, 0, 0, 0] && |data| <= MAX_DATA
    requires o in F && Free(a.bitmap) <= F
    ensures Wrote(a, WriteObject(a, o, data).0, F)
  {
    hide Get32, Wrote, Free, ObjBlocks, IsObj, WriteChunks, SetObj, Hash;
    var s := a.disk[o];
    var olds := ObjBlocks(s);
    WroteNothing(a, a, F);
    Traces.WroteChunks(a, a, olds, data, BlocksFor(|data|), F);
    var (q, got, ok) := WriteChunks(a, olds, data, BlocksFor(|data|));
    if ok && |got| <= 4 {
      WroteMore(a, q, o, SetObj(s, Fill(got), |data|, Hash(data)), F);
    }
  }

  /** Writing an existing object: its data blocks and free ones, then, if all
      blocks were found, its header once. */
  lemma OldObjectWrites(a: Fs, o: nat, data: seq<byte>)
    requires ObjOk(a.disk, o) && Allocated(a, o) && |data| <= MAX_DATA
    ensures var (b, ok) := WriteObject(a, o, data);
            var S := Free(a.bitmap) + OwnData(a.disk, o);
            if ok then Once(a, b, o, S) else Wrote(a, b, S)
  {
    hide Get32, Wrote, Free, IsObj, WriteChunks, SetObj, Hash, ObjBlocks;
    var s := a.disk[o];
    var olds := ObjBlocks(s);
    var S := Free(a.bitmap) + OwnData(a.disk, o);
    OwnBlocksHeld(a, o);
    WroteNothing(a, a, S);
    Traces.WroteChunks(a, a, olds, data, BlocksFor(|data|), S);
    WriteChunksSpec(a, olds, data, BlocksFor(|data|));
    var (q, got, ok) := WriteChunks(a, olds, data, BlocksFor(|data|));
    if ok {
      var t := SetObj(s, Fill(got), |data|, Hash(data));
      var b := WriteBlock(q, o, t);
      WroteNothing(b, b, S);
      assert OnceAt(a, b, o, S, q, t);
    }
  }

  /** A larger object names a block that was free. */
  lemma GrownNamesFree(a: Fs, o: nat, data: seq<byte>) returns (w: nat)
    requires ObjOk(a.disk, o) && Allocated(a, o) && |data| <= MAX_DATA && WriteObject(a, o, data).1
    requires Missing(ObjBlocks(a.disk[o]), BlocksFor(|data|)) > 0
    ensures w in Free(a.bitmap) && w != 0 && w < DISK_BLOCKS
    ensures w in ObjBlocks(WriteObject(a, o, data).0.disk[o])
  {
    hide Get32, Free, IsObj, WriteChunks, SetObj, Hash, ObjBlocks, Missing, BlocksFor;
    var s := a.disk[o];
    var olds, n := ObjBlocks(s), BlocksFor(|data|);
    OwnBlocksHeld(a, o);
    WriteChunksSpec(a, olds, data, n);
    var (q, got, ok) := WriteChunks(a, olds, data, n);
    var i := FirstMissing(olds, n);
    w := got[i];
    SetObjFields(s, Fill(got), |data|, Hash(data));
    assert Fill(got)[i] == w;
  }

  lemma {:induction false} FirstMissing(olds: seq<u32>, n: nat) returns (i: nat)
    requires n <= |olds| && Missing(olds, n) > 0
    ensures i < n && olds[i] == 0
  {
    if olds[n - 1] == 0 {
      i := n - 1;
    } else {
      i := FirstMissing(olds, n - 1);
    }
  }

  // ---- the whole save -----------------------------------------------------

  /** Everything before the commit, or all there is when the save fails. */
  ghost predicate UsersPath(fs: Fs, d: nat, q: Fs, ok: bool)
    requires DirKept(fs, d)
  {
    match FindEntry(fs.disk, d, USERS)
    case Some(e) =>
      && e.obj < DISK_BLOCKS
      && var S := Free(fs.bitmap) + OwnData(fs.disk, e.obj);
         if ok then Once(fs, q, e.obj, S) else Wrote(fs, q, S)
    case None => if UsersFound(fs, d) then Once(fs, q, d, Free(fs.bitmap)) else Wrote(fs, q, Free(fs.bitmap))
  }

  lemma PathSome(fs: Fs, d: nat, b: Fs, q: Fs, ok: bool)
    requires DirKept(fs, d) && FindEntry(fs.disk, d, USERS).Some?
    requires var o := FindEntry(fs.disk, d, USERS).value.obj;
             && o < DISK_BLOCKS
             && var S := Free(fs.bitmap) + OwnData(fs.disk, o);
                if ok then Once(fs, b, o, S) && Wrote(b, q, S)
                else Wrote(fs, b, S) && b.disk == q.disk && b.log == q.log
    ensures UsersPath(fs, d, q, ok)
  {
    hide Free, Wrote, Once, OwnData, FindEntry;
    var o := FindEntry(fs.disk, d, USERS).value.obj;
    var S := Free(fs.bitmap) + OwnData(fs.disk, o);
    if ok {
      OnceThen(fs, b, q, o, S);
    } else {
      WroteSame(fs, b, fs, q, S);
    }
  }

  lemma PathNone(fs: Fs, d: nat, a: Fs, q: Fs, ok: bool)
    requires DirKept(fs, d) && FindEntry(fs.disk, d, USERS).None? && Wrote(a, q, Free(fs.bitmap))
    requires if UsersFound(fs, d) then Once(fs, a, d, Free(fs.bitmap)) else Wrote(fs, a, Free(fs.bitmap))
    ensures UsersPath(fs, d, q, ok)
  {
    hide Free, Wrote, Once, FindEntry, UsersFound;
    if UsersFound(fs, d) {
      OnceThen(fs, a, q, d, Free(fs.bitmap));
    } else {
      WroteTrans(fs, a, q, Free(fs.bitmap));
    }
  }

  /** The state just before the commit, or where a failed save gives up. */
  function UsersLast(fs: Fs, data: seq<byte>): Fs
    requires HasLive(fs) && DirKept(fs, LiveDir(fs)) && |data| <= MAX_DATA
  {
    var d := LiveDir(fs);
    UsersTarget(TxBegin(fs), d);
    var (a, o) := UsersObject(TxBegin(fs), d);
    if o == 0 then a
    else
      var (b, ok) := WriteObject(a, o, data);
      if ok then SnapCreate(SetNewRoot(b, d), USERS_UPDATE).0 else b
  }

  lemma LastIs(fs: Fs, data: seq<byte>)
    requires HasLive(fs) && DirKept(fs, LiveDir(fs)) && |data| <= MAX_DATA && fs.mounted
    ensures var q := UsersLast(fs, data);
            UsersSave(fs, data) == if UsersSave(fs, data).1 then (TxCommit(q), true) else (TxAbort(q), false)
  {
    hide UsersObject, WriteObject, SnapCreate, TxCommit, DirGood, DirUses, Free, ObjBlocks;
    UsersTarget(TxBegin(fs), LiveDir(fs));
  }

  lemma SnapWrites(b: Fs, d: u32, S: set<nat>)
    requires Free(b.bitmap) <= S
    ensures Wrote(b, SnapCreate(SetNewRoot(b, d), USERS_UPDATE).0, S)
  {
    hide Wrote, Free, SnapCreate;
    var b1 := SetNewRoot(b, d);
    WroteNothing(b1, b1, S);
    WroteSnap(b1, b1, USERS_UPDATE, S);
    WroteSame(b1, SnapCreate(b1, USERS_UPDATE).0, b, SnapCreate(b1, USERS_UPDATE).0, S);
  }

  /** What the exposing block holds once it is written. */
  ghost predicate Exposes(fs: Fs, d: nat, disk: Disk, n: nat, ok: bool)
    requires DirKept(fs, d)
  {
    && d < DISK_BLOCKS
    && match FindEntry(fs.disk, d, USERS)
       case None => UsersFound(fs, d) ==> HeadExposes(fs, disk[d])
       case Some(e) =>
         && e.obj < DISK_BLOCKS
         && (ok && Missing(ObjBlocks(fs.disk[e.obj]), BlocksFor(n)) > 0 ==> HeaderExposes(fs, e.obj, disk[e.obj]))
  }

  lemma UsersTrace(fs: Fs, snaps: seq<nat>, d: nat, data: seq<byte>)
    requires LiveStore(fs, snaps, d) && |data| <= MAX_DATA
    ensures DirKept(fs, d) && UsersPath(fs, d, UsersLast(fs, data), UsersSave(fs, data).1)
    ensures Exposes(fs, d, UsersLast(fs, data).disk, |data|, UsersSave(fs, data).1)
  {
    hide Get32, DirEntries, DirOk, Free, DirUses, DirNext, DirCount, FirstMatch, FindEntry, UsersObject, WriteObject,
      SnapCreate, ObjBlocks, ObjBlock, Wrote, Once, StoreOk, Separate, UsersPath, TxCommit, UsersFound, SuperRoot,
      SnapRoot, IsSnap, Clear, ObjShape, HeadExposes, HeaderExposes, Missing;
    LiveIsFirst(fs, snaps);
    SoundIsIdle(fs, snaps);
    KeptHead(fs, d);
    if FindEntry(fs.disk, d, USERS).Some? {
      TraceSome(fs, d, data);
    } else {
      TraceNone(fs, d, data);
    }
  }

  /** The header, once written, names a block that was free. */
  ghost predicate HeaderExposes(fs: Fs, o: nat, s: Sector) {
    exists w :: w in Free(fs.bitmap) && w != 0 && w in ObjBlocks(s)
  }

  ghost predicate HeadExposes(fs: Fs, s: Sector) {
    exists w :: w in Free(fs.bitmap) && HeadNames(s, w)
  }

  lemma WroteKeeps(p: Fs, q: Fs, S: set<nat>, b: nat)
    requires Wrote(p, q, S) && b < DISK_BLOCKS && b !in S
    ensures q.disk[b] == p.disk[b]
  {
    hide Replay;
    var ws := Written(p, q);
    assert ws[..|ws|] == ws;
    WrotePrefix(p, q, S, |ws|);
  }

  lemma TraceSome(fs: Fs, d: nat, data: seq<byte>)
    requires HasLive(fs) && LiveDir(fs) == d && DirKept(fs, d) && |data| <= MAX_DATA && fs.mounted
    requires FindEntry(fs.disk, d, USERS).Some?
    ensures UsersPath(fs, d, UsersLast(fs, data), UsersSave(fs, data).1)
    ensures var o := FindEntry(fs.disk, d, USERS).value.obj;
            && o < DISK_BLOCKS
            && (UsersSave(fs, data).1 && Missing(ObjBlocks(fs.disk[o]), BlocksFor(|data|)) > 0 ==>
                  HeaderExposes(fs, o, UsersLast(fs, data).disk[o]))
  {
    hide Get32, DirEntries, DirOk, Free, DirUses, DirNext, DirCount, FirstMatch, FindEntry, UsersObject,
      WriteObject, SnapCreate, ObjBlocks, ObjBlock, Wrote, Once, UsersPath, TxCommit, SuperRoot, SnapRoot, IsSnap,
      HasLiveDir, ObjShape;
    var fs1 := TxBegin(fs);
    UsersObjectSpec(fs1, d);
    UsersTarget(fs1, d);
    FoundTarget(fs1, d);
    var o := FindEntry(fs.disk, d, USERS).value.obj;
    NotZeroOnDisk(fs1.disk, o);
    var (b, ok) := WriteObject(fs1, o, data);
    var S := Free(fs.bitmap) + OwnData(fs.disk, o);
    OldObjectWrites(fs1, o, data);
    if ok {
      UsersWritten(fs1, d, o, data);
      OnceSame(fs1, b, fs, b, o, S);
      SnapWrites(b, d, S);
      PathSome(fs, d, b, SnapCreate(SetNewRoot(b, d), USERS_UPDATE).0, true);
      SnapWrites(b, d, Free(b.bitmap));
      HeaderHeld(b, d, o);
      WroteKeeps(b, SnapCreate(SetNewRoot(b, d), USERS_UPDATE).0, Free(b.bitmap), o);
      if Missing(ObjBlocks(fs.disk[o]), BlocksFor(|data|)) > 0 {
        var w := GrownNamesFree(fs1, o, data);
      }
    } else {
      WroteSame(fs1, b, fs, b, S);
      PathSome(fs, d, b, b, false);
    }
  }

  lemma HeaderHeld(b: Fs, d: nat, o: nat)
    requires HasUsers(b, d, o)
    ensures o < DISK_BLOCKS && o !in Free(b.bitmap) && d < DISK_BLOCKS && d !in Free(b.bitmap)
  {
    hide Get32, Free, ObjBlocks;
    assert ObjBlock(b.disk, o, o);
  }

  lemma NotZeroOnDisk(disk: Disk, o: nat)
    requires ObjOk(disk, o)
    ensures 0 < o < DISK_BLOCKS
  {
  }

  lemma TraceNone(fs: Fs, d: nat, data: seq<byte>)
    requires HasLive(fs) && LiveDir(fs) == d && DirKept(fs, d) && |data| <= MAX_DATA && fs.mounted
    requires FindEntry(fs.disk, d, USERS).None?
    ensures UsersPath(fs, d, UsersLast(fs, data), UsersSave(fs, data).1)
    ensures d < DISK_BLOCKS && (UsersFound(fs, d) ==> HeadExposes(fs, UsersLast(fs, data).disk[d]))
  {
    hide Get32, DirEntries, DirOk, Free, DirUses, DirNext, DirCount, FirstMatch, FindEntry, UsersObject,
      WriteObject, SnapCreate, ObjBlocks, ObjBlock, Wrote, Once, UsersPath, TxCommit, SuperRoot, SnapRoot, IsSnap,
      HasLiveDir, HeadNames, Clear;
    var fs1 := TxBegin(fs);
    var F := Free(fs.bitmap);
    UsersObjectSpec(fs1, d);
    UsersTarget(fs1, d);
    NoneFree(fs.bitmap);
    var (a, o) := UsersObject(fs1, d);
    if o == 0 {
      NoObject(fs1, d);
      WroteNothing(fs, fs, F);
      WroteNothing(fs, a, F);
      KeptHead(fs, d);
      PathNone(fs, d, fs, a, UsersSave(fs, data).1);
    } else {
      var w := MadeWrites(fs1, d);
      NewObjectWrites(a, o, data, F);
      KeptHead(fs, d);
      var (b, ok) := WriteObject(a, o, data);
      if UsersFound(fs, d) {
        OnceSame(fs1, a, fs, a, d, F);
      } else {
        WroteSame(fs1, a, fs, a, F);
      }
      if ok {
        UsersWritten(a, d, o, data);
        SnapWrites(b, d, F);
        var mid := SnapCreate(SetNewRoot(b, d), USERS_UPDATE).0;
        WroteTrans(a, b, mid, F);
        PathNone(fs, d, a, mid, true);
        WroteKeeps(a, mid, F, d);
      } else {
        PathNone(fs, d, a, b, false);
        WroteKeeps(a, b, F, d);
      }
    }
  }

  lemma KeptHead(fs: Fs, d: nat)
    requires DirKept(fs, d)
    ensures d < DISK_BLOCKS && d !in Free(fs.bitmap)
  {
    hide Free, DirUses;
    GoodUsesItself(fs.disk, d);
  }

  lemma NoObject(fs: Fs, d: nat)
    requires DirKept(fs, d) && UsersObject(fs, d).1 == 0
    ensures UsersObject(fs, d).0 == fs && Free(fs.bitmap) == {} && FindEntry(fs.disk, d, USERS).None?
  {
    hide Get32, DirEntries, DirOk, Free, DirUses, DirNext, DirCount, FirstMatch, AddEntry, ObjBlocks, ObjBlock, Clear,
      NewObj;
    UsersObjectSpec(fs, d);
    AllocKeepsDir(fs, d, CONFIG);
  }

  // ---- the states on the way ----------------------------------------------

  /** The data blocks of the ".users" object that d names, if it names one. */
  function OldData(disk: Disk, d: nat): set<nat>
    requires DirGood(disk, d)
  {
    match FindEntry(disk, d, USERS)
    case None => {}
    case Some(e) => if e.obj < DISK_BLOCKS then OwnData(disk, e.obj) else {}
  }

  lemma OldDataUsed(disk: Disk, d: nat, b: nat)
    requires DirGood(disk, d) && ObjsApart(disk, d) && b in OldData(disk, d)
    ensures DirUses(disk, d, b) && !DirBlock(disk, d, b)
    ensures forall i :: 0 <= i < |DirEntries(disk, d)| ==> DirEntries(disk, d)[i].obj != b
  {
    hide Get32, DirEntries, DirOk, FirstMatch, IsObj, BlocksFor, DirNext;
    GoodUsesItself(disk, d);
    var es := DirEntries(disk, d);
    var e := FindEntry(disk, d, USERS).value;
    var k :| 0 <= k < |es| && es[k] == e;
    assert ObjOk(disk, es[k].obj) && Clear(disk, d, es[k].obj);
    assert ObjBlock(disk, es[k].obj, b);
    forall i | 0 <= i < |es| ensures es[i].obj != b {
      if es[i].obj != es[k].obj {
        NamedIsApart(disk, d, k);
        assert Apart(disk, es[i].obj, es[k].obj);
        assert ObjBlock(disk, es[i].obj, es[i].obj);
      } else {
        NotOwnData(disk, es[k].obj, b);
      }
    }
  }

  lemma NotOwnData(disk: Disk, o: nat, b: nat)
    requires ObjOk(disk, o) && b != 0 && b in ObjBlocks(disk[o])
    ensures b != o
  {
    hide Get32, IsObj, BlocksFor;
    var i :| 0 <= i < 4 && ObjBlocks(disk[o])[i] == b;
  }

  /** Only free blocks and old data were written: the directory is as it was. */
  ghost predicate Early(fs: Fs, d: nat, disk: Disk)
    requires DirGood(fs.disk, d)
  {
    forall b :: 0 <= b < DISK_BLOCKS && b !in Free(fs.bitmap) && b !in OldData(fs.disk, d) ==> disk[b] == fs.disk[b]
  }

  lemma EarlyMoved(fs: Fs, d: nat, u: Fs)
    requires DirKept(fs, d) && ObjsApart(fs.disk, d) && Early(fs, d, u.disk) && Free(u.bitmap) <= Free(fs.bitmap)
    ensures DirMoved(fs, d, u)
  {
    hide Get32, DirEntries, DirOk, FirstMatch, ObjOk, Clear, DirNext, OldData, Free, ObjBlock;
    GoodUsesItself(fs.disk, d);
    var es := DirEntries(fs.disk, d);
    forall b | b in OldData(fs.disk, d)
      ensures DirUses(fs.disk, d, b) && !DirBlock(fs.disk, d, b) && forall i :: 0 <= i < |es| ==> es[i].obj != b
    {
      OldDataUsed(fs.disk, d, b);
    }
    forall i | 0 <= i < |es| ensures es[i].obj < DISK_BLOCKS && DirUses(fs.disk, d, es[i].obj) {
      EntryUsed(fs.disk, d, i);
    }
    ShapeFrame(fs.disk, u.disk, d);
  }

  lemma EntryUsed(disk: Disk, d: nat, i: nat)
    requires DirGood(disk, d) && i < |DirEntries(disk, d)|
    ensures DirEntries(disk, d)[i].obj < DISK_BLOCKS && DirUses(disk, d, DirEntries(disk, d)[i].obj)
  {
    hide Get32, DirEntries, DirOk, Clear, IsObj, ObjBlocks, BlocksFor;
    var o := DirEntries(disk, d)[i].obj;
    assert ObjOk(disk, o);
    assert ObjBlock(disk, o, o);
  }

  /** What has the blocks in use of a moved state has the directory moved. */
  lemma LateMoved(fs: Fs, d: nat, b: Fs, u: Fs)
    requires DirGood(fs.disk, d) && DirMoved(fs, d, b) && Follows(b, u.disk) && Free(u.bitmap) <= Free(b.bitmap)
    ensures DirMoved(fs, d, u)
  {
    hide Get32, DirGood, DirUses, ObjsApart, Free, Listed, LoadDir;
    MovedDirOn(fs, d, b, u.disk);
  }

  // ---- prefixes of the save -----------------------------------------------

  /** The block whose write exposes a block the bitmap on disk has as free: the
      first directory block if ".users" is added to it, the header of ".users" if
      it grows; 0 when there is none. */
  function Exposing(fs: Fs, d: nat, n: nat): nat
    requires DirKept(fs, d)
  {
    match FindEntry(fs.disk, d, USERS)
    case None => if UsersFound(fs, d) then d else 0
    case Some(e) => if e.obj < DISK_BLOCKS && Missing(ObjBlocks(fs.disk[e.obj]), BlocksFor(n)) > 0 then e.obj else 0
  }

  /** The exposing block is written and the first bitmap sector is not. */
  predicate InWindow(ws: seq<Write>, x: nat) { x != 0 && Hits(ws, x) && !Hits(ws, ALLOC_LBA) }

  /** The one block on the path outside free blocks and old data; 0 for none. */
  function PathBlock(fs: Fs, d: nat, ok: bool): nat
    requires DirKept(fs, d)
  {
    match FindEntry(fs.disk, d, USERS)
    case None => if UsersFound(fs, d) then d else 0
    case Some(e) => if ok then e.obj else 0
  }

  /** A prefix ws of the path from fs to q. */
  ghost predicate OnPath(fs: Fs, d: nat, q: Fs, x: nat, ws: seq<Write>)
    requires DirGood(fs.disk, d) && x < DISK_BLOCKS
  {
    && WritesFit(ws)
    && (forall y :: Hits(ws, y) ==>
          InStore(y) && ((y == x && x != 0) || y in Free(fs.bitmap) || y in OldData(fs.disk, d)))
    && var disk := Replay(fs.disk, ws);
    && (forall b :: 0 <= b < DISK_BLOCKS && b !in Free(fs.bitmap) && b !in OldData(fs.disk, d) && (b != x || x == 0) ==>
          disk[b] == fs.disk[b])
    && (x != 0 ==> disk[x] == if Hits(ws, x) then q.disk[x] else fs.disk[x])
  }

  lemma SetInStore(fs: Fs, d: nat, b: nat)
    requires DirKept(fs, d) && ObjsApart(fs.disk, d) && (b in Free(fs.bitmap) || b in OldData(fs.disk, d))
    ensures InStore(b)
  {
    hide DirGood, DirUses, OldData, ObjsApart;
    if b in Free(fs.bitmap) {
      FreeInStore(fs.bitmap, b);
    } else {
      OldDataUsed(fs.disk, d, b);
      DirUsesInStore(fs.disk, d, b);
    }
  }

  lemma PathPrefix(fs: Fs, d: nat, q: Fs, ok: bool, k: nat)
    requires DirKept(fs, d) && ObjsApart(fs.disk, d) && UsersPath(fs, d, q, ok)
    ensures PathBlock(fs, d, ok) < DISK_BLOCKS && (PathBlock(fs, d, ok) != 0 ==> InStore(PathBlock(fs, d, ok)))
    ensures fs.log <= q.log && WritesFit(Written(fs, q)) && q.disk == Replay(fs.disk, Written(fs, q))
    ensures k <= |Written(fs, q)| ==> OnPath(fs, d, q, PathBlock(fs, d, ok), Written(fs, q)[..k])
  {
    hide Get32, DirOk, DirEntries, FirstMatch, ObjOk, Clear, DirUses, Free, Replay, ObjsApart, Once, UsersFound,
      Between, Hits, ObjBlocks;
    GoodUsesItself(fs.disk, d);
    DirUsesInStore(fs.disk, d, d);
    forall b | b in Free(fs.bitmap) || b in OldData(fs.disk, d) ensures InStore(b) {
      SetInStore(fs, d, b);
    }
    var x := PathBlock(fs, d, ok);
    if FindEntry(fs.disk, d, USERS).Some? {
      var e := FindEntry(fs.disk, d, USERS).value;
      var i :| 0 <= i < |DirEntries(fs.disk, d)| && DirEntries(fs.disk, d)[i] == e;
      EntryUsed(fs.disk, d, i);
      DirUsesInStore(fs.disk, d, e.obj);
      assert OldData(fs.disk, d) == OwnData(fs.disk, e.obj);
      if ok {
        OnceOnPath(fs, d, q, x, Free(fs.bitmap) + OldData(fs.disk, d), k);
      } else {
        WroteOnPath(fs, d, q, Free(fs.bitmap) + OldData(fs.disk, d), k);
      }
    } else {
      assert OldData(fs.disk, d) == {};
      assert Free(fs.bitmap) + OldData(fs.disk, d) == Free(fs.bitmap);
      if UsersFound(fs, d) {
        OnceOnPath(fs, d, q, x, Free(fs.bitmap) + OldData(fs.disk, d), k);
      } else {
        WroteOnPath(fs, d, q, Free(fs.bitmap) + OldData(fs.disk, d), k);
      }
    }
  }

  lemma OnceOnPath(fs: Fs, d: nat, q: Fs, x: nat, S: set<nat>, k: nat)
    requires DirGood(fs.disk, d) && S == Free(fs.bitmap) + OldData(fs.disk, d) && forall b :: b in S ==> InStore(b)
    requires Once(fs, q, x, S) && InStore(x)
    ensures fs.log <= q.log && WritesFit(Written(fs, q)) && q.disk == Replay(fs.disk, Written(fs, q))
    ensures k <= |Written(fs, q)| ==> OnPath(fs, d, q, x, Written(fs, q)[..k])
  {
    hide DirGood, Free, OldData, Replay, Hits, Once;
    OncePrefix(fs, q, x, S, k);
  }

  lemma WroteOnPath(fs: Fs, d: nat, q: Fs, S: set<nat>, k: nat)
    requires DirGood(fs.disk, d) && S == Free(fs.bitmap) + OldData(fs.disk, d) && forall b :: b in S ==> InStore(b)
    requires Wrote(fs, q, S)
    ensures k <= |Written(fs, q)| ==> OnPath(fs, d, q, 0, Written(fs, q)[..k])
  {
    hide DirGood, Free, OldData, Replay, Hits;
    if k <= |Written(fs, q)| {
      WrotePrefix(fs, q, S, k);
    }
  }

  /** A store mounted from that disk is sound for some list of snapshots. */
  ghost predicate Sound(disk: Disk) { exists s :: StoreOk(Mount(disk), s) }

  /** Reserved blocks are not touched on the path. */
  lemma PathReserved(fs: Fs, snaps: seq<nat>, d: nat, q: Fs, x: nat, ws: seq<Write>)
    requires LiveStore(fs, snaps, d) && DirKept(fs, d) && x < DISK_BLOCKS && OnPath(fs, d, q, x, ws)
    requires ObjsApart(fs.disk, d) && (x != 0 ==> InStore(x))
    ensures var disk := Replay(fs.disk, ws);
            && disk[SUPER_LBA] == fs.disk[SUPER_LBA] && DiskBitmap(disk) == DiskBitmap(fs.disk)
            && SuperOk(disk[SUPER_LBA]) && fs.sb == disk[SUPER_LBA] && !Hits(ws, ALLOC_LBA)
  {
    hide Get32, DirGood, DirUses, Free, OldData, ObjsApart, Hits, Replay, Separate, ChainOk, SnapSafe, SuperOk,
      HasLive, LiveDir;
    forall b | b in Free(fs.bitmap) || b in OldData(fs.disk, d) ensures InStore(b) {
      SetInStore(fs, d, b);
    }
  }

  lemma EarlySound(fs: Fs, snaps: seq<nat>, d: nat, q: Fs, x: nat, ws: seq<Write>)
    requires LiveStore(fs, snaps, d) && DirKept(fs, d) && x < DISK_BLOCKS && OnPath(fs, d, q, x, ws)
    requires ObjsApart(fs.disk, d) && (x != 0 ==> InStore(x)) && fs.bitmap == DiskBitmap(fs.disk)
    requires x == 0 || !Hits(ws, x)
    ensures Kept(fs, snaps, d, Mount(Replay(fs.disk, ws)), snaps)
  {
    hide Get32, DirGood, DirUses, Free, OldData, ObjsApart, Hits, Replay, StoreOk, Separate, SuperOk, DiskBitmap, Mount,
      HasLive, LiveDir, DirMoved;
    var disk := Replay(fs.disk, ws);
    PathReserved(fs, snaps, d, q, x, ws);
    MountIsBoot(disk);
    EarlyMoved(fs, d, Boot(disk));
    SoundAt(fs, snaps, d, Boot(disk));
  }

  /** The live snapshot block is not written on the path. */
  lemma RootOnPath(fs: Fs, snaps: seq<nat>, d: nat, q: Fs, x: nat, ws: seq<Write>)
    requires LiveStore(fs, snaps, d) && DirKept(fs, d) && x < DISK_BLOCKS && OnPath(fs, d, q, x, ws)
    requires ObjsApart(fs.disk, d) && (x != 0 ==> DirUses(fs.disk, d, x))
    ensures SuperRoot(fs.sb) < DISK_BLOCKS && Replay(fs.disk, ws)[SuperRoot(fs.sb)] == fs.disk[SuperRoot(fs.sb)]
  {
    hide Get32, DirGood, DirUses, Free, OldData, ObjsApart, Hits, Replay, StoreOk, Separate, SuperOk, DiskBitmap,
      HasLiveDir;
    LiveSnapshot(fs, snaps);
    var r := SuperRoot(fs.sb);
    if r in OldData(fs.disk, d) {
      OldDataUsed(fs.disk, d, r);
    }
  }

  lemma AllUnsound(fs: Fs, snaps: seq<nat>, d: nat, disk: Disk, w: nat)
    requires LiveStore(fs, snaps, d) && SuperOk(disk[SUPER_LBA]) && disk[SUPER_LBA] == fs.disk[SUPER_LBA]
    requires SuperRoot(fs.sb) < DISK_BLOCKS && disk[SuperRoot(fs.sb)] == fs.disk[SuperRoot(fs.sb)]
    requires w < DISK_BLOCKS && w in Free(DiskBitmap(disk)) && (DirGood(disk, d) ==> DirUses(disk, d, w))
    ensures !Sound(disk)
  {
    hide Get32, DirGood, DirUses, Free, StoreOk, Separate, SuperOk, DiskBitmap, Mount, HasLive, LiveDir, SuperRoot;
    MountIsBoot(disk);
    forall s ensures !StoreOk(Mount(disk), s) {
      UnsoundAt(fs, snaps, d, Boot(disk), w, s);
    }
  }

  lemma HeadWindow(fs: Fs, snaps: seq<nat>, d: nat, q: Fs, ws: seq<Write>)
    requires LiveStore(fs, snaps, d) && DirKept(fs, d) && d < DISK_BLOCKS && InStore(d) && OnPath(fs, d, q, d, ws)
    requires ObjsApart(fs.disk, d) && fs.bitmap == DiskBitmap(fs.disk)
    requires Hits(ws, d) && HeadExposes(fs, q.disk[d])
    ensures !Sound(Replay(fs.disk, ws))
  {
    hide Get32, DirGood, DirUses, Free, OldData, ObjsApart, Hits, Replay, StoreOk, Separate, SuperOk, DiskBitmap,
      HasLive, LiveDir, HeadNames, Sound, SuperRoot;
    var disk := Replay(fs.disk, ws);
    GoodUsesItself(fs.disk, d);
    PathReserved(fs, snaps, d, q, d, ws);
    RootOnPath(fs, snaps, d, q, d, ws);
    var w :| w in Free(fs.bitmap) && HeadNames(q.disk[d], w);
    FreeInStore(fs.bitmap, w);
    if DirGood(disk, d) {
      HeadNamesUses(disk, d, w);
    }
    AllUnsound(fs, snaps, d, disk, w);
  }

  lemma HeaderWindow(fs: Fs, snaps: seq<nat>, d: nat, q: Fs, o: nat, ws: seq<Write>)
    requires LiveStore(fs, snaps, d) && DirKept(fs, d) && InStore(o) && OnPath(fs, d, q, o, ws)
    requires ObjsApart(fs.disk, d) && fs.bitmap == DiskBitmap(fs.disk)
    requires FindEntry(fs.disk, d, USERS).Some? && FindEntry(fs.disk, d, USERS).value.obj == o
    requires Hits(ws, o) && HeaderExposes(fs, o, q.disk[o])
    ensures !Sound(Replay(fs.disk, ws))
  {
    hide Get32, DirEntries, DirOk, ObjOk, Clear, DirUses, Free, OldData, ObjsApart, Hits, Replay, StoreOk, Separate,
      SuperOk, DiskBitmap, HasLive, LiveDir, Sound, SuperRoot, FirstMatch, DirNext, ObjBlocks;
    var disk := Replay(fs.disk, ws);
    var es := DirEntries(fs.disk, d);
    var i :| 0 <= i < |es| && es[i] == FindEntry(fs.disk, d, USERS).value;
    EntryUsed(fs.disk, d, i);
    PathReserved(fs, snaps, d, q, o, ws);
    RootOnPath(fs, snaps, d, q, o, ws);
    var w :| w in Free(fs.bitmap) && w != 0 && w in ObjBlocks(q.disk[o]);
    FreeInStore(fs.bitmap, w);
    HeadOnPath(fs, d, q, o, ws, i);
    HeadSame(fs.disk, disk, d);
    if DirGood(disk, d) {
      assert ObjBlock(disk, es[i].obj, w);
      NamedUses(disk, d, i, w);
    }
    AllUnsound(fs, snaps, d, disk, w);
  }

  lemma NamedUses(disk: Disk, d: nat, i: nat, w: nat)
    requires DirGood(disk, d) && i < |DirEntries(disk, d)| && DirEntries(disk, d)[i].obj < DISK_BLOCKS
    requires ObjBlock(disk, DirEntries(disk, d)[i].obj, w)
    ensures DirUses(disk, d, w)
  {
    hide Get32, DirEntries, DirOk, ObjOk, Clear, ObjBlock;
  }

  /** The blocks of the directory itself are not written on the path of an old object. */
  lemma HeadOnPath(fs: Fs, d: nat, q: Fs, o: nat, ws: seq<Write>, i: nat)
    requires DirKept(fs, d) && ObjsApart(fs.disk, d) && o < DISK_BLOCKS && OnPath(fs, d, q, o, ws)
    requires i < |DirEntries(fs.disk, d)| && DirEntries(fs.disk, d)[i].obj == o
    ensures d < DISK_BLOCKS
    ensures forall b :: 0 <= b < DISK_BLOCKS && DirBlock(fs.disk, d, b) ==> Replay(fs.disk, ws)[b] == fs.disk[b]
  {
    hide Get32, DirEntries, DirOk, ObjOk, Free, OldData, ObjsApart, Hits, Replay;
    GoodUsesItself(fs.disk, d);
    NoDirBlock(fs.disk, d, i);
    forall b | 0 <= b < DISK_BLOCKS && DirBlock(fs.disk, d, b) ensures Replay(fs.disk, ws)[b] == fs.disk[b] {
      assert DirUses(fs.disk, d, b);
      if b in OldData(fs.disk, d) {
        OldDataUsed(fs.disk, d, b);
      }
    }
  }

  lemma NoDirBlock(disk: Disk, d: nat, i: nat)
    requires DirGood(disk, d) && i < |DirEntries(disk, d)|
    ensures d < DISK_BLOCKS && !DirBlock(disk, d, DirEntries(disk, d)[i].obj)
  {
    hide Get32, DirEntries, Sealed, DirBlockOk, IsObj, ObjBlocks, BlocksFor;
    var o := DirEntries(disk, d)[i].obj;
    assert ObjOk(disk, o) && Clear(disk, d, o);
    assert ObjBlock(disk, o, o);
  }

  /** b is fs after a write to the object o that d names, which took no new block. */
  ghost predicate Rewrote(fs: Fs, d: nat, o: nat, b: Fs)
    requires DirGood(fs.disk, d)
  {
    && o < DISK_BLOCKS && DirMoved(fs, d, b) && Free(b.bitmap) == Free(fs.bitmap)
    && DirEntries(b.disk, d) == DirEntries(fs.disk, d)
    && forall x :: 0 <= x < DISK_BLOCKS && x !in Free(fs.bitmap) && !ObjBlock(fs.disk, o, x) ==> b.disk[x] == fs.disk[x]
  }

  /** Other blocks of the directory's shape on the path of an old object. */
  lemma ShapeOnPath(fs: Fs, d: nat, q: Fs, o: nat, ws: seq<Write>, k: nat, b: Fs)
    requires DirKept(fs, d) && ObjsApart(fs.disk, d) && o < DISK_BLOCKS && o != 0 && OnPath(fs, d, q, o, ws)
    requires k < |DirEntries(fs.disk, d)| && DirEntries(fs.disk, d)[k].obj == o
    requires Hits(ws, o) && Rewrote(fs, d, o, b) && b.disk[o] == q.disk[o]
    ensures d < DISK_BLOCKS && b.disk[d] == fs.disk[d]
    ensures forall x :: 0 <= x < DISK_BLOCKS && DirBlock(fs.disk, d, x) ==> Replay(fs.disk, ws)[x] == b.disk[x]
    ensures forall i :: 0 <= i < |DirEntries(fs.disk, d)| ==>
              Replay(fs.disk, ws)[DirEntries(fs.disk, d)[i].obj] == b.disk[DirEntries(fs.disk, d)[i].obj]
  {
    hide Get32, DirEntries, DirOk, ObjOk, Free, OldData, ObjsApart, Hits, Replay, DirMoved, ObjBlock, DirNext;
    var disk, es := Replay(fs.disk, ws), DirEntries(fs.disk, d);
    GoodUsesItself(fs.disk, d);
    HeadOnPath(fs, d, q, o, ws, k);
    forall x | 0 <= x < DISK_BLOCKS && DirBlock(fs.disk, d, x) ensures b.disk[x] == fs.disk[x] {
      NotOfEntry(fs.disk, d, k, x);
      assert DirUses(fs.disk, d, x);
    }
    assert DirBlock(fs.disk, d, d);
    forall i | 0 <= i < |es| ensures es[i].obj < DISK_BLOCKS && disk[es[i].obj] == b.disk[es[i].obj] {
      EntryUsed(fs.disk, d, i);
      if es[i].obj != o {
        OtherHeader(fs.disk, d, i, k);
        if es[i].obj in OldData(fs.disk, d) {
          OldDataUsed(fs.disk, d, es[i].obj);
        }
      }
    }
  }

  lemma NotOfEntry(disk: Disk, d: nat, k: nat, x: nat)
    requires DirGood(disk, d) && k < |DirEntries(disk, d)| && d < DISK_BLOCKS && DirBlock(disk, d, x)
    ensures DirEntries(disk, d)[k].obj < DISK_BLOCKS && !ObjBlock(disk, DirEntries(disk, d)[k].obj, x)
  {
    hide Get32, DirEntries, Sealed, DirBlockOk, IsObj, ObjBlocks, BlocksFor;
    assert ObjOk(disk, DirEntries(disk, d)[k].obj) && Clear(disk, d, DirEntries(disk, d)[k].obj);
  }

  lemma OtherHeader(disk: Disk, d: nat, i: nat, k: nat)
    requires DirGood(disk, d) && ObjsApart(disk, d) && i < |DirEntries(disk, d)| && k < |DirEntries(disk, d)|
    requires DirEntries(disk, d)[i].obj != DirEntries(disk, d)[k].obj
    ensures DirEntries(disk, d)[i].obj < DISK_BLOCKS && DirEntries(disk, d)[k].obj < DISK_BLOCKS
    ensures !ObjBlock(disk, DirEntries(disk, d)[k].obj, DirEntries(disk, d)[i].obj)
  {
    hide Get32, DirEntries, DirOk, Clear, IsObj, ObjBlocks, BlocksFor;
    NamedIsApart(disk, d, k);
    EntryUsed(disk, d, i);
    EntryUsed(disk, d, k);
    assert ObjBlock(disk, DirEntries(disk, d)[i].obj, DirEntries(disk, d)[i].obj);
  }

  /** Rewriting ".users" in place is sound at every write. */
  lemma HeaderSound(fs: Fs, snaps: seq<nat>, d: nat, q: Fs, o: nat, ws: seq<Write>, b: Fs)
    requires LiveStore(fs, snaps, d) && DirKept(fs, d) && InStore(o) && OnPath(fs, d, q, o, ws)
    requires ObjsApart(fs.disk, d) && fs.bitmap == DiskBitmap(fs.disk)
    requires FindEntry(fs.disk, d, USERS).Some? && FindEntry(fs.disk, d, USERS).value.obj == o
    requires Hits(ws, o) && Rewrote(fs, d, o, b) && b.disk[o] == q.disk[o]
    ensures Kept(fs, snaps, d, Mount(Replay(fs.disk, ws)), snaps)
  {
    hide Get32, DirEntries, DirOk, ObjOk, Clear, DirUses, Free, OldData, ObjsApart, Hits, Replay, StoreOk, Separate,
      SuperOk, DiskBitmap, HasLive, LiveDir, SuperRoot, FirstMatch, DirNext, ObjBlock, Mount;
    var disk := Replay(fs.disk, ws);
    var es := DirEntries(fs.disk, d);
    var k :| 0 <= k < |es| && es[k] == FindEntry(fs.disk, d, USERS).value;
    EntryUsed(fs.disk, d, k);
    PathReserved(fs, snaps, d, q, o, ws);
    ShapeOnPath(fs, d, q, o, ws, k, b);
    SameDirBlock(fs.disk, b.disk, d);
    ShapeFrame(b.disk, disk, d);
    forall x | x in OldData(fs.disk, d) ensures DirUses(fs.disk, d, x) {
      OldDataUsed(fs.disk, d, x);
    }
    var u := Boot(disk);
    assert DirMoved(fs, d, u);
    MountIsBoot(disk);
    SoundAt(fs, snaps, d, u);
  }

  lemma SameDirBlock(disk: Disk, disk': Disk, d: nat)
    requires d < DISK_BLOCKS && disk'[d] == disk[d]
    ensures forall x :: DirBlock(disk', d, x) <==> DirBlock(disk, d, x)
  {
  }

  /** A successful save just before its commit. */
  lemma OkState(fs: Fs, snaps: seq<nat>, d: nat, data: seq<byte>) returns (b: Fs)
    requires LiveStore(fs, snaps, d) && |data| <= MAX_DATA && DirKept(fs, d)
    requires UsersSave(fs, data).1
    ensures var q := UsersLast(fs, data);
            && DirMoved(fs, d, b) && Wrote(b, q, Free(b.bitmap)) && Free(q.bitmap) <= Free(b.bitmap)
            && q.tx.active && q.tx.dirty && Synced(q)
            && UsersSave(fs, data).0 == TxCommit(q)
            && match FindEntry(fs.disk, d, USERS)
               case None => Free(b.bitmap) < Free(fs.bitmap)
               case Some(e) =>
                 && e.obj < DISK_BLOCKS && q.disk[e.obj] == b.disk[e.obj]
                 && if Missing(ObjBlocks(fs.disk[e.obj]), BlocksFor(|data|)) == 0 then Rewrote(fs, d, e.obj, b)
                    else Free(b.bitmap) < Free(fs.bitmap)
  {
    hide Get32, DirEntries, DirOk, ObjOk, Clear, DirUses, Free, ObjsApart, StoreOk, Separate, HasLiveDir, SuperRoot,
      FirstMatch, DirNext, DirCount, ObjBlock, ObjBlocks, UsersObject, WriteObject, SnapCreate, TxCommit, Wrote,
      BlocksFor, Missing, SnapRoot, HasUsers, FindEntry, DirMoved, ObjShape;
    LiveIsFirst(fs, snaps);
    SoundIsSynced(fs, snaps);
    var fs1 := TxBegin(fs);
    TxKeepsKept(fs, fs1, d);
    LastIs(fs, data);
    UsersTarget(fs1, d);
    UsersObjectSpec(fs1, d);
    UsersMoveDir(fs1, d, data);
    var (a, o) := UsersObject(fs1, d);
    b := WriteObject(a, o, data).0;
    TxMoved(fs, fs1, d, b);
    UsersWritten(a, d, o, data);
    SnapWrites(b, d, Free(b.bitmap));
    SyncedTarget(fs1, d);
    WrittenShape(a, d, o);
    SyncedObject(a, o, data);
    WriteObjectSpec(a, o, data);
    LastSnap(b, d);
    if FindEntry(fs.disk, d, USERS).Some? {
      FoundTarget(fs1, d);
      HeaderHeld(b, d, o);
      WroteKeeps(b, UsersLast(fs, data), Free(b.bitmap), o);
      RewroteBy(fs, fs1, d, o, b, Missing(ObjBlocks(fs.disk[o]), BlocksFor(|data|)));
    } else {
      ProperSubset(Free(b.bitmap), Free(a.bitmap), Free(fs.bitmap));
    }
  }

  lemma WrittenShape(a: Fs, d: nat, o: nat)
    requires HasUsers(a, d, o)
    ensures ObjOk(a.disk, o) && ObjShape(a.disk, o) && Allocated(a, o)
  {
  }

  lemma ProperSubset(b: set<nat>, a: set<nat>, f: set<nat>)
    requires b <= a <= f && |a| < |f|
    ensures b < f
  {
    SmallerSet(b, a);
    assert b != f;
  }

  lemma RewroteBy(fs: Fs, fs1: Fs, d: nat, o: nat, b: Fs, n: nat)
    requires DirGood(fs.disk, d) && fs1.disk == fs.disk && fs1.bitmap == fs.bitmap && DirMoved(fs, d, b)
    requires HasUsers(b, d, o) && DirEntries(b.disk, d) == DirEntries(fs.disk, d)
    requires Free(b.bitmap) <= Free(fs.bitmap) && |Free(b.bitmap)| == |Free(fs.bitmap)| - n
    requires o < DISK_BLOCKS
    requires forall x :: 0 <= x < DISK_BLOCKS && x !in Free(fs.bitmap) && !ObjBlock(fs.disk, o, x) ==>
               b.disk[x] == fs.disk[x]
    ensures if n == 0 then Rewrote(fs, d, o, b) else Free(b.bitmap) < Free(fs.bitmap)
  {
    hide DirGood, DirEntries, Free, ObjBlock, DirMoved, HasUsers;
    if n == 0 {
      SameSize(Free(b.bitmap), Free(fs.bitmap));
    } else {
      ProperSubset(Free(b.bitmap), Free(b.bitmap), Free(fs.bitmap));
    }
  }

  lemma SameSize(a: set<nat>, b: set<nat>)
    requires a <= b && |a| == |b|
    ensures a == b
  {
    if x :| x in b && x !in a {
      SmallerByOne(a, b, x);
    }
  }

  lemma LastSnap(b: Fs, d: u32)
    requires b.tx.active && Synced(b)
    ensures var q := SnapCreate(SetNewRoot(b, d), USERS_UPDATE).0;
            && q.tx.active && q.tx.dirty && Synced(q) && Free(q.bitmap) <= Free(b.bitmap)
  {
    hide Get32, BuildSnap, DiskBitmap, SetRoot, SuperRoot, SuperTime, Free;
    var a := SetNewRoot(b, d);
    SyncedAlloc(a);
    AllocShrinks(a);
    var (c, x) := AllocBlock(a);
    if x != 0 {
      FreeInStore(a.bitmap, x);
      SyncedWrite(c, x, BuildSnap(SuperRoot(a.sb), a.tx.newRoot, SuperTime(a.sb), USERS_UPDATE));
    }
  }

  function Tail(q: Fs): seq<Write> {
    (if q.dirty
     then [Write(ALLOC_LBA, BitmapSector(q.bitmap, 0)), Write(ALLOC_LBA + 1, BitmapSector(q.bitmap, 1))]
     else [])
    + [Write(SUPER_LBA, WriteSuper(q).sb)]
  }

  lemma CommitTail(q: Fs)
    ensures var c := Commit(q);
            && q.log <= c.log && Written(q, c) == Tail(q) && WritesFit(Tail(q)) && c.disk == Replay(q.disk, Tail(q))
  {
    hide SaveBitmap, WriteSuper, BitmapSector, Replay;
    var a := SaveBitmap(q);
    BitmapTail(q);
    SuperTail(a);
    TailSuper(q);
    var ws := Written(q, a);
    var w := Write(SUPER_LBA, WriteSuper(a).sb);
    ReplaySnoc(q.disk, ws, w);
    assert Written(q, Commit(q)) == ws + [w];
  }

  lemma BitmapTail(q: Fs)
    ensures var a := SaveBitmap(q);
            && q.log <= a.log && WritesFit(Written(q, a)) && a.disk == Replay(q.disk, Written(q, a))
            && Written(q, a) == if q.dirty
                                then [Write(ALLOC_LBA, BitmapSector(q.bitmap, 0)),
                                      Write(ALLOC_LBA + 1, BitmapSector(q.bitmap, 1))]
                                else []
  {
    hide BitmapSector, Replay;
    ReplayNothing(q.disk);
    if q.dirty {
      var w0, w1 := Write(ALLOC_LBA, BitmapSector(q.bitmap, 0)), Write(ALLOC_LBA + 1, BitmapSector(q.bitmap, 1));
      ReplaySnoc(q.disk, [], w0);
      ReplaySnoc(q.disk, [w0], w1);
      assert [] + [w0] == [w0] && [w0] + [w1] == [w0, w1];
      assert Written(q, SaveBitmap(q)) == [w0, w1];
    } else {
      assert Written(q, q) == [];
    }
  }

  lemma SuperTail(a: Fs)
    ensures var c := WriteSuper(a);
            c.log == a.log + [Write(SUPER_LBA, c.sb)] && c.disk == a.disk[SUPER_LBA := c.sb]
  {
    hide BuildSuper;
  }

  lemma TailSuper(q: Fs)
    ensures WriteSuper(SaveBitmap(q)).sb == WriteSuper(q).sb
  {
    hide BuildSuper, BitmapSector;
  }

  /** From the write of the first bitmap sector on the directory is covered by it. */
  lemma TailSound(fs: Fs, snaps: seq<nat>, d: nat, q: Fs, b: Fs, j: nat)
    requires LiveStore(fs, snaps, d) && DirGood(fs.disk, d) && DirMoved(fs, d, b) && Wrote(b, q, Free(b.bitmap))
    requires Free(q.bitmap) <= Free(b.bitmap) && q.disk[SUPER_LBA] == fs.disk[SUPER_LBA]
    requires q.dirty && 1 <= j <= 2
    ensures |Tail(q)| == 3 && WritesFit(Tail(q)[..j])
    ensures Kept(fs, snaps, d, Mount(Replay(q.disk, Tail(q)[..j])), snaps)
  {
    hide Get32, DirGood, DirUses, Free, StoreOk, Separate, SuperOk, HasLive, LiveDir, DirMoved, Mount, Replay, Tail,
      BitmapSector, DiskBitmap;
    TailDisk(q, j);
    var disk := Replay(q.disk, Tail(q)[..j]);
    FirstSectorFree(disk, q.bitmap);
    forall x | 0 <= x < DISK_BLOCKS && InStore(x) && x !in Free(b.bitmap) ensures disk[x] == b.disk[x] {
      WroteKeeps(b, q, Free(b.bitmap), x);
    }
    LateMoved(fs, d, b, Boot(disk));
    SuperKept(fs, snaps);
    SuperAccepted(fs, snaps);
    MountIsBoot(disk);
    SoundAt(fs, snaps, d, Boot(disk));
  }

  lemma TailDisk(q: Fs, j: nat)
    requires q.dirty && 1 <= j <= 2
    ensures |Tail(q)| == 3 && WritesFit(Tail(q)[..j])
    ensures var disk := Replay(q.disk, Tail(q)[..j]);
            && disk[ALLOC_LBA] == BitmapSector(q.bitmap, 0)
            && forall x :: 0 <= x < DISK_BLOCKS && (InStore(x) || x == SUPER_LBA) ==> disk[x] == q.disk[x]
  {
    hide Replay, BitmapSector, BuildSuper, SuperRoot, SuperTime, SuperGen;
    var t := Tail(q);
    ReplayNothing(q.disk);
    ReplaySnoc(q.disk, [], t[0]);
    assert t[..1] == [] + [t[0]];
    ReplaySnoc(q.disk, t[..1], t[1]);
    assert t[..2] == t[..1] + [t[1]];
  }

  lemma SuperAccepted(fs: Fs, snaps: seq<nat>)
    requires StoreOk(fs, snaps)
    ensures SuperOk(fs.disk[SUPER_LBA])
  {
  }

  lemma FirstSectorFree(disk: Disk, bm: MapBytes)
    requires disk[ALLOC_LBA] == BitmapSector(bm, 0)
    ensures Free(DiskBitmap(disk)) == Free(bm)
  {
    var s := disk[ALLOC_LBA];
    assert DiskBitmap(disk)[..512] == s && bm[..512] == s;
    forall b: nat ensures b in Free(DiskBitmap(disk)) <==> b in Free(bm) {
      if b < DISK_BLOCKS {
        FirstSectorDecides(DiskBitmap(disk), bm, s, b);
      }
    }
  }

  // ---- crashes ------------------------------------------------------------

  /** Every prefix that ends before the commit. */
  lemma PrefixSoundIff(fs: Fs, snaps: seq<nat>, d: nat, data: seq<byte>, k: nat)
    requires LiveStore(fs, snaps, d) && |data| <= MAX_DATA && fs.bitmap == DiskBitmap(fs.disk) && DirKept(fs, d)
    ensures var q := UsersLast(fs, data);
            && fs.log <= q.log && WritesFit(Written(fs, q)) && q.disk == Replay(fs.disk, Written(fs, q))
            && q.disk[SUPER_LBA] == fs.disk[SUPER_LBA] && DiskBitmap(q.disk) == DiskBitmap(fs.disk)
            && (forall y :: Hits(Written(fs, q), y) ==> InStore(y))
            && (k <= |Written(fs, q)| ==>
                  var disk := Replay(fs.disk, Written(fs, q)[..k]);
                  && (Sound(disk) <==> !InWindow(Written(fs, q)[..k], Exposing(fs, d, |data|)))
                  && (Sound(disk) ==> Kept(fs, snaps, d, Mount(disk), snaps)))
  {
    hide Get32, DirEntries, DirOk, DirUses, Free, OldData, ObjsApart, Hits, Replay, StoreOk, Separate, SuperOk,
      DiskBitmap, HasLiveDir, LiveDir, SuperRoot, FirstMatch, DirNext, DirCount, ObjOk, Clear, Missing, BlocksFor,
      ObjBlocks, Mount, OnPath, UsersPath, UsersFound, HeadExposes, HeaderExposes, UsersLast, UsersSave, InWindow;
    LiveIsFirst(fs, snaps);
    UsersTrace(fs, snaps, d, data);
    var q, ok := UsersLast(fs, data), UsersSave(fs, data).1;
    var x := PathBlock(fs, d, ok);
    PathPrefix(fs, d, q, ok, k);
    PathPrefix(fs, d, q, ok, |Written(fs, q)|);
    assert Written(fs, q)[..|Written(fs, q)|] == Written(fs, q);
    PathReserved(fs, snaps, d, q, x, Written(fs, q));
    PathInStore(fs, d, q, x, Written(fs, q));
    if k <= |Written(fs, q)| {
      OnePrefix(fs, snaps, d, data, k);
    }
  }

  lemma PathInStore(fs: Fs, d: nat, q: Fs, x: nat, ws: seq<Write>)
    requires DirGood(fs.disk, d) && x < DISK_BLOCKS && OnPath(fs, d, q, x, ws)
    ensures forall y :: Hits(ws, y) ==> InStore(y)
  {
    hide DirGood, OldData, Free, Replay, Hits;
  }

  lemma OnePrefix(fs: Fs, snaps: seq<nat>, d: nat, data: seq<byte>, k: nat)
    requires LiveStore(fs, snaps, d) && |data| <= MAX_DATA && fs.bitmap == DiskBitmap(fs.disk)
    requires DirKept(fs, d) && ObjsApart(fs.disk, d)
    requires var q, ok := UsersLast(fs, data), UsersSave(fs, data).1;
             var x := PathBlock(fs, d, ok);
             && UsersPath(fs, d, q, ok) && Exposes(fs, d, q.disk, |data|, ok)
             && x < DISK_BLOCKS && (x != 0 ==> InStore(x))
             && |fs.log| <= |q.log| && k <= |Written(fs, q)| && OnPath(fs, d, q, x, Written(fs, q)[..k])
    ensures var ws := Written(fs, UsersLast(fs, data))[..k];
            var disk := Replay(fs.disk, ws);
            && (Sound(disk) <==> !InWindow(ws, Exposing(fs, d, |data|)))
            && (Sound(disk) ==> Kept(fs, snaps, d, Mount(disk), snaps))
  {
    hide Get32, DirEntries, DirOk, DirUses, Free, OldData, ObjsApart, Hits, Replay, StoreOk, Separate, SuperOk,
      DiskBitmap, HasLiveDir, LiveDir, SuperRoot, FirstMatch, DirNext, DirCount, ObjOk, Clear, Missing, BlocksFor,
      ObjBlocks, Mount, OnPath, UsersPath, UsersFound, HeadExposes, HeaderExposes, UsersLast, UsersSave, FindEntry,
      Rewrote, DirMoved, Wrote, Synced;
    var q, ok := UsersLast(fs, data), UsersSave(fs, data).1;
    var x := PathBlock(fs, d, ok);
    var ws := Written(fs, q)[..k];
    PathReserved(fs, snaps, d, q, x, ws);
    ExposingOnPath(fs, snaps, d, data, q, ws);
    if x == 0 || !Hits(ws, x) {
      EarlySound(fs, snaps, d, q, x, ws);
    } else if FindEntry(fs.disk, d, USERS).None? {
      HeadWindow(fs, snaps, d, q, ws);
    } else if Missing(ObjBlocks(fs.disk[x]), BlocksFor(|data|)) > 0 {
      HeaderWindow(fs, snaps, d, q, x, ws);
    } else {
      var b := OkState(fs, snaps, d, data);
      HeaderSound(fs, snaps, d, q, x, ws, b);
    }
  }

  /** Apart from the path's own block, the exposing block is not written on it. */
  lemma ExposingOnPath(fs: Fs, snaps: seq<nat>, d: nat, data: seq<byte>, q: Fs, ws: seq<Write>)
    requires LiveStore(fs, snaps, d) && |data| <= MAX_DATA && DirKept(fs, d) && ObjsApart(fs.disk, d)
    requires var x := PathBlock(fs, d, UsersSave(fs, data).1);
             x < DISK_BLOCKS && OnPath(fs, d, q, x, ws)
    ensures var x, y := PathBlock(fs, d, UsersSave(fs, data).1), Exposing(fs, d, |data|);
            y == 0 || y == x || !Hits(ws, y)
  {
    hide Get32, DirEntries, DirOk, Free, ObjsApart, Hits, Replay, StoreOk, Separate, HasLiveDir, LiveDir, SuperRoot,
      FirstMatch, DirNext, DirCount, ObjOk, Clear, Missing, BlocksFor, ObjBlocks, UsersFound, UsersSave, DirUses;
    if FindEntry(fs.disk, d, USERS).Some? {
      var e := FindEntry(fs.disk, d, USERS).value;
      var i :| 0 <= i < |DirEntries(fs.disk, d)| && DirEntries(fs.disk, d)[i] == e;
      EntryUsed(fs.disk, d, i);
      if e.obj in OldData(fs.disk, d) {
        OldDataUsed(fs.disk, d, e.obj);
        assert false;
      }
    }
  }

  /** The snapshots a mount finds when k writes of a save of the user table were made. */
  function SnapsCut(fs: Fs, c: Fs, snaps: seq<nat>, k: nat): seq<nat> {
    if Whole(fs, c, k) then Joined(fs, c, snaps) else snaps
  }

  /** Power may fail after any number of the sector writes of a save of the user
      table, successful or not.  The store mounted then is sound if and only if
      the exposing block is not among the writes made, or the first bitmap sector is. */
  lemma UsersCrashIff(fs: Fs, snaps: seq<nat>, data: seq<byte>, k: nat)
    requires LiveStore(fs, snaps, LiveDirOf(fs)) && |data| <= MAX_DATA && fs.bitmap == DiskBitmap(fs.disk)
    ensures DirKept(fs, LiveDir(fs))
    ensures var c := UsersSave(fs, data).0;
            |fs.log| <= |c.log| && WritesFit(Written(fs, c))
    ensures var c := UsersSave(fs, data).0;
            var ws := Written(fs, c);
            k <= |ws| ==>
              var disk := CrashDisk(fs, c, k);
              && (Sound(disk) <==> !InWindow(ws[..k], Exposing(fs, LiveDir(fs), |data|)))
              && (Sound(disk) ==>
                    var after := if UsersSave(fs, data).1 then SnapsCut(fs, c, snaps, k) else snaps;
                    Kept(fs, snaps, LiveDir(fs), Mount(disk), after))
  {
    hide Get32, DirGood, DirUses, Free, ObjsApart, Hits, Replay, StoreOk, Separate, DiskBitmap, HasLiveDir,
      SuperRoot, Mount, UsersLast, UsersSave, Exposing, InWindow, Sound, TxCommit;
    var d := LiveDir(fs);
    LiveIsFirst(fs, snaps);
    SoundIsIdle(fs, snaps);
    LastIs(fs, data);
    PrefixSoundIff(fs, snaps, d, data, k);
    if UsersSave(fs, data).1 {
      CommittedIff(fs, snaps, d, data, k);
    } else {
      AbortKeeps(UsersLast(fs, data));
      assert Written(fs, UsersSave(fs, data).0) == Written(fs, UsersLast(fs, data));
    }
  }

  function LiveDirOf(fs: Fs): nat { if SuperRoot(fs.sb) < DISK_BLOCKS then LiveDir(fs) else 0 }

  lemma AbortKeeps(q: Fs)
    ensures TxAbort(q).disk == q.disk && TxAbort(q).log == q.log
  {
  }

  lemma CommittedIff(fs: Fs, snaps: seq<nat>, d: nat, data: seq<byte>, k: nat)
    requires LiveStore(fs, snaps, d) && |data| <= MAX_DATA && fs.bitmap == DiskBitmap(fs.disk) && DirKept(fs, d)
    requires UsersSave(fs, data).1
    ensures var c := UsersSave(fs, data).0;
            && |fs.log| <= |c.log| && WritesFit(Written(fs, c))
            && (k <= |Written(fs, c)| ==>
                  var disk := CrashDisk(fs, c, k);
                  && (Sound(disk) <==> !InWindow(Written(fs, c)[..k], Exposing(fs, d, |data|)))
                  && (Sound(disk) ==>
                        Kept(fs, snaps, d, Mount(disk), SnapsCut(fs, c, snaps, k))))
  {
    hide Get32, DirGood, DirUses, Free, ObjsApart, Hits, Replay, StoreOk, Separate, DiskBitmap, HasLiveDir,
      SuperRoot, Mount, UsersLast, UsersSave, Exposing, InWindow, Sound, TxCommit, Commit, Tail, Joined, DirMoved,
      Wrote, Synced, Rewrote, FindEntry, Missing, ObjBlocks, BlocksFor;
    var c, q := UsersSave(fs, data).0, UsersLast(fs, data);
    var b := OkState(fs, snaps, d, data);
    CommitIs(q);
    CommitTail(q);
    PrefixSoundIff(fs, snaps, d, data, k);
    TwoRuns(fs, q, Commit(q));
    var w0, t, ws := Written(fs, q), Tail(q), Written(fs, c);
    assert ws == w0 + t;
    if k <= |w0| {
      assert ws[..k] == w0[..k];
      TailNotEmpty(q);
    } else if k < |ws| {
      var j := k - |w0|;
      TailNotEmpty(q);
      TailSound(fs, snaps, d, q, b, j);
      assert ws[..k] == w0 + t[..j];
      ReplayConcat(fs.disk, w0, t[..j]);
      TailHits(q, w0, j);
      NotInWindow(ws[..k], Exposing(fs, d, |data|));
      SoundBy(Replay(fs.disk, ws[..k]), snaps);
    } else if k == |ws| {
      assert ws[..k] == ws;
      UsersKeepStore(fs, snaps, data);
      Remounts(c, Joined(fs, c, snaps));
      SoundBy(c.disk, Joined(fs, c, snaps));
      WholeNotInWindow(fs, snaps, d, data, q, b);
    }
  }

  lemma SoundBy(disk: Disk, s: seq<nat>)
    requires StoreOk(Mount(disk), s)
    ensures Sound(disk)
  {
  }

  lemma NotInWindow(ws: seq<Write>, x: nat)
    requires Hits(ws, ALLOC_LBA)
    ensures !InWindow(ws, x)
  {
  }

  lemma TailNotEmpty(q: Fs)
    ensures |Tail(q)| == if q.dirty then 3 else 1
  {
  }

  lemma TailHits(q: Fs, ws: seq<Write>, j: nat)
    requires q.dirty && 1 <= j <= |Tail(q)|
    ensures Hits(ws + Tail(q)[..j], ALLOC_LBA)
  {
    hide BitmapSector, BuildSuper;
    assert (ws + Tail(q)[..j])[|ws|].lba == ALLOC_LBA;
  }

  /** A save that exposes anything took a block, so its commit writes the bitmap. */
  lemma WholeNotInWindow(fs: Fs, snaps: seq<nat>, d: nat, data: seq<byte>, q: Fs, b: Fs)
    requires LiveStore(fs, snaps, d) && |data| <= MAX_DATA && fs.bitmap == DiskBitmap(fs.disk) && DirKept(fs, d)
    requires q == UsersLast(fs, data) && DiskBitmap(q.disk) == DiskBitmap(fs.disk) && Synced(q)
    requires Free(q.bitmap) <= Free(b.bitmap)
    requires match FindEntry(fs.disk, d, USERS)
             case None => Free(b.bitmap) < Free(fs.bitmap)
             case Some(e) =>
               && e.obj < DISK_BLOCKS
               && (Missing(ObjBlocks(fs.disk[e.obj]), BlocksFor(|data|)) > 0 ==> Free(b.bitmap) < Free(fs.bitmap))
    ensures !InWindow(Written0(fs, q) + Tail(q), Exposing(fs, d, |data|))
  {
    hide Get32, DirGood, DirUses, Free, DiskBitmap, FindEntry, Missing, ObjBlocks, BlocksFor, Hits, Tail, UsersLast,
      UsersFound, LiveStore;
    if Exposing(fs, d, |data|) != 0 {
      TailNotEmpty(q);
      TailHits(q, Written0(fs, q), |Tail(q)|);
      assert Tail(q)[..|Tail(q)|] == Tail(q);
    }
  }

  function Written0(fs: Fs, q: Fs): seq<Write> { if |fs.log| <= |q.log| then Written(fs, q) else [] }

  // ---- failures -----------------------------------------------------------

  lemma FailedState(fs: Fs, snaps: seq<nat>, d: nat, data: seq<byte>)
    requires LiveStore(fs, snaps, d) && |data| <= MAX_DATA && DirKept(fs, d)
    requires !UsersSave(fs, data).1
    ensures var q := UsersLast(fs, data);
            && Free(q.bitmap) <= Free(fs.bitmap) && Synced(q) && q.sb == fs.sb && q.mounted
  {
    hide Get32, DirEntries, DirOk, ObjOk, Clear, DirUses, Free, ObjsApart, StoreOk, Separate, HasLiveDir, SuperRoot,
      FirstMatch, DirNext, DirCount, ObjBlock, ObjBlocks, UsersObject, WriteObject, SnapCreate, BlocksFor, Missing,
      SnapRoot, FindEntry, Synced;
    LiveIsFirst(fs, snaps);
    SoundIsSynced(fs, snaps);
    var fs1 := TxBegin(fs);
    UsersTarget(fs1, d);
    UsersObjectSpec(fs1, d);
    SyncedTarget(fs1, d);
    var (a, o) := UsersObject(fs1, d);
    if o != 0 {
      WrittenShape(a, d, o);
      SyncedObject(a, o, data);
      WriteObjectSpec(a, o, data);
    }
  }

  lemma EarlyOnPath(fs: Fs, d: nat, q: Fs, ws: seq<Write>)
    requires DirGood(fs.disk, d) && OnPath(fs, d, q, 0, ws)
    ensures Early(fs, d, Replay(fs.disk, ws))
  {
    hide DirGood, OldData, Free, Hits, Replay;
  }

  /** Whatever was written, a failed save that exposes nothing keeps the store sound. */
  lemma FailedSound(fs: Fs, snaps: seq<nat>, d: nat, data: seq<byte>)
    requires LiveStore(fs, snaps, d) && |data| <= MAX_DATA && fs.bitmap == DiskBitmap(fs.disk) && DirKept(fs, d)
    requires !UsersSave(fs, data).1 && PathBlock(fs, d, false) == 0
    ensures Kept(fs, snaps, d, UsersSave(fs, data).0, snaps)
  {
    hide Get32, DirGood, DirUses, Free, OldData, ObjsApart, Hits, Replay, StoreOk, Separate, DiskBitmap, HasLiveDir,
      SuperRoot, UsersLast, UsersSave, PathBlock, UsersPath, OnPath, Early, DirMoved, Exposes, FindEntry;
    LiveIsFirst(fs, snaps);
    SoundIsIdle(fs, snaps);
    LastIs(fs, data);
    FailedState(fs, snaps, d, data);
    UsersTrace(fs, snaps, d, data);
    PrefixSoundIff(fs, snaps, d, data, 0);
    var c, q := UsersSave(fs, data).0, UsersLast(fs, data);
    var ws := Written(fs, q);
    PathPrefix(fs, d, q, false, |ws|);
    assert ws[..|ws|] == ws;
    EarlyOnPath(fs, d, q, ws);
    AbortedPlace(fs, snaps, q, c);
    SameEarly(fs, d, q.disk, c.disk);
    EarlyMoved(fs, d, c);
    EarlyMoved(fs, d, OnDisk(c));
    SoundAt(fs, snaps, d, c);
  }

  lemma SameEarly(fs: Fs, d: nat, disk: Disk, disk': Disk)
    requires DirGood(fs.disk, d) && Early(fs, d, disk) && disk' == disk
    ensures Early(fs, d, disk')
  {
  }

  lemma AbortedPlace(fs: Fs, snaps: seq<nat>, q: Fs, c: Fs)
    requires StoreOk(fs, snaps) && c == TxAbort(q) && q.disk[SUPER_LBA] == fs.disk[SUPER_LBA]
    requires Synced(q) && q.sb == fs.sb && q.mounted
    ensures SamePlace(fs, c) && c.disk == q.disk && c.bitmap == q.bitmap
  {
    hide SuperOk, ChainOk, SnapSafe, DiskBitmap;
  }

  /** A failed save that wrote the first directory block leaves no sound store. */
  lemma FailedUnsound(fs: Fs, snaps: seq<nat>, d: nat, data: seq<byte>)
    requires LiveStore(fs, snaps, d) && |data| <= MAX_DATA && fs.bitmap == DiskBitmap(fs.disk) && DirKept(fs, d)
    requires !UsersSave(fs, data).1 && FindEntry(fs.disk, d, USERS).None? && UsersFound(fs, d)
    ensures forall s :: !StoreOk(UsersSave(fs, data).0, s)
  {
    hide Get32, DirGood, DirUses, Free, OldData, ObjsApart, Hits, Replay, StoreOk, Separate, DiskBitmap, HasLiveDir,
      SuperRoot, UsersLast, UsersSave, Once, Exposes, FindEntry, UsersFound, Sound, Mount;
    LiveIsFirst(fs, snaps);
    SoundIsIdle(fs, snaps);
    LastIs(fs, data);
    UsersTrace(fs, snaps, d, data);
    PrefixSoundIff(fs, snaps, d, data, 0);
    var c, q := UsersSave(fs, data).0, UsersLast(fs, data);
    var ws := Written(fs, q);
    assert ws[..|ws|] == ws;
    PrefixSoundIff(fs, snaps, d, data, |ws|);
    OnceHits(fs, q, d, Free(fs.bitmap));
    GoodNotZero(fs.disk, d);
    NoBitmapSector(ws);
    AbortKeeps(q);
    forall s ensures !StoreOk(c, s) {
      StaysSound(c, s);
    }
  }

  lemma NoBitmapSector(ws: seq<Write>)
    ensures (forall y :: Hits(ws, y) ==> InStore(y)) ==> !Hits(ws, ALLOC_LBA)
  {
    hide Hits;
  }

  lemma StaysSound(c: Fs, s: seq<nat>)
    ensures StoreOk(c, s) ==> Sound(c.disk)
  {
    hide StoreOk, Mount;
    if StoreOk(c, s) {
      Remounts(c, s);
      SoundBy(c.disk, s);
    }
  }

  /** hexafs_users_save leaves a sound store if and only if the blocks it needs
      are free, or it has no new entry to make, or can make none.  What it leaves
      then lists at most one snapshot more, and is separate. */
  lemma UsersSoundIff(fs: Fs, snaps: seq<nat>, data: seq<byte>)
    requires LiveStore(fs, snaps, LiveDirOf(fs)) && |data| <= MAX_DATA && fs.bitmap == DiskBitmap(fs.disk)
    ensures DirKept(fs, LiveDir(fs))
    ensures var d := LiveDir(fs);
            (exists s :: StoreOk(UsersSave(fs, data).0, s)) <==>
            || FindEntry(fs.disk, d, USERS).Some?
            || DirNext(fs.disk[d]) != 0
            || |Free(fs.bitmap)| <= LinkCost(fs.disk[d])
            || UsersFit(fs, d, |data|)
    ensures var d := LiveDir(fs);
            var (c, ok) := UsersSave(fs, data);
            (exists s :: StoreOk(c, s)) ==>
              var after := if ok then Joined(fs, c, snaps) else snaps;
              Kept(fs, snaps, d, c, after)
  {
    hide Get32, DirOk, DirEntries, ObjOk, Clear, DirUses, Free, ObjsApart, StoreOk, Separate, DiskBitmap,
      HasLiveDir, SuperRoot, UsersSave, FindEntry, DirNext, DirCount, LinkCost, UsersFit, Joined;
    var d := LiveDir(fs);
    LiveIsFirst(fs, snaps);
    UsersSaveSucceeds(fs, snaps, data);
    UsersKeepStore(fs, snaps, data);
    if !UsersSave(fs, data).1 {
      if FindEntry(fs.disk, d, USERS).None? && UsersFound(fs, d) {
        FailedUnsound(fs, snaps, d, data);
      } else {
        FailedSound(fs, snaps, d, data);
      }
    }
  }

  /** Without a live directory nothing is written. */
  lemma NoLiveKeeps(fs: Fs, snaps: seq<nat>, data: seq<byte>)
    requires StoreOk(fs, snaps) && Separate(fs.disk, snaps) && |data| <= MAX_DATA && !HasLive(fs)
    ensures SuperRoot(fs.sb) < DISK_BLOCKS && !HasLiveDir(fs)
    ensures var (c, ok) := UsersSave(fs, data);
            !ok && StoreOk(c, snaps) && c.disk == fs.disk && c.log == fs.log
  {
    hide SuperOk, DiskBitmap, SnapSafe, ChainOk, Separate, HasLiveDir, Get32;
    SoundHasDir(fs, snaps);
  }
}

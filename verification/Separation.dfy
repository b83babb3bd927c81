/** Which blocks belong to whom: the objects of a directory, and the directories
    of different snapshots, share no block.  Saving forms keeps it so. */
module Separation {
  import opened Bytes
  import opened BlockCache
  import opened Store
  import opened Directory
  import opened Objects
  import opened Forms
  import opened Snapshots

  /** No two entries of the directory name objects that share a block. */
  ghost predicate ObjsApart(disk: Disk, d: nat)
    requires DirGood(disk, d)
  {
    forall i, j :: 0 <= i < j < |DirEntries(disk, d)| ==>
      Apart(disk, DirEntries(disk, d)[i].obj, DirEntries(disk, d)[j].obj)
  }

  ghost predicate RootApart(disk: Disk, d: nat)
    requires RootGood(disk, d)
  {
    d != 0 ==> ObjsApart(disk, d)
  }

  /** A snapshot of no directory, or of one whose objects are apart. */
  ghost predicate Tidy(disk: Disk, s: nat) {
    s < DISK_BLOCKS && RootGood(disk, SnapRoot(disk[s])) && RootApart(disk, SnapRoot(disk[s]))
  }

  ghost predicate DirsApart(disk: Disk, d: nat, e: nat)
    requires RootGood(disk, d) && RootGood(disk, e)
  {
    forall b :: 0 <= b < DISK_BLOCKS && RootUses(disk, d, b) ==> !RootUses(disk, e, b)
  }

  /** Two snapshots of different directories share no block, and neither's
      directory uses the other's snapshot block. */
  ghost predicate Strangers(disk: Disk, s: nat, t: nat)
    requires Tidy(disk, s) && Tidy(disk, t)
  {
    && (SnapRoot(disk[s]) != SnapRoot(disk[t]) ==> DirsApart(disk, SnapRoot(disk[s]), SnapRoot(disk[t])))
    && !RootUses(disk, SnapRoot(disk[s]), t)
  }

  ghost predicate Separate(disk: Disk, snaps: seq<nat>) {
    && (forall i :: 0 <= i < |snaps| ==> Tidy(disk, snaps[i]))
    && (forall i, j :: 0 <= i < |snaps| && 0 <= j < |snaps| ==> Strangers(disk, snaps[i], snaps[j]))
  }

  // ---- frames -------------------------------------------------------------

  lemma ObjsApartFrame(disk: Disk, disk': Disk, d: nat)
    requires DirGood(disk, d) && ObjsApart(disk, d)
    requires forall b :: 0 <= b < DISK_BLOCKS && DirUses(disk, d, b) ==> disk'[b] == disk[b]
    ensures DirGood(disk', d) && ObjsApart(disk', d)
    ensures forall b :: 0 <= b ==> (DirUses(disk', d, b) <==> DirUses(disk, d, b))
  {
    DirectoryFrame(disk, disk', d);
    SameEntries(disk, disk', d);
    hide Get32, DirEntries, ObjBlock, DirOk, Listed, LoadDir, DirGood;
    var es := DirEntries(disk, d);
    forall i, j | 0 <= i < j < |es| ensures Apart(disk', es[i].obj, es[j].obj) {
      EntryBlocks(disk, disk', d, i);
      EntryBlocks(disk, disk', d, j);
      assert Apart(disk, es[i].obj, es[j].obj);
    }
  }

  lemma SameEntries(disk: Disk, disk': Disk, d: nat)
    requires DirGood(disk, d)
    requires forall b :: 0 <= b < DISK_BLOCKS && DirUses(disk, d, b) ==> disk'[b] == disk[b]
    ensures DirOk(disk', d) && DirEntries(disk', d) == DirEntries(disk, d) && disk'[d] == disk[d]
  {
    hide Get32, DirEntries, ObjBlock, Sealed, DirBlockOk, ObjOk;
    assert DirUses(disk, d, d);
    if DirNext(disk[d]) != 0 {
      assert DirUses(disk, d, DirNext(disk[d]));
    }
    DirFrame(disk, disk', d);
  }

  lemma EntryBlocks(disk: Disk, disk': Disk, d: nat, i: nat)
    requires DirGood(disk, d) && i < |DirEntries(disk, d)|
    requires forall b :: 0 <= b < DISK_BLOCKS && DirUses(disk, d, b) ==> disk'[b] == disk[b]
    ensures var o := DirEntries(disk, d)[i].obj;
            ObjOk(disk, o) && ObjOk(disk', o) && forall b :: 0 <= b ==>
                (ObjBlock(disk', o, b) <==> ObjBlock(disk, o, b))
  {
    hide Get32, DirEntries, ObjBlock, Sealed, DirBlockOk, ObjShape, ReadObject;
    ObjectFrame(disk, disk', DirEntries(disk, d)[i].obj);
  }

  lemma RootApartFrame(disk: Disk, disk': Disk, d: nat)
    requires RootGood(disk, d) && RootApart(disk, d)
    requires forall b :: 0 <= b < DISK_BLOCKS && RootUses(disk, d, b) ==> disk'[b] == disk[b]
    ensures RootGood(disk', d) && RootApart(disk', d)
    ensures forall b :: 0 <= b ==> (RootUses(disk', d, b) <==> RootUses(disk, d, b))
  {
    hide DirGood, DirUses, ObjsApart;
    if d != 0 {
      ObjsApartFrame(disk, disk', d);
    }
  }

  lemma TidyFrame(disk: Disk, disk': Disk, s: nat)
    requires Tidy(disk, s) && disk'[s] == disk[s]
    requires forall b :: 0 <= b < DISK_BLOCKS && RootUses(disk, SnapRoot(disk[s]), b) ==> disk'[b] == disk[b]
    ensures Tidy(disk', s)
    ensures forall b :: 0 <= b ==> (RootUses(disk', SnapRoot(disk[s]), b) <==> RootUses(disk, SnapRoot(disk[s]), b))
  {
    hide Get32, RootGood, RootUses, RootApart, SnapRoot;
    RootApartFrame(disk, disk', SnapRoot(disk[s]));
  }

  /** Separation depends on the snapshots' own blocks only. */
  lemma SeparateFrame(disk: Disk, disk': Disk, snaps: seq<nat>)
    requires Separate(disk, snaps)
    requires forall i, b :: 0 <= i < |snaps| && 0 <= b < DISK_BLOCKS && SnapUses(disk, snaps[i], b) ==>
              disk'[b] == disk[b]
    ensures Separate(disk', snaps)
  {
    hide Get32, RootGood, RootUses, RootApart, SnapRoot;
    forall i | 0 <= i < |snaps|
      ensures Tidy(disk', snaps[i]) && disk'[snaps[i]] == disk[snaps[i]]
      ensures forall b :: 0 <= b ==>
                (RootUses(disk', SnapRoot(disk[snaps[i]]), b) <==> RootUses(disk, SnapRoot(disk[snaps[i]]), b))
    {
      assert Tidy(disk, snaps[i]);
      UsesItself(disk, snaps[i]);
      forall b | 0 <= b < DISK_BLOCKS && RootUses(disk, SnapRoot(disk[snaps[i]]), b) ensures disk'[b] == disk[b] {
        assert SnapUses(disk, snaps[i], b);
      }
      TidyFrame(disk, disk', snaps[i]);
    }
    forall i, j | 0 <= i < |snaps| && 0 <= j < |snaps| ensures Strangers(disk', snaps[i], snaps[j]) {
      assert Strangers(disk, snaps[i], snaps[j]);
    }
  }

  // ---- saving forms -------------------------------------------------------

  /** An object whose blocks were free is apart from everything a kept directory uses. */
  ghost predicate ApartFromAll(disk: Disk, d: nat, o: nat)
    requires DirGood(disk, d) && o < DISK_BLOCKS
  {
    forall i :: 0 <= i < |DirEntries(disk, d)| ==> Apart(disk, DirEntries(disk, d)[i].obj, o)
  }

  lemma FreshIsApart(fs: Fs, a: Fs, d: nat, o: nat)
    requires DirKept(fs, d) && DirGood(a.disk, d) && o < DISK_BLOCKS
    requires forall b :: 0 <= b < DISK_BLOCKS && DirUses(fs.disk, d, b) ==> a.disk[b] == fs.disk[b]
    requires forall b :: 0 <= b && ObjBlock(a.disk, o, b) ==> b in Free(fs.bitmap)
    ensures ApartFromAll(a.disk, d, o)
  {
    SameEntries(fs.disk, a.disk, d);
    hide Get32, DirEntries, ObjBlock, DirOk, Free, ObjOk;
    var es := DirEntries(fs.disk, d);
    forall i | 0 <= i < |es| ensures Apart(a.disk, es[i].obj, o) {
      EntryBlocks(fs.disk, a.disk, d, i);
      forall b | 0 <= b < DISK_BLOCKS && ObjBlock(a.disk, es[i].obj, b) ensures !ObjBlock(a.disk, o, b) {
        assert ObjBlock(fs.disk, es[i].obj, b);
        assert DirUses(fs.disk, d, b);
      }
    }
  }

  /** What adding an entry makes of the blocks a directory uses. */
  ghost predicate AddedApart(fs: Fs, d: nat, o: nat, fs': Fs)
    requires DirKept(fs, d) && o < DISK_BLOCKS
  {
    && DirKept(fs', d) && ObjsApart(fs'.disk, d)
    && forall b :: 0 <= b < DISK_BLOCKS && DirUses(fs'.disk, d, b) ==>
         DirUses(fs.disk, d, b) || ObjBlock(fs.disk, o, b) || b in Free(fs.bitmap)
  }

  lemma AddKeepsApart(fs: Fs, d: nat, name: CStr, o: u32, kind: byte)
    requires DirKept(fs, d) && DirHeld(fs, d) && ObjsApart(fs.disk, d)
    requires ObjOk(fs.disk, o) && Allocated(fs, o) && Clear(fs.disk, d, o) && ApartFromAll(fs.disk, d, o)
    ensures AddedApart(fs, d, o, AddEntry(fs, d, name, o, kind).0)
  {
    hide Get32, DirEntries, AddEntry, Free, ObjBlock, DirOk, ObjOk, Clear, Allocated, DirUses, ObjsApart,
      ApartFromAll, Listed, LoadEntry;
    AddEntryAppends(fs, d, name, o, kind);
    AddEntryKeepsHeld(fs, d, name, o, kind);
    AddObjectLists(fs, d, name, o, kind);
    var (fs', ok) := AddEntry(fs, d, name, o, kind);
    if ok {
      GrownApart(fs, fs', d, Entry(Cut(name), o, kind));
    }
  }

  lemma GrownApart(fs: Fs, fs': Fs, d: nat, e: Entry)
    requires DirKept(fs, d) && DirKept(fs', d) && ObjsApart(fs.disk, d)
    requires ObjOk(fs.disk, e.obj) && Allocated(fs, e.obj) && Clear(fs.disk, d, e.obj)
    requires ApartFromAll(fs.disk, d, e.obj)
    requires DirNext(fs'.disk[d]) == DirNext(fs.disk[d]) || DirNext(fs'.disk[d]) in Free(fs.bitmap)
    requires DirEntries(fs'.disk, d) == DirEntries(fs.disk, d) + [e]
    requires Free(fs'.bitmap) <= Free(fs.bitmap)
    requires forall b :: 0 <= b < DISK_BLOCKS && b !in Free(fs.bitmap) && b != d ==> fs'.disk[b] == fs.disk[b]
    ensures AddedApart(fs, d, e.obj, fs')
  {
    hide Get32, DirEntries, Free, ObjBlock, DirOk, Clear, IsObj, ObjBlocks, BlocksFor, Allocated, DirNext,
      LoadEntry;
    KeptIsHeld(fs, d);
    GoodUsesItself(fs.disk, d);
    var es, es' := DirEntries(fs.disk, d), DirEntries(fs'.disk, d);
    forall i | 0 <= i < |es'|
      ensures ObjOk(fs.disk, es'[i].obj)
      ensures forall b :: 0 <= b ==> (ObjBlock(fs'.disk, es'[i].obj, b) <==> ObjBlock(fs.disk, es'[i].obj, b))
    {
      SameBlocks(fs, fs', d, es'[i].obj);
    }
    forall i, j | 0 <= i < j < |es'| ensures Apart(fs'.disk, es'[i].obj, es'[j].obj) {
      assert Apart(fs.disk, es'[i].obj, es'[j].obj);
    }
    forall b | 0 <= b < DISK_BLOCKS && DirUses(fs'.disk, d, b)
      ensures DirUses(fs.disk, d, b) || ObjBlock(fs.disk, e.obj, b) || b in Free(fs.bitmap)
    {
      if !DirBlock(fs'.disk, d, b) {
        var i :| 0 <= i < |es'| && ObjBlock(fs'.disk, es'[i].obj, b);
        assert i < |es| ==> ObjBlock(fs.disk, es[i].obj, b);
      }
    }
  }

  lemma SameBlocks(fs: Fs, fs': Fs, d: nat, o: nat)
    requires d < DISK_BLOCKS && ObjOk(fs.disk, o) && Allocated(fs, o) && Clear(fs.disk, d, o)
    requires forall b :: 0 <= b < DISK_BLOCKS && b !in Free(fs.bitmap) && b != d ==> fs'.disk[b] == fs.disk[b]
    ensures ObjOk(fs'.disk, o) && forall b :: 0 <= b ==> (ObjBlock(fs'.disk, o, b) <==> ObjBlock(fs.disk, o, b))
  {
    hide Get32, ObjBlock, Free, ObjShape, ReadObject;
    ObjectFrame(fs.disk, fs'.disk, o);
  }

  /** A directory in space that was free in fs0, its objects apart. */
  ghost predicate FreshDir(fs0: Fs, fs: Fs, d: nat) {
    && DirKept(fs, d) && ObjsApart(fs.disk, d)
    && forall b :: 0 <= b < DISK_BLOCKS && DirUses(fs.disk, d, b) ==> b in Free(fs0.bitmap)
  }

  lemma SaveFormFresh(fs0: Fs, fs: Fs, d: nat, f: Form)
    requires FreshDir(fs0, fs, d) && DirHeld(fs, d) && Free(fs.bitmap) <= Free(fs0.bitmap)
    ensures FreshDir(fs0, SaveForm(fs, d, f), d)
  {
    hide SaveObject, Get32, DirOk, ObjBlock, Free, AddEntry, DirNext, DirUses, Listed, LoadEntry, ObjsApart,
      ApartFromAll, ObjOk, Clear, Allocated;
    SaveObjectSpec(fs, f);
    SaveObjectKeepsForms(fs, d, f);
    var (a, o) := SaveObject(fs, f);
    ObjsApartFrame(fs.disk, a.disk, d);
    if o != 0 {
      SavedObjectReady(fs, d, f);
      KeptIsHeld(a, d);
      FreshIsApart(fs, a, d, o);
      AddKeepsApart(a, d, f.name, o, FORM);
    }
  }

  lemma {:induction false} SaveFormsFresh(fs0: Fs, fs: Fs, d: nat, fms: seq<Form>)
    requires FreshDir(fs0, fs, d) && DirHeld(fs, d) && Grew(fs0, fs) && d in Free(fs0.bitmap)
    ensures FreshDir(fs0, SaveForms(fs, d, fms), d)
  {
    if fms != [] {
      var t := fms[..|fms| - 1];
      SaveFormsFresh(fs0, fs, d, t);
      GrewForms(fs0, fs, d, t);
      hide SaveForm, FreshDir, DirHeld;
      SaveFormFresh(fs0, SaveForms(fs, d, t), d, fms[|fms| - 1]);
    }
  }

  lemma NewDirFresh(fs0: Fs, fs: Fs)
    requires Free(fs.bitmap) == Free(fs0.bitmap)
    ensures var (a, d) := CreateDir(fs);
            d != 0 ==> FreshDir(fs0, a, d)
  {
    hide Get32, CreateDir, Free, DirOk, ObjBlock;
    CreateDirSpec(fs);
    CreateDirLists(fs);
  }

  lemma ElsewhereFresh(fs0: Fs, fs: Fs, fs': Fs, d: nat)
    requires FreshDir(fs0, fs, d) && Free(fs'.bitmap) <= Free(fs.bitmap)
    requires forall b :: 0 <= b < DISK_BLOCKS && b !in Free(fs.bitmap) ==> fs'.disk[b] == fs.disk[b]
    ensures FreshDir(fs0, fs', d)
  {
    hide Get32, DirGood, DirUses, Free, ObjsApart;
    ObjsApartFrame(fs.disk, fs'.disk, d);
  }

  lemma SnapCreateElsewhere(fs: Fs, name: CStr)
    ensures var mid := SnapCreate(fs, name).0;
            && Free(mid.bitmap) <= Free(fs.bitmap)
            && forall b :: 0 <= b < DISK_BLOCKS && b !in Free(fs.bitmap) ==> mid.disk[b] == fs.disk[b]
  {
    hide Free, BuildSnap, SetRoot, SuperRoot, SuperTime;
  }

  lemma PrepareFresh(fs: Fs, fms: seq<Form>)
    requires !fs.tx.active
    ensures var (mid, d) := Prepare(fs, fms);
            d != 0 ==> FreshDir(fs, mid, d)
  {
    hide Get32, DirKept, DirHeld, Free, Grew, SaveForms, SnapCreate, CreateDir, DirEntries, SuperRoot, FreshDir;
    var fs1 := TxBegin(fs);
    GrewRefl(fs, fs1);
    CreateDirSpec(fs1);
    GrewCreateDir(fs, fs1);
    NewDirFresh(fs, fs1);
    var (a, d) := CreateDir(fs1);
    if d != 0 {
      SaveFormsFresh(fs, a, d, fms);
      var b := SaveForms(a, d, fms);
      var c := SetNewRoot(b, d);
      ElsewhereFresh(fs, b, c, d);
      SnapCreateElsewhere(c, LIVE);
      ElsewhereFresh(fs, c, SnapCreate(c, LIVE).0, d);
    }
  }

  // ---- one more snapshot --------------------------------------------------

  /** A snapshot s of directory d in space that was free joins those of fs. */
  lemma JoinSnap(fs: Fs, disk: Disk, snaps: seq<nat>, s: nat, d: nat)
    requires Separate(disk, snaps) && Tidy(disk, s) && SnapRoot(disk[s]) == d && !RootUses(disk, d, s)
    requires s in Free(fs.bitmap) && forall b :: 0 <= b < DISK_BLOCKS && RootUses(disk, d, b) ==> b in Free(fs.bitmap)
    requires forall i, b :: 0 <= i < |snaps| && 0 <= b < DISK_BLOCKS && SnapUses(disk, snaps[i], b) ==>
              b !in Free(fs.bitmap)
    ensures Separate(disk, [s] + snaps)
  {
    hide Get32, RootGood, RootUses, RootApart, SnapRoot, Free, Tidy;
    var all := [s] + snaps;
    forall i | 0 <= i < |all| ensures Tidy(disk, all[i]) {
    }
    forall i | 0 <= i < |snaps| ensures Strangers(disk, s, snaps[i]) && Strangers(disk, snaps[i], s) {
      JoinOne(fs, disk, snaps[i], s, d);
    }
    SelfStranger(disk, s);
    forall i, j | 0 <= i < |all| && 0 <= j < |all| ensures Strangers(disk, all[i], all[j]) {
      if i > 0 && j > 0 {
        assert Strangers(disk, snaps[i - 1], snaps[j - 1]);
      }
    }
  }

  lemma SelfStranger(disk: Disk, s: nat)
    requires Tidy(disk, s) && !RootUses(disk, SnapRoot(disk[s]), s)
    ensures Strangers(disk, s, s)
  {
  }

  lemma JoinOne(fs: Fs, disk: Disk, t: nat, s: nat, d: nat)
    requires Tidy(disk, s) && Tidy(disk, t) && SnapRoot(disk[s]) == d
    requires s in Free(fs.bitmap) && forall b :: 0 <= b < DISK_BLOCKS && RootUses(disk, d, b) ==> b in Free(fs.bitmap)
    requires forall b :: 0 <= b < DISK_BLOCKS && SnapUses(disk, t, b) ==> b !in Free(fs.bitmap)
    ensures Strangers(disk, s, t) && Strangers(disk, t, s)
  {
    hide Get32, RootGood, RootUses, RootApart, SnapRoot, Free;
    UsesItself(disk, t);
    forall b | 0 <= b < DISK_BLOCKS && RootUses(disk, SnapRoot(disk[t]), b) ensures b !in Free(fs.bitmap) {
      assert SnapUses(disk, t, b);
    }
  }

  /** Everything a sound store's snapshots use is in use and stays readable on
      a disk that agrees with it there. */
  lemma SeparateOn(fs: Fs, snaps: seq<nat>, disk': Disk)
    requires StoreOk(fs, snaps) && Separate(fs.disk, snaps)
    requires forall b :: 0 <= b < DISK_BLOCKS && InStore(b) && b !in Free(fs.bitmap) ==> disk'[b] == fs.disk[b]
    ensures Separate(disk', snaps)
    ensures forall i, b :: 0 <= i < |snaps| && 0 <= b < DISK_BLOCKS && SnapUses(disk', snaps[i], b) ==>
              b !in Free(fs.bitmap)
  {
    hide Get32, RootGood, RootUses, RootApart, Free, SnapRoot, Terminated, SuperOk, DiskBitmap, ChainOk, Separate,
      SnapUses;
    forall i | 0 <= i < |snaps|
      ensures SameSnap(fs.disk, disk', snaps[i])
      ensures forall b :: 0 <= b < DISK_BLOCKS && SnapUses(fs.disk, snaps[i], b) ==>
                disk'[b] == fs.disk[b] && b !in Free(fs.bitmap)
      ensures forall b :: 0 <= b < DISK_BLOCKS && SnapUses(disk', snaps[i], b) ==> SnapUses(fs.disk, snaps[i], b)
    {
      assert SnapSafe(fs.disk, fs.bitmap, snaps[i]);
      SnapFrame(fs.disk, disk', fs.bitmap, fs.bitmap, snaps[i]);
      SnapUsesBack(fs.disk, disk', snaps[i]);
    }
    SeparateFrame(fs.disk, disk', snaps);
  }

  lemma SnapUsesBack(disk: Disk, disk': Disk, s: nat)
    requires s < DISK_BLOCKS && RootGood(disk, SnapRoot(disk[s]))
    requires forall b :: 0 <= b < DISK_BLOCKS && SnapUses(disk, s, b) ==> disk'[b] == disk[b]
    ensures RootGood(disk', SnapRoot(disk'[s]))
    ensures forall b :: 0 <= b < DISK_BLOCKS ==> (SnapUses(disk', s, b) <==> SnapUses(disk, s, b))
  {
    hide Get32, RootGood, RootUses, SnapRoot;
    UsesItself(disk, s);
    RootFrame(disk, disk', SnapRoot(disk[s]));
  }

  /** The directory a new snapshot names: none, or a fresh one. */
  ghost predicate FreshRoot(fs0: Fs, fs: Fs, d: nat) {
    d == 0 || FreshDir(fs0, fs, d)
  }

  lemma NewSnapTidy(fs: Fs, mid: Fs, d: nat, name: CStr, disk': Disk)
    requires Prepared(fs, mid, d, name) && mid.tx.snap != 0 && FreshRoot(fs, mid, d)
    requires forall b :: 0 <= b < DISK_BLOCKS && InStore(b) ==> disk'[b] == mid.disk[b]
    ensures var s := mid.tx.snap;
            && s in Free(fs.bitmap) && Tidy(disk', s) && SnapRoot(disk'[s]) == d && !RootUses(disk', d, s)
            && forall b :: 0 <= b < DISK_BLOCKS && RootUses(disk', d, b) ==> b in Free(fs.bitmap)
  {
    hide Get32, BuildSnap, Free, DirGood, DirUses, Grew, SuperRoot, SuperTime, SetRoot, SnapRoot, ObjsApart,
      SnapParent, SnapName, SnapForms, Terminated, IsSnap, RootForms, RootLoad;
    NewSnapSafe(fs, mid, d, name, disk');
    forall b | 0 <= b < DISK_BLOCKS && RootUses(mid.disk, d, b) ensures disk'[b] == mid.disk[b] {
      RootUsesInStore(mid.disk, d, b);
    }
    RootApartFrame(mid.disk, disk', d);
  }

  /** A commit keeps the snapshots apart. */
  lemma CommitSeparate(fs: Fs, snaps: seq<nat>, mid: Fs, d: nat, name: CStr)
    requires StoreOk(fs, snaps) && Separate(fs.disk, snaps) && Prepared(fs, mid, d, name) && FreshRoot(fs, mid, d)
    ensures Separate(Commit(mid).disk, Grown(mid, snaps))
  {
    hide SnapSafe, ChainOk, SuperOk, DiskBitmap, SuperRoot, Prepared, Commit, Free, Separate, FreshRoot, SnapUses,
      RootUses, SnapRoot, Tidy;
    PreparedIsDirty(fs, mid, d, name);
    CommitDisk(fs, mid);
    var disk' := Commit(mid).disk;
    SeparateOn(fs, snaps, disk');
    if mid.tx.snap != 0 {
      NewSnapTidy(fs, mid, d, name, disk');
      JoinSnap(fs, disk', snaps, mid.tx.snap, d);
    }
  }

  lemma SaveAllSeparate(fs: Fs, snaps: seq<nat>, fms: seq<Form>)
    requires StoreOk(fs, snaps) && Separate(fs.disk, snaps)
    ensures Separate(SaveAll(fs, fms).disk, SnapsAfter(fs, snaps, fms))
  {
    hide Prepare, SnapSafe, ChainOk, SuperOk, DiskBitmap, SuperRoot, Prepared, Commit, Free, TxCommit, Separate,
      FreshDir;
    PrepareSpec(fs, fms);
    PrepareFresh(fs, fms);
    var (mid, d) := Prepare(fs, fms);
    if d != 0 {
      PreparedIsDirty(fs, mid, d, LIVE);
      CommitIs(mid);
      CommitSeparate(fs, snaps, mid, d, LIVE);
    }
  }

  lemma BootSeparate(fs: Fs, snaps: seq<nat>)
    requires StoreOk(fs, snaps) && Separate(fs.disk, snaps)
    ensures Separate(BootCommit(fs).disk, SnapsBooted(fs, snaps))
  {
    hide BootMid, SnapSafe, ChainOk, SuperOk, DiskBitmap, SuperRoot, Prepared, Commit, Free, TxCommit, Separate;
    BootPrepared(fs);
    PreparedIsDirty(fs, BootMid(fs), 0, BOOT_OK);
    CommitIs(BootMid(fs));
    CommitSeparate(fs, snaps, BootMid(fs), 0, BOOT_OK);
  }
}

/** The user table across boots: like the form table, it is found until a boot
    commits a snapshot that names no directory. */
module Boots {
  import opened Bytes
  import opened BlockCache
  import opened Store
  import opened Directory
  import opened Objects
  import opened Forms
  import opened Snapshots
  import opened History
  import opened Users

  /** A sound store says where its user table is. */
  lemma SoundUsers(fs: Fs, snaps: seq<nat>)
    requires StoreOk(fs, snaps)
    ensures UsersReady(fs)
  {
    hide Get32, DirEntries, ObjOk, Clear, DirUses, FirstMatch, StoreOk, DirOk, SuperRoot, SnapRoot, IsSnap;
    SoundHasDir(fs, snaps);
    if HasLiveDir(fs) {
      var d := LiveDir(fs);
      if FindEntry(fs.disk, d, USERS).Some? {
        var i :| 0 <= i < |DirEntries(fs.disk, d)| && DirEntries(fs.disk, d)[i] == FindEntry(fs.disk, d, USERS).value;
      }
    }
  }

  /** Two disks that agree on the blocks of directory d hold the same user table. */
  lemma UsersAtFrame(disk: Disk, disk': Disk, d: nat)
    requires DirGood(disk, d) && DirGood(disk', d)
    requires forall b :: 0 <= b < DISK_BLOCKS && DirUses(disk, d, b) ==> disk'[b] == disk[b]
    ensures FindEntry(disk', d, USERS) == FindEntry(disk, d, USERS)
    ensures FindEntry(disk, d, USERS).Some? ==>
              && ObjOk(disk, FindEntry(disk, d, USERS).value.obj) && ObjOk(disk', FindEntry(disk, d, USERS).value.obj)
              && UsersAt(disk', d) == UsersAt(disk, d)
    ensures FindEntry(disk, d, USERS).None? ==> UsersAt(disk', d) == None && UsersAt(disk, d) == None
  {
    hide Get32, DirEntries, IsObj, ObjBlocks, BlocksFor, Clear, FirstMatch, ObjBlock, ReadObject, Sealed, DirBlockOk;
    assert DirUses(disk, d, d);
    if DirNext(disk[d]) != 0 {
      assert DirUses(disk, d, DirNext(disk[d]));
    }
    DirFrame(disk, disk', d);
    if FindEntry(disk, d, USERS).Some? {
      var e := FindEntry(disk, d, USERS).value;
      var i :| 0 <= i < |DirEntries(disk, d)| && DirEntries(disk, d)[i] == e;
      forall b | 0 <= b < DISK_BLOCKS && ObjBlock(disk, e.obj, b) ensures disk'[b] == disk[b] {
        assert DirUses(disk, d, b);
      }
      ObjectFrame(disk, disk', e.obj);
    }
  }

  /** Sound stores with the same unchanged snapshots hold the same user table. */
  lemma SameUsers(fs: Fs, up: Fs, snaps: seq<nat>)
    requires StoreOk(fs, snaps) && StoreOk(up, snaps)
    requires forall i :: 0 <= i < |snaps| ==> SameSnap(fs.disk, up.disk, snaps[i])
    ensures UsersReady(fs) && UsersReady(up) && UsersLoad(up) == UsersLoad(fs)
  {
    hide Get32, DirGood, DirUses, Free, SuperOk, DiskBitmap, Terminated, SnapRoot, IsSnap, UsersAt, Listed, LoadDir,
      FindEntry, UsersReady, SnapParent;
    SoundUsers(fs, snaps);
    SoundUsers(up, snaps);
    if snaps != [] {
      var s := snaps[0];
      assert SnapSafe(fs.disk, fs.bitmap, s) && SnapSafe(up.disk, up.bitmap, s);
      UsesItself(fs.disk, s);
      var d := SnapRoot(fs.disk[s]);
      if d != 0 {
        forall b | 0 <= b < DISK_BLOCKS && DirUses(fs.disk, d, b) ensures up.disk[b] == fs.disk[b] {
          assert SnapUses(fs.disk, s, b);
        }
        UsersAtFrame(fs.disk, up.disk, d);
        Opened(fs);
        Opened(up);
      } else {
        Shut(fs);
        Shut(up);
      }
    } else {
      Shut(fs);
      Shut(up);
    }
  }

  lemma Opened(fs: Fs)
    requires UsersReady(fs) && SuperRoot(fs.sb) != 0 && IsSnap(fs.disk[SuperRoot(fs.sb)]) && LiveDir(fs) != 0
    ensures HasLive(fs) && DirOk(fs.disk, LiveDir(fs))
    ensures FindEntry(fs.disk, LiveDir(fs), USERS).Some? ==>
              ObjOk(fs.disk, FindEntry(fs.disk, LiveDir(fs), USERS).value.obj)
    ensures UsersLoad(fs) == UsersAt(fs.disk, LiveDir(fs))
  {
    hide UsersAt, FindEntry, DirOk, ObjOk;
  }

  lemma Shut(fs: Fs)
    requires UsersReady(fs) && (SuperRoot(fs.sb) == 0 || LiveDir(fs) == 0)
    ensures UsersLoad(fs) == None
  {
    hide UsersAt, FindEntry, DirOk, ObjOk;
  }

  lemma BootUsers(fs: Fs, snaps: seq<nat>)
    requires StoreOk(fs, snaps)
    ensures var c := BootCommit(fs);
            && UsersReady(fs) && UsersReady(c)
            && UsersLoad(c) == if Free(fs.bitmap) != {} then None else UsersLoad(fs)
  {
    hide SnapSafe, ChainOk, SuperOk, DiskBitmap, SuperRoot, SameSnap, Commit, Free, BootMid, TxCommit, SetRoot,
      SnapRoot, SnapParent, SnapName, RootForms, RootLoad, UsersReady, UsersLoad, IsSnap;
    BootPrepared(fs);
    BootKeepsStore(fs, snaps);
    SoundUsers(fs, snaps);
    var c, mid := BootCommit(fs), BootMid(fs);
    SoundUsers(c, SnapsBooted(fs, snaps));
    PreparedIsDirty(fs, mid, 0, BOOT_OK);
    CommitIs(mid);
    CommitDisk(fs, mid);
    if mid.tx.snap == 0 {
      SameUsers(fs, c, snaps);
    } else {
      NewSnapSafe(fs, mid, 0, BOOT_OK, c.disk);
      SetRootReads(fs.sb, mid.tx.snap);
      FreeInStore(fs.bitmap, mid.tx.snap);
      Shut(c);
    }
  }

  lemma RemountUsers(fs: Fs, snaps: seq<nat>)
    requires StoreOk(fs, snaps)
    ensures UsersReady(fs) && UsersReady(Mount(fs.disk)) && UsersLoad(Mount(fs.disk)) == UsersLoad(fs)
  {
    hide StoreOk, SameSnap, Mount, UsersReady, UsersLoad;
    Remounts(fs, snaps);
    SafeSelf(fs, snaps);
    SameUsers(fs, Mount(fs.disk), snaps);
  }

  lemma StepUsers(fs: Fs, e: Event, fs': Fs, snaps: seq<nat>)
    requires StoreOk(fs, snaps) && Step(fs, e, fs') && !SavesForms(fs, e)
    ensures UsersReady(fs) && UsersReady(fs')
    ensures UsersLoad(fs') == if TakesRoot(fs, e) then None else UsersLoad(fs)
  {
    hide SaveAll, BootCommit, StoreOk, Replay, Mount, UsersReady, UsersLoad, Free, SnapsBooted, SnapsAfter, SameSnap;
    StepKeeps(fs, e, fs', snaps);
    BootUsers(fs, snaps);
    match e
    case Crash(fms, k) => SameUsers(fs, fs', snaps);
    case BootPolicy =>
    case BootCrash(k) =>
      var done := BootCommit(fs);
      if Whole(fs, done, k) {
        SoundIsIdle(fs, snaps);
        BootWrites(fs);
        assert Written(fs, done)[..k] == Written(fs, done);
        BootKeepsStore(fs, snaps);
        RemountUsers(done, SnapsBooted(fs, snaps));
      } else {
        SameUsers(fs, fs', snaps);
      }
    case Reboot => RemountUsers(fs, snaps);
  }

  /** Over every history without a completed save of the form table the user
      table is found until a boot commit takes a block for its snapshot. */
  lemma {:induction false} UsersUntilBoot(states: seq<Fs>, events: seq<Event>, snaps: seq<nat>)
    requires IsHistory(states, events) && StoreOk(states[0], snaps)
    requires forall k :: 0 <= k < |events| ==> !SavesForms(states[k], events[k])
    ensures UsersReady(states[0]) && UsersReady(states[|events|])
    ensures UsersLoad(states[|events|]) ==
            if exists k :: 0 <= k < |events| && TakesRoot(states[k], events[k]) then None else UsersLoad(states[0])
  {
    hide StoreOk, Step, UsersReady, UsersLoad, TakesRoot, SavesForms, SameSnap, EndsWith, SnapsOf;
    if events == [] {
      SoundUsers(states[0], snaps);
    } else {
      var n := |events| - 1;
      var s0, s1 := states[..n + 1], events[..n];
      assert s0[n] == states[n];
      UsersUntilBoot(s0, s1, snaps);
      SnapshotsAreImmutable(s0, s1, snaps);
      assert Step(states[n], events[n], states[n + 1]);
      StepUsers(states[n], events[n], states[n + 1], SnapsOf(s0, s1, snaps));
      assert (exists k :: 0 <= k < n + 1 && TakesRoot(states[k], events[k])) <==>
             (exists k :: 0 <= k < n && TakesRoot(s0[k], s1[k])) || TakesRoot(states[n], events[n]);
    }
  }

  /** The first boot finds the user table; the second one, with no save between
      them, exactly when no block was free for what the first one committed. */
  lemma SecondBootLosesUsers(fs: Fs, snaps: seq<nat>)
    requires StoreOk(fs, snaps)
    ensures var first := Mount(fs.disk);
            var second := Mount(BootCommit(first).disk);
            && UsersReady(fs) && UsersReady(first) && UsersReady(second)
            && UsersLoad(first) == UsersLoad(fs)
            && UsersLoad(second) == if Free(first.bitmap) != {} then None else UsersLoad(fs)
  {
    hide BootCommit, StoreOk, Mount, UsersReady, UsersLoad, Free, SnapsBooted;
    Remounts(fs, snaps);
    RemountUsers(fs, snaps);
    var first := Mount(fs.disk);
    BootUsers(first, snaps);
    BootKeepsStore(first, snaps);
    RemountUsers(BootCommit(first), SnapsBooted(first, snaps));
  }
}

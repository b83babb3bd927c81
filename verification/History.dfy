/** Whole histories of a volume: formatting, then any number of saves, boots and
    crashes; what they keep, and what a load gives back. */
module History {
  import opened Bytes
  import opened Bitmap
  import opened BlockCache
  import opened Store
  import opened Directory
  import opened Forms
  import opened Snapshots

  /** A save of the form table or the commit that ends a boot, either completed
      or cut off after `writes` sectors and followed by a mount; or a reboot. */
  datatype Event =
    | Save(table: seq<Form>)
    | Crash(table: seq<Form>, writes: nat)
    | BootPolicy
    | BootCrash(writes: nat)
    | Reboot

  /** done was to follow fs, but power failed after k writes and up was mounted. */
  ghost predicate CutOff(fs: Fs, done: Fs, k: nat, up: Fs) {
    && |fs.log| <= |done.log| && WritesFit(Written(fs, done)) && k <= |Written(fs, done)|
    && up == Mount(CrashDisk(fs, done, k))
  }

  /** The last of the k writes that were made was the last one of all. */
  predicate Whole(fs: Fs, done: Fs, k: nat) {
    |fs.log| <= |done.log| && k >= |Written(fs, done)|
  }

  ghost predicate Step(fs: Fs, e: Event, fs': Fs) {
    match e
    case Save(fms) => fs' == SaveAll(fs, fms)
    case Crash(fms, k) => CutOff(fs, SaveAll(fs, fms), k, fs')
    case BootPolicy => fs' == BootCommit(fs)
    case BootCrash(k) => CutOff(fs, BootCommit(fs), k, fs')
    case Reboot => fs' == Mount(fs.disk)
  }

  ghost predicate IsHistory(states: seq<Fs>, events: seq<Event>) {
    && |states| == |events| + 1
    && forall k :: 0 <= k < |events| ==> Step(states[k], events[k], states[k + 1])
  }

  /** The snapshots on the chain after an event, newest first. */
  ghost function SnapsStep(fs: Fs, snaps: seq<nat>, e: Event): seq<nat> {
    match e
    case Save(fms) => SnapsAfter(fs, snaps, fms)
    case Crash(fms, k) => if Whole(fs, SaveAll(fs, fms), k) then SnapsAfter(fs, snaps, fms) else snaps
    case BootPolicy => SnapsBooted(fs, snaps)
    case BootCrash(k) => if Whole(fs, BootCommit(fs), k) then SnapsBooted(fs, snaps) else snaps
    case Reboot => snaps
  }

  ghost function SnapsOf(states: seq<Fs>, events: seq<Event>, snaps: seq<nat>): seq<nat>
    requires |states| == |events| + 1
  {
    if events == [] then snaps
    else
      var n := |events| - 1;
      SnapsStep(states[n], SnapsOf(states[..n + 1], events[..n], snaps), events[n])
  }

  lemma StepKeeps(fs: Fs, e: Event, fs': Fs, snaps: seq<nat>)
    requires StoreOk(fs, snaps) && Step(fs, e, fs')
    ensures StoreOk(fs', SnapsStep(fs, snaps, e))
    ensures forall i :: 0 <= i < |snaps| ==> SameSnap(fs.disk, fs'.disk, snaps[i])
    ensures EndsWith(SnapsStep(fs, snaps, e), snaps)
  {
    hide SaveAll, SnapsAfter, BootCommit, SnapsBooted, Replay, StoreOk, SameSnap, Quiet, CrashDisk, EndsWith,
      LoadsSame, Mount, SuperRoot;
    EndsWithSelf(snaps);
    SoundIsIdle(fs, snaps);
    match e
    case Save(fms) =>
      AfterEndsWith(fs, snaps, fms);
      SaveAllKeepsStore(fs, snaps, fms);
    case Crash(fms, k) =>
      AfterEndsWith(fs, snaps, fms);
      CrashAtomicity(fs, snaps, fms, k);
      SaveAllWrites(fs, fms);
      SaveAllKeepsStore(fs, snaps, fms);
      CutKeepsSnaps(fs, snaps, SaveAll(fs, fms), k);
    case BootPolicy =>
      BootedEndsWith(fs, snaps);
      BootKeepsStore(fs, snaps);
    case BootCrash(k) =>
      BootedEndsWith(fs, snaps);
      BootAtomicity(fs, snaps, k);
      BootWrites(fs);
      BootKeepsStore(fs, snaps);
      CutKeepsSnaps(fs, snaps, BootCommit(fs), k);
    case Reboot =>
      Remounts(fs, snaps);
      SafeSelf(fs, snaps);
  }

  /** A mount of a sound store's disk: same disk, same superblock, still sound. */
  lemma Remounts(fs: Fs, snaps: seq<nat>)
    requires StoreOk(fs, snaps)
    ensures StoreOk(Mount(fs.disk), snaps) && Mount(fs.disk).disk == fs.disk && Mount(fs.disk).sb == fs.sb
  {
    hide SuperOk, ChainOk, SnapSafe, DiskBitmap, Mount;
    RebootKeeps(fs, snaps);
    MountIsBoot(fs.disk);
  }

  lemma CutKeepsSnaps(fs: Fs, snaps: seq<nat>, done: Fs, k: nat)
    requires StoreOk(fs, snaps)
    requires |fs.log| <= |done.log| && WritesFit(Written(fs, done)) && done.disk == Replay(fs.disk, Written(fs, done))
    requires forall i :: 0 <= i < |Written(fs, done)| ==> Quiet(fs, Replay(fs.disk, Written(fs, done)[..i]))
    requires forall i :: 0 <= i < |snaps| ==> SameSnap(fs.disk, done.disk, snaps[i])
    requires k <= |Written(fs, done)|
    ensures forall i :: 0 <= i < |snaps| ==> SameSnap(fs.disk, CrashDisk(fs, done, k), snaps[i])
  {
    hide Replay, StoreOk, SameSnap, Quiet;
    var ws := Written(fs, done);
    if k < |ws| {
      QuietRecovers(fs, snaps, Replay(fs.disk, ws[..k]));
    } else {
      assert ws[..k] == ws;
    }
  }

  lemma BootedEndsWith(fs: Fs, snaps: seq<nat>)
    ensures EndsWith(SnapsBooted(fs, snaps), snaps)
  {
    hide BootMid;
    var mid := BootMid(fs);
    assert ([mid.tx.snap] + snaps)[1..] == snaps;
  }

  ghost predicate EndsWith(all: seq<nat>, tail: seq<nat>) {
    |tail| <= |all| && all[|all| - |tail|..] == tail
  }

  lemma EndsWithSelf(s: seq<nat>)
    ensures EndsWith(s, s)
  {
  }

  lemma AfterEndsWith(fs: Fs, snaps: seq<nat>, fms: seq<Form>)
    ensures EndsWith(SnapsAfter(fs, snaps, fms), snaps)
  {
    hide Prepare;
    var mid := Prepare(fs, fms).0;
    assert ([mid.tx.snap] + snaps)[1..] == snaps;
  }

  /** The store stays sound over every history, the chain only grows at its
      front, and every snapshot that was ever on it keeps its blocks unchanged
      and in use, and decodes to the forms it was saved with. */
  lemma {:induction false} SnapshotsAreImmutable(states: seq<Fs>, events: seq<Event>, snaps: seq<nat>)
    requires IsHistory(states, events) && StoreOk(states[0], snaps)
    ensures StoreOk(states[|events|], SnapsOf(states, events, snaps))
    ensures EndsWith(SnapsOf(states, events, snaps), snaps)
    ensures forall i :: 0 <= i < |snaps| ==> SameSnap(states[0].disk, states[|events|].disk, snaps[i])
  {
    hide StoreOk, Step, SnapsStep, SameSnap, EndsWith;
    if events == [] {
      EndsWithSelf(snaps);
      SafeSelf(states[0], snaps);
    } else {
      var n := |events| - 1;
      SnapshotsAreImmutable(states[..n + 1], events[..n], snaps);
      var mid := SnapsOf(states[..n + 1], events[..n], snaps);
      assert states[..n + 1][n] == states[n];
      assert Step(states[n], events[n], states[n + 1]);
      StepKeeps(states[n], events[n], states[n + 1], mid);
      var last := SnapsOf(states, events, snaps);
      EndsWithTrans(last, mid, snaps);
      forall i | 0 <= i < |snaps| ensures SameSnap(states[0].disk, states[n + 1].disk, snaps[i]) {
        var j := EndsWithIndex(mid, snaps, i);
        SameSnapTrans(states[0].disk, states[n].disk, states[n + 1].disk, snaps[i]);
      }
    }
  }

  // ---- what a boot takes away ---------------------------------------------

  /** The event completed a save of the form table. */
  ghost predicate SavesForms(fs: Fs, e: Event) {
    e.Save? || (e.Crash? && Whole(fs, SaveAll(fs, e.table), e.writes))
  }

  /** The event completed a boot commit that found a block for its snapshot. */
  ghost predicate TakesRoot(fs: Fs, e: Event) {
    (e.BootPolicy? || (e.BootCrash? && Whole(fs, BootCommit(fs), e.writes))) && Free(fs.bitmap) != {}
  }

  lemma StepLoads(fs: Fs, e: Event, fs': Fs, snaps: seq<nat>)
    requires StoreOk(fs, snaps) && Step(fs, e, fs') && !SavesForms(fs, e)
    ensures LoadReady(fs.disk, SuperRoot(fs.sb)) && LoadReady(fs'.disk, SuperRoot(fs'.sb))
    ensures Load(fs'.disk, SuperRoot(fs'.sb)) == if TakesRoot(fs, e) then None else Load(fs.disk, SuperRoot(fs.sb))
  {
    hide SaveAll, BootCommit, StoreOk, CrashDisk, Mount, SuperRoot, Load, LoadReady, Free, SnapsBooted, SnapsAfter;
    BootLoads(fs, snaps);
    match e
    case Crash(fms, k) => CrashAtomicity(fs, snaps, fms, k);
    case BootPolicy =>
    case BootCrash(k) => BootAtomicity(fs, snaps, k);
    case Reboot => Remounts(fs, snaps);
  }

  /** Over every history without a completed save a load finds the form table
      that was there at its start, until a boot commit takes a block for its
      snapshot; from then on it finds nothing. */
  lemma {:induction false} LoadsUntilBoot(states: seq<Fs>, events: seq<Event>, snaps: seq<nat>)
    requires IsHistory(states, events) && StoreOk(states[0], snaps)
    requires forall k :: 0 <= k < |events| ==> !SavesForms(states[k], events[k])
    ensures LoadReady(states[0].disk, SuperRoot(states[0].sb))
    ensures LoadReady(states[|events|].disk, SuperRoot(states[|events|].sb))
    ensures Load(states[|events|].disk, SuperRoot(states[|events|].sb)) ==
            if exists k :: 0 <= k < |events| && TakesRoot(states[k], events[k]) then None
            else Load(states[0].disk, SuperRoot(states[0].sb))
  {
    hide StoreOk, Step, SuperRoot, Load, LoadReady, TakesRoot, SavesForms, SameSnap, EndsWith, SnapsOf;
    if events == [] {
      RecoversSelf(states[0], snaps);
    } else {
      var n := |events| - 1;
      var s0, s1 := states[..n + 1], events[..n];
      assert s0[n] == states[n];
      LoadsUntilBoot(s0, s1, snaps);
      SnapshotsAreImmutable(s0, s1, snaps);
      assert Step(states[n], events[n], states[n + 1]);
      StepLoads(states[n], events[n], states[n + 1], SnapsOf(s0, s1, snaps));
      assert (exists k :: 0 <= k < n + 1 && TakesRoot(states[k], events[k])) <==>
             (exists k :: 0 <= k < n && TakesRoot(s0[k], s1[k])) || TakesRoot(states[n], events[n]);
    }
  }

  /** The forms of a sound store are found by the first boot, and by the second
      one, without a save between them, exactly when no block was free for the
      snapshot the first one committed.  A crash in the first save after a boot
      loses them in the same way. */
  lemma SecondBootLoses(fs: Fs, snaps: seq<nat>, fms: seq<Form>, k: nat)
    requires StoreOk(fs, snaps)
    ensures LoadReady(fs.disk, SuperRoot(fs.sb))
    ensures var first := Mount(fs.disk);
            var second := Mount(BootCommit(first).disk);
            && LoadReady(first.disk, SuperRoot(first.sb)) && LoadReady(second.disk, SuperRoot(second.sb))
            && Load(first.disk, SuperRoot(first.sb)) == Load(fs.disk, SuperRoot(fs.sb))
            && Load(second.disk, SuperRoot(second.sb)) ==
               (if Free(first.bitmap) != {} then None else Load(fs.disk, SuperRoot(fs.sb)))
    ensures var booted := BootCommit(Mount(fs.disk));
            var done := SaveAll(booted, fms);
            && |booted.log| <= |done.log| && WritesFit(Written(booted, done))
            && (k < |Written(booted, done)| && Free(Mount(fs.disk).bitmap) != {} ==>
                  var up := Mount(CrashDisk(booted, done, k));
                  LoadReady(up.disk, SuperRoot(up.sb)) && Load(up.disk, SuperRoot(up.sb)) == None)
  {
    hide SaveAll, BootCommit, StoreOk, CrashDisk, Mount, SuperRoot, Load, LoadReady, Free, SnapsBooted, SnapsAfter;
    Remounts(fs, snaps);
    var first := Mount(fs.disk);
    BootLoads(first, snaps);
    BootKeepsStore(first, snaps);
    var booted, after := BootCommit(first), SnapsBooted(first, snaps);
    Remounts(booted, after);
    CrashAtomicity(booted, after, fms, k);
  }

  lemma SafeSelf(fs: Fs, snaps: seq<nat>)
    requires StoreOk(fs, snaps)
    ensures forall i :: 0 <= i < |snaps| ==> SameSnap(fs.disk, fs.disk, snaps[i])
  {
    hide SnapSafe, SameSnap, ChainOk;
    forall i | 0 <= i < |snaps| ensures SameSnap(fs.disk, fs.disk, snaps[i]) {
      SameSnapRefl(fs.disk, fs.bitmap, snaps[i]);
    }
  }

  lemma EndsWithTrans(a: seq<nat>, b: seq<nat>, c: seq<nat>)
    requires EndsWith(a, b) && EndsWith(b, c)
    ensures EndsWith(a, c)
  {
    assert a[|a| - |c|..] == a[|a| - |b|..][|b| - |c|..];
  }

  lemma EndsWithIndex(a: seq<nat>, b: seq<nat>, i: nat) returns (j: nat)
    requires EndsWith(a, b) && i < |b|
    ensures j < |a| && a[j] == b[i]
  {
    j := |a| - |b| + i;
    assert a[|a| - |b|..][i] == a[j];
  }

  lemma SameSnapTrans(d0: Disk, d1: Disk, d2: Disk, s: nat)
    requires SameSnap(d0, d1, s) && SameSnap(d1, d2, s)
    ensures SameSnap(d0, d2, s)
  {
    hide Get32, DirGood, SnapUses, Listed, LoadDir;
  }

  // ---- the first mount ----------------------------------------------------

  lemma FormatSpec(fs: Fs)
    requires !fs.tx.active
    ensures var fs' := Format(fs);
            && StoreOk(fs', []) && fs'.tx == fs.tx && fs'.hint == fs.hint
            && forall b :: InStore(b) ==> b in Free(fs'.bitmap)
  {
    hide BuildSuper, Get32, Seal, Sealed, Hash, MarkRange, Bit;
    SuperFields(0, 0, 1);
    SuperFields(0, 0, 2);
    var m := MarkRange(ZeroMap(), OBJECT_LBA);
    assert BitmapSector(m, 0) + BitmapSector(m, 1) == m;
    forall b | InStore(b) ensures b in Free(m) {
      ZeroBits(b);
    }
  }

  /** hexafs_format leaves the allocation hint of the running kernel in place, so
      the first block handed out on the empty volume is the lowest one exactly
      when the hint stood at either end. */
  lemma AllocAfterFormat(fs: Fs)
    ensures var b := AllocBlock(Format(fs)).1;
            && b == (if fs.hint < DISK_BLOCKS then fs.hint else OBJECT_LBA)
            && ((forall k :: k in Free(Format(fs).bitmap) ==>
                b <= k) <==> fs.hint == OBJECT_LBA || fs.hint == DISK_BLOCKS)
  {
    hide BuildSuper, Get32, Seal, Sealed, Hash, MarkRange, Bit;
    var g := Format(fs);
    forall b | InStore(b) ensures b in Free(g.bitmap) {
      ZeroBits(b);
    }
    assert InStore(OBJECT_LBA) && g.hint == fs.hint;
    assert fs.hint < DISK_BLOCKS ==> InStore(fs.hint) && !Used(g.bitmap, fs.hint);
    FindFreeHere(g.bitmap, fs.hint, DISK_BLOCKS);
    FindFreeHere(g.bitmap, OBJECT_LBA, fs.hint);
  }

  lemma ZeroBits(b: nat)
    requires b < DISK_BLOCKS
    ensures !Used(ZeroMap(), b)
  {
    ZeroBit(b % 8);
  }

  lemma {:induction false} ZeroBit(i: nat)
    ensures !Bit(0, i)
  {
    if i > 0 {
      ZeroBit(i - 1);
    }
  }

  /** A sound store with the single, empty snapshot "boot_ok". */
  ghost predicate FreshStore(fs: Fs) {
    var s := SuperRoot(fs.sb);
    && StoreOk(fs, [s])
    && s < DISK_BLOCKS && DirGood(fs.disk, SnapRoot(fs.disk[s]))
    && SnapName(fs.disk[s]) == BOOT_OK && SnapForms(fs.disk, s) == []
  }

  /** Mounting a disk whose superblock is not accepted always gives a sound,
      empty store, whatever the disk held. */
  lemma MountIsSound(d: Disk)
    requires !SuperOk(d[SUPER_LBA])
    ensures FreshStore(Mount(d))
  {
    hide Format, SuperOk, Free, DirKept, DirHeld, DirEntries, CreateDir, SnapCreate, Grew, Lists, StoreOk,
      FreshStore, Listed;
    var fs := Format(PowerOn(d));
    FormatSpec(PowerOn(d));
    CreateDirSpec(fs);
    CreateDirLists(fs);
    var (a, r) := CreateDir(fs);
    TwoFree(fs, a, r);
    GrewRefl(fs, fs);
    GrewCreateDir(fs, fs);
    FirstSnapshot(fs, a, r);
  }

  /** What a mount leaves when power fails after k sector writes of making a new
      volume.  Before the first write it starts over; from then on the new
      superblock is accepted, with no snapshot until the last write. */
  lemma FormatCrash(d: Disk, k: nat)
    requires !SuperOk(d[SUPER_LBA])
    ensures WritesFit(Written(PowerOn(d), Mount(d)))
    ensures Mount(d).disk == Replay(d, Written(PowerOn(d), Mount(d)))
    ensures k <= |Written(PowerOn(d), Mount(d))| ==>
              var up := Mount(CrashDisk(PowerOn(d), Mount(d), k));
              if k == 0 || k == |Written(PowerOn(d), Mount(d))| then FreshStore(up) else StoreOk(up, [])
  {
    hide SuperOk, Replay, StoreOk, FreshStore, Mount;
    var p, done := PowerOn(d), Mount(d);
    FreshWrites(d);
    MountIsSound(d);
    var ws := Written(p, done);
    if k == 0 {
      assert ws[..k] == [];
      ReplayNothing(d);
    } else if k < |ws| {
      var x := Replay(d, ws[..k]);
      SuperStays(d, ws, k);
      MountIsBoot(x);
      RootlessIsSound(x);
    } else if k == |ws| {
      assert ws[..k] == ws;
      RemountFresh(done);
    }
  }

  lemma RemountFresh(fs: Fs)
    requires FreshStore(fs)
    ensures FreshStore(Mount(fs.disk))
  {
    hide SuperOk, SnapSafe, DirGood, SnapForms, SnapName, Get32, DiskBitmap, Mount;
    RebootKeeps(fs, [SuperRoot(fs.sb)]);
    MountIsBoot(fs.disk);
  }

  lemma RootlessIsSound(d: Disk)
    requires SuperOk(d[SUPER_LBA]) && SuperRoot(d[SUPER_LBA]) == 0
    ensures StoreOk(Boot(d), [])
  {
    hide SuperOk, DiskBitmap;
  }

  lemma {:induction false} SuperStays(d: Disk, ws: seq<Write>, k: nat)
    requires WritesFit(ws) && 1 <= k <= |ws| && ws[0].lba == SUPER_LBA
    requires forall i :: 1 <= i < k ==> ws[i].lba != SUPER_LBA
    ensures Replay(d, ws[..k])[SUPER_LBA] == ws[0].data
  {
    hide Replay;
    assert ws[..k] == ws[..k - 1] + [ws[k - 1]];
    ReplaySnoc(d, ws[..k - 1], ws[k - 1]);
    if k > 1 {
      SuperStays(d, ws, k - 1);
    }
  }

  /** A new volume: the superblock without a root, the bitmap, blocks of the
      store and the bitmap again, then the superblock with the root. */
  lemma FreshWrites(d: Disk)
    requires !SuperOk(d[SUPER_LBA])
    ensures var ws := Written(PowerOn(d), Mount(d));
            && WritesFit(ws) && Mount(d).disk == Replay(d, ws) && |ws| >= 2
            && ws[0].lba == SUPER_LBA && SuperOk(ws[0].data) && SuperRoot(ws[0].data) == 0
            && forall i :: 1 <= i < |ws| - 1 ==> ws[i].lba != SUPER_LBA
  {
    hide Format, SuperOk, SuperRoot, Free, DirKept, DirHeld, DirEntries, CreateDir, SnapCreate, Grew, Lists,
      StoreOk, Listed, Commit, TxCommit, Replay, EarlyWrite, Prepared;
    var p, fs := PowerOn(d), Format(PowerOn(d));
    FormatSpec(p);
    FormatWrites(p);
    CreateDirSpec(fs);
    CreateDirLists(fs);
    var (a, r) := CreateDir(fs);
    TwoFree(fs, a, r);
    GrewRefl(fs, fs);
    GrewCreateDir(fs, fs);
    var b := TxBegin(a);
    TxGrew(fs, a, b, r);
    RootSet(fs, b, r);
    var c := SetNewRoot(b, r);
    SnapCreateSpec(fs, c, r, BOOT_OK);
    var mid := SnapCreate(c, BOOT_OK).0;
    PreparedIsDirty(fs, mid, r, BOOT_OK);
    CommitIs(mid);
    CommitWrites(fs, mid);
    TwoRuns(p, fs, Commit(mid));
    EarlyNotSuper(fs, mid.bitmap, Written(fs, Commit(mid)));
  }

  lemma EarlyNotSuper(fs: Fs, bm: MapBytes, ws: seq<Write>)
    requires |ws| > 0 && forall k :: 0 <= k < |ws| - 1 ==> EarlyWrite(fs, bm, ws[k])
    ensures forall k :: 0 <= k < |ws| - 1 ==> ws[k].lba != SUPER_LBA
  {
    hide Free;
    ReservedNotFree(fs.bitmap);
  }

  lemma FormatWrites(fs: Fs)
    ensures var g := Format(fs);
            && fs.log <= g.log && |Written(fs, g)| == 3 && WritesFit(Written(fs, g))
            && g.disk == Replay(fs.disk, Written(fs, g))
            && Written(fs, g)[0].lba == SUPER_LBA && SuperOk(Written(fs, g)[0].data)
            && SuperRoot(Written(fs, g)[0].data) == 0
            && Written(fs, g)[1].lba != SUPER_LBA && Written(fs, g)[2].lba != SUPER_LBA
  {
    hide BuildSuper, Get32, SuperOk, MarkRange, Replay, SuperRoot, SuperTime, SuperGen;
    SuperFields(0, 0, 1);
    SuperFields(0, 0, 2);
    var g := Format(fs);
    var ws := Written(fs, g);
    assert |ws| == 3;
    ReplayNothing(fs.disk);
    ReplaySnoc(fs.disk, [], ws[0]);
    ReplaySnoc(fs.disk, [ws[0]], ws[1]);
    ReplaySnoc(fs.disk, [ws[0]] + [ws[1]], ws[2]);
    assert [] + [ws[0]] == [ws[0]];
    assert ws == [ws[0]] + [ws[1]] + [ws[2]];
  }

  /** Two stretches of one run, one after the other. */
  lemma TwoRuns(a: Fs, b: Fs, c: Fs)
    requires a.log <= b.log && |b.log| <= |c.log| && b.log <= c.log
    requires WritesFit(Written(a, b)) && WritesFit(Written(b, c))
    requires b.disk == Replay(a.disk, Written(a, b)) && c.disk == Replay(b.disk, Written(b, c))
    ensures Written(a, c) == Written(a, b) + Written(b, c) && WritesFit(Written(a, c))
    ensures c.disk == Replay(a.disk, Written(a, c))
  {
    hide Replay;
    assert Written(a, c) == Written(a, b) + Written(b, c);
    ReplayConcat(a.disk, Written(a, b), Written(b, c));
  }

  lemma {:induction false} ReplayConcat(d: Disk, u: seq<Write>, v: seq<Write>)
    requires WritesFit(u) && WritesFit(v)
    ensures WritesFit(u + v) && Replay(d, u + v) == Replay(Replay(d, u), v)
  {
    if v == [] {
      assert u + v == u;
    } else {
      var n := |v| - 1;
      ReplayConcat(d, u, v[..n]);
      hide Replay;
      assert u + v == (u + v[..n]) + [v[n]];
      assert v == v[..n] + [v[n]];
      ReplaySnoc(d, u + v[..n], v[n]);
      ReplaySnoc(Replay(d, u), v[..n], v[n]);
    }
  }

  lemma TwoFree(fs: Fs, a: Fs, r: nat)
    requires forall b :: InStore(b) ==> b in Free(fs.bitmap)
    ensures Free(fs.bitmap) != {}
    ensures Free(a.bitmap) == Free(fs.bitmap) - {r} ==> Free(a.bitmap) != {}
  {
    hide Free;
    assert InStore(OBJECT_LBA) && InStore(OBJECT_LBA + 1);
    assert OBJECT_LBA in Free(fs.bitmap) && OBJECT_LBA + 1 in Free(fs.bitmap);
    if Free(a.bitmap) == Free(fs.bitmap) - {r} {
      assert OBJECT_LBA in Free(a.bitmap) || OBJECT_LBA + 1 in Free(a.bitmap);
    }
  }

  lemma FirstSnapshot(fs: Fs, a: Fs, r: nat)
    requires StoreOk(fs, []) && Grew(fs, a) && Lists(a, r, []) && DirKept(a, r) && InStore(r) && r in Free(fs.bitmap)
    requires a.sb == fs.sb && !a.tx.active && Free(a.bitmap) != {}
    ensures FreshStore(TxCommit(SnapCreate(SetNewRoot(TxBegin(a), r), BOOT_OK).0))
  {
    hide SuperOk, SuperRoot, Free, DirKept, SnapCreate, Prepared, Grew, Lists, StoreOk, Commit, SnapSafe, DirGood,
      SnapName, Get32, Listed;
    var b := TxBegin(a);
    TxGrew(fs, a, b, r);
    RootSet(fs, b, r);
    var c := SetNewRoot(b, r);
    SnapCreateSpec(fs, c, r, BOOT_OK);
    var mid := SnapCreate(c, BOOT_OK).0;
    PreparedIsDirty(fs, mid, r, BOOT_OK);
    CommitIs(mid);
    CommitKeepsStore(fs, [], mid, r, BOOT_OK, TxCommit(mid));
    EmptyFirstSnapshot(fs, mid, r, a);
    assert Grown(mid, []) == [mid.tx.snap];
  }

  lemma TxGrew(fs0: Fs, a: Fs, b: Fs, d: nat)
    requires Grew(fs0, a) && DirKept(a, d) && b == a.(tx := b.tx, txGen := b.txGen)
    ensures Grew(fs0, b) && DirKept(b, d)
  {
    hide Replay, Free;
    assert Written(fs0, b) == Written(fs0, a);
  }

  lemma EmptyFirstSnapshot(fs: Fs, mid: Fs, d: nat, a: Fs)
    requires StoreOk(fs, []) && Prepared(fs, mid, d, BOOT_OK) && mid.tx.snap != 0 && Lists(a, d, [])
    requires Listed(mid.disk, d) == Listed(a.disk, d)
    ensures var fs' := Commit(mid);
            var s := SuperRoot(fs'.sb);
            && s == mid.tx.snap && s < DISK_BLOCKS && DirGood(fs'.disk, SnapRoot(fs'.disk[s]))
            && SnapName(fs'.disk[s]) == BOOT_OK && SnapForms(fs'.disk, s) == []
  {
    hide SuperOk, Free, Grew, BuildSnap, SetRoot, SuperRoot, SuperTime, Get32, DirUses, StrAt, Terminated, Commit,
      SnapSafe;
    CommitDisk(fs, mid);
    SetRootReads(fs.sb, mid.tx.snap);
    FreeInStore(fs.bitmap, mid.tx.snap);
    NewSnapSafe(fs, mid, d, BOOT_OK, Commit(mid).disk);
  }

  // ---- the chain and its lookup -------------------------------------------

  lemma {:induction false} ChainUnique(disk: Disk, root: nat, a: seq<nat>, b: seq<nat>)
    requires ChainOk(disk, root, a) && ChainOk(disk, root, b)
    ensures a == b
    decreases |a|
  {
    if a != [] {
      ChainUnique(disk, SnapParent(disk[root]), a[1..], b[1..]);
      assert a == [a[0]] + a[1..] && b == [b[0]] + b[1..];
    }
  }

  lemma {:induction false} ChainSuffix(disk: Disk, root: nat, snaps: seq<nat>, i: nat)
    requires ChainOk(disk, root, snaps) && i < |snaps|
    ensures ChainOk(disk, snaps[i], snaps[i..])
    decreases i
  {
    if i == 0 {
      assert snaps[0..] == snaps;
    } else {
      ChainSuffix(disk, SnapParent(disk[root]), snaps[1..], i - 1);
      assert snaps[1..][i - 1..] == snaps[i..];
    }
  }

  /** Parent links never close a cycle: the snapshots of a chain are distinct. */
  lemma ChainAcyclic(disk: Disk, root: nat, snaps: seq<nat>, i: nat, j: nat)
    requires ChainOk(disk, root, snaps) && i < j < |snaps|
    ensures snaps[i] != snaps[j]
  {
    ChainSuffix(disk, root, snaps, i);
    ChainSuffix(disk, root, snaps, j);
    if snaps[i] == snaps[j] {
      ChainUnique(disk, snaps[i], snaps[i..], snaps[j..]);
    }
  }

  /** The newest snapshot of that name, or 0 exactly when none has it. */
  function SnapFind(disk: Disk, snaps: seq<nat>, name: CStr): (r: nat)
    requires forall i :: 0 <= i < |snaps| ==> 0 < snaps[i] < DISK_BLOCKS
    ensures name == [] ==> r == 0
    ensures name != [] ==> (r == 0 <==> forall i :: 0 <= i < |snaps| ==> SnapName(disk[snaps[i]]) != name)
    ensures r != 0 ==> exists i :: 0 <= i < |snaps| && r == snaps[i] && SnapName(disk[snaps[i]]) == name
                                   && forall j :: 0 <= j < i ==> SnapName(disk[snaps[j]]) != name
    decreases |snaps|
  {
    if name == [] || snaps == [] then 0
    else if SnapName(disk[snaps[0]]) == name then snaps[0]
    else
      var r := SnapFind(disk, snaps[1..], name);
      assert forall i :: 0 <= i < |snaps[1..]| ==> snaps[1..][i] == snaps[i + 1];
      r
  }

  // ---- save, then load ----------------------------------------------------

  /** The forms a load finds after a save that had this many free blocks. */
  function Loaded(free: nat, fms: seq<Form>): seq<Form>
    requires free > 0
  {
    StoredAll(fms[..AtMost(Fitted(free - 1, fms), MAX_ENTRIES)])
  }

  /** Every table and any free space: if a block is left for the snapshot, a load
      after the save gives the first eleven of the forms that fit, in order, each
      as it is stored; otherwise it gives what it gave before. */
  lemma SaveLoad(fs: Fs, snaps: seq<nat>, fms: seq<Form>)
    requires StoreOk(fs, snaps)
    ensures var fs' := SaveAll(fs, fms);
            var root, free := SuperRoot(fs'.sb), |Free(fs.bitmap)|;
            && LoadReady(fs.disk, SuperRoot(fs.sb)) && LoadReady(fs'.disk, root)
            && Load(fs'.disk, root) ==
               (if LeavesSnapshot(free, fms) then Some(Loaded(free, fms)) else Load(fs.disk, SuperRoot(fs.sb)))
            && (LeavesSnapshot(free, fms) ==> 0 < root < DISK_BLOCKS)
  {
    hide Free, Lists, Prepared, ChainOk, SnapSafe, Commit, DiskBitmap, SuperOk, SuperRoot, Prepare, Load, LoadReady,
      SameSnap, UsesUp, Loaded;
    SoundIsIdle(fs, snaps);
    PrepareSpec(fs, fms);
    NoneFree(fs.bitmap);
    SaveAddsSnapshotIff(fs, snaps, fms);
    SaveAllKeepsStore(fs, snaps, fms);
    if LeavesSnapshot(|Free(fs.bitmap)|, fms) {
      PrepareExactly(fs, fms);
      var (mid, d) := Prepare(fs, fms);
      PreparedIsDirty(fs, mid, d, LIVE);
      CommitIs(mid);
      CommitDisk(fs, mid);
      RecoversSelf(fs, snaps);
      LoadsListed(fs, mid, d, fms[..Fitted(|Free(fs.bitmap)| - 1, fms)], mid, Commit(mid));
      FirstOfFitted(|Free(fs.bitmap)|, fms);
    } else {
      SameRootAfter(fs, snaps, fms);
      RecoversSame(fs, SaveAll(fs, fms), snaps);
    }
  }

  lemma FirstOfFitted(free: nat, fms: seq<Form>)
    requires free > 0
    ensures var t := fms[..Fitted(free - 1, fms)];
            StoredAll(t[..AtMost(|t|, MAX_ENTRIES)]) == Loaded(free, fms)
  {
    hide Fitted;
    var p := Fitted(free - 1, fms);
    assert fms[..p][..AtMost(p, MAX_ENTRIES)] == fms[..AtMost(p, MAX_ENTRIES)];
  }

  lemma SameRootAfter(fs: Fs, snaps: seq<nat>, fms: seq<Form>)
    requires StoreOk(fs, snaps) && !LeavesSnapshot(|Free(fs.bitmap)|, fms)
    ensures SuperRoot(SaveAll(fs, fms).sb) == SuperRoot(fs.sb)
  {
    hide Free, Lists, Prepared, ChainOk, SnapSafe, Commit, DiskBitmap, SuperOk, SuperRoot, Prepare, UsesUp;
    PrepareSpec(fs, fms);
    NoneFree(fs.bitmap);
    var (mid, d) := Prepare(fs, fms);
    if d != 0 {
      PrepareExactly(fs, fms);
      PreparedIsDirty(fs, mid, d, LIVE);
      PreparedRoot(fs, mid, d, LIVE);
      CommitIs(mid);
      CommitDisk(fs, mid);
    }
  }

  /** With room for the directory, all the forms, the link and the snapshot all forms fit. */
  lemma RoomForAll(free: nat, fms: seq<Form>)
    requires Spent(fms) + 2 <= free
    ensures LeavesSnapshot(free, fms) && Fitted(free - 1, fms) == |fms|
  {
    hide TotalNeed, UsesUp;
    NotUsedUp(free - 1, fms);
    FittedIsLongest(free - 1, fms);
    assert fms[..|fms|] == fms;
  }

  lemma LoadsListed(fs: Fs, mid: Fs, d: nat, fms: seq<Form>, b: Fs, fs': Fs)
    requires Prepared(fs, mid, d, LIVE) && mid.tx.snap != 0 && Lists(b, d, fms)
    requires Listed(mid.disk, d) == Listed(b.disk, d) && mid.disk[d] == b.disk[d]
    requires SuperRoot(fs'.sb) == SuperRoot(mid.sb)
    requires forall x :: 0 <= x < DISK_BLOCKS && InStore(x) ==> fs'.disk[x] == mid.disk[x]
    ensures var root := SuperRoot(fs'.sb);
            && 0 < root < DISK_BLOCKS && LoadReady(fs'.disk, root)
            && Load(fs'.disk, root) == Some(StoredAll(fms[..AtMost(|fms|, MAX_ENTRIES)]))
  {
    hide Get32, Free, Grew, BuildSnap, SetRoot, SuperRoot, SuperTime, DirUses, Terminated, Stored, DirEntries,
      DirOk, LoadEntry;
    var s := mid.tx.snap;
    SetRootReads(fs.sb, s);
    FreeInStore(fs.bitmap, s);
    NewSnapSafe(fs, mid, d, LIVE, fs'.disk);
    GoodNotZero(b.disk, d);
    GoodLoads(fs'.disk, s);
    ListsSize(b, d, fms);
    var n := AtMost(|fms|, MAX_ENTRIES);
    assert StoredAll(fms[..AtMost(|fms|, 12)])[..n] == StoredAll(fms[..n]);
  }

  predicate Fits11(fms: seq<Form>) {
    && |fms| <= 11
    && forall i :: 0 <= i < |fms| ==> |fms[i].name| <= 31 && |fms[i].content| <= 2038 && 0 <= fms[i].owner < 12
  }

  /** A table within the limits of the format comes back exactly. */
  lemma SaveLoadExact(fs: Fs, snaps: seq<nat>, fms: seq<Form>)
    requires StoreOk(fs, snaps) && Fits11(fms)
    requires TotalNeed(fms) + 2 <= |Free(fs.bitmap)|
    ensures var fs' := SaveAll(fs, fms);
            var root := SuperRoot(fs'.sb);
            && 0 < root < DISK_BLOCKS && LoadReady(fs'.disk, root)
            && Load(fs'.disk, root) == Some(fms)
  {
    hide SaveAll, StoreOk, Free, SuperRoot, LoadReady, Load, LeavesSnapshot, Fitted;
    SaveLoad(fs, snaps, fms);
    RoomForAll(|Free(fs.bitmap)|, fms);
    assert fms[..AtMost(|fms|, MAX_ENTRIES)] == fms;
    assert StoredAll(fms) == fms;
  }
}

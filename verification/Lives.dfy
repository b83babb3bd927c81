/** The life of a volume: form tables and user tables saved, boots, and crashes
    in all of them. */
module Lives {
  import opened Bytes
  import opened BlockCache
  import opened Store
  import opened Directory
  import opened Objects
  import opened Forms
  import opened Snapshots
  import opened History
  import opened Users
  import opened Separation
  import opened Lifetime
  import opened UserWrites

  /** What may happen to the form table and at a boot, or a save of the user table
      that is completed or cut off after `writes` sectors and followed by a mount. */
  datatype Act = Forms(event: Event) | UserTable(data: seq<byte>) | UserCrash(data: seq<byte>, writes: nat)

  ghost predicate Acts(fs: Fs, a: Act, fs': Fs) {
    match a
    case Forms(e) => Step(fs, e, fs')
    case UserTable(data) => CanSave(fs, data) && fs' == UsersSave(fs, data).0
    case UserCrash(data, k) => CanSave(fs, data) && CutOff(fs, UsersSave(fs, data).0, k, fs')
  }

  predicate CanSave(fs: Fs, data: seq<byte>) {
    |data| <= MAX_DATA && SuperRoot(fs.sb) < DISK_BLOCKS && (HasLiveDir(fs) ==> DirKept(fs, LiveDir(fs)))
  }

  /** A save of the user table that leaves a sound store: there is no live
      directory, or the blocks it needs are free, or nothing can become exposed. */
  predicate HarmlessSave(fs: Fs, data: seq<byte>)
    requires CanSave(fs, data)
  {
    || !HasLiveDir(fs)
    || UsersFit(fs, LiveDir(fs), |data|)
    || (&& fs.bitmap == DiskBitmap(fs.disk)
        && var d := LiveDir(fs);
        (|| FindEntry(fs.disk, d, USERS).Some?
         || DirNext(fs.disk[d]) != 0
         || |Free(fs.bitmap)| <= LinkCost(fs.disk[d])))
  }

  /** A crash outside the window in which a block is exposed. */
  predicate HarmlessCrash(fs: Fs, data: seq<byte>, k: nat)
    requires CanSave(fs, data)
  {
    HasLiveDir(fs) ==>
      var c := UsersSave(fs, data).0;
      && fs.bitmap == DiskBitmap(fs.disk)
      && |fs.log| <= |c.log| && k <= |Written(fs, c)|
      && !InWindow(Written(fs, c)[..k], Exposing(fs, LiveDir(fs), |data|))
  }

  predicate Harmless(fs: Fs, a: Act) {
    match a
    case Forms(_) => true
    case UserTable(data) => CanSave(fs, data) && HarmlessSave(fs, data)
    case UserCrash(data, k) => CanSave(fs, data) && HarmlessCrash(fs, data, k)
  }

  /** From a sound state with its bitmap on disk a save of the user table, or a
      crash in one, leaves a sound store exactly when it is harmless. */
  lemma HarmlessIff(fs: Fs, snaps: seq<nat>, a: Act, fs': Fs)
    requires StoreOk(fs, snaps) && Separate(fs.disk, snaps) && Acts(fs, a, fs')
    requires fs.bitmap == DiskBitmap(fs.disk)
    ensures (exists s :: StoreOk(fs', s)) <==> Harmless(fs, a)
  {
    hide Separate, StoreOk, Step, UsersSave, SuperRoot, DirKept, DiskBitmap, Mount, Free, DirNext, FindEntry,
      LinkCost, UsersFit, SnapsStep, Exposing, InWindow, Replay, HasLiveDir;
    match a
    case Forms(e) =>
      StepKeeps(fs, e, fs', snaps);
    case UserTable(data) =>
      if HasLive(fs) {
        UsersSoundIff(fs, snaps, data);
      } else {
        NoLiveKeeps(fs, snaps, data);
      }
    case UserCrash(data, k) =>
      if HasLive(fs) {
        UsersCrashIff(fs, snaps, data, k);
      } else {
        NoLiveKeeps(fs, snaps, data);
        NothingCut(fs, UsersSave(fs, data).0, k);
        Remounts(fs, snaps);
      }
  }

  lemma NothingCut(fs: Fs, c: Fs, k: nat)
    requires c.log == fs.log && c.disk == fs.disk && k <= |Written(fs, c)|
    ensures WritesFit(Written(fs, c)) && CrashDisk(fs, c, k) == fs.disk
  {
    assert Written(fs, c)[..k] == [];
    ReplayNothing(fs.disk);
  }

  ghost function SnapsAct(fs: Fs, snaps: seq<nat>, a: Act, fs': Fs): seq<nat>
    requires a.Forms? || CanSave(fs, a.data)
  {
    match a
    case Forms(e) => SnapsStep(fs, snaps, e)
    case UserTable(data) => if UsersSave(fs, data).1 then Joined(fs, fs', snaps) else snaps
    case UserCrash(data, k) =>
      var (c, ok) := UsersSave(fs, data);
      if ok then SnapsCut(fs, c, snaps, k) else snaps
  }

  ghost predicate IsLife(states: seq<Fs>, acts: seq<Act>) {
    && |states| == |acts| + 1
    && forall k :: 0 <= k < |acts| ==> Acts(states[k], acts[k], states[k + 1]) && Harmless(states[k], acts[k])
  }

  ghost function SnapsLife(states: seq<Fs>, acts: seq<Act>, snaps: seq<nat>): seq<nat>
    requires IsLife(states, acts)
  {
    if acts == [] then snaps
    else
      var n := |acts| - 1;
      assert forall k :: 0 <= k <= n ==> states[..n + 1][k] == states[k];
      assert Acts(states[n], acts[n], states[n + 1]);
      SnapsAct(states[n], SnapsLife(states[..n + 1], acts[..n], snaps), acts[n], states[n + 1])
  }

  /** A disk on which only free blocks and the bitmap changed. */
  lemma QuietSeparate(fs: Fs, snaps: seq<nat>, disk: Disk)
    requires StoreOk(fs, snaps) && Separate(fs.disk, snaps) && Quiet(fs, disk)
    ensures Separate(disk, snaps)
  {
    hide Separate, StoreOk, Free, DiskBitmap;
    SeparateOn(fs, snaps, disk);
  }

  lemma StepSeparate(fs: Fs, snaps: seq<nat>, e: Event, fs': Fs)
    requires StoreOk(fs, snaps) && Separate(fs.disk, snaps) && Step(fs, e, fs')
    ensures Separate(fs'.disk, SnapsStep(fs, snaps, e))
  {
    hide Separate, StoreOk, SaveAll, SnapsAfter, BootCommit, SnapsBooted, Quiet, Replay, CrashDisk, Mount,
      LoadsSame, SuperRoot;
    SoundIsIdle(fs, snaps);
    match e
    case Save(fms) =>
      SaveAllSeparate(fs, snaps, fms);
    case Crash(fms, k) =>
      CrashAtomicity(fs, snaps, fms, k);
      SaveAllWrites(fs, fms);
      SaveAllSeparate(fs, snaps, fms);
      CutSeparate(fs, snaps, SaveAll(fs, fms), SnapsAfter(fs, snaps, fms), k);
    case BootPolicy =>
      BootSeparate(fs, snaps);
    case BootCrash(k) =>
      BootAtomicity(fs, snaps, k);
      BootWrites(fs);
      BootSeparate(fs, snaps);
      CutSeparate(fs, snaps, BootCommit(fs), SnapsBooted(fs, snaps), k);
    case Reboot =>
      Remounts(fs, snaps);
  }

  lemma CutSeparate(fs: Fs, snaps: seq<nat>, done: Fs, after: seq<nat>, k: nat)
    requires StoreOk(fs, snaps) && Separate(fs.disk, snaps) && Separate(done.disk, after)
    requires |fs.log| <= |done.log| && WritesFit(Written(fs, done)) && done.disk == Replay(fs.disk, Written(fs, done))
    requires forall i :: 0 <= i < |Written(fs, done)| ==> Quiet(fs, Replay(fs.disk, Written(fs, done)[..i]))
    requires k <= |Written(fs, done)|
    ensures Separate(CrashDisk(fs, done, k), if Whole(fs, done, k) then after else snaps)
  {
    hide Separate, StoreOk, Quiet, Replay;
    var ws := Written(fs, done);
    if k < |ws| {
      QuietSeparate(fs, snaps, Replay(fs.disk, ws[..k]));
    } else {
      assert ws[..k] == ws;
    }
  }

  /** Directory d was not the live one when a user table was saved. */
  ghost predicate NeverLive(states: seq<Fs>, acts: seq<Act>, d: nat)
    requires |states| == |acts| + 1
  {
    forall k :: 0 <= k < |acts| && !acts[k].Forms? ==>
      SuperRoot(states[k].sb) < DISK_BLOCKS && LiveDir(states[k]) != d
  }

  ghost predicate SnapSpared(states: seq<Fs>, acts: seq<Act>, s: nat)
    requires |states| == |acts| + 1
  {
    s < DISK_BLOCKS && NeverLive(states, acts, SnapRoot(states[0].disk[s]))
  }

  /** The act does not write into the directory of snapshot s. */
  ghost predicate Spares(fs: Fs, a: Act, s: nat) {
    a.Forms? || (s < DISK_BLOCKS && SuperRoot(fs.sb) < DISK_BLOCKS && SnapRoot(fs.disk[s]) != LiveDir(fs))
  }

  lemma ActKeeps(fs: Fs, snaps: seq<nat>, a: Act, fs': Fs)
    requires StoreOk(fs, snaps) && Separate(fs.disk, snaps) && Acts(fs, a, fs') && Harmless(fs, a)
    ensures StoreOk(fs', SnapsAct(fs, snaps, a, fs')) && Separate(fs'.disk, SnapsAct(fs, snaps, a, fs'))
    ensures EndsWith(SnapsAct(fs, snaps, a, fs'), snaps)
    ensures forall i :: 0 <= i < |snaps| && Spares(fs, a, snaps[i]) ==> SameSnap(fs.disk, fs'.disk, snaps[i])
  {
    hide Separate, StoreOk, Step, UsersSave, SameSnap, EndsWith, SnapsStep, SnapRoot, SuperRoot, DirKept,
      DiskBitmap, Mount, Replay, Exposing, InWindow, Joined, Free, DirNext, FindEntry, LinkCost, UsersFit,
      HasLiveDir;
    EndsWithSelf(snaps);
    SafeSelf(fs, snaps);
    match a
    case Forms(e) =>
      StepKeeps(fs, e, fs', snaps);
      StepSeparate(fs, snaps, e, fs');
    case UserTable(data) =>
      JoinedEnds(fs, fs', snaps);
      if !HasLive(fs) {
        NoLiveKeeps(fs, snaps, data);
      } else if UsersSave(fs, data).1 {
        UsersKeepStore(fs, snaps, data);
      } else {
        UsersSaveSucceeds(fs, snaps, data);
        UsersSoundIff(fs, snaps, data);
      }
    case UserCrash(data, k) =>
      var c := UsersSave(fs, data).0;
      JoinedEnds(fs, c, snaps);
      if HasLive(fs) {
        UsersCrashIff(fs, snaps, data, k);
        SoundKeepsDisk(CrashDisk(fs, c, k));
      } else {
        NoLiveKeeps(fs, snaps, data);
        NothingCut(fs, c, k);
        Remounts(fs, snaps);
      }
  }

  lemma SoundKeepsDisk(disk: Disk)
    ensures SuperOk(disk[SUPER_LBA]) ==> Mount(disk).disk == disk
  {
    hide SuperOk, Mount;
    MountIsBoot(disk);
  }

  lemma JoinedEnds(fs: Fs, c: Fs, snaps: seq<nat>)
    ensures EndsWith(Joined(fs, c, snaps), snaps)
  {
    hide SuperRoot;
    assert ([SuperRoot(c.sb)] + snaps)[1..] == snaps;
  }

  /** Over every life whose saves of the user table, and crashes in them, are
      harmless the store stays sound and separate, so that each next save of the
      forms is crash-atomic; the chain only grows at its front; and a snapshot
      whose directory was never live during a save of the user table keeps its
      blocks and forms. */
  lemma {:induction false} LifeKeepsStore(states: seq<Fs>, acts: seq<Act>, snaps: seq<nat>)
    requires IsLife(states, acts) && StoreOk(states[0], snaps) && Separate(states[0].disk, snaps)
    ensures StoreOk(states[|acts|], SnapsLife(states, acts, snaps))
    ensures Separate(states[|acts|].disk, SnapsLife(states, acts, snaps))
    ensures EndsWith(SnapsLife(states, acts, snaps), snaps)
    ensures forall i :: 0 <= i < |snaps| && SnapSpared(states, acts, snaps[i]) ==>
              SameSnap(states[0].disk, states[|acts|].disk, snaps[i])
  {
    hide StoreOk, Separate, Acts, Harmless, SnapsAct, SameSnap, EndsWith, SnapRoot, LiveDir, SuperRoot;
    if acts == [] {
      EndsWithSelf(snaps);
      SafeSelf(states[0], snaps);
    } else {
      var n := |acts| - 1;
      var s0, s1 := states[..n + 1], acts[..n];
      LifeKeepsStore(s0, s1, snaps);
      var mid := SnapsLife(s0, s1, snaps);
      assert s0[n] == states[n];
      assert Acts(states[n], acts[n], states[n + 1]) && Harmless(states[n], acts[n]);
      ActKeeps(states[n], mid, acts[n], states[n + 1]);
      EndsWithTrans(SnapsLife(states, acts, snaps), mid, snaps);
      forall i | 0 <= i < |snaps| && SnapSpared(states, acts, snaps[i])
        ensures SameSnap(states[0].disk, states[n + 1].disk, snaps[i])
      {
        NeverLiveBefore(states, acts, SnapRoot(states[0].disk[snaps[i]]));
        var j := EndsWithIndex(mid, snaps, i);
        SameRoot(states[0].disk, states[n].disk, snaps[i]);
        SameSnapTrans(states[0].disk, states[n].disk, states[n + 1].disk, snaps[i]);
      }
    }
  }

  lemma NeverLiveBefore(states: seq<Fs>, acts: seq<Act>, d: nat)
    requires |states| == |acts| + 1 && acts != [] && NeverLive(states, acts, d)
    ensures NeverLive(states[..|acts|], acts[..|acts| - 1], d)
    ensures !acts[|acts| - 1].Forms? ==>
              SuperRoot(states[|acts| - 1].sb) < DISK_BLOCKS && LiveDir(states[|acts| - 1]) != d
  {
    hide SuperRoot, LiveDir;
  }

  lemma SameRoot(disk: Disk, disk': Disk, s: nat)
    requires SameSnap(disk, disk', s)
    ensures SnapRoot(disk'[s]) == SnapRoot(disk[s])
  {
    hide Get32, DirGood, LoadDir, SnapForms, SnapRoot, DirUses;
    UsesItself(disk, s);
  }

  /** A volume that was just made is separate too: every life can start there. */
  lemma FreshIsSeparate(fs: Fs)
    requires FreshStore(fs)
    ensures Separate(fs.disk, [SuperRoot(fs.sb)])
  {
    hide Get32, DirUses, DirEntries, SuperOk, DiskBitmap, ChainOk, Free, Terminated, SnapName, SuperRoot, DirOk;
    var s := SuperRoot(fs.sb);
    var one := [s];
    assert SnapSafe(fs.disk, fs.bitmap, one[0]);
    assert Tidy(fs.disk, s);
    SelfStranger(fs.disk, s);
  }
}

/** The life of a volume as the kernel uses it: form tables saved, user tables
    saved into the live directory, crashes, reboots and loads. */
module Lifetime {
  import opened Bytes
  import opened BlockCache
  import opened Store
  import opened Directory
  import opened Objects
  import opened Forms
  import opened Snapshots
  import opened History
  import opened Users
  import opened Separation

  // ---- rewriting one object of a directory --------------------------------

  /** Every entry names o itself or an object that shares no block with it. */
  ghost predicate OthersApart(disk: Disk, d: nat, o: nat)
    requires DirGood(disk, d) && o < DISK_BLOCKS
  {
    forall i :: 0 <= i < |DirEntries(disk, d)| ==>
      DirEntries(disk, d)[i].obj == o || Apart(disk, DirEntries(disk, d)[i].obj, o)
  }

  /** The state before and after a successful write to object o. */
  ghost predicate Rewrites(a: Fs, d: nat, o: nat, data: seq<byte>, b: Fs) {
    && DirKept(a, d) && HasUsers(a, d, o) && |data| <= MAX_DATA
    && WriteObject(a, o, data) == (b, true)
  }

  /** An entry that names another object is not touched. */
  lemma OtherEntry(a: Fs, d: nat, o: nat, data: seq<byte>, b: Fs, i: nat)
    requires Rewrites(a, d, o, data, b) && OthersApart(a.disk, d, o)
    requires i < |DirEntries(a.disk, d)| && DirEntries(a.disk, d)[i].obj != o
    ensures var e := DirEntries(a.disk, d)[i];
            && ObjOk(b.disk, e.obj) && LoadEntry(b.disk, e) == LoadEntry(a.disk, e)
            && Apart(b.disk, e.obj, o) && Apart(b.disk, o, e.obj)
            && forall x :: 0 <= x ==> (ObjBlock(b.disk, e.obj, x) <==> ObjBlock(a.disk, e.obj, x))
  {
    hide Get32, DirEntries, ObjBlock, ObjBlocks, WriteObject, ReadObject, Free, DirOk, Parse, Hash;
    WriteObjectSpec(a, o, data);
    var e := DirEntries(a.disk, d)[i];
    assert Apart(a.disk, e.obj, o);
    forall x | 0 <= x < DISK_BLOCKS && ObjBlock(a.disk, e.obj, x)
      ensures b.disk[x] == a.disk[x] && x !in Free(a.bitmap) && !ObjBlock(a.disk, o, x)
    {
      assert DirUses(a.disk, d, x);
      OwnList(a.disk, o, x);
    }
    ObjectFrame(a.disk, b.disk, e.obj);
  }

  lemma OwnList(disk: Disk, o: nat, x: nat)
    requires o < DISK_BLOCKS && !ObjBlock(disk, o, x)
    ensures !(x != 0 && x in ObjBlocks(disk[o]) + [o])
  {
    hide ObjBlocks;
  }

  /** Writing one object of a kept directory keeps the directory and its other
      forms; it grows into free blocks only. */
  lemma RewriteKeepsDir(a: Fs, d: nat, o: nat, data: seq<byte>, b: Fs)
    requires Rewrites(a, d, o, data, b) && ObjsApart(a.disk, d) && OthersApart(a.disk, d, o)
    ensures DirKept(b, d) && ObjsApart(b.disk, d) && DirEntries(b.disk, d) == DirEntries(a.disk, d)
    ensures forall x :: 0 <= x < DISK_BLOCKS && DirUses(b.disk, d, x) ==> DirUses(a.disk, d, x) || x in Free(a.bitmap)
    ensures forall i :: 0 <= i < |Listed(a.disk, d)| && DirEntries(a.disk, d)[i].obj != o ==>
              Listed(b.disk, d)[i] == Listed(a.disk, d)[i]
  {
    hide Get32, DirEntries, ObjBlock, WriteObject, ReadObject, Free, DirOk, LoadEntry, Clear, BlocksFor, ObjBlocks,
      IsObj, DirNext;
    UsersWritten(a, d, o, data);
    WriteObjectSpec(a, o, data);
    GoodUsesItself(a.disk, d);
    KeptIsHeld(a, d);
    SameDirBlocks(a, b, d, o);
    var es := DirEntries(a.disk, d);
    forall i | 0 <= i < |es|
      ensures ObjOk(b.disk, es[i].obj) && Clear(b.disk, d, es[i].obj)
      ensures es[i].obj != o ==> LoadEntry(b.disk, es[i]) == LoadEntry(a.disk, es[i])
      ensures forall x :: 0 <= x < DISK_BLOCKS && ObjBlock(b.disk, es[i].obj, x) ==>
                x !in Free(b.bitmap) && (ObjBlock(a.disk, es[i].obj, x) || x in Free(a.bitmap))
      ensures es[i].obj != o ==> Apart(b.disk, es[i].obj, o) && Apart(b.disk, o, es[i].obj)
      ensures es[i].obj != o ==> forall x :: 0 <= x ==>
                (ObjBlock(b.disk, es[i].obj, x) <==> ObjBlock(a.disk, es[i].obj, x))
    {
      if es[i].obj != o {
        OtherEntry(a, d, o, data, b, i);
        ClearStays(a.disk, b.disk, d, es[i].obj);
      }
    }
    forall i, j | 0 <= i < j < |es| ensures Apart(b.disk, es[i].obj, es[j].obj) {
      assert Apart(a.disk, es[i].obj, es[j].obj);
      NotSelfApart(a.disk, es[i].obj, es[j].obj);
    }
    DirUsesAllocated(b, d);
  }

  lemma SameDirBlocks(a: Fs, b: Fs, d: nat, o: nat)
    requires HasUsers(a, d, o)
    requires forall x :: 0 <= x < DISK_BLOCKS && x !in Free(a.bitmap) && !ObjBlock(a.disk, o, x) ==>
              b.disk[x] == a.disk[x]
    ensures d < DISK_BLOCKS && b.disk[d] == a.disk[d]
    ensures forall x :: DirBlock(b.disk, d, x) <==> DirBlock(a.disk, d, x)
  {
    hide Get32, ObjBlock, Free;
  }

  lemma ClearStays(disk: Disk, disk': Disk, d: nat, o: nat)
    requires d < DISK_BLOCKS && o < DISK_BLOCKS && disk'[d] == disk[d] && Clear(disk, d, o)
    requires forall x :: 0 <= x ==> (ObjBlock(disk', o, x) <==> ObjBlock(disk, o, x))
    ensures Clear(disk', d, o)
  {
    hide ObjBlock, Get32;
  }

  lemma NotSelfApart(disk: Disk, o: nat, p: nat)
    requires o < DISK_BLOCKS && p < DISK_BLOCKS && Apart(disk, o, p)
    ensures o != p
  {
    assert ObjBlock(disk, o, o);
  }

  // ---- the ".users" object ------------------------------------------------

  const EMPTY_USERS := Form(USERS, [], 0, DEFAULT_MODE)

  lemma NamedIsApart(disk: Disk, d: nat, k: nat)
    requires DirGood(disk, d) && ObjsApart(disk, d) && k < |DirEntries(disk, d)|
    ensures OthersApart(disk, d, DirEntries(disk, d)[k].obj)
  {
    hide Get32, DirEntries, ObjBlock, DirOk;
    var es := DirEntries(disk, d);
    forall i | 0 <= i < |es| ensures es[i].obj == es[k].obj || Apart(disk, es[i].obj, es[k].obj) {
      if i > k {
        assert Apart(disk, es[k].obj, es[i].obj);
      }
    }
  }

  /** The directory before and after ".users" was found or made in it. */
  ghost predicate Targets(fs: Fs, d: nat, a: Fs, o: nat)
    requires DirKept(fs, d)
  {
    && DirKept(a, d) && ObjsApart(a.disk, d) && HasUsers(a, d, o) && OthersApart(a.disk, d, o)
    && (forall x :: 0 <= x < DISK_BLOCKS && DirUses(a.disk, d, x) ==> DirUses(fs.disk, d, x) || x in Free(fs.bitmap))
  }

  lemma TargetKeepsDir(fs: Fs, d: nat)
    requires DirKept(fs, d) && ObjsApart(fs.disk, d)
    ensures var (a, o) := UsersObject(fs, d);
            o != 0 ==> Targets(fs, d, a, o)
  {
    hide Get32, DirEntries, ObjBlock, DirOk, Free, UsersObject, DirUses, HasUsers, ObjsApart, OthersApart, DirNext,
      FirstMatch;
    UsersObjectSpec(fs, d);
    var (a, o) := UsersObject(fs, d);
    if o != 0 {
      if FindEntry(fs.disk, d, USERS).Some? {
        var i :| 0 <= i < |DirEntries(fs.disk, d)| && DirEntries(fs.disk, d)[i] == FindEntry(fs.disk, d, USERS).value;
        NamedIsApart(fs.disk, d, i);
        FoundTarget(fs, d);
      } else {
        MadeTarget(fs, d);
      }
    }
  }

  lemma FoundTarget(fs: Fs, d: nat)
    requires DirKept(fs, d) && FindEntry(fs.disk, d, USERS).Some?
    ensures UsersObject(fs, d) == (fs, FindEntry(fs.disk, d, USERS).value.obj)
  {
  }

  lemma MadeTarget(fs: Fs, d: nat)
    requires DirKept(fs, d) && ObjsApart(fs.disk, d) && FindEntry(fs.disk, d, USERS).None?
    ensures var (a, o) := UsersObject(fs, d);
            o != 0 ==>
              && DirKept(a, d) && ObjsApart(a.disk, d) && o < DISK_BLOCKS && OthersApart(a.disk, d, o)
              && (forall x :: 0 <= x < DISK_BLOCKS && DirUses(a.disk, d, x) ==>
                  DirUses(fs.disk, d, x) || x in Free(fs.bitmap))
              && a.disk[o][4] == CONFIG && d < DISK_BLOCKS
              && (Listed(a.disk, d) == Listed(fs.disk, d)
                  || (&& Listed(a.disk, d) == Listed(fs.disk, d) + [EMPTY_USERS]
                      && (DirNext(a.disk[d]) == 0 <==> DirCount(fs.disk[d]) < MAX_ENTRIES)))
  {
    hide Get32, DirEntries, ObjBlock, DirOk, Free, DirUses, ObjsApart, OthersApart, DirNext, DirCount, FirstMatch,
      AllocObject, AddEntry, ApartFromAll, ObjOk, Clear, Allocated, Listed, LoadEntry, ObjBlocks, FindEntry;
    KeptIsHeld(fs, d);
    GoodUsesItself(fs.disk, d);
    SizeOfDir(fs.disk, d);
    AllocObjectSpec(fs, CONFIG);
    AllocKeepsDir(fs, d, CONFIG);
    var (a0, o) := AllocObject(fs, CONFIG);
    if o != 0 {
      AllocStaysApart(fs, d, a0, o);
      AddKeepsApart(a0, d, USERS, o, CONFIG);
      AddObjectLists(a0, d, USERS, o, CONFIG);
      AddEntryAppends(a0, d, USERS, o, CONFIG);
      AddEntryKeepsHeld(a0, d, USERS, o, CONFIG);
      ClearOfDir(a0.disk, d, o);
      var (a, ok) := AddEntry(a0, d, USERS, o, CONFIG);
      EmptyUsers(a0.disk, o);
      if ok {
        LastIsApart(a.disk, d, o);
      } else {
        AllApartIsOthers(a0.disk, d, o);
      }
    }
  }

  lemma ClearOfDir(disk: Disk, d: nat, o: nat)
    requires d < DISK_BLOCKS && o < DISK_BLOCKS && Clear(disk, d, o)
    ensures o != d
  {
    assert ObjBlock(disk, o, o);
  }

  lemma EmptyUsers(disk: Disk, o: u32)
    requires ObjOk(disk, o) && disk[o][4] == CONFIG
    ensures LoadEntry(disk, Entry(Cut(USERS), o, CONFIG)) == EMPTY_USERS
  {
    hide Get32, Gather, ObjBlocks;
    assert Cut(USERS) == USERS;
  }

  lemma AllocStaysApart(fs: Fs, d: nat, a: Fs, o: nat)
    requires DirKept(fs, d) && ObjsApart(fs.disk, d) && DirKept(a, d) && 0 < o < DISK_BLOCKS && o in Free(fs.bitmap)
    requires Touches(fs, a, []) && ObjBlocks(a.disk[o]) == [0, 0, 0, 0]
    ensures ObjsApart(a.disk, d) && ApartFromAll(a.disk, d, o) && Listed(a.disk, d) == Listed(fs.disk, d)
    ensures forall x :: 0 <= x < DISK_BLOCKS && DirUses(a.disk, d, x) ==> DirUses(fs.disk, d, x)
    ensures forall x :: 0 <= x && ObjBlock(a.disk, o, x) ==> x in Free(fs.bitmap)
  {
    hide Get32, DirEntries, DirOk, Free, DirUses, ObjsApart, ApartFromAll, Listed, ObjBlocks, LoadDir, DirGood;
    ObjsApartFrame(fs.disk, a.disk, d);
    DirectoryFrame(fs.disk, a.disk, d);
    FreshIsApart(fs, a, d, o);
  }

  lemma LastIsApart(disk: Disk, d: nat, o: nat)
    requires DirGood(disk, d) && ObjsApart(disk, d) && DirEntries(disk, d) != []
    requires DirEntries(disk, d)[|DirEntries(disk, d)| - 1].obj == o
    ensures o < DISK_BLOCKS && OthersApart(disk, d, o)
  {
    hide Get32, DirEntries, ObjBlock, DirOk;
    NamedIsApart(disk, d, |DirEntries(disk, d)| - 1);
  }

  lemma AllApartIsOthers(disk: Disk, d: nat, o: nat)
    requires DirGood(disk, d) && o < DISK_BLOCKS && ApartFromAll(disk, d, o)
    ensures OthersApart(disk, d, o)
  {
    hide Get32, DirEntries, Apart, DirOk;
  }

  // ---- a directory changed in place ---------------------------------------

  /** From fs to b directory d changed: it grew into free blocks only, and no
      block in use outside it was written. */
  ghost predicate DirMoved(fs: Fs, d: nat, b: Fs)
    requires DirGood(fs.disk, d)
  {
    && DirKept(b, d) && ObjsApart(b.disk, d) && Free(b.bitmap) <= Free(fs.bitmap)
    && (forall x :: 0 <= x < DISK_BLOCKS && DirUses(b.disk, d, x) ==> DirUses(fs.disk, d, x) || x in Free(fs.bitmap))
    && (forall x :: 0 <= x < DISK_BLOCKS && InStore(x) && x !in Free(fs.bitmap) && !DirUses(fs.disk, d, x) ==>
        b.disk[x] == fs.disk[x])
  }

  lemma UsersMoveDir(fs: Fs, d: nat, data: seq<byte>)
    requires DirKept(fs, d) && ObjsApart(fs.disk, d) && |data| <= MAX_DATA
    requires UsersObject(fs, d).1 != 0
    ensures var (a, o) := UsersObject(fs, d);
            && 0 < o < DISK_BLOCKS && Pointers(ObjBlocks(a.disk[o]))
            && (WriteObject(a, o, data).1 ==> DirMoved(fs, d, WriteObject(a, o, data).0))
  {
    hide Get32, DirEntries, ObjBlock, DirOk, Free, UsersObject, DirUses, ObjsApart, OthersApart, DirNext,
      FirstMatch, WriteObject, FindEntry, ObjBlocks, Listed, DirGood;
    UsersTarget(fs, d);
    UsersObjectSpec(fs, d);
    TargetKeepsDir(fs, d);
    GoodUsesItself(fs.disk, d);
    var (a, o) := UsersObject(fs, d);
    if WriteObject(a, o, data).1 {
      var b := WriteObject(a, o, data).0;
      RewriteKeepsDir(a, d, o, data, b);
      UsersWritten(a, d, o, data);
    }
  }

  /** The bitmap in memory is the one on disk unless it is marked dirty. */
  predicate Synced(fs: Fs) { !fs.dirty ==> fs.bitmap == DiskBitmap(fs.disk) }

  lemma SyncedWrite(fs: Fs, b: nat, s: Sector)
    requires Synced(fs) && InStore(b)
    ensures Synced(WriteBlock(fs, b, s))
  {
  }

  lemma SyncedAdd(fs: Fs, d: nat, name: CStr, obj: u32, kind: byte)
    requires Synced(fs) && DirOk(fs.disk, d)
    ensures Synced(AddEntry(fs, d, name, obj, kind).0)
  {
    hide Get32, Put32, PutEntry, EmptyDir, Sealed, DirBlockOk, DiskBitmap, Free;
    if Sealed(fs.disk[d], 8) && DirCount(fs.disk[d]) < MAX_ENTRIES {
      SyncedWrite(fs, d, PutEntry(fs.disk[d], name, obj, kind));
    }
  }

  lemma {:induction false} SyncedChunks(fs: Fs, olds: seq<u32>, data: seq<byte>, n: nat)
    requires Synced(fs) && Pointers(olds) && n <= BlocksFor(|data|)
    requires forall i :: 0 <= i < 4 && olds[i] != 0 ==> InStore(olds[i])
    ensures Synced(WriteChunks(fs, olds, data, n).0)
  {
    if n > 0 {
      SyncedChunks(fs, olds, data, n - 1);
      hide Synced, Chunk, AllocBlock;
      var (a, got, ok) := WriteChunks(fs, olds, data, n - 1);
      if ok {
        if olds[n - 1] != 0 {
          SyncedWrite(a, olds[n - 1], Chunk(data, n - 1));
        } else {
          SyncedAlloc(a);
          var (b, x) := AllocBlock(a);
          if x != 0 {
            FreeInStore(a.bitmap, x);
            SyncedWrite(b, x, Chunk(data, n - 1));
          }
        }
      }
    }
  }

  lemma SyncedAlloc(fs: Fs)
    requires Synced(fs)
    ensures Synced(AllocBlock(fs).0)
  {
    hide DiskBitmap;
  }

  lemma SyncedObject(fs: Fs, o: nat, data: seq<byte>)
    requires Synced(fs) && ObjOk(fs.disk, o) && |data| <= MAX_DATA
    ensures Synced(WriteObject(fs, o, data).0)
  {
    hide Synced, Get32, ObjBlocks, WriteChunks, SetObj, Hash, BlocksFor;
    var olds := ObjBlocks(fs.disk[o]);
    SyncedChunks(fs, olds, data, BlocksFor(|data|));
    var (a, got, ok) := WriteChunks(fs, olds, data, BlocksFor(|data|));
    if IsObj(fs.disk[o]) && ok && |got| <= 4 {
      SyncedWrite(a, o, SetObj(fs.disk[o], Fill(got), |data|, Hash(data)));
    }
  }

  lemma SyncedTarget(fs: Fs, d: nat)
    requires Synced(fs) && DirKept(fs, d)
    ensures Synced(UsersObject(fs, d).0)
  {
    hide Synced, Get32, DirOk, AddEntry, FindEntry, NewObj, AllocBlock, Free, DirUses, ObjBlock;
    AllocKeepsDir(fs, d, CONFIG);
    KeptIsHeld(fs, d);
    SyncedAlloc(fs);
    var (b, x) := AllocBlock(fs);
    if x != 0 {
      FreeInStore(fs.bitmap, x);
      SyncedWrite(b, x, NewObj(CONFIG, SuperTime(fs.sb)));
    }
    var (a, o) := AllocObject(fs, CONFIG);
    if o != 0 {
      SyncedAdd(a, d, USERS, o, CONFIG);
    }
  }

  // ---- the store after a directory changed --------------------------------

  /** disk agrees with b on every block of the store that b has in use. */
  ghost predicate Follows(b: Fs, disk: Disk) {
    forall x :: 0 <= x < DISK_BLOCKS && InStore(x) && x !in Free(b.bitmap) ==> disk[x] == b.disk[x]
  }

  lemma MovedDirOn(fs: Fs, d: nat, b: Fs, disk: Disk)
    requires DirGood(fs.disk, d) && DirMoved(fs, d, b) && Follows(b, disk)
    ensures DirGood(disk, d) && ObjsApart(disk, d) && Listed(disk, d) == Listed(b.disk, d)
    ensures LoadDir(disk, d) == LoadDir(b.disk, d)
    ensures forall x :: 0 <= x < DISK_BLOCKS && DirUses(disk, d, x) ==>
              InStore(x) && x !in Free(b.bitmap) && (DirUses(fs.disk, d, x) || x in Free(fs.bitmap))
  {
    hide Get32, DirGood, DirUses, ObjsApart, Free, Listed, LoadDir;
    forall x | 0 <= x < DISK_BLOCKS && DirUses(b.disk, d, x) ensures disk[x] == b.disk[x] && InStore(x) {
      DirUsesInStore(b.disk, d, x);
    }
    ObjsApartFrame(b.disk, disk, d);
    DirectoryFrame(b.disk, disk, d);
  }

  /** A snapshot block, or a block of another directory, is as it was. */
  lemma OldBlock(fs: Fs, snaps: seq<nat>, d: nat, b: Fs, disk: Disk, x: nat)
    requires DirGood(fs.disk, d) && DirMoved(fs, d, b) && Follows(b, disk)
    requires x < DISK_BLOCKS && InStore(x) && x !in Free(fs.bitmap) && !DirUses(fs.disk, d, x)
    ensures disk[x] == fs.disk[x]
  {
    hide Get32, DirGood, DirUses, ObjsApart, Free;
  }

  ghost predicate Live(fs: Fs, snaps: seq<nat>, d: nat, l: nat) {
    StoreOk(fs, snaps) && Separate(fs.disk, snaps) && l < |snaps| && SnapRoot(fs.disk[snaps[l]]) == d
  }

  lemma OldSnap(fs: Fs, snaps: seq<nat>, d: nat, l: nat, b: Fs, disk: Disk, i: nat)
    requires Live(fs, snaps, d, l) && i < |snaps| && DirGood(fs.disk, d) && DirMoved(fs, d, b) && Follows(b, disk)
    ensures snaps[i] < DISK_BLOCKS && disk[snaps[i]] == fs.disk[snaps[i]] && snaps[i] !in Free(fs.bitmap)
    ensures !DirUses(fs.disk, d, snaps[i])
  {
    hide Get32, DirGood, DirUses, ObjsApart, RootApart, Free, SnapRoot, DirMoved, Follows, ChainOk, SuperOk, DiskBitmap,
      Terminated, Tidy;
    GoodNotZero(fs.disk, d);
    assert SnapSafe(fs.disk, fs.bitmap, snaps[i]);
    assert Strangers(fs.disk, snaps[l], snaps[i]);
    UsesItself(fs.disk, snaps[i]);
    OldBlock(fs, snaps, d, b, disk, snaps[i]);
  }

  /** A snapshot of another directory stays as it was. */
  lemma OtherSnapKept(fs: Fs, snaps: seq<nat>, d: nat, l: nat, b: Fs, disk: Disk, i: nat)
    requires Live(fs, snaps, d, l) && i < |snaps| && DirGood(fs.disk, d) && DirMoved(fs, d, b) && Follows(b, disk)
    requires SnapRoot(fs.disk[snaps[i]]) != d
    ensures SnapSafe(disk, b.bitmap, snaps[i]) && SameSnap(fs.disk, disk, snaps[i]) && Tidy(disk, snaps[i])
    ensures disk[snaps[i]] == fs.disk[snaps[i]]
    ensures forall x :: 0 <= x < DISK_BLOCKS ==>
              (RootUses(disk, SnapRoot(fs.disk[snaps[i]]), x) <==> RootUses(fs.disk, SnapRoot(fs.disk[snaps[i]]), x))
    ensures forall x :: 0 <= x < DISK_BLOCKS && RootUses(disk, SnapRoot(fs.disk[snaps[i]]), x) ==>
              x !in Free(fs.bitmap) && !DirUses(fs.disk, d, x)
  {
    hide Get32, DirGood, DirUses, ObjsApart, RootApart, Free, SnapRoot, Follows, ChainOk, SuperOk, DiskBitmap,
      Terminated, SameSnap;
    GoodNotZero(fs.disk, d);
    var t := snaps[i];
    OldSnap(fs, snaps, d, l, b, disk, i);
    assert SnapSafe(fs.disk, fs.bitmap, t);
    assert Strangers(fs.disk, t, snaps[l]);
    assert Tidy(fs.disk, t);
    forall x | 0 <= x < DISK_BLOCKS && SnapUses(fs.disk, t, x)
      ensures disk[x] == fs.disk[x] && x !in Free(b.bitmap) && x !in Free(fs.bitmap) && !DirUses(fs.disk, d, x)
    {
      OldBlock(fs, snaps, d, b, disk, x);
    }
    SnapFrame(fs.disk, disk, fs.bitmap, b.bitmap, t);
    forall x | 0 <= x < DISK_BLOCKS && RootUses(fs.disk, SnapRoot(fs.disk[t]), x)
      ensures disk[x] == fs.disk[x] && x !in Free(fs.bitmap) && !DirUses(fs.disk, d, x)
    {
      assert SnapUses(fs.disk, t, x);
    }
    TidyFrame(fs.disk, disk, t);
  }

  /** A snapshot of the changed directory stays readable, with its new forms. */
  lemma LiveSnapKept(fs: Fs, snaps: seq<nat>, d: nat, l: nat, b: Fs, disk: Disk, i: nat)
    requires Live(fs, snaps, d, l) && i < |snaps| && DirGood(fs.disk, d) && DirMoved(fs, d, b) && Follows(b, disk)
    requires SnapRoot(fs.disk[snaps[i]]) == d
    ensures SnapSafe(disk, b.bitmap, snaps[i]) && Tidy(disk, snaps[i]) && disk[snaps[i]] == fs.disk[snaps[i]]
  {
    hide Get32, DirGood, DirUses, ObjsApart, Free, SnapRoot, Follows, ChainOk, SuperOk, DiskBitmap, Listed, LoadDir;
    GoodNotZero(fs.disk, d);
    OldSnap(fs, snaps, d, l, b, disk, i);
    MovedDirOn(fs, d, b, disk);
    assert SnapSafe(fs.disk, fs.bitmap, snaps[i]);
  }

  lemma MovedSeparate(fs: Fs, snaps: seq<nat>, d: nat, l: nat, b: Fs, disk: Disk)
    requires Live(fs, snaps, d, l) && DirGood(fs.disk, d) && DirMoved(fs, d, b) && Follows(b, disk)
    ensures Separate(disk, snaps)
  {
    hide Get32, DirGood, DirUses, ObjsApart, Free, SnapRoot, Follows, SnapSafe, StoreOk, SameSnap, DirMoved,
      Strangers;
    forall i | 0 <= i < |snaps| ensures Tidy(disk, snaps[i]) {
      assert Tidy(fs.disk, snaps[i]);
      if SnapRoot(fs.disk[snaps[i]]) == d {
        LiveSnapKept(fs, snaps, d, l, b, disk, i);
      } else {
        OtherSnapKept(fs, snaps, d, l, b, disk, i);
      }
    }
    forall i, j | 0 <= i < |snaps| && 0 <= j < |snaps| ensures Strangers(disk, snaps[i], snaps[j]) {
      MovedStrangers(fs, snaps, d, l, b, disk, i, j);
    }
  }

  lemma MovedStrangers(fs: Fs, snaps: seq<nat>, d: nat, l: nat, b: Fs, disk: Disk, i: nat, j: nat)
    requires Live(fs, snaps, d, l) && DirGood(fs.disk, d) && DirMoved(fs, d, b) && Follows(b, disk)
    requires i < |snaps| && j < |snaps| && Tidy(disk, snaps[i]) && Tidy(disk, snaps[j])
    ensures Strangers(disk, snaps[i], snaps[j])
  {
    hide Get32, DirGood, DirUses, ObjsApart, RootApart, Free, SnapRoot, Follows, SnapSafe, StoreOk, SameSnap, DirMoved,
      Listed, LoadDir;
    GoodNotZero(fs.disk, d);
    OldSnap(fs, snaps, d, l, b, disk, i);
    OldSnap(fs, snaps, d, l, b, disk, j);
    MovedDirOn(fs, d, b, disk);
    assert Strangers(fs.disk, snaps[i], snaps[j]);
    if SnapRoot(fs.disk[snaps[i]]) != d {
      OtherSnapKept(fs, snaps, d, l, b, disk, i);
    }
    if SnapRoot(fs.disk[snaps[j]]) != d {
      OtherSnapKept(fs, snaps, d, l, b, disk, j);
    }
  }

  /** One more snapshot of a directory that already has one. */
  lemma JoinSameDir(disk: Disk, snaps: seq<nat>, l: nat, s: nat)
    requires Separate(disk, snaps) && l < |snaps| && Tidy(disk, s) && SnapRoot(disk[s]) == SnapRoot(disk[snaps[l]])
    requires forall i :: 0 <= i < |snaps| ==> Tidy(disk, snaps[i]) && !RootUses(disk, SnapRoot(disk[snaps[i]]), s)
    ensures Separate(disk, [s] + snaps)
  {
    hide Get32, DirGood, DirUses, ObjsApart, SnapRoot;
    assert Tidy(disk, snaps[l]);
    var all := [s] + snaps;
    forall i | 0 <= i < |snaps| ensures Strangers(disk, s, snaps[i]) && Strangers(disk, snaps[i], s) {
      assert Strangers(disk, snaps[l], snaps[i]) && Strangers(disk, snaps[i], snaps[l]);
    }
    assert !RootUses(disk, SnapRoot(disk[snaps[l]]), s);
    SelfStranger(disk, s);
    forall i, j | 0 <= i < |all| && 0 <= j < |all| ensures Strangers(disk, all[i], all[j]) {
      if i > 0 && j > 0 {
        assert Strangers(disk, snaps[i - 1], snaps[j - 1]);
      }
    }
  }

  // ---- saving the user table ----------------------------------------------

  lemma GrewSnap(fs0: Fs, fs: Fs, name: CStr)
    requires Grew(fs0, fs)
    ensures Grew(fs0, SnapCreate(fs, name).0)
  {
    hide Get32, BuildSnap, Replay, Free, SetRoot, SuperRoot, SuperTime;
    var mid := SnapCreate(fs, name).0;
    var (a, b) := AllocBlock(fs);
    if fs.tx.active && fs.tx.dirty && b != 0 {
      GrewAlloc(fs0, fs);
      var s := BuildSnap(SuperRoot(fs.sb), fs.tx.newRoot, SuperTime(fs.sb), name);
      GrewWrite(fs0, a, b, s);
      assert Written(fs0, mid) == Written(fs0, WriteBlock(a, b, s));
    }
  }

  /** A snapshot of directory d on top of state b, committed. */
  function CommitSnap(b: Fs, d: u32, name: CStr): Fs {
    TxCommit(SnapCreate(SetNewRoot(b, d), name).0)
  }

  lemma CommitSnapDisk(b: Fs, d: u32, name: CStr)
    requires b.tx.active && Synced(b)
    ensures var c := CommitSnap(b, d, name);
            && SuperOk(c.disk[SUPER_LBA]) && c.sb == c.disk[SUPER_LBA] && c.mounted == b.mounted && !c.tx.active
            && c.bitmap == DiskBitmap(c.disk) && Free(c.bitmap) <= Free(b.bitmap) && Follows(b, c.disk)
  {
    hide Get32, SuperOk, DiskBitmap, Free, SnapCreate, TxCommit, Commit, SuperRoot;
    var a := SetNewRoot(b, d);
    GrewRefl2(b, a);
    GrewSnap(b, a, name);
    var mid := SnapCreate(a, name).0;
    SnapKeepsTx(a, name);
    CommitIs(mid);
    CommitDisk(b, mid);
    GrewShrinks(b, mid);
  }

  lemma GrewRefl2(fs: Fs, fs': Fs)
    requires fs' == fs.(tx := fs'.tx)
    ensures Grew(fs, fs')
  {
    GrewRefl(fs, fs');
  }

  lemma GrewShrinks(fs: Fs, mid: Fs)
    requires Grew(fs, mid)
    ensures Free(mid.bitmap) <= Free(fs.bitmap) && mid.mounted == fs.mounted
  {
  }

  lemma SnapKeepsTx(fs: Fs, name: CStr)
    requires fs.tx.active && fs.tx.dirty
    ensures SnapCreate(fs, name).0.tx.active && SnapCreate(fs, name).0.tx.dirty
  {
    hide BuildSnap, SetRoot, SuperRoot, SuperTime, AllocBlock;
  }

  lemma CommitSnapRoot(b: Fs, d: u32, name: CStr)
    requires b.tx.active
    ensures var c := CommitSnap(b, d, name);
            var s := SuperRoot(c.sb);
            if Free(b.bitmap) == {} then s == SuperRoot(b.sb)
            else
              && s in Free(b.bitmap) && s !in Free(c.bitmap)
              && s < DISK_BLOCKS && c.disk[s] == BuildSnap(SuperRoot(b.sb), d, SuperTime(b.sb), name)
  {
    hide Get32, BuildSnap, BuildSuper, SetRoot, SuperRoot, SuperTime, SuperGen, BitmapSector;
    var a := SetNewRoot(b, d);
    var mid := SnapCreate(a, name).0;
    SuperFields(SuperRoot(mid.sb), SuperTime(mid.sb), (SuperGen(mid.sb) + 1) % TWO32);
    var (e, s) := AllocBlock(a);
    if s != 0 {
      SetRootReads(b.sb, s);
      FreeInStore(b.bitmap, s);
    }
  }

  lemma SnapSafeLess(disk: Disk, bm: MapBytes, bm': MapBytes, s: nat)
    requires SnapSafe(disk, bm, s) && Free(bm') <= Free(bm)
    ensures SnapSafe(disk, bm', s)
  {
    hide Get32, DirGood, SnapUses, Free, Terminated, SnapRoot, DirUses;
  }

  /** The snapshots after a snapshot of the changed live directory was committed. */
  function Joined(fs: Fs, c: Fs, snaps: seq<nat>): seq<nat> {
    if SuperRoot(c.sb) == SuperRoot(fs.sb) then snaps else [SuperRoot(c.sb)] + snaps
  }

  /** Old snapshots after the live directory changed and was committed. */
  lemma OldSnapsKept(fs: Fs, snaps: seq<nat>, d: nat, b: Fs, c: Fs)
    requires snaps != [] && Live(fs, snaps, d, 0) && DirGood(fs.disk, d) && DirMoved(fs, d, b) && Follows(b, c.disk)
    requires Free(c.bitmap) <= Free(b.bitmap)
    ensures forall i :: 0 <= i < |snaps| ==>
              SnapSafe(c.disk, c.bitmap, snaps[i]) && c.disk[snaps[i]] == fs.disk[snaps[i]]
    ensures forall i :: 0 <= i < |snaps| && SnapRoot(fs.disk[snaps[i]]) != d ==> SameSnap(fs.disk, c.disk, snaps[i])
  {
    hide Get32, DirGood, DirUses, ObjsApart, Free, SnapRoot, Follows, StoreOk, SameSnap, DirMoved, Separate;
    forall i | 0 <= i < |snaps|
      ensures SnapSafe(c.disk, c.bitmap, snaps[i]) && c.disk[snaps[i]] == fs.disk[snaps[i]]
      ensures SnapRoot(fs.disk[snaps[i]]) != d ==> SameSnap(fs.disk, c.disk, snaps[i])
    {
      OldSnap(fs, snaps, d, 0, b, c.disk, i);
      if SnapRoot(fs.disk[snaps[i]]) == d {
        LiveSnapKept(fs, snaps, d, 0, b, c.disk, i);
      } else {
        OtherSnapKept(fs, snaps, d, 0, b, c.disk, i);
      }
      SnapSafeLess(c.disk, b.bitmap, c.bitmap, snaps[i]);
    }
  }

  /** The new snapshot of the changed directory d. */
  ghost predicate NewSnapOn(fs: Fs, snaps: seq<nat>, d: nat, b: Fs, c: Fs, name: CStr) {
    && snaps != [] && Live(fs, snaps, d, 0) && DirGood(fs.disk, d) && DirMoved(fs, d, b) && Follows(b, c.disk)
    && Free(c.bitmap) <= Free(b.bitmap) && d < TWO32
    && var s := SuperRoot(c.sb);
    && s in Free(b.bitmap) && s !in Free(c.bitmap) && s < DISK_BLOCKS
    && c.disk[s] == BuildSnap(SuperRoot(fs.sb), d, SuperTime(fs.sb), name)
  }

  lemma NewUsersSafe(fs: Fs, snaps: seq<nat>, d: nat, b: Fs, c: Fs, name: CStr)
    requires NewSnapOn(fs, snaps, d, b, c, name)
    ensures var s := SuperRoot(c.sb);
            && SnapSafe(c.disk, c.bitmap, s) && SnapParent(c.disk[s]) == SuperRoot(fs.sb) && SnapRoot(c.disk[s]) == d
            && Tidy(c.disk, s)
  {
    hide Get32, DirGood, DirUses, ObjsApart, Free, Follows, SuperRoot, SuperTime, BuildSnap, Terminated, StrAt,
      Listed, LoadDir, Live, DirMoved, SnapRoot, SnapParent, IsSnap;
    GoodNotZero(fs.disk, d);
    var s := SuperRoot(c.sb);
    SnapFields(SuperRoot(fs.sb), d, SuperTime(fs.sb), name);
    FreeInStore(b.bitmap, s);
    MovedDirOn(fs, d, b, c.disk);
  }

  lemma NotUsedYet(fs: Fs, snaps: seq<nat>, d: nat, b: Fs, disk: Disk, s: nat, i: nat)
    requires Live(fs, snaps, d, 0) && DirGood(fs.disk, d) && DirMoved(fs, d, b) && Follows(b, disk)
    requires s in Free(b.bitmap) && s < DISK_BLOCKS && i < |snaps|
    ensures Tidy(disk, snaps[i]) && !RootUses(disk, SnapRoot(disk[snaps[i]]), s)
    ensures disk[snaps[i]] == fs.disk[snaps[i]]
  {
    hide Get32, DirGood, DirUses, ObjsApart, RootApart, Free, Follows, SnapRoot, SnapSafe, StoreOk, Separate, SameSnap,
      Listed, LoadDir;
    GoodNotZero(fs.disk, d);
    OldSnap(fs, snaps, d, 0, b, disk, i);
    MovedDirOn(fs, d, b, disk);
    if SnapRoot(fs.disk[snaps[i]]) == d {
      LiveSnapKept(fs, snaps, d, 0, b, disk, i);
    } else {
      OtherSnapKept(fs, snaps, d, 0, b, disk, i);
    }
  }

  lemma NewUsersJoins(fs: Fs, snaps: seq<nat>, d: nat, b: Fs, c: Fs, name: CStr)
    requires NewSnapOn(fs, snaps, d, b, c, name)
    ensures Separate(c.disk, [SuperRoot(c.sb)] + snaps)
  {
    hide Get32, DirGood, DirUses, ObjsApart, Free, Follows, SuperRoot, SuperTime, BuildSnap, SnapSafe, StoreOk,
      DirMoved, Separate, SnapRoot, SnapParent;
    var s := SuperRoot(c.sb);
    NewUsersSafe(fs, snaps, d, b, c, name);
    MovedSeparate(fs, snaps, d, 0, b, c.disk);
    forall i | 0 <= i < |snaps| ensures Tidy(c.disk, snaps[i]) && !RootUses(c.disk, SnapRoot(c.disk[snaps[i]]), s) {
      NotUsedYet(fs, snaps, d, b, c.disk, s, i);
    }
    NotUsedYet(fs, snaps, d, b, c.disk, s, 0);
    JoinSameDir(c.disk, snaps, 0, s);
  }

  /** A committed change of the live directory leaves a sound, separate store. */
  lemma MovedStore(fs: Fs, snaps: seq<nat>, d: nat, b: Fs, name: CStr)
    requires snaps != [] && Live(fs, snaps, d, 0) && DirGood(fs.disk, d) && DirMoved(fs, d, b) && d < TWO32
    requires b.tx.active && Synced(b) && b.mounted == fs.mounted && b.sb == fs.sb
    ensures var c := CommitSnap(b, d, name);
            && StoreOk(c, Joined(fs, c, snaps)) && Separate(c.disk, Joined(fs, c, snaps))
            && forall i :: 0 <= i < |snaps| && SnapRoot(fs.disk[snaps[i]]) != d ==> SameSnap(fs.disk, c.disk, snaps[i])
  {
    hide Get32, DirGood, DirUses, ObjsApart, Free, Follows, SuperRoot, SuperTime, BuildSnap, SnapSafe, SameSnap,
      SuperOk, DiskBitmap, Separate, SnapRoot, SnapParent, IsSnap, CommitSnap, DirMoved;
    var c := CommitSnap(b, d, name);
    CommitSnapDisk(b, d, name);
    CommitSnapRoot(b, d, name);
    OldSnapsKept(fs, snaps, d, b, c);
    MovedSeparate(fs, snaps, d, 0, b, c.disk);
    forall i | 0 <= i < |snaps| ensures snaps[i] < DISK_BLOCKS && c.disk[snaps[i]] == fs.disk[snaps[i]] {
      OldSnap(fs, snaps, d, 0, b, c.disk, i);
    }
    ChainFrame(fs.disk, c.disk, SuperRoot(fs.sb), snaps);
    if Free(b.bitmap) != {} {
      NewUsersSafe(fs, snaps, d, b, c, name);
      NewUsersJoins(fs, snaps, d, b, c, name);
      NewRootDiffers(fs, snaps, d, b, c);
      NewChain(c.disk, SuperRoot(c.sb), snaps, c.bitmap);
    }
  }

  lemma NewRootDiffers(fs: Fs, snaps: seq<nat>, d: nat, b: Fs, c: Fs)
    requires snaps != [] && Live(fs, snaps, d, 0) && DirGood(fs.disk, d) && DirMoved(fs, d, b)
    requires SuperRoot(c.sb) in Free(b.bitmap)
    ensures SuperRoot(c.sb) != SuperRoot(fs.sb)
  {
    hide Get32, DirGood, DirUses, ObjsApart, Free, SuperRoot, Separate, SnapRoot, SnapParent, IsSnap, Terminated,
      SuperOk, DiskBitmap;
    assert SnapSafe(fs.disk, fs.bitmap, snaps[0]);
    UsesItself(fs.disk, snaps[0]);
  }

  lemma LiveIsFirst(fs: Fs, snaps: seq<nat>)
    requires StoreOk(fs, snaps) && Separate(fs.disk, snaps) && HasLive(fs)
    ensures snaps != [] && Live(fs, snaps, LiveDir(fs), 0) && DirKept(fs, LiveDir(fs))
    ensures ObjsApart(fs.disk, LiveDir(fs))
    ensures LiveDir(fs) < TWO32
  {
    hide Get32, DirGood, DirUses, ObjsApart, Free, SnapSafe, SuperOk, DiskBitmap, Strangers;
    SoundHasDir(fs, snaps);
    assert Tidy(fs.disk, snaps[0]);
  }

  /** A user table that was saved successfully leaves a sound store: at most one
      snapshot more, and every snapshot of another directory unchanged. */
  lemma UsersKeepStore(fs: Fs, snaps: seq<nat>, data: seq<byte>)
    requires StoreOk(fs, snaps) && Separate(fs.disk, snaps) && |data| <= MAX_DATA
    ensures SuperRoot(fs.sb) < DISK_BLOCKS && (HasLiveDir(fs) ==> DirKept(fs, LiveDir(fs)))
    ensures var (c, ok) := UsersSave(fs, data);
            ok ==>
              && StoreOk(c, Joined(fs, c, snaps)) && Separate(c.disk, Joined(fs, c, snaps))
              && forall i :: 0 <= i < |snaps| && SnapRoot(fs.disk[snaps[i]]) != LiveDir(fs) ==>
                  SameSnap(fs.disk, c.disk, snaps[i])
  {
    hide Get32, DirGood, DirUses, ObjsApart, Free, SuperRoot, SnapSafe, SameSnap, SuperOk, DiskBitmap, Separate,
      SnapRoot, UsersObject, WriteObject, StoreOk, Live, DirMoved, ObjBlocks, SnapCreate, TxCommit, FindEntry;
    SoundHasDir(fs, snaps);
    if UsersSave(fs, data).1 {
      LiveIsFirst(fs, snaps);
      var d, fs1 := LiveDir(fs), TxBegin(fs);
      SoundIsSynced(fs, snaps);
      TxKeepsKept(fs, fs1, d);
      UsersMoveDir(fs1, d, data);
      UsersObjectSpec(fs1, d);
      var (a, o) := UsersObject(fs1, d);
      var b := WriteObject(a, o, data).0;
      UsersWritten(a, d, o, data);
      SyncedTarget(fs1, d);
      SyncedObject(a, o, data);
      TxMoved(fs, fs1, d, b);
      MovedStore(fs, snaps, d, b, USERS_UPDATE);
    }
  }

  /** The blocks left over when the user table was written. */
  function LeftForSnapshot(fs: Fs, d: nat, n: nat): int
    requires DirKept(fs, d)
  {
    var free := |Free(fs.bitmap)|;
    match FindEntry(fs.disk, d, USERS)
    case Some(e) => free - Missing(ObjBlocks(fs.disk[e.obj]), BlocksFor(n))
    case None => (if free > LinkCost(fs.disk[d]) then free - 1 - LinkCost(fs.disk[d]) else 0) - BlocksFor(n)
  }

  /** A successful save of the user table makes a snapshot "users_update" of the
      same directory in front of the old root if and only if a block is left. */
  lemma UsersSnapshotIff(fs: Fs, snaps: seq<nat>, data: seq<byte>)
    requires StoreOk(fs, snaps) && |data| <= MAX_DATA
    ensures SuperRoot(fs.sb) < DISK_BLOCKS && (HasLiveDir(fs) ==> DirKept(fs, LiveDir(fs)))
    ensures var (c, ok) := UsersSave(fs, data);
            var s := SuperRoot(c.sb);
            ok ==>
              && HasLiveDir(fs)
              && if LeftForSnapshot(fs, LiveDir(fs), |data|) > 0 then
                   && s in Free(fs.bitmap) && s < DISK_BLOCKS
                   && c.disk[s] == BuildSnap(SuperRoot(fs.sb), LiveDir(fs), SuperTime(fs.sb), USERS_UPDATE)
                 else s == SuperRoot(fs.sb)
  {
    hide Get32, DirGood, DirUses, Free, SuperRoot, SnapSafe, SuperOk, DiskBitmap, SnapRoot, UsersObject, WriteObject,
      StoreOk, ObjBlocks, SnapCreate, TxCommit, FindEntry, BuildSnap, HasLiveDir, BlocksFor, Missing, LinkCost,
      SuperTime;
    SoundHasDir(fs, snaps);
    if UsersSave(fs, data).1 {
      var d, fs1 := LiveDir(fs), TxBegin(fs);
      GoodUsesItself(fs.disk, d);
      UsersTarget(fs1, d);
      var (a, o) := UsersObject(fs1, d);
      assert o != 0;
      UsersLeave(fs1, d, data);
      var b := WriteObject(a, o, data).0;
      SoundIsIdle(fs, snaps);
      CommitSnapRoot(b, d, USERS_UPDATE);
      NoneFree(b.bitmap);
    }
  }

  lemma UsersLeave(fs: Fs, d: nat, data: seq<byte>)
    requires DirKept(fs, d) && |data| <= MAX_DATA && d < DISK_BLOCKS
    requires var (a, o) := UsersObject(fs, d);
             0 < o < DISK_BLOCKS && Pointers(ObjBlocks(a.disk[o])) && WriteObject(a, o, data).1
    ensures var (a, o) := UsersObject(fs, d);
            var b := WriteObject(a, o, data).0;
            && |Free(b.bitmap)| == LeftForSnapshot(fs, d, |data|) && Free(b.bitmap) <= Free(fs.bitmap)
            && b.sb == fs.sb && b.tx == fs.tx
  {
    hide Get32, DirUses, Free, WriteObject, FindEntry, BlocksFor, Missing, LinkCost, DirEntries, DirOk, DirNext,
      FirstMatch, AddEntry, AllocObject, ObjBlock;
    UsersObjectSpec(fs, d);
    NoneFree(fs.bitmap);
    var (a, o) := UsersObject(fs, d);
    WriteObjectSpec(a, o, data);
    if FindEntry(fs.disk, d, USERS).None? {
      UsersObjectCost(fs, d);
      NoneHeld(BlocksFor(|data|));
    }
  }

  lemma SoundIsSynced(fs: Fs, snaps: seq<nat>)
    requires StoreOk(fs, snaps)
    ensures !fs.tx.active && fs.mounted && Synced(TxBegin(fs))
  {
    hide SuperOk, DiskBitmap, SnapSafe, ChainOk;
  }

  lemma TxKeepsKept(fs: Fs, fs1: Fs, d: nat)
    requires DirKept(fs, d) && ObjsApart(fs.disk, d) && fs1 == fs.(tx := fs1.tx, txGen := fs1.txGen)
    ensures DirKept(fs1, d) && ObjsApart(fs1.disk, d)
  {
    hide DirGood, DirUses, ObjsApart, Free;
  }

  lemma TxMoved(fs: Fs, fs1: Fs, d: nat, b: Fs)
    requires DirGood(fs.disk, d) && fs1 == fs.(tx := fs1.tx, txGen := fs1.txGen) && DirMoved(fs1, d, b)
    ensures DirMoved(fs, d, b)
  {
    hide DirGood, DirUses, ObjsApart, Free, DirKept;
  }

  // ---- save_data, reboot, load_data ---------------------------------------

  /** Every entry names an object of the form type. */
  ghost predicate AllForms(disk: Disk, d: nat)
    requires DirGood(disk, d)
  {
    forall i :: 0 <= i < |DirEntries(disk, d)| ==> disk[DirEntries(disk, d)[i].obj][4] == FORM
  }

  lemma AllFormsFrame(disk: Disk, disk': Disk, d: nat)
    requires DirGood(disk, d) && AllForms(disk, d)
    requires forall b :: 0 <= b < DISK_BLOCKS && DirUses(disk, d, b) ==> disk'[b] == disk[b]
    ensures DirGood(disk', d) && AllForms(disk', d)
  {
    DirectoryFrame(disk, disk', d);
    SameEntries(disk, disk', d);
    hide Get32, DirEntries, DirOk, Listed, LoadDir, ObjShape;
    var es := DirEntries(disk, d);
    forall i | 0 <= i < |es| ensures disk'[es[i].obj] == disk[es[i].obj] {
      assert ObjBlock(disk, es[i].obj, es[i].obj);
      assert DirUses(disk, d, es[i].obj);
    }
  }

  lemma SaveFormAllForms(fs: Fs, d: nat, f: Form)
    requires DirKept(fs, d) && DirHeld(fs, d) && AllForms(fs.disk, d)
    ensures var b := SaveForm(fs, d, f);
            DirKept(b, d) && AllForms(b.disk, d)
  {
    hide SaveObject, Get32, DirOk, ObjBlock, Free, AddEntry, DirNext, DirUses, Listed, LoadEntry, ObjOk, Clear,
      Allocated, DirEntries, AllForms;
    SaveObjectSpec(fs, f);
    SaveObjectKeepsForms(fs, d, f);
    SaveFormSpec(fs, d, f);
    var (a, o) := SaveObject(fs, f);
    AllFormsFrame(fs.disk, a.disk, d);
    if o != 0 {
      SavedObjectReady(fs, d, f);
      KeptIsHeld(a, d);
      AddEntryAppends(a, d, f.name, o, FORM);
      AddEntryKeepsHeld(a, d, f.name, o, FORM);
      KindOf(a.disk, o, Content(FORM, |Payload(f)|, Payload(f)));
      var (b, ok) := AddEntry(a, d, f.name, o, FORM);
      if ok {
        AddedForm(a, b, d, Entry(Cut(f.name), o, FORM));
      }
    }
  }

  lemma KindOf(disk: Disk, o: nat, c: Content)
    requires ObjOk(disk, o) && ReadObject(disk, o) == c && c.Content?
    ensures disk[o][4] == c.kind
  {
    hide Get32, ObjBlocks, Gather;
  }

  lemma AddedForm(fs: Fs, fs': Fs, d: nat, e: Entry)
    requires DirKept(fs, d) && DirKept(fs', d) && AllForms(fs.disk, d)
    requires ObjOk(fs.disk, e.obj) && fs.disk[e.obj][4] == FORM && Allocated(fs, e.obj) && Clear(fs.disk, d, e.obj)
    requires DirEntries(fs'.disk, d) == DirEntries(fs.disk, d) + [e]
    requires forall b :: 0 <= b < DISK_BLOCKS && b !in Free(fs.bitmap) && b != d ==> fs'.disk[b] == fs.disk[b]
    ensures AllForms(fs'.disk, d)
  {
    hide Get32, DirEntries, DirOk, Free, IsObj, ObjBlocks, BlocksFor, DirNext;
    KeptIsHeld(fs, d);
    var es := DirEntries(fs'.disk, d);
    forall i | 0 <= i < |es| ensures fs'.disk[es[i].obj] == fs.disk[es[i].obj] {
      assert ObjBlock(fs.disk, es[i].obj, es[i].obj);
    }
  }

  lemma {:induction false} SaveFormsAllForms(fs: Fs, d: nat, fms: seq<Form>)
    requires DirKept(fs, d) && DirHeld(fs, d) && AllForms(fs.disk, d)
    ensures var b := SaveForms(fs, d, fms);
            DirKept(b, d) && AllForms(b.disk, d)
  {
    if fms != [] {
      var t := fms[..|fms| - 1];
      SaveFormsAllForms(fs, d, t);
      hide SaveForm, DirHeld, DirKept, DirGood, AllForms;
      SaveFormAllForms(SaveForms(fs, d, t), d, fms[|fms| - 1]);
    }
  }

  /** The place of the first form of that name, or the length. */
  function FirstNamed(fms: seq<Form>, name: CStr): (k: nat)
    ensures k <= |fms|
    ensures k < |fms| ==> fms[k].name == name
    ensures forall i :: 0 <= i < k ==> fms[i].name != name
  {
    if fms == [] || fms[0].name == name then 0 else 1 + FirstNamed(fms[1..], name)
  }

  /** The form table a load finds after the table fms and the user table us were
      saved: ".users" shows up as an empty form if the first directory block has
      room for it, and a form of that name is overwritten by the user table. */
  function Reloaded(fms: seq<Form>, us: seq<User>): seq<Form>
    requires |us| < 0x8000_0000
  {
    var k := FirstNamed(fms, USERS);
    if k < |fms| then fms[k := Parse(USERS, Encode(us))]
    else if |fms| < MAX_ENTRIES then fms + [EMPTY_USERS]
    else fms
  }

  /** The saved table comes back exactly when it is full and has no form named
      ".users", or has one that reads as the user table does. */
  lemma ReloadExactIff(fms: seq<Form>, us: seq<User>)
    requires |us| < 0x8000_0000 && |fms| <= MAX_ENTRIES
    ensures var k := FirstNamed(fms, USERS);
            Reloaded(fms, us) == fms <==> if k < |fms| then fms[k] == Parse(USERS, Encode(us)) else |fms| == MAX_ENTRIES
  {
    hide Parse, Encode;
    var k := FirstNamed(fms, USERS);
    if k < |fms| {
      assert fms[k := Parse(USERS, Encode(us))][k] == Parse(USERS, Encode(us));
    } else if |fms| < MAX_ENTRIES {
      assert |fms + [EMPTY_USERS]| != |fms|;
    }
  }

  lemma ListedNames(disk: Disk, d: nat)
    requires DirGood(disk, d)
    ensures forall i :: 0 <= i < |Listed(disk, d)| ==> Listed(disk, d)[i].name == DirEntries(disk, d)[i].name
  {
    hide Get32, DirEntries, ReadObject, DirOk;
  }

  /** The first form of a name is the one the directory search finds. */
  lemma FoundIsFirst(disk: Disk, d: nat, name: CStr)
    requires DirGood(disk, d)
    ensures var k := FirstNamed(Listed(disk, d), name);
            && (FindEntry(disk, d, name).Some? <==> k < |Listed(disk, d)|)
            && (k < |Listed(disk, d)| ==> FindEntry(disk, d, name) == Some(DirEntries(disk, d)[k]))
  {
    hide Get32, DirEntries, DirOk, ObjOk, Clear, Listed, FirstNamed, FirstMatch;
    ListedNames(disk, d);
    var es := DirEntries(disk, d);
    var k := FirstNamed(Listed(disk, d), name);
    var found := FirstMatch(es, name);
    if found.Some? {
      var i :| 0 <= i < |es| && es[i] == found.value && es[i].name == name && forall j :: 0 <= j < i ==>
          es[j].name != name;
      assert !(i < k) && !(k < i);
    }
  }

  /** Overwriting the object of entry k changes form k only. */
  lemma OverwrittenListing(a: Fs, d: nat, k: nat, data: seq<byte>, b: Fs)
    requires DirKept(a, d) && ObjsApart(a.disk, d) && k < |DirEntries(a.disk, d)|
    requires Rewrites(a, d, DirEntries(a.disk, d)[k].obj, data, b)
    ensures DirGood(b.disk, d) && b.disk[d] == a.disk[d]
    ensures var e := DirEntries(a.disk, d)[k];
            Listed(b.disk, d) ==
            Listed(a.disk, d)[k := if a.disk[e.obj][4] == FORM then Parse(e.name, data)
                else Form(e.name, [], 0, DEFAULT_MODE)]
  {
    hide Get32, DirEntries, DirOk, ObjOk, Clear, WriteObject, Free, ObjsApart, OthersApart, HasUsers, Parse,
      ObjBlock, DirUses;
    var e := DirEntries(a.disk, d)[k];
    NamedIsApart(a.disk, d, k);
    RewriteKeepsDir(a, d, e.obj, data, b);
    UsersWritten(a, d, e.obj, data);
    SameDirBlocks(a, b, d, e.obj);
    NewEntry(a.disk, b.disk, e, data);
    var l, l' := Listed(a.disk, d), Listed(b.disk, d);
    forall i | 0 <= i < |l| && i != k ensures l'[i] == l[i] {
      DistinctObjects(a.disk, d, i, k);
    }
    assert l'[k] == LoadEntry(b.disk, e);
  }

  lemma NewEntry(disk: Disk, disk': Disk, e: Entry, data: seq<byte>)
    requires ObjOk(disk, e.obj) && ObjOk(disk', e.obj) && |data| <= MAX_DATA
    requires ReadObject(disk', e.obj) == Content(disk[e.obj][4], |data|, data)
    ensures LoadEntry(disk', e) ==
            if disk[e.obj][4] == FORM then Parse(e.name, data) else Form(e.name, [], 0, DEFAULT_MODE)
  {
    hide ReadObject, Parse, ObjShape;
  }

  lemma DistinctObjects(disk: Disk, d: nat, i: nat, k: nat)
    requires DirGood(disk, d) && ObjsApart(disk, d) && i < |DirEntries(disk, d)| && k < |DirEntries(disk, d)| && i != k
    ensures DirEntries(disk, d)[i].obj != DirEntries(disk, d)[k].obj
  {
    hide Get32, DirEntries, DirOk, Clear, ObjBlock;
    var es := DirEntries(disk, d);
    var lo, hi := if i < k then i else k, if i < k then k else i;
    assert Apart(disk, es[lo].obj, es[hi].obj);
    NotSelfApart(disk, es[lo].obj, es[hi].obj);
  }

  /** What a directory not yet linked, with forms only, lists after the user table was written. */
  ghost predicate ListsUsers(disk: Disk, d: nat, l: seq<Form>, data: seq<byte>, disk': Disk) {
    && d < DISK_BLOCKS && DirGood(disk', d)
    && var k := FirstNamed(l, USERS);
    && Listed(disk', d) == (if k < |l| then l[k := Parse(USERS, data)] else l + [EMPTY_USERS])
    && DirCount(disk'[d]) == (if k == |l| < MAX_ENTRIES then |l| + 1 else |l|)
  }

  lemma OpenDir(disk: Disk, d: nat)
    requires DirGood(disk, d) && DirNext(disk[d]) == 0
    ensures d < DISK_BLOCKS && |Listed(disk, d)| == DirCount(disk[d]) <= MAX_ENTRIES
  {
    hide Get32, DirEntries, DirNext, DirCount, ObjOk, Clear, LoadEntry;
    SizeOfDir(disk, d);
  }

  lemma UsersListing(fs: Fs, d: nat, data: seq<byte>)
    requires DirKept(fs, d) && ObjsApart(fs.disk, d) && AllForms(fs.disk, d) && DirNext(fs.disk[d]) == 0
    requires 0 < |data| <= MAX_DATA && UsersObject(fs, d).1 != 0
    ensures var (a, o) := UsersObject(fs, d);
            && 0 < o < DISK_BLOCKS && Pointers(ObjBlocks(a.disk[o]))
            && (WriteObject(a, o, data).1 ==>
                ListsUsers(fs.disk, d, Listed(fs.disk, d), data, WriteObject(a, o, data).0.disk))
  {
    hide Get32, DirEntries, ObjBlock, DirOk, Free, UsersObject, DirUses, ObjsApart, OthersApart, DirNext, DirCount,
      FirstMatch, WriteObject, FindEntry, ObjBlocks, Listed, HasUsers, AllForms, Parse, ObjOk, Clear;
    UsersTarget(fs, d);
    UsersObjectSpec(fs, d);
    TargetKeepsDir(fs, d);
    OpenDir(fs.disk, d);
    FoundIsFirst(fs.disk, d, USERS);
    var l := Listed(fs.disk, d);
    var (a, o) := UsersObject(fs, d);
    if WriteObject(a, o, data).1 {
      var b := WriteObject(a, o, data).0;
      if FindEntry(fs.disk, d, USERS).Some? {
        FoundTarget(fs, d);
        FoundListing(fs, d, data, b);
      } else {
        MadeListing(fs, d, data, b);
      }
    }
  }

  lemma FoundListing(fs: Fs, d: nat, data: seq<byte>, b: Fs)
    requires DirKept(fs, d) && ObjsApart(fs.disk, d) && AllForms(fs.disk, d) && DirNext(fs.disk[d]) == 0 && 0 < |data|
    requires FindEntry(fs.disk, d, USERS).Some? && Rewrites(fs, d, FindEntry(fs.disk, d, USERS).value.obj, data, b)
    ensures ListsUsers(fs.disk, d, Listed(fs.disk, d), data, b.disk)
  {
    hide Get32, DirEntries, ObjBlock, DirOk, Free, DirUses, ObjsApart, DirNext, DirCount, FirstMatch, WriteObject,
      FindEntry, Listed, HasUsers, Parse, ObjOk, Clear;
    OpenDir(fs.disk, d);
    FoundIsFirst(fs.disk, d, USERS);
    ListedNames(fs.disk, d);
    OverwrittenListing(fs, d, FirstNamed(Listed(fs.disk, d), USERS), data, b);
  }

  lemma MadeListing(fs: Fs, d: nat, data: seq<byte>, b: Fs)
    requires DirKept(fs, d) && ObjsApart(fs.disk, d) && DirNext(fs.disk[d]) == 0 && 0 < |data|
    requires FindEntry(fs.disk, d, USERS).None? && UsersObject(fs, d).1 != 0
    requires var (a, o) := UsersObject(fs, d); Targets(fs, d, a, o) && Rewrites(a, d, o, data, b)
    ensures ListsUsers(fs.disk, d, Listed(fs.disk, d), data, b.disk)
  {
    hide Get32, DirEntries, ObjBlock, DirOk, Free, UsersObject, DirUses, ObjsApart, OthersApart, DirNext, DirCount,
      FirstMatch, WriteObject, FindEntry, ObjBlocks, Listed, HasUsers, Parse, ObjOk, Clear;
    var (a, o) := UsersObject(fs, d);
    var l := Listed(fs.disk, d);
    OpenDir(fs.disk, d);
    FoundIsFirst(fs.disk, d, USERS);
    MadeTarget(fs, d);
    RoomForUsers(fs, d, data);
    UsersObjectSpec(fs, d);
    FoundIsFirst(a.disk, d, USERS);
    assert Listed(a.disk, d) == l + [EMPTY_USERS];
    AppendedNamed(l, EMPTY_USERS);
    OverwrittenListing(a, d, |l|, data, b);
    ListedNames(a.disk, d);
    MadeCount(a.disk, d);
  }

  lemma AppendedNamed(l: seq<Form>, f: Form)
    requires FirstNamed(l, f.name) == |l|
    ensures FirstNamed(l + [f], f.name) == |l|
  {
    hide FirstNamed;
    var m := l + [f];
    var k := FirstNamed(m, f.name);
    assert m[|l|].name == f.name;
    assert forall i :: 0 <= i < |l| ==> m[i] == l[i];
  }

  lemma MadeCount(disk: Disk, d: nat)
    requires DirGood(disk, d)
    ensures d < DISK_BLOCKS
    ensures DirCount(disk[d]) == if DirNext(disk[d]) == 0 then |Listed(disk, d)| else MAX_ENTRIES
  {
    hide Get32, DirEntries, DirNext, DirCount, ObjOk, Clear, LoadEntry;
    SizeOfDir(disk, d);
    FullHead(disk, d);
  }

  lemma ListsLoads(disk: Disk, d: nat, l: seq<Form>, us: seq<User>, disk': Disk)
    requires |us| < 0x8000_0000 && |l| <= MAX_ENTRIES && ListsUsers(disk, d, l, Encode(us), disk')
    ensures LoadDir(disk', d) == Reloaded(l, us)
  {
    hide Get32, DirGood, Listed, Parse, Encode, FirstNamed, DirCount;
  }

  /** After a successful save of the user table into a directory of forms. */
  lemma UsersReload(fs: Fs, snaps: seq<nat>, us: seq<User>)
    requires StoreOk(fs, snaps) && Separate(fs.disk, snaps) && 1 <= |us| <= MAX_USERS
    requires HasLive(fs) && DirKept(fs, LiveDir(fs)) && AllForms(fs.disk, LiveDir(fs))
    requires DirNext(fs.disk[LiveDir(fs)]) == 0
    ensures var (c, ok) := UsersSave(fs, Encode(us));
            ok ==>
              && DirGood(c.disk, LiveDir(fs))
              && LoadDir(c.disk, LiveDir(fs)) == Reloaded(Listed(fs.disk, LiveDir(fs)), us)
  {
    hide Get32, DirUses, ObjsApart, Free, SuperRoot, SnapSafe, SuperOk, DiskBitmap, Separate, SnapRoot,
      UsersObject, WriteObject, StoreOk, Live, DirMoved, ObjBlocks, SnapCreate, TxCommit, FindEntry, AllForms,
      DirNext, ListsUsers, Listed, LoadDir, Encode, Reloaded, DirOk, DirEntries, ObjOk, Clear;
    var data := Encode(us);
    if UsersSave(fs, data).1 {
      LiveIsFirst(fs, snaps);
      var d, fs1 := LiveDir(fs), TxBegin(fs);
      SoundIsSynced(fs, snaps);
      TxKeepsKept(fs, fs1, d);
      UsersMoveDir(fs1, d, data);
      UsersListing(fs1, d, data);
      UsersObjectSpec(fs1, d);
      var (a, o) := UsersObject(fs1, d);
      var b := WriteObject(a, o, data).0;
      UsersWritten(a, d, o, data);
      SyncedTarget(fs1, d);
      SyncedObject(a, o, data);
      TxMoved(fs, fs1, d, b);
      CommitSnapDisk(b, d, USERS_UPDATE);
      MovedDirOn(fs, d, b, CommitSnap(b, d, USERS_UPDATE).disk);
      OpenDir(fs.disk, d);
      ListsLoads(fs.disk, d, Listed(fs.disk, d), us, b.disk);
    }
  }

  /** The directory a save of at most eleven forms makes the live one. */
  lemma SavedDir(fs: Fs, snaps: seq<nat>, fms: seq<Form>)
    requires StoreOk(fs, snaps) && |fms| <= 11 && TotalNeed(fms) + 2 <= |Free(fs.bitmap)|
    ensures var a := SaveAll(fs, fms);
            && HasLive(a) && DirGood(a.disk, LiveDir(a)) && AllForms(a.disk, LiveDir(a))
            && Listed(a.disk, LiveDir(a)) == StoredAll(fms)
  {
    hide Free, DirKept, DirHeld, DirEntries, SaveForms, SnapCreate, CreateDir, Lists, Prepared, TotalNeed, ChainOk,
      SnapSafe, Commit, DiskBitmap, SuperOk, Grew, SuperRoot, SnapRoot, DirGood, LoadDir, StoredAll, Listed,
      AllForms, IsSnap, BuildSnap, SetRoot;
    PrepareSpec(fs, fms);
    var fs1 := TxBegin(fs);
    CreateDirSpec(fs1);
    CreateDirLists(fs1);
    var (a, d) := CreateDir(fs1);
    assert |Free(a.bitmap)| == |Free(fs.bitmap)| - 1;
    SaveFormsLists(a, d, fms);
    SaveFormsKeeps(a, d, fms);
    NoEntriesAllForms(a, d);
    SaveFormsAllForms(a, d, fms);
    var b := SaveForms(a, d, fms);
    var c := SetNewRoot(b, d);
    GrewRefl(fs, fs1);
    GrewCreateDir(fs, fs1);
    GrewForms(fs, a, d, fms);
    RootSet(fs, b, d);
    SnapCreateSpec(fs, c, d, LIVE);
    SnapCreateElsewhere(c, LIVE);
    var mid := SnapCreate(c, LIVE).0;
    PreparedIsDirty(fs, mid, d, LIVE);
    CommitIs(mid);
    CommitDisk(fs, mid);
    SavedForms(fs, b, mid, d, fms, Commit(mid));
  }

  lemma NoEntriesAllForms(fs: Fs, d: nat)
    requires DirKept(fs, d) && DirEntries(fs.disk, d) == []
    ensures AllForms(fs.disk, d)
  {
    hide DirEntries, DirOk;
  }

  lemma SavedForms(fs: Fs, b: Fs, mid: Fs, d: nat, fms: seq<Form>, fs': Fs)
    requires Prepared(fs, mid, d, LIVE) && mid.tx.snap != 0 && |fms| <= 11 && Lists(b, d, fms)
    requires DirKept(b, d) && AllForms(b.disk, d) && Listed(mid.disk, d) == Listed(b.disk, d)
    requires forall x :: 0 <= x < DISK_BLOCKS && x !in Free(b.bitmap) ==> mid.disk[x] == b.disk[x]
    requires SuperRoot(fs'.sb) == SuperRoot(mid.sb)
    requires forall x :: 0 <= x < DISK_BLOCKS && InStore(x) ==> fs'.disk[x] == mid.disk[x]
    ensures HasLive(fs') && LiveDir(fs') == d
    ensures DirGood(fs'.disk, d) && AllForms(fs'.disk, d) && Listed(fs'.disk, d) == StoredAll(fms)
  {
    hide Get32, Free, Grew, BuildSnap, SetRoot, SuperRoot, SuperTime, DirUses, Terminated, Stored, DirEntries,
      DirOk, LoadEntry, AllForms, ObjOk, Clear, SnapRoot, SnapParent, SnapName, Listed, LoadDir, IsSnap;
    GoodNotZero(b.disk, d);
    SavedRoot(fs, mid, d, LIVE, fs');
    forall x | 0 <= x < DISK_BLOCKS && DirUses(b.disk, d, x) ensures fs'.disk[x] == b.disk[x] {
      DirUsesInStore(b.disk, d, x);
    }
    AllFormsFrame(b.disk, fs'.disk, d);
    DirectoryFrame(b.disk, fs'.disk, d);
    assert fms[..AtMost(|fms|, 12)] == fms;
  }

  /** What the kernel finds after save_data and a reboot, given room: the user
      table as it was saved, and the form table with what the ".users" entry
      makes of it. */
  lemma SaveDataReload(fs: Fs, snaps: seq<nat>, fms: seq<Form>, us: seq<User>)
    requires StoreOk(fs, snaps) && Separate(fs.disk, snaps) && |fms| <= 11 && 1 <= |us| <= MAX_USERS
    requires TotalNeed(fms) + 4 + BlocksFor(4 + 68 * |us|) <= |Free(fs.bitmap)|
    ensures var a := SaveAll(fs, fms);
            SuperRoot(a.sb) < DISK_BLOCKS && DirKept(a, LiveDir(a))
    ensures var (c, ok) := SaveData(fs, fms, us);
            var up := Mount(c.disk);
            && ok && LoadReady(up.disk, SuperRoot(up.sb)) && UsersReady(up)
            && Load(up.disk, SuperRoot(up.sb)) == Some(Reloaded(StoredAll(fms), us))
            && UsersLoad(up) == Some(Encode(us)) && Decode(Encode(us)) == Some(us)
  {
    hide SaveAll, Free, Get32, SnapRoot, SuperRoot, UsersSave, DirKept, StoreOk, FindEntry, Encode, Decode, Load,
      LoadReady, DirGood, Reloaded, StoredAll, Listed, AllForms, Separate, Mount, IsSnap, DirNext, UsersAt,
      LoadDir, TotalNeed, BlocksFor;
    UserTableSurvives(fs, snaps, fms, us);
    var a, after := SaveAll(fs, fms), SnapsAfter(fs, snaps, fms);
    SaveAllKeepsStore(fs, snaps, fms);
    SaveAllSeparate(fs, snaps, fms);
    SaveLeavesDirOpen(fs, snaps, fms);
    SavedDir(fs, snaps, fms);
    UsersReload(a, after, us);
    UsersKeepStore(a, after, Encode(us));
    var c := SaveData(fs, fms, us).0;
    Remounts(c, Joined(a, c, after));
    GoodLoads(c.disk, SuperRoot(c.sb));
  }
}

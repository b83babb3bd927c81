/** The user table: its 68-byte records, and the ".users" object that carries
    them through HEXAFS. */
module Users {
  import opened Bytes
  import opened Bitmap
  import opened BlockCache
  import opened Store
  import opened Directory
  import opened Objects
  import opened Forms
  import opened Snapshots

  const USERS: CStr := [0x2E, 0x75, 0x73, 0x65, 0x72, 0x73]
  const USERS_UPDATE: CStr := [0x75, 0x73, 0x65, 0x72, 0x73, 0x5F, 0x75, 0x70, 0x64, 0x61, 0x74, 0x65]
  const MAX_USERS := 12

  type Field = s: seq<byte> | |s| == 32 witness Zeros(32)

  datatype User = User(name: Field, hash: Field, isRoot: byte)

  // ---- the codec ----------------------------------------------------------

  function Record(u: User): (r: seq<byte>)
    ensures |r| == 68
  {
    u.name + u.hash + [u.isRoot, 0, 0, 0]
  }

  function Records(us: seq<User>): (r: seq<byte>)
    ensures |r| == 68 * |us|
  {
    if us == [] then [] else Records(us[..|us| - 1]) + Record(us[|us| - 1])
  }

  /** The bytes save_data builds. */
  function Encode(us: seq<User>): (r: seq<byte>)
    requires |us| < 0x8000_0000
    ensures |r| == 4 + 68 * |us|
  {
    Le32(|us|) + Records(us)
  }

  method EncodeUsers(us: seq<User>) returns (raw: seq<byte>)
    requires |us| <= MAX_USERS
    ensures raw == Encode(us)
  {
    raw := [|us| % 256, |us| / 256 % 256, |us| / 256 / 256 % 256, |us| / 256 / 256 / 256];
    for i := 0 to |us|
      invariant raw == Le32(|us|) + Records(us[..i])
    {
      assert us[..i + 1][..i] == us[..i];
      raw := raw + us[i].name;
      raw := raw + us[i].hash;
      raw := raw + [us[i].isRoot] + [0, 0, 0];
      assert raw == Le32(|us|) + Records(us[..i]) + Record(us[i]);
    }
    assert us[..|us|] == us;
  }

  function UserAt(raw: seq<byte>, i: nat): User
    requires 4 + 68 * i + 68 <= |raw|
  {
    var o := 4 + 68 * i;
    User(raw[o..o + 32], raw[o + 32..o + 64], raw[o + 64])
  }

  /** What load_users accepts; None leaves the table in memory alone. */
  function Decode(raw: seq<byte>): Option<seq<User>> {
    if |raw| < 4 then None
    else
      var n := Get32(raw, 0);
      if n < 1 || n > MAX_USERS || |raw| < 4 + n * 68 then None
      else Some(seq(n, i requires 0 <= i < n => UserAt(raw, i)))
  }

  method DecodeUsers(raw: seq<byte>) returns (us: Option<seq<User>>)
    ensures us == Decode(raw)
  {
    if |raw| < 4 { return None; }
    var n := Get32(raw, 0);
    if n < 1 || n > MAX_USERS || |raw| < 4 + n * 68 { return None; }
    var table: seq<User> := [];
    for i := 0 to n
      invariant |table| == i && forall k :: 0 <= k < i ==> table[k] == UserAt(raw, k)
    {
      table := table + [UserAt(raw, i)];
    }
    assert table == Decode(raw).value;
    us := Some(table);
  }

  lemma {:induction false} RecordAt(us: seq<User>, i: nat)
    requires i < |us|
    ensures Records(us)[68 * i..68 * i + 68] == Record(us[i])
  {
    var n := |us| - 1;
    var rest := Records(us[..n]);
    assert Records(us) == rest + Record(us[n]);
    if i < n {
      RecordAt(us[..n], i);
      assert Records(us)[68 * i..68 * i + 68] == rest[68 * i..68 * i + 68];
    }
  }

  /** Tables of 1 to 12 users survive the codec; no other table does. */
  lemma CodecRoundTrip(us: seq<User>)
    requires |us| < 0x800_0000
    ensures Decode(Encode(us)) == (if 1 <= |us| <= MAX_USERS then Some(us) else None)
  {
    hide Le32, Get32, Records;
    var raw := Encode(us);
    assert raw[..4] == Le32(|us|);
    HeadWord(raw, |us|);
    if 1 <= |us| <= MAX_USERS {
      forall i | 0 <= i < |us| ensures UserAt(raw, i) == us[i] {
        RecordAt(us, i);
        var o := 4 + 68 * i;
        assert raw[o..o + 68] == Record(us[i]);
        assert raw[o..o + 32] == raw[o..o + 68][..32] && raw[o + 32..o + 64] == raw[o..o + 68][32..64];
        assert raw[o + 64] == raw[o..o + 68][64];
      }
      assert Decode(raw).value == us;
    }
  }

  /** What follows the table is ignored, and no part of it is accepted. */
  lemma DecodeReadsTable(us: seq<User>, rest: seq<byte>, k: nat)
    requires 1 <= |us| <= MAX_USERS && k < |Encode(us)|
    ensures Decode(Encode(us) + rest) == Some(us) && Decode(Encode(us)[..k]) == None
  {
    hide Le32, Get32, Records;
    var raw, all, part := Encode(us), Encode(us) + rest, Encode(us)[..k];
    assert raw[..4] == Le32(|us|);
    assert all[..4] == raw[..4];
    HeadWord(all, |us|);
    if k >= 4 {
      assert part[..4] == raw[..4];
      HeadWord(part, |us|);
    }
    CodecRoundTrip(us);
    forall i | 0 <= i < |us| ensures UserAt(all, i) == us[i] {
      SameUser(raw, rest, i);
      assert Decode(raw).value[i] == us[i];
    }
    HeadWord(raw, |us|);
    assert Decode(all).value == us;
  }

  lemma SameUser(raw: seq<byte>, rest: seq<byte>, i: nat)
    requires 4 + 68 * i + 68 <= |raw|
    ensures UserAt(raw + rest, i) == UserAt(raw, i)
  {
    var o, all := 4 + 68 * i, raw + rest;
    assert all[o..o + 32] == raw[o..o + 32] && all[o + 32..o + 64] == raw[o + 32..o + 64];
  }

  // ---- storing it ---------------------------------------------------------

  lemma AllocKeepsDir(fs: Fs, d: nat, kind: byte)
    requires DirKept(fs, d)
    ensures var (a, o) := AllocObject(fs, kind);
            && DirKept(a, d) && DirHeld(a, d) && a.disk[d] == fs.disk[d]
            && DirEntries(a.disk, d) == DirEntries(fs.disk, d)
            && (o != 0 ==> Clear(a.disk, d, o))
  {
    hide AllocObject, Get32, DirUses, DirEntries, Listed, LoadDir, DirGood, NewObj, Used, Sealed, DirBlockOk;
    AllocObjectSpec(fs, kind);
    KeptIsHeld(fs, d);
    var (a, o) := AllocObject(fs, kind);
    DirFrame(fs.disk, a.disk, d);
    DirectoryFrame(fs.disk, a.disk, d);
    KeptIsHeld(a, d);
  }

  /** Find the ".users" object of directory d, or make one; 0 if no block is free. */
  function UsersObject(fs: Fs, d: nat): (r: (Fs, nat))
    requires DirKept(fs, d)
  {
    match FindEntry(fs.disk, d, USERS)
    case Some(e) => (fs, e.obj)
    case None =>
      AllocKeepsDir(fs, d, CONFIG);
      var (a, o) := AllocObject(fs, CONFIG);
      if o == 0 then (a, 0) else (AddEntry(a, d, USERS, o, CONFIG).0, o)
  }

  lemma FirstMatchAppends(es: seq<Entry>, e: Entry, name: CStr)
    requires FirstMatch(es, name) == None
    ensures FirstMatch(es + [e], name) == if e.name == name then Some(e) else None
  {
    if es == [] {
      assert es + [e] == [e] && [e][1..] == [];
    } else {
      FirstMatchAppends(es[1..], e, name);
      assert (es + [e])[1..] == es[1..] + [e];
    }
  }

  ghost predicate HasUsers(fs: Fs, d: nat, o: nat) {
    && DirHeld(fs, d)
    && ObjOk(fs.disk, o) && Allocated(fs, o) && Clear(fs.disk, d, o)
  }

  lemma SmallerSet(a: set<nat>, b: set<nat>)
    requires a <= b
    ensures |a| <= |b|
  {
    assert b == a + (b - a);
  }

  lemma NewObjectAlone(fs: Fs, a: Fs, b: Fs, o: nat)
    requires 0 < o < DISK_BLOCKS && o in Free(fs.bitmap) && ObjBlocks(a.disk[o]) == [0, 0, 0, 0]
    requires b.disk[o] == a.disk[o]
    ensures ObjBlocks(b.disk[o]) == [0, 0, 0, 0]
    ensures forall x :: 0 <= x && ObjBlock(b.disk, o, x) ==> x in Free(fs.bitmap)
  {
    hide Get32;
  }

  lemma UsersObjectSpec(fs: Fs, d: nat)
    requires DirKept(fs, d)
    ensures var (a, o) := UsersObject(fs, d);
            && a.sb == fs.sb && a.tx == fs.tx && a.mounted == fs.mounted
            && Free(a.bitmap) <= Free(fs.bitmap)
            && (FindEntry(fs.disk, d, USERS).Some? ==> a == fs)
            && (o != 0 ==> HasUsers(a, d, o))
            && (o == 0 <==> FindEntry(fs.disk, d, USERS).None? && Free(fs.bitmap) == {})
            && (o != 0 && (FindEntry(fs.disk, d, USERS).Some?
                           || (DirNext(fs.disk[d]) == 0 && |Free(fs.bitmap)| >= 2)) ==>
                  FindEntry(a.disk, d, USERS).Some? && FindEntry(a.disk, d, USERS).value.obj == o)
            && (o != 0 && FindEntry(fs.disk, d, USERS).None? && DirNext(fs.disk[d]) != 0 ==>
                FindEntry(a.disk, d, USERS).None?)
            && |Free(a.bitmap)| >= |Free(fs.bitmap)| - 2
            && (o != 0 && FindEntry(fs.disk, d, USERS).None? ==>
                  ObjBlocks(a.disk[o]) == [0, 0, 0, 0] && |Free(a.bitmap)| <= |Free(fs.bitmap)| - 1)
            && (forall x :: 0 <= x < DISK_BLOCKS && x !in Free(fs.bitmap) && x != d ==> a.disk[x] == fs.disk[x])
            && (o != 0 ==> forall x :: 0 <= x && ObjBlock(a.disk, o, x) ==>
                x in Free(fs.bitmap) || DirUses(fs.disk, d, x))
  {
    hide Get32, DirEntries, DirNext, DirCount, DirOk, Free, AllocObject, AddEntry, FirstMatch, Sealed, DirBlockOk,
      ObjBlock, NewObj, ObjBlocks, BlocksFor;
    KeptIsHeld(fs, d);
    var es := DirEntries(fs.disk, d);
    if FindEntry(fs.disk, d, USERS).Some? {
      var e := FindEntry(fs.disk, d, USERS).value;
      var i :| 0 <= i < |es| && es[i] == e;
    } else {
      AllocObjectSpec(fs, CONFIG);
      AllocKeepsDir(fs, d, CONFIG);
      var (a, o) := AllocObject(fs, CONFIG);
      if o != 0 {
        assert |Free(a.bitmap)| == |Free(fs.bitmap)| - 1;
        AddEntryAppends(a, d, USERS, o, CONFIG);
        AddEntryKeepsHeld(a, d, USERS, o, CONFIG);
        FirstMatchAppends(es, Entry(USERS, o, CONFIG), USERS);
        var b := AddEntry(a, d, USERS, o, CONFIG).0;
        GoodUsesItself(fs.disk, d);
        EntrySurvives(a, b, d, Entry(USERS, o, CONFIG));
        NewObjectAlone(fs, a, b, o);
        SmallerSet(Free(b.bitmap), Free(a.bitmap));
      }
    }
  }

  function LiveDir(fs: Fs): nat
    requires SuperRoot(fs.sb) < DISK_BLOCKS
  {
    SnapRoot(fs.disk[SuperRoot(fs.sb)])
  }

  /** The root is a snapshot with a directory. */
  predicate HasLiveDir(fs: Fs)
    requires SuperRoot(fs.sb) < DISK_BLOCKS
  {
    SuperRoot(fs.sb) != 0 && IsSnap(fs.disk[SuperRoot(fs.sb)]) && LiveDir(fs) != 0
  }

  predicate HasLive(fs: Fs) { SuperRoot(fs.sb) < DISK_BLOCKS && HasLiveDir(fs) }

  lemma UsersTarget(fs: Fs, d: nat)
    requires DirKept(fs, d)
    ensures var (a, o) := UsersObject(fs, d);
            o != 0 ==> o < DISK_BLOCKS && Pointers(ObjBlocks(a.disk[o]))
  {
    hide UsersObject, DirKept, ObjBlocks, ObjBlock, FindEntry, DirUses, DirNext, Free;
    UsersObjectSpec(fs, d);
  }

  /** hexafs_users_save on a mounted volume with a live snapshot. */
  function UsersSave(fs: Fs, data: seq<byte>): (r: (Fs, bool))
    requires SuperRoot(fs.sb) < DISK_BLOCKS && |data| <= MAX_DATA
    requires fs.mounted && HasLiveDir(fs) ==> DirKept(fs, LiveDir(fs))
  {
    if !fs.mounted then (fs, false)
    else
      var fs1 := TxBegin(fs);
      if !HasLiveDir(fs) then (TxAbort(fs1), false)
      else
        var d := LiveDir(fs);
        UsersTarget(fs1, d);
        var (a, o) := UsersObject(fs1, d);
        if o == 0 then (TxAbort(a), false)
        else
          var (b, ok) := WriteObject(a, o, data);
          if !ok then (TxAbort(b), false)
          else (TxCommit(SnapCreate(SetNewRoot(b, d), USERS_UPDATE).0), true)
  }

  /** Without a mounted volume no save does anything. */
  lemma NothingUnmounted(fs: Fs, fms: seq<Form>, data: seq<byte>)
    requires !fs.mounted && SuperRoot(fs.sb) < DISK_BLOCKS && |data| <= MAX_DATA
    ensures SaveAll(fs, fms) == fs && UsersSave(fs, data) == (fs, false)
  {
    hide SuperRoot;
  }

  predicate UsersReady(fs: Fs) {
    && SuperRoot(fs.sb) < DISK_BLOCKS
    && (HasLiveDir(fs) ==>
          && DirOk(fs.disk, LiveDir(fs))
          && (FindEntry(fs.disk, LiveDir(fs), USERS).Some? ==>
              ObjOk(fs.disk, FindEntry(fs.disk, LiveDir(fs), USERS).value.obj)))
  }

  /** hexafs_users_load */
  function UsersLoad(fs: Fs): Option<seq<byte>>
    requires UsersReady(fs)
  {
    if HasLiveDir(fs) then UsersAt(fs.disk, LiveDir(fs)) else None
  }

  function UsersAt(disk: Disk, d: nat): Option<seq<byte>>
    requires DirOk(disk, d)
    requires FindEntry(disk, d, USERS).Some? ==> ObjOk(disk, FindEntry(disk, d, USERS).value.obj)
  {
    match FindEntry(disk, d, USERS)
    case None => None
    case Some(e) =>
      match ReadObject(disk, e.obj)
      case Absent => None
      case Content(_, _, bytes) => Some(bytes)
  }

  /** Overwriting the users object leaves its directory as it was. */
  lemma UsersWritten(a: Fs, d: nat, o: nat, data: seq<byte>)
    requires HasUsers(a, d, o) && |data| <= MAX_DATA && WriteObject(a, o, data).1
    ensures var b := WriteObject(a, o, data).0;
            && HasUsers(b, d, o) && DirEntries(b.disk, d) == DirEntries(a.disk, d)
            && ReadObject(b.disk, o) == Content(a.disk[o][4], |data|, data)
            && b.sb == a.sb && b.tx == a.tx && b.mounted == a.mounted && Free(b.bitmap) <= Free(a.bitmap)
            && (forall x :: 0 <= x < DISK_BLOCKS && x !in Free(a.bitmap) && !ObjBlock(a.disk, o, x) ==>
                b.disk[x] == a.disk[x])
  {
    hide Get32, DirEntries, ObjBlocks, WriteObject, ReadObject, FreeUnits, Sealed, DirBlockOk, BlocksFor, Hash;
    WriteObjectSpec(a, o, data);
    var b := WriteObject(a, o, data).0;
    assert b.disk[d] == a.disk[d];
    DirFrame(a.disk, b.disk, d);
  }

  /** Nothing but reserved and free blocks differs between the two states. */
  ghost predicate Outside(b: Fs, c: Fs) {
    && Free(c.bitmap) <= Free(b.bitmap)
    && forall x :: 0 <= x < DISK_BLOCKS && InStore(x) && x !in Free(b.bitmap) ==> c.disk[x] == b.disk[x]
  }

  lemma SnapCommitOutside(b: Fs, d: u32, name: CStr)
    requires b.tx.active && SuperRoot(b.sb) < DISK_BLOCKS
    ensures var mid := SnapCreate(SetNewRoot(b, d), name).0;
            var c := TxCommit(mid);
            && Outside(b, c) && SuperRoot(c.sb) == SuperRoot(mid.sb) && SuperRoot(c.sb) < DISK_BLOCKS
            && (SuperRoot(c.sb) == SuperRoot(b.sb)
                || (&& SuperRoot(c.sb) in Free(b.bitmap)
                    && IsSnap(c.disk[SuperRoot(c.sb)]) && SnapRoot(c.disk[SuperRoot(c.sb)]) == d))
  {
    hide Get32, BuildSnap, BuildSuper, SetRoot, SuperRoot, SuperTime, SuperGen, BitmapSector, SnapRoot, Used,
      IsSnap;
    var a := SetNewRoot(b, d);
    var mid := SnapCreate(a, name).0;
    SuperFields(SuperRoot(mid.sb), SuperTime(mid.sb), (SuperGen(mid.sb) + 1) % TWO32);
    var (e, s) := AllocBlock(a);
    if s != 0 {
      SetRootReads(b.sb, s);
      SnapFields(SuperRoot(b.sb), d, SuperTime(b.sb), name);
    }
  }

  /** The live directory of c is d, with the entries and the object o of b. */
  ghost predicate CarriesUsers(b: Fs, c: Fs, d: nat, o: nat)
    requires HasUsers(b, d, o)
  {
    && SuperRoot(c.sb) < DISK_BLOCKS && LiveDir(c) == d && HasLiveDir(c)
    && DirOk(c.disk, d) && DirEntries(c.disk, d) == DirEntries(b.disk, d)
    && ObjOk(c.disk, o) && ReadObject(c.disk, o) == ReadObject(b.disk, o)
  }

  /** Once the object is written, the commit makes it the live user table. */
  lemma UsersCommitted(b: Fs, d: nat, o: nat)
    requires HasUsers(b, d, o) && b.tx.active
    requires InStore(SuperRoot(b.sb)) && SuperRoot(b.sb) !in Free(b.bitmap) && IsSnap(b.disk[SuperRoot(b.sb)])
    requires LiveDir(b) == d
    ensures CarriesUsers(b, TxCommit(SnapCreate(SetNewRoot(b, d), USERS_UPDATE).0), d, o)
  {
    hide Get32, DirEntries, ObjBlocks, ReadObject, FreeUnits, Sealed, DirBlockOk, SnapCreate, TxCommit, SuperRoot,
      SnapRoot, BlocksFor, ObjBlock;
    SnapCommitOutside(b, d, USERS_UPDATE);
    var c := TxCommit(SnapCreate(SetNewRoot(b, d), USERS_UPDATE).0);
    if SuperRoot(c.sb) != SuperRoot(b.sb) {
      FreeInStore(b.bitmap, SuperRoot(c.sb));
    }
    DirFrame(b.disk, c.disk, d);
    forall x | 0 <= x < DISK_BLOCKS && ObjBlock(b.disk, o, x) ensures c.disk[x] == b.disk[x] {
      ObjBlockInStore(b.disk, o, x);
    }
    ObjectFrame(b.disk, c.disk, o);
  }

  lemma ObjBlockInStore(disk: Disk, o: nat, b: nat)
    requires ObjOk(disk, o) && ObjBlock(disk, o, b)
    ensures InStore(b)
  {
    hide Get32, BlocksFor;
    if b != o {
      var j :| 0 <= j < 4 && ObjBlocks(disk[o])[j] == b;
    }
  }

  lemma LiveSnapshot(fs: Fs, snaps: seq<nat>)
    requires StoreOk(fs, snaps) && HasLive(fs)
    ensures var r := SuperRoot(fs.sb);
            && snaps != [] && InStore(r) && r !in Free(fs.bitmap) && DirKept(fs, LiveDir(fs))
            && !DirUses(fs.disk, LiveDir(fs), r)
  {
    hide Get32, DirGood, DirUses, Free, Terminated, SuperOk, DiskBitmap, IsSnap;
    assert SnapSafe(fs.disk, fs.bitmap, snaps[0]);
    UsesItself(fs.disk, snaps[0]);
    GoodUsesItself(fs.disk, LiveDir(fs));
    DirUsesInStore(fs.disk, LiveDir(fs), LiveDir(fs));
    forall b | 0 <= b < DISK_BLOCKS && DirUses(fs.disk, LiveDir(fs), b) ensures b !in Free(fs.bitmap) {
      assert SnapUses(fs.disk, snaps[0], b);
    }
  }

  /** A sound store meets the precondition of saving the user table. */
  lemma SoundHasDir(fs: Fs, snaps: seq<nat>)
    requires StoreOk(fs, snaps)
    ensures SuperRoot(fs.sb) < DISK_BLOCKS
    ensures HasLiveDir(fs) ==> snaps != [] && DirKept(fs, LiveDir(fs))
  {
    hide Get32, SnapSafe, SuperOk, DiskBitmap, DirKept, IsSnap;
    if HasLive(fs) {
      LiveSnapshot(fs, snaps);
    }
  }

  /** What a load after a successful save of the user table finds. */
  ghost predicate UsersStored(fs: Fs, d: nat, data: seq<byte>, found: bool) {
    && UsersReady(fs) && LiveDir(fs) == d
    && UsersLoad(fs) == if found then Some(data) else None
  }

  /** The live snapshot block itself is never touched by the save. */
  lemma UsersKeepRoot(fs: Fs, d: nat, r: nat, data: seq<byte>)
    requires DirKept(fs, d) && InStore(r) && r !in Free(fs.bitmap) && !DirUses(fs.disk, d, r) && |data| <= MAX_DATA
    requires var (a, o) := UsersObject(fs, d);
             o != 0 && HasUsers(a, d, o) && WriteObject(a, o, data).1
    ensures var (a, o) := UsersObject(fs, d);
            var b := WriteObject(a, o, data).0;
            b.disk[r] == fs.disk[r] && r !in Free(b.bitmap)
  {
    hide Get32, DirEntries, WriteObject, Free, DirUses, HasUsers, UsersObject, DirNext, FirstMatch, DirOk,
      ObjBlocks, ObjBlock;
    UsersObjectSpec(fs, d);
    GoodUsesItself(fs.disk, d);
    var (a, o) := UsersObject(fs, d);
    UsersWritten(a, d, o, data);
  }

  /** A successful write of a new object needed a second free block, which is
      also the one a full directory needs for its link. */
  lemma RoomForUsers(fs: Fs, d: nat, data: seq<byte>)
    requires DirKept(fs, d) && |data| <= MAX_DATA && FindEntry(fs.disk, d, USERS).None?
    requires var (a, o) := UsersObject(fs, d);
             o != 0 && HasUsers(a, d, o) && WriteObject(a, o, data).1
    ensures data != [] ==> |Free(fs.bitmap)| >= 2
  {
    hide Get32, DirEntries, WriteObject, Free, DirUses, UsersObject, DirNext, FirstMatch, DirOk, ObjBlocks,
      ObjBlock;
    UsersObjectSpec(fs, d);
    var (a, o) := UsersObject(fs, d);
    WriteObjectSpec(a, o, data);
    NoneHeld(BlocksFor(|data|));
  }

  /** A successful hexafs_users_save can be loaded again exactly when the live
      directory already had ".users" or could take one more entry; otherwise the
      data sits in an object that nothing names, although success was reported. */
  lemma UsersRoundTrip(fs: Fs, snaps: seq<nat>, data: seq<byte>)
    requires StoreOk(fs, snaps) && |data| <= MAX_DATA
    ensures SuperRoot(fs.sb) < DISK_BLOCKS && (HasLiveDir(fs) ==> DirKept(fs, LiveDir(fs)))
    ensures var d := LiveDir(fs);
            var (fs', ok) := UsersSave(fs, data);
            ok ==> HasLiveDir(fs) && UsersStored(fs', d, data, UsersFound(fs, d))
  {
    hide Get32, DirEntries, ReadObject, WriteObject, Free, SnapCreate, TxCommit, SuperRoot, SnapRoot, DirUses,
      Allocated, Clear, UsersObject, DirNext, DirCount, FirstMatch, ChainOk, SnapSafe, SuperOk, DiskBitmap, DirOk,
      ObjBlocks, BlocksFor, IsSnap, HasLiveDir;
    SoundHasDir(fs, snaps);
    if HasLiveDir(fs) {
      LiveSnapshot(fs, snaps);
      LiveIsSnap(fs);
      var d, fs1 := LiveDir(fs), TxBegin(fs);
      UsersObjectSpec(fs1, d);
      UsersObjectNames(fs1, d);
      var (a, o) := UsersObject(fs1, d);
      if o != 0 && WriteObject(a, o, data).1 {
        UsersKeepRoot(fs1, d, SuperRoot(fs.sb), data);
        UsersWritten(a, d, o, data);
        var b := WriteObject(a, o, data).0;
        UsersCommitted(b, d, o);
      }
    }
  }

  lemma LiveIsSnap(fs: Fs)
    requires HasLive(fs)
    ensures IsSnap(fs.disk[SuperRoot(fs.sb)])
  {
  }

  /** The directory names ".users", or has or gets room for the entry. */
  predicate UsersFound(fs: Fs, d: nat)
    requires DirOk(fs.disk, d)
  {
    || FindEntry(fs.disk, d, USERS).Some?
    || (DirNext(fs.disk[d]) == 0 && LinkCost(fs.disk[d]) < |Free(fs.bitmap)|)
  }

  lemma UsersObjectNames(fs: Fs, d: nat)
    requires DirKept(fs, d)
    ensures var (a, o) := UsersObject(fs, d);
            o != 0 ==>
              && DirOk(a.disk, d)
              && (FindEntry(a.disk, d, USERS).Some? <==> UsersFound(fs, d))
              && (UsersFound(fs, d) ==> FindEntry(a.disk, d, USERS).value.obj == o)
  {
    hide Get32, DirEntries, DirNext, DirCount, DirOk, Free, AllocObject, AddEntry, FirstMatch, Sealed, DirBlockOk,
      NewObj, ObjBlocks, ObjOk, Clear, DirUses, ObjBlock;
    UsersObjectSpec(fs, d);
    if FindEntry(fs.disk, d, USERS).None? {
      KeptIsHeld(fs, d);
      GoodUsesItself(fs.disk, d);
      AllocObjectSpec(fs, CONFIG);
      AllocKeepsDir(fs, d, CONFIG);
      var (a, o) := AllocObject(fs, CONFIG);
      if o != 0 {
        assert |Free(a.bitmap)| == |Free(fs.bitmap)| - 1;
        AddEntryAppends(a, d, USERS, o, CONFIG);
        SizeOfDir(fs.disk, d);
        NoneFree(a.bitmap);
        FirstMatchAppends(DirEntries(fs.disk, d), Entry(USERS, o, CONFIG), USERS);
      }
    }
  }

  lemma {:induction false} MissingAtMost(olds: seq<u32>, n: nat)
    requires n <= |olds|
    ensures Missing(olds, n) <= n
  {
    if n > 0 {
      MissingAtMost(olds, n - 1);
    }
  }

  lemma SmallerByOne(a: set<nat>, b: set<nat>, x: nat)
    requires a <= b && x in b && x !in a
    ensures |a| <= |b| - 1
  {
    SmallerSet(a, b - {x});
  }

  /** What making the ".users" object costs. */
  lemma UsersObjectCost(fs: Fs, d: nat)
    requires DirKept(fs, d) && FindEntry(fs.disk, d, USERS).None? && Free(fs.bitmap) != {}
    ensures var n := |Free(fs.bitmap)| - 1 - LinkCost(fs.disk[d]);
            |Free(UsersObject(fs, d).0.bitmap)| == if n < 0 then 0 else n
  {
    hide Get32, DirEntries, DirNext, DirCount, DirOk, Free, AllocObject, AddEntry, FirstMatch, Sealed, DirBlockOk,
      NewObj, ObjBlocks;
    KeptIsHeld(fs, d);
    GoodUsesItself(fs.disk, d);
    AllocObjectSpec(fs, CONFIG);
    AllocKeepsDir(fs, d, CONFIG);
    var (a, o) := AllocObject(fs, CONFIG);
    assert |Free(a.bitmap)| == |Free(fs.bitmap)| - 1;
    AddEntryAppends(a, d, USERS, o, CONFIG);
    AddEntryKeepsHeld(a, d, USERS, o, CONFIG);
    SizeOfDir(a.disk, d);
    var (b, ok) := AddEntry(a, d, USERS, o, CONFIG);
    if LinkCost(fs.disk[d]) == 1 && ok {
      SmallerByOne(Free(b.bitmap), Free(a.bitmap), DirNext(b.disk[d]));
    }
  }

  /** hexafs_users_save reports success exactly when the blocks it needs are free. */
  lemma UsersSaveSucceeds(fs: Fs, snaps: seq<nat>, data: seq<byte>)
    requires StoreOk(fs, snaps) && |data| <= MAX_DATA
    ensures SuperRoot(fs.sb) < DISK_BLOCKS && (HasLiveDir(fs) ==> DirKept(fs, LiveDir(fs)))
    ensures UsersSave(fs, data).1 <==> HasLiveDir(fs) && UsersFit(fs, LiveDir(fs), |data|)
  {
    hide Get32, DirEntries, ReadObject, WriteObject, Free, SnapCreate, TxCommit, SuperRoot, SnapRoot, DirUses,
      Clear, UsersObject, DirNext, FirstMatch, ChainOk, SnapSafe, SuperOk, DiskBitmap, DirOk, ObjBlocks, LinkCost,
      FindEntry, ObjBlock, HasLiveDir;
    SoundHasDir(fs, snaps);
    if HasLiveDir(fs) {
      LiveSnapshot(fs, snaps);
      var d, fs1 := LiveDir(fs), TxBegin(fs);
      UsersObjectSpec(fs1, d);
      NoneFree(fs1.bitmap);
      var (a, o) := UsersObject(fs1, d);
      if o != 0 {
        WriteObjectSpec(a, o, data);
        if FindEntry(fs.disk, d, USERS).None? {
          UsersObjectCost(fs1, d);
          NoneHeld(BlocksFor(|data|));
        }
      }
    }
  }

  /** The blocks a save of n bytes needs are free. */
  predicate UsersFit(fs: Fs, d: nat, n: nat)
    requires DirKept(fs, d)
  {
    match FindEntry(fs.disk, d, USERS)
    case Some(e) => Missing(ObjBlocks(fs.disk[e.obj]), BlocksFor(n)) <= |Free(fs.bitmap)|
    case None => 1 + (if n == 0 then 0 else LinkCost(fs.disk[d]) + BlocksFor(n)) <= |Free(fs.bitmap)|
  }

  lemma UsersHasRoom(fs: Fs, snaps: seq<nat>, data: seq<byte>)
    requires StoreOk(fs, snaps) && HasLive(fs) && |data| <= MAX_DATA
    ensures DirKept(fs, LiveDir(fs))
    ensures 2 + BlocksFor(|data|) <= |Free(fs.bitmap)| ==> UsersSave(fs, data).1
  {
    hide UsersSave, Free, BlocksFor, Missing, ObjBlocks, SuperRoot, Get32, DirNext, DirCount, StoreOk, DirUses,
      ObjBlock, FirstMatch;
    LiveSnapshot(fs, snaps);
    UsersSaveSucceeds(fs, snaps, data);
    var d := LiveDir(fs);
    match FindEntry(fs.disk, d, USERS)
    case Some(e) => MissingAtMost(ObjBlocks(fs.disk[e.obj]), BlocksFor(|data|));
    case None =>
  }

  /** save_data: the form table into a new snapshot, then the user table into its directory. */
  function SaveData(fs: Fs, fms: seq<Form>, us: seq<User>): (r: (Fs, bool))
    requires 1 <= |us| <= MAX_USERS
    requires var a := SaveAll(fs, fms);
             SuperRoot(a.sb) < DISK_BLOCKS && DirKept(a, LiveDir(a))
  {
    UsersSave(SaveAll(fs, fms), Encode(us))
  }

  /** With at most eleven forms the user table survives encoding, storing,
      loading and decoding whenever the save reports success, which it does
      when there is room for the object, its data and a directory link. */
  lemma UserTableSurvives(fs: Fs, snaps: seq<nat>, fms: seq<Form>, us: seq<User>)
    requires StoreOk(fs, snaps) && |fms| <= 11 && 1 <= |us| <= MAX_USERS
    requires TotalNeed(fms) + 2 <= |Free(fs.bitmap)|
    ensures var a := SaveAll(fs, fms);
            SuperRoot(a.sb) < DISK_BLOCKS && DirKept(a, LiveDir(a))
    ensures var (fs', ok) := SaveData(fs, fms, us);
            && (ok ==> UsersStored(fs', LiveDir(SaveAll(fs, fms)), Encode(us), true) && Decode(Encode(us)) == Some(us))
            && (TotalNeed(fms) + 4 + BlocksFor(4 + 68 * |us|) <= |Free(fs.bitmap)| ==> ok)
  {
    hide SaveAll, Free, Get32, SnapRoot, SuperRoot, UsersSave, UsersStored, DirUses, StoreOk, FirstMatch, Encode,
      Decode, HasLiveDir, UsersFit, UsersFound, DirNext, DirEntries, ObjOk, Clear, BlocksFor;
    SaveAllKeepsStore(fs, snaps, fms);
    SaveLeavesDirOpen(fs, snaps, fms);
    var a, after := SaveAll(fs, fms), SnapsAfter(fs, snaps, fms);
    LiveSnapshot(a, after);
    UsersRoundTrip(a, after, Encode(us));
    UsersHasRoom(a, after, Encode(us));
    UsersSaveSucceeds(a, after, Encode(us));
    FitFinds(a, LiveDir(a), |Encode(us)|);
    CodecRoundTrip(us);
  }

  lemma FitFinds(fs: Fs, d: nat, n: nat)
    requires DirKept(fs, d) && n > 0
    ensures UsersFit(fs, d, n) && DirNext(fs.disk[d]) == 0 ==> UsersFound(fs, d)
  {
    hide Get32, DirEntries, Free, FirstMatch, ObjBlocks, Missing, DirNext, DirCount, DirUses, ObjOk;
  }

  lemma SnapCreateCost(fs: Fs, name: CStr)
    ensures |Free(SnapCreate(fs, name).0.bitmap)| >= |Free(fs.bitmap)| - 1
  {
    hide Free, BuildSnap, SetRoot, SuperRoot, SuperTime;
  }

  /** A save of at most eleven forms puts a snapshot in front whose directory is not linked. */
  lemma SaveLeavesDirOpen(fs: Fs, snaps: seq<nat>, fms: seq<Form>)
    requires StoreOk(fs, snaps) && |fms| <= 11
    requires TotalNeed(fms) + 2 <= |Free(fs.bitmap)|
    ensures var a := SaveAll(fs, fms);
            && SnapsAfter(fs, snaps, fms) != [] && HasLive(a)
            && SuperRoot(a.sb) < DISK_BLOCKS && LiveDir(a) < DISK_BLOCKS && DirNext(a.disk[LiveDir(a)]) == 0
            && |Free(a.bitmap)| >= |Free(fs.bitmap)| - TotalNeed(fms) - 2
  {
    hide Free, DirKept, DirHeld, DirEntries, SaveForms, SnapCreate, CreateDir, TotalNeed, ChainOk, SnapSafe,
      Commit, DiskBitmap, SuperOk, Grew, SuperRoot, SnapRoot, StoredAll, Listed, DirNext, BuildSnap, DirUses,
      SetRoot, SuperTime, Get32, SnapForms, LoadDir, SnapName, IsSnap, Prepared, HasLiveDir, LiveDir;
    PrepareSpec(fs, fms);
    var fs1 := TxBegin(fs);
    CreateDirSpec(fs1);
    CreateDirLists(fs1);
    var (a, d) := CreateDir(fs1);
    assert |Free(a.bitmap)| == |Free(fs.bitmap)| - 1;
    SaveFormsLists(a, d, fms);
    SaveFormsKeeps(a, d, fms);
    var b := SaveForms(a, d, fms);
    GrewRefl(fs, fs1);
    GrewCreateDir(fs, fs1);
    GrewForms(fs, a, d, fms);
    RootSet(fs, b, d);
    var c := SetNewRoot(b, d);
    SnapCreateSpec(fs, c, d, LIVE);
    SnapCreateCost(c, LIVE);
    var mid := SnapCreate(c, LIVE).0;
    PreparedIsDirty(fs, mid, d, LIVE);
    CommitIs(mid);
    CommitDisk(fs, mid);
    SavedRoot(fs, mid, d, LIVE, TxCommit(mid));
  }

  /** A committed snapshot of directory d makes it the live one. */
  lemma SavedRoot(fs: Fs, mid: Fs, d: nat, name: CStr, fs': Fs)
    requires Prepared(fs, mid, d, name) && mid.tx.snap != 0 && d != 0 && SuperRoot(fs'.sb) == SuperRoot(mid.sb)
    requires forall x :: 0 <= x < DISK_BLOCKS && InStore(x) ==> fs'.disk[x] == mid.disk[x]
    ensures HasLive(fs') && LiveDir(fs') == d && d < DISK_BLOCKS && fs'.disk[d] == mid.disk[d]
  {
    hide Get32, Free, Grew, BuildSnap, SetRoot, SuperRoot, SuperTime, DirUses, Terminated, SnapRoot, SnapParent,
      SnapName, RootForms, RootLoad, IsSnap, DirKept;
    SetRootReads(fs.sb, mid.tx.snap);
    FreeInStore(fs.bitmap, mid.tx.snap);
    FreeInStore(fs.bitmap, d);
    NewSnapSafe(fs, mid, d, name, fs'.disk);
  }
}

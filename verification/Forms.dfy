/** Forms (the files of HexaOS) as HEXAFS stores them: one object per form,
    one directory per saved form table. */
module Forms {
  import opened Bytes
  import opened Bitmap
  import opened BlockCache
  import opened Store
  import opened Directory
  import opened Objects

  type u16 = x: int | 0 <= x < 0x1_0000

  datatype Form = Form(name: CStr, content: seq<byte>, owner: i32, mode: u16)

  const DEFAULT_MODE: u16 := 0x1A4

  /** Owner, mode and an unused word precede the content; the whole is cut to 2048 bytes. */
  function Payload(f: Form): (p: seq<byte>)
    ensures 10 <= |p| <= MAX_DATA
  {
    var copy := if 10 + |f.content| > 2048 then 2038 else |f.content|;
    Le32(Unsigned(f.owner)) + [f.mode % 256, f.mode / 256] + Le32(0) + f.content[..copy]
  }

  /** What hexafs_load_all makes of an object's bytes. */
  function Parse(name: CStr, b: seq<byte>): Form {
    var owner := if |b| >= 4 then Signed(Get32(b, 0)) else 0;
    var o1 := if |b| >= 4 then 4 else 0;
    var mode: u16 := if |b| >= o1 + 2 then var lo: int, hi: int := b[o1], b[o1 + 1]; lo + 256 * hi else DEFAULT_MODE;
    var o2 := if |b| >= o1 + 2 then o1 + 2 else o1;
    var o3 := if |b| >= o2 + 4 then o2 + 4 else o2;
    Form(name, b[o3..], if 0 <= owner < 12 then owner else 0, mode)
  }

  /** The form as it comes back: long names and contents are cut, and an owner
      outside 0..11 becomes 0. */
  function Stored(f: Form): Form {
    Form(Cut(f.name), if |f.content| <= 2038 then f.content else f.content[..2038],
         if 0 <= f.owner < 12 then f.owner else 0, f.mode)
  }

  lemma HeadWord(p: seq<byte>, v: u32)
    requires |p| >= 4 && p[..4] == Le32(v)
    ensures Get32(p, 0) == v
  {
    hide Le32;
    LeWord(v);
    assert p[..4][0] == p[0] && p[..4][1] == p[1] && p[..4][2] == p[2] && p[..4][3] == p[3];
  }

  lemma SignedUnsigned(x: i32)
    ensures Signed(Unsigned(x)) == x
  {
  }

  lemma ParsePayload(f: Form)
    ensures Parse(Cut(f.name), Payload(f)) == Stored(f)
  {
    hide Get32, Le32, Signed, Unsigned, Cut;
    var p := Payload(f);
    assert p[..4] == Le32(Unsigned(f.owner));
    HeadWord(p, Unsigned(f.owner));
    SignedUnsigned(f.owner);
    assert p[4] == f.mode % 256 && p[5] == f.mode / 256;
    var copy := if 10 + |f.content| > 2048 then 2038 else |f.content|;
    assert p[10..] == f.content[..copy];
  }

  /** Objects too short for all metadata: what is missing gets its default, and
      the content starts behind what is there. */
  lemma ParseShort(name: CStr, b: seq<byte>)
    ensures |b| < 2 ==> Parse(name, b) == Form(name, b, 0, 0x1A4)
    ensures |b| == 2 || |b| == 3 ==> Parse(name, b) == Form(name, b[2..], 0, b[0] as int + 256 * b[1] as int)
    ensures |b| == 4 || |b| == 5 ==>
              Parse(name, b).mode == 0x1A4 && Parse(name, b).content == b[4..]
    ensures 6 <= |b| < 10 ==> Parse(name, b).mode == b[4] as int + 256 * b[5] as int && Parse(name, b).content == b[6..]
    ensures |b| >= 10 ==> Parse(name, b).mode == b[4] as int + 256 * b[5] as int && Parse(name, b).content == b[10..]
    ensures |b| >= 4 ==> Parse(name, b).owner == (if Get32(b, 0) < 12 then Get32(b, 0) else 0)
    ensures Parse(name, b).name == name
  {
    hide Get32;
  }

  lemma NewTarget(fs: Fs, kind: byte)
    ensures var (a, o) := AllocObject(fs, kind);
            o != 0 ==> o < DISK_BLOCKS && Pointers(ObjBlocks(a.disk[o]))
  {
    hide AllocObject, ObjBlocks, Free, NewObj;
    AllocObjectSpec(fs, kind);
  }

  /** form_from_fentry: the object's block, or 0. */
  function SaveObject(fs: Fs, f: Form): (r: (Fs, nat)) {
    var (a, o) := AllocObject(fs, FORM);
    if o == 0 then (a, 0)
    else
      NewTarget(fs, FORM);
      var (b, ok) := WriteObject(a, o, Payload(f));
      if ok then (b, o) else (FreeBlock(b, o), 0)
  }

  function Need(f: Form): nat {
    1 + BlocksFor(|Payload(f)|)
  }

  lemma NoneHeld(n: nat)
    requires n <= 4
    ensures Missing([0, 0, 0, 0], n) == n
  {
  }

  lemma AllocObjectSpec(fs: Fs, kind: byte)
    ensures var (a, o) := AllocObject(fs, kind);
            && Touches(fs, a, [])
            && (o != 0 <==> Free(fs.bitmap) != {})
            && (o != 0 ==>
                  && InStore(o) && o in Free(fs.bitmap) && Free(a.bitmap) == Free(fs.bitmap) - {o}
                  && a.disk[o] == NewObj(kind, SuperTime(fs.sb)) && a.disk[o][4] == kind
                  && ObjBlocks(a.disk[o]) == [0, 0, 0, 0]
                  && ObjOk(a.disk, o) && Allocated(a, o))
  {
    hide Hash, Get32, NewObj, SuperTime;
    NewObjFields(kind, SuperTime(fs.sb));
  }

  /** A form takes its header and data blocks from the free ones, or fails and
      leaves every used block alone. */
  lemma SaveObjectSpec(fs: Fs, f: Form)
    ensures var (fs', o) := SaveObject(fs, f);
            && Touches(fs, fs', [])
            && (o != 0 <==> Need(f) <= |Free(fs.bitmap)|)
            && (o != 0 ==>
                  && o in Free(fs.bitmap)
                  && |Free(fs'.bitmap)| == |Free(fs.bitmap)| - Need(f)
                  && ObjOk(fs'.disk, o) && Allocated(fs', o)
                  && (forall b :: 0 <= b && ObjBlock(fs'.disk, o, b) ==> b in Free(fs.bitmap))
                  && ReadObject(fs'.disk, o) == Content(FORM, |Payload(f)|, Payload(f)))
  {
    hide Hash, Get32, NewObj, WriteObject, ReadObject, Payload, SuperTime, AllocObject, ObjBlocks, Missing, Free,
      BlocksFor;
    AllocObjectSpec(fs, FORM);
    var (a, o) := AllocObject(fs, FORM);
    if o != 0 {
      WriteObjectSpec(a, o, Payload(f));
      NoneHeld(BlocksFor(|Payload(f)|));
      NewObjFields(FORM, SuperTime(fs.sb));
      assert ObjBlocks(a.disk[o]) == [0, 0, 0, 0];
      var (b, ok) := WriteObject(a, o, Payload(f));
      forall c | 0 <= c < DISK_BLOCKS && c !in Free(fs.bitmap) ensures b.disk[c] == fs.disk[c] {
        assert c != o && c !in Free(a.bitmap);
      }
    }
  }

  /** A form that cannot be stored gives its header block back: the data loop
      has taken every other one. */
  lemma SaveObjectFails(fs: Fs, f: Form)
    requires SaveObject(fs, f).1 == 0
    ensures var free := Free(SaveObject(fs, f).0.bitmap);
            if Free(fs.bitmap) == {} then free == {} else free == {AllocObject(fs, FORM).1}
  {
    hide NewObj, Payload, SuperTime, Free, BlocksFor, WriteChunks, AllocObject, ObjBlocks, Chunk;
    AllocObjectSpec(fs, FORM);
    var (a, o) := AllocObject(fs, FORM);
    if o != 0 {
      NewTarget(fs, FORM);
      NewObjFields(FORM, SuperTime(fs.sb));
      WriteChunksFails(a, ObjBlocks(a.disk[o]), Payload(f), BlocksFor(|Payload(f)|));
      WriteChunksSpec(a, ObjBlocks(a.disk[o]), Payload(f), BlocksFor(|Payload(f)|));
    }
  }

  // ---- saving the table into a directory ----------------------------------

  predicate DirHeld(fs: Fs, d: nat) {
    && DirOk(fs.disk, d)
    && d !in Free(fs.bitmap)
    && (DirNext(fs.disk[d]) != 0 ==> DirNext(fs.disk[d]) !in Free(fs.bitmap))
  }

  lemma DirFrame(disk: Disk, disk': Disk, d: nat)
    requires DirOk(disk, d)
    requires disk'[d] == disk[d]
    requires DirNext(disk[d]) != 0 ==> disk'[DirNext(disk[d])] == disk[DirNext(disk[d])]
    ensures DirOk(disk', d) && DirEntries(disk', d) == DirEntries(disk, d)
  {
    hide Get32, Sealed, DirBlockOk;
  }

  lemma SaveObjectKeepsDir(fs: Fs, d: nat, f: Form)
    requires DirHeld(fs, d)
    ensures var fs' := SaveObject(fs, f).0;
            DirHeld(fs', d) && DirEntries(fs'.disk, d) == DirEntries(fs.disk, d) && fs'.disk[d] == fs.disk[d]
  {
    hide SaveObject, Get32, Sealed, DirBlockOk, Payload;
    SaveObjectSpec(fs, f);
    DirFrame(fs.disk, SaveObject(fs, f).0.disk, d);
  }

  lemma AddEntryKeepsHeld(fs: Fs, d: nat, name: CStr, obj: u32, kind: byte)
    requires DirHeld(fs, d)
    ensures var (fs', ok) := AddEntry(fs, d, name, obj, kind);
            && DirHeld(fs', d)
            && Free(fs'.bitmap) <= Free(fs.bitmap)
            && fs'.sb == fs.sb && fs'.tx == fs.tx && fs'.mounted == fs.mounted
            && (forall b :: 0 <= b < DISK_BLOCKS && b !in Free(fs.bitmap) && b != d ==> fs'.disk[b] == fs.disk[b])
            && |Free(fs.bitmap)| - 1 <= |Free(fs'.bitmap)|
            && (DirNext(fs'.disk[d]) == DirNext(fs.disk[d]) || DirNext(fs'.disk[d]) in Free(fs.bitmap))
            && (DirCount(fs.disk[d]) < MAX_ENTRIES || DirNext(fs.disk[d]) != 0 ==> Free(fs'.bitmap) == Free(fs.bitmap))
  {
    hide Get32, Put32, Sealed, PutEntry, EmptyDir, Free, Entries, DirEntries, Terminated;
    AddEntryAppends(fs, d, name, obj, kind);
    var s := fs.disk[d];
    if Sealed(s, 8) {
      if DirCount(s) == MAX_ENTRIES {
        AddLinkedBlock(fs, d, name, obj, kind);
      } else {
        assert DirCount(s) < MAX_ENTRIES;
      }
    }
  }

  /** The twelfth entry: one free block is taken and the first block is rewritten. */
  lemma AddLinkedBlock(fs: Fs, d: nat, name: CStr, obj: u32, kind: byte)
    requires DirHeld(fs, d) && Sealed(fs.disk[d], 8) && DirCount(fs.disk[d]) == MAX_ENTRIES
    ensures var (fs', ok) := AddEntry(fs, d, name, obj, kind);
            && Free(fs'.bitmap) <= Free(fs.bitmap)
            && fs'.sb == fs.sb && fs'.tx == fs.tx && fs'.mounted == fs.mounted
            && |Free(fs.bitmap)| - 1 <= |Free(fs'.bitmap)|
            && (forall b :: 0 <= b < DISK_BLOCKS && b !in Free(fs.bitmap) && b != d ==> fs'.disk[b] == fs.disk[b])
            && (ok ==> DirNext(fs'.disk[d]) !in Free(fs'.bitmap) && DirNext(fs'.disk[d]) in Free(fs.bitmap))
  {
    hide Get32, Put32, Sealed, DirBlockOk, PutEntry, EmptyDir, Free, Entries, DirEntries;
    var s := fs.disk[d];
    var (fs1, b) := CreateDir(fs);
    if b != 0 {
      EmptyDirFields();
      LinkBreaksSeal(s, b);
      var fs' := AddEntry(fs, d, name, obj, kind).0;
      assert fs'.disk[d] == Put32(s, 496, b);
      assert |Free(fs1.bitmap)| == |Free(fs.bitmap)| - 1;
    }
  }

  /** One round of the save loop.  Failures are not noticed: the form is just
      missing from the directory. */
  function SaveForm(fs: Fs, d: nat, f: Form): (r: Fs)
    requires DirHeld(fs, d)
    ensures DirHeld(r, d)
  {
    SaveObjectKeepsDir(fs, d, f);
    var (a, o) := SaveObject(fs, f);
    if o == 0 then a
    else
      AddEntryKeepsHeld(a, d, f.name, o, FORM);
      AddEntry(a, d, f.name, o, FORM).0
  }

  function SaveForms(fs: Fs, d: nat, fms: seq<Form>): (r: Fs)
    requires DirHeld(fs, d)
    ensures DirHeld(r, d)
  {
    if fms == [] then fs else SaveForm(SaveForms(fs, d, fms[..|fms| - 1]), d, fms[|fms| - 1])
  }

  // ---- reading it back ----------------------------------------------------

  /** The object uses none of the directory's own blocks. */
  predicate Clear(disk: Disk, d: nat, o: nat)
    requires d < DISK_BLOCKS && o < DISK_BLOCKS
  {
    !ObjBlock(disk, o, d) && (DirNext(disk[d]) != 0 ==> !ObjBlock(disk, o, DirNext(disk[d])))
  }

  /** Every entry names a well-formed object clear of the directory itself. */
  predicate DirGood(disk: Disk, d: nat) {
    && DirOk(disk, d)
    && forall i :: 0 <= i < |DirEntries(disk, d)| ==>
         ObjOk(disk, DirEntries(disk, d)[i].obj) && Clear(disk, d, DirEntries(disk, d)[i].obj)
  }

  function LoadEntry(disk: Disk, e: Entry): Form
    requires ObjOk(disk, e.obj)
  {
    match ReadObject(disk, e.obj)
    case Content(kind, _, bytes) => if kind == FORM then Parse(e.name, bytes) else Form(e.name, [], 0, DEFAULT_MODE)
    case Absent => Form(e.name, [], 0, DEFAULT_MODE)
  }

  /** An entry that names no form is an empty one, of owner 0 and mode 0644. */
  lemma NotAForm(disk: Disk, e: Entry)
    requires ObjOk(disk, e.obj)
    ensures disk[e.obj][4] != 1 ==> LoadEntry(disk, e) == Form(e.name, [], 0, 0x1A4)
  {
    hide Get32, Gather;
  }

  /** Every form a directory lists, in order. */
  function Listed(disk: Disk, d: nat): (r: seq<Form>)
    requires DirGood(disk, d)
    ensures |r| == |DirEntries(disk, d)|
    ensures forall i :: 0 <= i < |r| ==> r[i] == LoadEntry(disk, DirEntries(disk, d)[i])
  {
    var es := DirEntries(disk, d);
    seq(|es|, i requires 0 <= i < |es| => LoadEntry(disk, es[i]))
  }

  /** hexafs_load_all reads the first block only. */
  function LoadDir(disk: Disk, d: nat): (r: seq<Form>)
    requires DirGood(disk, d)
  {
    Listed(disk, d)[..DirCount(disk[d])]
  }

  /** A block the directory or one of its objects occupies. */
  predicate DirUses(disk: Disk, d: nat, b: nat)
    requires DirGood(disk, d)
  {
    || DirBlock(disk, d, b)
    || exists i :: 0 <= i < |DirEntries(disk, d)| && ObjBlock(disk, DirEntries(disk, d)[i].obj, b)
  }

  /** A directory decodes to the same forms on any disk that agrees on its blocks. */
  lemma DirectoryFrame(disk: Disk, disk': Disk, d: nat)
    requires DirGood(disk, d)
    requires forall b :: 0 <= b < DISK_BLOCKS && DirUses(disk, d, b) ==> disk'[b] == disk[b]
    ensures DirGood(disk', d) && Listed(disk', d) == Listed(disk, d) && LoadDir(disk', d) == LoadDir(disk, d)
    ensures forall b :: 0 <= b ==> (DirUses(disk', d, b) <==> DirUses(disk, d, b))
  {
    hide Get32, DirBlockOk, Sealed, ObjBlocks, ReadObject, Parse, BlocksFor;
    assert DirUses(disk, d, d);
    if DirNext(disk[d]) != 0 {
      assert DirUses(disk, d, DirNext(disk[d]));
    }
    DirFrame(disk, disk', d);
    var es := DirEntries(disk, d);
    hide DirOk, DirEntries;
    forall i | 0 <= i < |es|
      ensures ObjOk(disk', es[i].obj) && LoadEntry(disk', es[i]) == LoadEntry(disk, es[i])
      ensures forall b :: 0 <= b ==> (ObjBlock(disk', es[i].obj, b) <==> ObjBlock(disk, es[i].obj, b))
    {
      ObjectFrame(disk, disk', es[i].obj);
    }
  }

  /** The directory, its objects and all their blocks are allocated. */
  predicate DirKept(fs: Fs, d: nat) {
    && DirGood(fs.disk, d)
    && forall b :: 0 <= b < DISK_BLOCKS && DirUses(fs.disk, d, b) ==> b !in Free(fs.bitmap)
  }

  lemma KeptIsHeld(fs: Fs, d: nat)
    requires DirKept(fs, d)
    ensures DirHeld(fs, d)
    ensures forall i :: 0 <= i < |DirEntries(fs.disk, d)| ==> Allocated(fs, DirEntries(fs.disk, d)[i].obj)
  {
    hide Get32, Sealed, DirBlockOk, Entries, Free, ObjBlock, ObjBlocks, BlocksFor;
    assert DirUses(fs.disk, d, d);
    if DirNext(fs.disk[d]) != 0 {
      assert DirUses(fs.disk, d, DirNext(fs.disk[d]));
    }
    hide DirOk, DirEntries;
    var es := DirEntries(fs.disk, d);
    forall i, b | 0 <= i < |es| && 0 <= b < DISK_BLOCKS && ObjBlock(fs.disk, es[i].obj, b)
      ensures b !in Free(fs.bitmap)
    {
      assert DirUses(fs.disk, d, b);
    }
  }

  lemma SaveObjectKeepsForms(fs: Fs, d: nat, f: Form)
    requires DirKept(fs, d)
    ensures var fs' := SaveObject(fs, f).0;
            DirKept(fs', d) && Listed(fs'.disk, d) == Listed(fs.disk, d) && fs'.disk[d] == fs.disk[d]
  {
    hide SaveObject, Get32, DirOk, DirEntries, Listed, ObjOk, ObjBlock, Free, LoadDir;
    SaveObjectSpec(fs, f);
    KeptIsHeld(fs, d);
    SaveObjectKeepsDir(fs, d, f);
    DirectoryFrame(fs.disk, SaveObject(fs, f).0.disk, d);
  }

  ghost predicate AddOutcome(fs: Fs, d: nat, e: Entry, fs': Fs, ok: bool)
    requires DirKept(fs, d) && ObjOk(fs.disk, e.obj)
  {
    && DirKept(fs', d)
    && (ok ==> Listed(fs'.disk, d) == Listed(fs.disk, d) + [LoadEntry(fs.disk, e)])
    && (!ok ==> fs' == fs)
  }

  /** Adding a stored object to its directory lists it last. */
  lemma AddObjectLists(fs: Fs, d: nat, name: CStr, o: u32, kind: byte)
    requires DirKept(fs, d) && DirHeld(fs, d)
    requires ObjOk(fs.disk, o) && Allocated(fs, o) && Clear(fs.disk, d, o)
    ensures var (fs', ok) := AddEntry(fs, d, name, o, kind);
            AddOutcome(fs, d, Entry(Cut(name), o, kind), fs', ok)
  {
    hide Get32, DirEntries, ObjBlocks, Free, AddEntry, Sealed, DirBlockOk, AddOutcome, BlocksFor;
    AddEntryAppends(fs, d, name, o, kind);
    AddEntryKeepsHeld(fs, d, name, o, kind);
    var (fs', ok) := AddEntry(fs, d, name, o, kind);
    if ok {
      ListGrows(fs, fs', d, Entry(Cut(name), o, kind));
    } else {
      ListStays(fs, d, Entry(Cut(name), o, kind));
    }
  }

  lemma ListStays(fs: Fs, d: nat, e: Entry)
    requires DirKept(fs, d) && ObjOk(fs.disk, e.obj)
    ensures AddOutcome(fs, d, e, fs, false)
  {
  }

  lemma ListGrows(fs: Fs, fs': Fs, d: nat, e: Entry)
    requires DirKept(fs, d) && DirHeld(fs', d)
    requires d < DISK_BLOCKS && ObjOk(fs.disk, e.obj) && Allocated(fs, e.obj) && Clear(fs.disk, d, e.obj)
    requires DirNext(fs'.disk[d]) == DirNext(fs.disk[d]) || DirNext(fs'.disk[d]) in Free(fs.bitmap)
    requires DirEntries(fs'.disk, d) == DirEntries(fs.disk, d) + [e]
    requires Free(fs'.bitmap) <= Free(fs.bitmap)
    requires forall b :: 0 <= b < DISK_BLOCKS && b !in Free(fs.bitmap) && b != d ==> fs'.disk[b] == fs.disk[b]
    ensures AddOutcome(fs, d, e, fs', true)
  {
    hide Get32, DirOk, DirEntries, ObjBlock, ObjBlocks, BlocksFor, IsObj, Free, LoadEntry, DirNext;
    KeptIsHeld(fs, d);
    var es := DirEntries(fs'.disk, d);
    forall i | 0 <= i < |es|
      ensures ObjOk(fs'.disk, es[i].obj) && Clear(fs'.disk, d, es[i].obj)
      ensures ObjOk(fs.disk, es[i].obj) && LoadEntry(fs'.disk, es[i]) == LoadEntry(fs.disk, es[i])
      ensures Allocated(fs', es[i].obj)
    {
      EntrySurvives(fs, fs', d, es[i]);
    }
    DirUsesAllocated(fs', d);
    assert Listed(fs'.disk, d) == Listed(fs.disk, d) + [LoadEntry(fs.disk, e)];
  }

  lemma EntrySurvives(fs: Fs, fs': Fs, d: nat, e: Entry)
    requires d < DISK_BLOCKS && ObjOk(fs.disk, e.obj) && Allocated(fs, e.obj) && Clear(fs.disk, d, e.obj)
    requires DirNext(fs'.disk[d]) == DirNext(fs.disk[d]) || DirNext(fs'.disk[d]) in Free(fs.bitmap)
    requires Free(fs'.bitmap) <= Free(fs.bitmap)
    requires forall b :: 0 <= b < DISK_BLOCKS && b !in Free(fs.bitmap) && b != d ==> fs'.disk[b] == fs.disk[b]
    ensures ObjOk(fs'.disk, e.obj) && Clear(fs'.disk, d, e.obj)
    ensures LoadEntry(fs'.disk, e) == LoadEntry(fs.disk, e)
    ensures Allocated(fs', e.obj)
  {
    hide Get32, ObjBlock, Used, ReadObject, Parse;
    ObjectFrame(fs.disk, fs'.disk, e.obj);
  }

  lemma DirUsesAllocated(fs: Fs, d: nat)
    requires DirHeld(fs, d) && DirGood(fs.disk, d)
    requires forall i :: 0 <= i < |DirEntries(fs.disk, d)| ==> Allocated(fs, DirEntries(fs.disk, d)[i].obj)
    ensures DirKept(fs, d)
  {
    hide Get32, Sealed, DirBlockOk, Entries, Free, ObjBlock, ObjOk, DirEntries;
  }

  /** Does this round of the save loop list the form? */
  predicate Fits(fs: Fs, d: nat, f: Form)
    requires d < DISK_BLOCKS
  {
    && DirNext(fs.disk[d]) == 0
    && Need(f) + (if DirCount(fs.disk[d]) < MAX_ENTRIES then 0 else 1) <= |Free(fs.bitmap)|
  }

  /** A full first directory block costs one more block to link. */
  function LinkCost(s: Sector): nat {
    if DirNext(s) == 0 && DirCount(s) == MAX_ENTRIES then 1 else 0
  }

  /** How many of `free` blocks are left after a form that needs `need` of them,
      and one more for the link if it is the twelfth: a form that does not fit
      leaves the block of its header, a link that does not fit costs nothing. */
  function LeftAfter(free: nat, need: nat, link: nat): nat {
    if free < need then (if free == 0 then 0 else 1)
    else if free < need + link then free - need
    else free - need - link
  }

  lemma SaveFormSpec(fs: Fs, d: nat, f: Form)
    requires DirKept(fs, d)
    ensures var fs' := (KeptIsHeld(fs, d); SaveForm(fs, d, f));
            && DirKept(fs', d)
            && Listed(fs'.disk, d) == Listed(fs.disk, d) + (if Fits(fs, d, f) then [Stored(f)] else [])
            && |Free(fs'.bitmap)| == LeftAfter(|Free(fs.bitmap)|, Need(f), LinkCost(fs.disk[d]))
            && (Fits(fs, d, f) ==> (DirNext(fs'.disk[d]) == 0 <==> DirCount(fs.disk[d]) < MAX_ENTRIES))
            && (!Fits(fs, d, f) ==> fs'.disk[d] == fs.disk[d])
  {
    hide SaveObject, Get32, DirOk, DirEntries, ObjBlock, Free, AddEntry, DirNext, DirCount, Payload, Listed,
      DirKept, LoadEntry, Need, Stored, Clear, Allocated, ObjOk;
    KeptIsHeld(fs, d);
    SaveObjectSpec(fs, f);
    SaveObjectKeepsForms(fs, d, f);
    SizeOfDir(fs.disk, d);
    var (a, o) := SaveObject(fs, f);
    if o == 0 {
      SaveObjectFails(fs, f);
      NoneFree(fs.bitmap);
    } else {
      KeptIsHeld(a, d);
      SavedObjectReady(fs, d, f);
      AddEntryAppends(a, d, f.name, o, FORM);
      AddEntryCost(a, d, f.name, o, FORM);
      AddEntryKeepsHeld(a, d, f.name, o, FORM);
      AddObjectLists(a, d, f.name, o, FORM);
    }
  }

  lemma NoneFree(bm: MapBytes)
    ensures Free(bm) == {} <==> |Free(bm)| == 0
  {
  }

  lemma SavedObjectReady(fs: Fs, d: nat, f: Form)
    requires DirKept(fs, d)
    ensures var (a, o) := SaveObject(fs, f);
            o != 0 ==>
              && o < DISK_BLOCKS && ObjOk(a.disk, o) && d < DISK_BLOCKS && Clear(a.disk, d, o)
              && LoadEntry(a.disk, Entry(Cut(f.name), o, FORM)) == Stored(f)
  {
    hide SaveObject, Get32, DirEntries, Free, Payload, Parse, ReadObject, ObjBlock, DirBlockOk, Listed, Stored,
      Sealed;
    KeptIsHeld(fs, d);
    SaveObjectSpec(fs, f);
    SaveObjectKeepsForms(fs, d, f);
    ParsePayload(f);
  }
}

/** The ATA disk as an array of sectors, and the 16-slot write-through block
    cache of hexafs_disk.c in front of it. */
module BlockCache {
  import opened Bytes

  const DISK_BLOCKS := 4096
  const CACHE_SLOTS := 16

  type Sector = s: seq<byte> | |s| == 512 witness Zeros(512)
  const ZERO_SECTOR: Sector := Zeros(512)

  type Disk = d: seq<Sector> | |d| == 4096 witness seq<Sector>(4096, _ => ZERO_SECTOR)

  /** One ata_write_sector: the unit of atomicity of a crash. */
  datatype Write = Write(lba: nat, data: Sector)

  ghost predicate WritesFit(ws: seq<Write>) {
    forall k :: 0 <= k < |ws| ==> ws[k].lba < DISK_BLOCKS
  }

  /** The disk after the writes `ws` reached it, in order. */
  function Replay(d: Disk, ws: seq<Write>): Disk
    requires WritesFit(ws)
  {
    if ws == [] then d
    else
      var k := |ws| - 1;
      Replay(d, ws[..k])[ws[k].lba := ws[k].data]
  }

  datatype Slot = Slot(lba: nat, dirty: bool, data: Sector)

  datatype Op = Get(lba: nat) | Put(lba: nat, data: Sector)

  predicate OpsOk(ops: seq<Op>) {
    forall k :: 0 <= k < |ops| ==> 0 < ops[k].lba < DISK_BLOCKS
  }

  /** What a disk with no cache ends up as, and what it answers to each read. */
  function PlainDisk(d: Disk, ops: seq<Op>): Disk
    requires OpsOk(ops)
  {
    if ops == [] then d
    else
      var op := ops[|ops| - 1];
      var d' := PlainDisk(d, ops[..|ops| - 1]);
      match op
      case Get(_) => d'
      case Put(lba, data) => d'[lba := data]
  }

  function PlainReads(d: Disk, ops: seq<Op>): seq<Sector>
    requires OpsOk(ops)
  {
    if ops == [] then []
    else
      var op := ops[|ops| - 1];
      var rest := PlainReads(d, ops[..|ops| - 1]);
      match op
      case Get(lba) => rest + [PlainDisk(d, ops[..|ops| - 1])[lba]]
      case Put(_, _) => rest
  }

  class Cache {
    var disk: Disk
    ghost var log: seq<Write>
    const slots: array<Slot>

    /** Cached block numbers are distinct and every slot equals its sector. */
    ghost predicate Valid()
      reads this, slots
    {
      && slots.Length == CACHE_SLOTS
      && (forall i, j :: 0 <= i < j < CACHE_SLOTS && slots[i].lba != 0 ==> slots[i].lba != slots[j].lba)
      && (forall i :: 0 <= i < CACHE_SLOTS && slots[i].lba != 0 ==>
            slots[i].lba < DISK_BLOCKS && slots[i].data == disk[slots[i].lba])
    }

    ghost predicate FirstEmpty(k: nat)
      requires k < slots.Length
      reads slots
    {
      slots[k].lba == 0 && forall j :: 0 <= j < k ==> slots[j].lba != 0
    }

    constructor (d: Disk)
      ensures Valid() && fresh(slots) && disk == d && log == []
    {
      disk := d;
      log := [];
      slots := new Slot[CACHE_SLOTS](_ => Slot(0, false, ZERO_SECTOR));
    }

    /** memset of the cache: every slot becomes empty. */
    method Clear()
      requires Valid()
      modifies slots
      ensures Valid() && forall i :: 0 <= i < CACHE_SLOTS ==> slots[i] == Slot(0, false, ZERO_SECTOR)
    {
      for i := 0 to CACHE_SLOTS
        invariant forall k :: 0 <= k < i ==> slots[k] == Slot(0, false, ZERO_SECTOR)
      {
        slots[i] := Slot(0, false, ZERO_SECTOR);
      }
    }

    method Find(lba: nat) returns (idx: int)
      requires Valid()
      ensures -1 <= idx < CACHE_SLOTS
      ensures idx >= 0 ==> slots[idx].lba == lba
      ensures forall k :: 0 <= k < (if idx < 0 then CACHE_SLOTS else idx) ==> slots[k].lba != lba
    {
      for i := 0 to CACHE_SLOTS
        invariant forall k :: 0 <= k < i ==> slots[k].lba != lba
      {
        if slots[i].lba == lba { return i; }
      }
      return -1;
    }

    /** The first empty slot, or slot 0 when none is empty. */
    method Evict() returns (idx: nat)
      requires Valid()
      ensures idx < CACHE_SLOTS
      ensures forall k :: 0 <= k < CACHE_SLOTS && slots[k].lba == 0 ==> slots[idx].lba == 0 && idx <= k
      ensures slots[idx].lba != 0 ==> idx == 0
    {
      for i := 0 to CACHE_SLOTS
        invariant forall k :: 0 <= k < i ==> slots[k].lba != 0
      {
        if slots[i].lba == 0 { return i; }
      }
      return 0;
    }

    /** Every sector but sector 0 reads as the disk holds it.  Block number 0
        doubles as the mark of an empty slot, so reading it is right exactly
        when no slot is empty or the empty slot happens to hold sector 0. */
    method Read(lba: nat) returns (s: Sector)
      requires Valid() && lba < DISK_BLOCKS
      modifies slots
      ensures Valid()
      ensures lba != 0 || (forall k :: 0 <= k < CACHE_SLOTS ==> old(slots[k].lba) != 0) ==> s == disk[lba]
      ensures forall k :: 0 <= k < CACHE_SLOTS && old(FirstEmpty(k)) && lba == 0 ==> s == old(slots[k].data)
    {
      var idx := Find(lba);
      if idx >= 0 { return slots[idx].data; }
      s := disk[lba];
      var e := Evict();
      slots[e] := Slot(lba, false, s);
    }

    method Store(lba: nat, s: Sector)
      requires Valid() && lba < DISK_BLOCKS
      modifies this, slots
      ensures Valid() && disk == old(disk)[lba := s] && log == old(log) + [Write(lba, s)]
    {
      var idx := Find(lba);
      if idx < 0 {
        idx := Evict();
      }
      slots[idx] := Slot(lba, true, s);
      disk := disk[lba := s];
      log := log + [Write(lba, s)];
    }

    /** Rewriting the dirty slots leaves the disk as it is: writes went through already. */
    method FlushDirty()
      requires Valid()
      modifies this, slots
      ensures Valid() && disk == old(disk)
      ensures forall i :: 0 <= i < CACHE_SLOTS && slots[i].lba != 0 ==> !slots[i].dirty
    {
      for i := 0 to CACHE_SLOTS
        invariant Valid() && disk == old(disk)
        invariant forall k :: 0 <= k < i && slots[k].lba != 0 ==> !slots[k].dirty
      {
        if slots[i].lba != 0 && slots[i].dirty {
          disk := disk[slots[i].lba := slots[i].data];
          log := log + [Write(slots[i].lba, slots[i].data)];
          slots[i] := slots[i].(dirty := false);
        }
      }
    }

    /** Any sequence of reads and writes through the cache answers and ends as
        an uncached disk would. */
    method Run(ops: seq<Op>) returns (answers: seq<Sector>)
      requires Valid() && OpsOk(ops)
      modifies this, slots
      ensures Valid()
      ensures disk == PlainDisk(old(disk), ops)
      ensures answers == PlainReads(old(disk), ops)
    {
      answers := [];
      for i := 0 to |ops|
        invariant Valid()
        invariant disk == PlainDisk(old(disk), ops[..i])
        invariant answers == PlainReads(old(disk), ops[..i])
      {
        assert ops[..i + 1][..i] == ops[..i];
        match ops[i]
        case Get(lba) =>
          var s := Read(lba);
          answers := answers + [s];
        case Put(lba, data) =>
          Store(lba, data);
      }
      assert ops[..|ops|] == ops;
    }
  }
}

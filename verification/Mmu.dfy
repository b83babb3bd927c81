/** The physical page allocator and the page-table operations of the kernel,
    updating the page bitmap and physical memory in place. */
module Mmu {
  import opened Bytes
  import opened Bitmap
  import opened PageTables

  const PAGE := 4096

  lemma {:induction false} AllOnes(w: nat, i: nat)
    requires i < w
    ensures Pow2(w) >= 1 && Bit(Pow2(w) - 1, i)
    decreases i
  {
    PowPositive(w - 1);
    if i > 0 {
      AllOnes(w - 1, i - 1);
      assert (Pow2(w) - 1) / 2 == Pow2(w - 1) - 1;
    }
  }

  lemma {:induction false} PowPositive(w: nat)
    ensures Pow2(w) >= 1
  {
    if w > 0 {
      PowPositive(w - 1);
    }
  }

  /** 255 in every byte: every page is used. */
  lemma FullMapUsed(bm: seq<byte>, n: nat)
    requires forall k :: 0 <= k < |bm| ==> bm[k] == 255
    ensures Used(bm, n)
  {
    AllOnes(8, n % 8);
    assert Pow2(8) == 256;
  }

  class Machine {
    const mem: array<Word>
    const bitmap: array<byte>
    const maxPage: nat
    var last: nat
    ghost var dirs: set<nat>

    /** The page frames pmm_alloc may still hand out. */
    ghost function Free(): set<nat>
      reads this, bitmap
    {
      FreeUnits(bitmap[..], 1, maxPage)
    }

    ghost predicate Valid()
      reads this, mem, bitmap
    {
      && mem as object != bitmap as object
      && mem.Length == MEM_WORDS && bitmap.Length == 1024
      && 1 <= last <= maxPage <= FRAMES
      && PtOk(mem[..], Free(), dirs, maxPage)
    }

    ghost function Alloc(): Allocator
      reads this, bitmap
    {
      Allocator(bitmap[..], last)
    }

    /** Nothing is free below the hint, so allocation returns the lowest frame. */
    ghost predicate LowestFirst()
      reads this, bitmap
    {
      HintOk(Alloc(), 1, maxPage)
    }

    /** pmm_init: free are the pages between the kernel and the end of memory,
        without page 0 and the 640 KB to 1 MB hole. */
    constructor (memSize: Word, kernelEnd: Word)
      requires memSize >= PAGE && kernelEnd > 0
      ensures Valid() && LowestFirst() && dirs == {} && fresh(mem) && fresh(bitmap)
      ensures maxPage == (if memSize > 0x200_0000 then 0x200_0000 else memSize) / PAGE
      ensures forall n :: n in Free() <==>
                (kernelEnd + PAGE - 1) / PAGE <= n < maxPage && n != 0 && !(0xA0 <= n < 0x100)
    {
      hide Bit;
      maxPage := (if memSize > 0x200_0000 then 0x200_0000 else memSize) / PAGE;
      mem := new Word[MEM_WORDS](_ => 0);
      bitmap := new byte[1024](_ => 255);
      dirs := {};
      last := 1;
      new;
      var first := kernelEnd / PAGE;
      if kernelEnd % PAGE != 0 { first := first + 1; }
      if first > maxPage { first := maxPage; }
      ghost var full := bitmap[..];
      var i := first;
      while i < maxPage
        invariant first <= i <= maxPage && fresh(bitmap) && dirs == {}
        invariant forall n: nat :: Used(bitmap[..], n) <==> Used(full, n) && !(first <= n < i)
      {
        Clear(i);
        i := i + 1;
      }
      Set(0);
      i := 0xA0;
      while i < 0x100
        invariant 0xA0 <= i <= 0x100 && fresh(bitmap) && dirs == {}
        invariant forall n: nat :: Used(bitmap[..], n) <==>
                    (Used(full, n) && !(first <= n < maxPage)) || n == 0 || 0xA0 <= n < i
      {
        Set(i);
        i := i + 1;
      }
      last := first;
      forall n: nat ensures Used(full, n) {
        FullMapUsed(full, n);
      }
    }

    method Set(n: nat)
      requires bitmap.Length == 1024 && n < FRAMES
      modifies bitmap
      ensures bitmap[..] == Mark(old(bitmap[..]), n)
    {
      hide Bit;
      bitmap[n / 8] := SetBit(bitmap[n / 8], n % 8);
    }

    method Clear(n: nat)
      requires bitmap.Length == 1024 && n < FRAMES
      modifies bitmap
      ensures bitmap[..] == Unmark(old(bitmap[..]), n)
    {
      hide Bit;
      bitmap[n / 8] := ClearBit(bitmap[n / 8], n % 8);
    }

    /** A free frame, as an address; 0 exactly when none is free.  It is the
        lowest one whenever nothing is free below the hint, which every method keeps. */
    method PmmAlloc() returns (a: nat)
      requires Valid()
      modifies this`last, bitmap
      ensures Valid() && Alloc() == AllocStep(old(Alloc()), Take, 1, maxPage)
      ensures (a == 0 <==> old(Free()) == {}) && (a == 0 ==> Free() == old(Free()))
      ensures a != 0 ==> a == Scan(old(bitmap[..]), 1, old(last), maxPage) * PAGE && 1 <= a / PAGE < maxPage
                         && a / PAGE in old(Free()) && Free() == old(Free()) - {a / PAGE}
      ensures old(LowestFirst()) ==> LowestFirst() && (a != 0 ==> forall n :: n in old(Free()) ==> a / PAGE <= n)
    {
      hide Bit, PtOk, HintOk, Used;
      if LowestFirst() {
        LowestTake(Alloc(), maxPage);
      }
      var i := ScanFrom(last, maxPage);
      if i < maxPage {
        TakeFrame(i);
        return i * PAGE;
      }
      i := ScanFrom(1, last);
      if i < last {
        TakeFrame(i);
        return i * PAGE;
      }
      a := 0;
    }

    /** The first clear bit of the pages lo..hi, or hi. */
    method ScanFrom(lo: nat, hi: nat) returns (i: nat)
      requires bitmap.Length == 1024 && lo <= hi <= FRAMES
      ensures i == FindFree(bitmap[..], lo, hi)
    {
      hide Bit;
      i := lo;
      while i < hi
        invariant lo <= i <= hi
        invariant forall k: nat :: lo <= k < i ==> Used(bitmap[..], k)
      {
        if !Bit(bitmap[i / 8], i % 8) {
          assert !Used(bitmap[..], i);
          return;
        }
        i := i + 1;
      }
    }

    method TakeFrame(i: nat)
      requires Valid() && i in Free()
      modifies this`last, bitmap
      ensures Valid() && Alloc() == Allocator(Mark(old(bitmap[..]), i), i + 1) && Free() == old(Free()) - {i}
    {
      hide Bit, PtOk;
      ghost var free, m := Free(), mem[..];
      Set(i);
      last := i + 1;
      FewerFree(m, free, Free(), dirs, maxPage);
    }

    /** Give a frame back that is neither a directory nor a page table. */
    method PmmFree(a: nat)
      requires Valid() && PAGE <= a && a / PAGE !in dirs
      requires forall d: nat, i: nat :: d in dirs && HasTable(mem[..], d, i) ==> Table(mem[..], d, i) != a / PAGE
      modifies this`last, bitmap
      ensures Valid() && Alloc() == AllocStep(old(Alloc()), Release(a / PAGE), 1, maxPage)
      ensures Free() == old(Free()) + (if a / PAGE < maxPage then {a / PAGE} else {})
      ensures old(LowestFirst()) ==> LowestFirst()
    {
      hide Bit, PtOk, HintOk, HasTable, Table;
      var n := a / PAGE;
      ghost var free := Free();
      if LowestFirst() {
        AllocStepKeepsHint(Alloc(), Release(n), 1, maxPage);
      }
      if n < maxPage {
        MoreFree(mem[..], free, dirs, maxPage, n);
        Clear(n);
        if n < last { last := n; }
        assert Free() == free + {n};
      }
    }

    /** pmm_count_free */
    method CountFree() returns (cnt: nat)
      requires Valid()
      ensures cnt == |Free()|
    {
      hide Bit, PtOk;
      cnt := 0;
      var i := 1;
      ghost var seen: set<nat> := {};
      while i < maxPage
        invariant 1 <= i <= maxPage && cnt == |seen|
        invariant seen == FreeUnits(bitmap[..], 1, i)
      {
        if !Bit(bitmap[i / 8], i % 8) {
          cnt := cnt + 1;
          assert FreeUnits(bitmap[..], 1, i + 1) == seen + {i};
          seen := seen + {i};
        } else {
          assert FreeUnits(bitmap[..], 1, i + 1) == seen;
        }
        i := i + 1;
      }
    }

    // ---- page tables ----------------------------------------------------------

    /** Fill frame t with entries that are not present. */
    method ClearFrame(t: nat)
      requires mem.Length == MEM_WORDS && t < FRAMES
      modifies mem
      ensures forall k :: 0 <= k < MEM_WORDS ==> mem[k] == if InFrame(t, k) then ABSENT else old(mem[k])
    {
      var i := 0;
      while i < 1024
        invariant 0 <= i <= 1024
        invariant forall k :: 0 <= k < MEM_WORDS ==>
                  mem[k] == if At(t, 0) <= k < At(t, 0) + i then ABSENT else old(mem[k])
      {
        mem[At(t, i)] := ABSENT;
        i := i + 1;
      }
    }

    /** paging_init: a kernel directory that maps the first 8 MB to themselves. */
    method PagingInit() returns (kernel: nat)
      requires Valid() && dirs == {} && |Free()| >= 3
      modifies this, bitmap, mem
      ensures Valid() && dirs == {kernel / PAGE} && kernel % PAGE == 0 && 1 <= kernel / PAGE < FRAMES
      ensures forall v: VPage :: Pte(mem[..], kernel / PAGE, v) == if v < 2048 then v * PAGE + 3 else 0x002
      ensures forall v: VPage :: v < 2048 ==> Writable(mem[..], kernel / PAGE, v)
      ensures Free() <= old(Free()) && |Free()| == old(|Free()|) - 3
      ensures old(LowestFirst()) ==> LowestFirst()
    {
      hide Bit, FreeUnits, DirEntry, Pte, HasTable, HintOk;
      kernel := PmmAlloc();
      var d := kernel / PAGE;
      ClearFrame(d);
      EmptyDirectory(mem[..], Free(), d, maxPage);
      dirs := {d};
      for tbl := 0 to 2
        invariant Valid() && dirs == {d}
        invariant Free() <= old(Free()) && |Free()| == old(|Free()|) - 1 - tbl
        invariant old(LowestFirst()) ==> LowestFirst()
        invariant forall v: VPage :: Pte(mem[..], d, v) == if v < 1024 * tbl then v * PAGE + 3 else ABSENT
        invariant forall j: nat :: tbl <= j < 1024 ==> DirEntry(mem[..], d, j) == ABSENT
      {
        IdentityTable(d, tbl);
      }
      forall v: VPage | v < 2048 ensures Writable(mem[..], d, v) {
        Access(mem[..], Free(), dirs, maxPage, d, v);
        FlagBits(v, 3);
      }
    }

    /** One 4 MB identity-mapped table of the kernel directory. */
    method IdentityTable(d: nat, tbl: nat)
      requires Valid() && dirs == {d} && tbl < 2 && Free() != {}
      requires forall v: VPage :: Pte(mem[..], d, v) == if v < 1024 * tbl then v * PAGE + 3 else ABSENT
      requires forall j: nat :: tbl <= j < 1024 ==> DirEntry(mem[..], d, j) == ABSENT
      modifies this`last, bitmap, mem
      ensures Valid() && Free() <= old(Free()) && |Free()| == old(|Free()|) - 1
      ensures old(LowestFirst()) ==> LowestFirst()
      ensures forall v: VPage :: Pte(mem[..], d, v) == if v < 1024 * (tbl + 1) then v * PAGE + 3 else ABSENT
      ensures forall j: nat :: tbl < j < 1024 ==> DirEntry(mem[..], d, j) == ABSENT
    {
      hide Bit, FreeUnits, DirEntry, HintOk, Pte, HasTable, Table;
      ghost var m, free := mem[..], Free();
      var a := PmmAlloc();
      var t := a / PAGE;
      FillIdentity(t, tbl);
      ghost var m1 := mem[..];
      mem[At(d, tbl)] := a + 3;
      ghost var m2 := mem[..];
      TableLinkedKeeps(m, m2, free, dirs, maxPage, d, tbl, t);
      forall j: nat | tbl < j < 1024 ensures DirEntry(m2, d, j) == ABSENT {
        LinkedEntry(m, m2, d, tbl, t, d, j);
      }
      forall k: nat | k < 1024 ensures m2[At(t, k)] == (1024 * tbl + k) * PAGE + 3 {
        AtInjective(t, k, d, tbl);
      }
    }

    method FillIdentity(t: nat, tbl: nat)
      requires mem.Length == MEM_WORDS && t < FRAMES && tbl < 2
      modifies mem
      ensures forall k: nat :: k < 1024 ==> mem[At(t, k)] == (1024 * tbl + k) * PAGE + 3
      ensures forall k :: 0 <= k < MEM_WORDS && !InFrame(t, k) ==> mem[k] == old(mem[k])
    {
      var i := 0;
      while i < 1024
        invariant 0 <= i <= 1024
        invariant forall k: nat :: k < i ==> mem[At(t, k)] == (1024 * tbl + k) * PAGE + 3
        invariant forall k :: 0 <= k < MEM_WORDS && !InFrame(t, k) ==> mem[k] == old(mem[k])
      {
        mem[At(t, i)] := tbl * 0x40_0000 + i * PAGE + 3;
        i := i + 1;
      }
    }

    /** Make sure directory d has a table at index i; no translation changes. */
    method EnsureTable(d: nat, i: nat)
      requires Valid() && d in dirs && i < 1024
      requires Present(DirEntry(mem[..], d, i)) || Free() != {}
      modifies this`last, bitmap, mem
      ensures Valid() && HasTable(mem[..], d, i)
      ensures forall e, v: VPage :: e in dirs ==> Pte(mem[..], e, v) == Pte(old(mem[..]), e, v)
      ensures Free() <= old(Free())
      ensures |Free()| == old(|Free()|) - if old(Present(DirEntry(mem[..], d, i))) then 0 else 1
      ensures old(LowestFirst()) ==> LowestFirst()
    {
      hide Bit, FreeUnits, HintOk, Pte;
      if mem[At(d, i)] % 2 == 0 {
        LinkTable(d, i);
      }
    }

    method LinkTable(d: nat, i: nat)
      requires Valid() && d in dirs && i < 1024 && !Present(DirEntry(mem[..], d, i)) && Free() != {}
      modifies this`last, bitmap, mem
      ensures Valid() && HasTable(mem[..], d, i)
      ensures forall e, v: VPage :: e in dirs ==> Pte(mem[..], e, v) == Pte(old(mem[..]), e, v)
      ensures Free() <= old(Free()) && |Free()| == old(|Free()|) - 1
      ensures old(LowestFirst()) ==> LowestFirst()
    {
      hide Bit, FreeUnits, HintOk;
      ghost var m, free := mem[..], Free();
      var a := PmmAlloc();
      var t := a / PAGE;
      ClearFrame(t);
      ghost var m1 := mem[..];
      mem[At(d, i)] := a + 3;
      TableLinkedKeeps(m, mem[..], free, dirs, maxPage, d, i, t);
      EmptyTable(m, m1, mem[..], d, i, t);
    }

    /** map_page_in_dir, and map_page on the active directory: the entry of one
        page is set, every other page of every directory keeps its entry, and
        above 1 GB no other directory sees the change. */
    method MapPage(d: nat, virt: Word, phys: Word, flags: Word)
      requires Valid() && d in dirs
      requires Present(DirEntry(mem[..], d, virt / 0x40_0000)) || Free() != {}
      modifies this`last, bitmap, mem
      ensures Valid() && Pte(mem[..], d, virt / PAGE) == phys / PAGE * PAGE + flags % PAGE
      ensures Writable(mem[..], d, virt / PAGE) <==> flags % 4 == 3
      ensures !UserMay(mem[..], d, virt / PAGE)
      ensures forall e, u: VPage :: e in dirs && (u != virt / PAGE || (e != d && virt >= 0x4000_0000)) ==>
                Pte(mem[..], e, u) == Pte(old(mem[..]), e, u)
      ensures Free() <= old(Free())
      ensures |Free()| == old(|Free()|) - if old(Present(DirEntry(mem[..], d, virt / 0x40_0000))) then 0 else 1
      ensures old(LowestFirst()) ==> LowestFirst()
    {
      hide Bit, PtOk, FreeUnits, DirEntry, HintOk;
      EnsureTable(d, virt / 0x40_0000);
      SetEntry(d, virt / PAGE, phys / PAGE * PAGE + flags % PAGE);
      Access(mem[..], Free(), dirs, maxPage, d, virt / PAGE);
      FlagBits(phys / PAGE, flags);
    }

    /** unmap_page on directory d. */
    method UnmapPage(d: nat, virt: Word)
      requires Valid() && d in dirs
      modifies mem
      ensures Valid() && Pte(mem[..], d, virt / PAGE) == 0x002
      ensures forall e, u: VPage :: e in dirs && (u != virt / PAGE || (e != d && virt >= 0x4000_0000)) ==>
                Pte(mem[..], e, u) == Pte(old(mem[..]), e, u)
    {
      var i := virt / 0x40_0000;
      if mem[At(d, i)] % 2 == 0 { return; }
      PresentHasTable(mem[..], Free(), dirs, maxPage, d, i);
      SetEntry(d, virt / PAGE, ABSENT);
    }

    method SetEntry(d: nat, v: VPage, w: Word)
      requires Valid() && d in dirs && HasTable(mem[..], d, v / 1024)
      modifies mem
      ensures Valid() && Pte(mem[..], d, v) == w
      ensures forall e, u: VPage :: e in dirs && (u != v || (e != d && v >= SHARED * 1024)) ==>
                Pte(mem[..], e, u) == Pte(old(mem[..]), e, u)
    {
      hide Bit, PtOk;
      ghost var m := mem[..];
      var t := mem[At(d, v / 1024)] / PAGE;
      mem[At(t, v % 1024)] := w;
      EntryWritten(m, mem[..], Free(), dirs, maxPage, d, v, w);
    }

    /** create_user_page_dir: the low quarter is the kernel's, the rest is empty. */
    method CreateUserDir(kernel: nat) returns (p: nat)
      requires Valid() && kernel in dirs && Free() != {}
      modifies this, bitmap, mem
      ensures Valid() && p % PAGE == 0 && p / PAGE !in old(dirs) && dirs == old(dirs) + {p / PAGE}
      ensures forall e, v: VPage :: e in old(dirs) ==> Pte(mem[..], e, v) == Pte(old(mem[..]), e, v)
      ensures forall v: VPage ::
                Pte(mem[..], p / PAGE, v) == if v < SHARED * 1024 then Pte(old(mem[..]), kernel, v) else 0x002
      ensures p / PAGE in old(Free()) && Free() == old(Free()) - {p / PAGE}
      ensures old(LowestFirst()) ==> LowestFirst()
    {
      hide Bit, FreeUnits, Pte, HintOk;
      ghost var m, free := mem[..], Free();
      p := PmmAlloc();
      var t := p / PAGE;
      FillDir(kernel, t);
      DirAddedKeeps(m, mem[..], free, dirs, maxPage, kernel, t);
      dirs := dirs + {t};
    }

    method FillDir(kernel: nat, t: nat)
      requires mem.Length == MEM_WORDS && kernel < FRAMES && t < FRAMES && t != kernel
      modifies mem
      ensures DirAdded(old(mem[..]), mem[..], kernel, t)
    {
      ClearFrame(t);
      ghost var m := old(mem[..]);
      var i := 0;
      while i < SHARED
        invariant 0 <= i <= SHARED
        invariant forall j: nat :: j < 1024 ==> mem[At(t, j)] == if j < i then m[At(kernel, j)] else ABSENT
        invariant forall k :: 0 <= k < MEM_WORDS && !InFrame(t, k) ==> mem[k] == m[k]
      {
        assert !InFrame(t, At(kernel, i));
        mem[At(t, i)] := mem[At(kernel, i)];
        i := i + 1;
      }
    }
  }

  lemma FlagBits(f: nat, flags: Word)
    requires f < 0x10_0000
    ensures var e := f * PAGE + flags % PAGE;
            e % 2 == 1 && e / 2 % 2 == 1 <==> flags % 4 == 3
  {
    var b := flags % PAGE;
    LowTwo(flags / PAGE, b);
    LowTwo(f, b);
    assert flags == flags / PAGE * PAGE + b;
  }

  lemma LowTwo(q: nat, b: nat)
    requires b < PAGE
    ensures var e := q * PAGE + b;
            e % 4 == b % 4 && (e % 2 == 1 && e / 2 % 2 == 1 <==> e % 4 == 3)
  {
    var e, k := q * PAGE + b, b / 4;
    assert e == 4 * (1024 * q + k) + b % 4;
    assert e / 2 == 2 * (1024 * q + k) + b % 4 / 2;
  }

  lemma EmptyTable(m: Memory, m1: Memory, m2: Memory, d: nat, i: nat, t: nat)
    requires d < FRAMES && t < FRAMES && i < 1024 && d != t
    requires forall k :: 0 <= k < MEM_WORDS ==> m1[k] == if InFrame(t, k) then ABSENT else m[k]
    requires m2 == m1[At(d, i) := t * 4096 + 3]
    ensures forall k: nat :: k < 1024 ==> m2[At(t, k)] == ABSENT
  {
    forall k: nat | k < 1024 ensures m2[At(t, k)] == ABSENT {
      AtInjective(t, k, d, i);
      var x := At(t, k);
      assert InFrame(t, x) && m1[x] == ABSENT;
    }
  }

  lemma EmptyDirectory(m: Memory, free: set<nat>, d: nat, max: nat)
    requires max <= FRAMES && 1 <= d < max && d !in free
    requires forall k :: 0 <= k < MEM_WORDS && InFrame(d, k) ==> m[k] == ABSENT
    ensures PtOk(m, free, {d}, max) && (forall v: VPage :: Pte(m, d, v) == ABSENT)
    ensures forall j: nat :: j < 1024 ==> DirEntry(m, d, j) == ABSENT
  {
    forall j: nat | j < 1024 ensures DirEntry(m, d, j) == ABSENT {
      assert InFrame(d, At(d, j));
    }
    FirstDir(m, free, d, max);
  }

  lemma PresentHasTable(m: Memory, free: set<nat>, dirs: set<nat>, max: nat, d: nat, i: nat)
    requires PtOk(m, free, dirs, max) && d in dirs && i < 1024 && Present(DirEntry(m, d, i))
    ensures HasTable(m, d, i)
  {
  }

  lemma LowestTake(a: Allocator, max: nat)
    requires HintOk(a, 1, max)
    ensures HintOk(AllocStep(a, Take, 1, max), 1, max)
    ensures forall n :: n in FreeUnits(a.bm, 1, max) ==> Scan(a.bm, 1, a.hint, max) <= n
  {
    hide Used;
    AllocStepKeepsHint(a, Take, 1, max);
    if FreeUnits(a.bm, 1, max) != {} {
      ScanIsLowest(a.bm, 1, a.hint, max);
    }
  }

  lemma MoreFree(m: Memory, free: set<nat>, dirs: set<nat>, max: nat, n: nat)
    requires PtOk(m, free, dirs, max) && n !in dirs
    requires forall d: nat, i: nat :: d in dirs && HasTable(m, d, i) ==> Table(m, d, i) != n
    ensures PtOk(m, free + {n}, dirs, max)
  {
    hide DirEntry;
  }

  lemma FewerFree(m: Memory, free: set<nat>, free': set<nat>, dirs: set<nat>, max: nat)
    requires PtOk(m, free, dirs, max) && free' <= free
    ensures PtOk(m, free', dirs, max)
  {
    hide DirEntry;
  }
}

/** Two-level page tables in flat physical memory: a directory of 1024 entries
    whose present entries name page tables, 4 KB frames throughout. */
module PageTables {
  const MEM_WORDS: nat := 8388608
  const FRAMES: nat := 8192
  const ABSENT := 2
  /** Directory entries below this are copied from the kernel's directory. */
  const SHARED: nat := 256

  type Word = x: int | 0 <= x < 0x1_0000_0000
  type Memory = m: seq<Word> | |m| == 8388608 witness seq<Word>(8388608, _ => 0)
  type VPage = x: nat | x < 0x10_0000

  function At(f: nat, i: nat): nat { f * 1024 + i }

  function DirEntry(m: Memory, d: nat, i: nat): Word
    requires d < FRAMES && i < 1024
  {
    m[At(d, i)]
  }

  predicate Present(e: Word) { e % 2 == 1 }
  function FrameOf(e: Word): nat { e / 4096 }

  predicate HasTable(m: Memory, d: nat, i: nat) {
    d < FRAMES && i < 1024 && Present(DirEntry(m, d, i)) && FrameOf(DirEntry(m, d, i)) < FRAMES
  }

  function Table(m: Memory, d: nat, i: nat): nat
    requires HasTable(m, d, i)
  {
    FrameOf(DirEntry(m, d, i))
  }

  /** The flat view: the page-table entry directory d gives virtual page v. */
  function Pte(m: Memory, d: nat, v: VPage): Word
    requires d < FRAMES
  {
    if HasTable(m, d, v / 1024) then m[At(Table(m, d, v / 1024), v % 1024)] else ABSENT
  }

  /** Directories and tables are frames in use, no table is a directory, and a
      table belongs to one index, and above the shared part to one directory.
      Directory entries allow writing, and nothing to user mode. */
  ghost predicate PtOk(m: Memory, free: set<nat>, dirs: set<nat>, max: nat) {
    && max <= FRAMES
    && (forall d :: d in dirs ==> 1 <= d < max && d !in free)
    && (forall d: nat, i: nat :: d in dirs && i < 1024 && Present(DirEntry(m, d, i)) ==>
          && HasTable(m, d, i) && 1 <= Table(m, d, i) < max && Table(m, d, i) !in free && Table(m, d, i) !in dirs
          && DirEntry(m, d, i) % 4096 == 3)
    && (forall d: nat, i: nat, e: nat, j: nat ::
          d in dirs && e in dirs && HasTable(m, d, i) && HasTable(m, e, j) && Table(m, d, i) == Table(m, e, j) ==>
            i == j && (d == e || i < SHARED))
  }

  /** An access needs its permission bit in both levels: bit 1 to write, bit 2
      from user mode. */
  predicate Writable(m: Memory, d: nat, v: VPage)
    requires d < FRAMES
  {
    && HasTable(m, d, v / 1024) && Present(Pte(m, d, v))
    && DirEntry(m, d, v / 1024) / 2 % 2 == 1 && Pte(m, d, v) / 2 % 2 == 1
  }

  predicate UserMay(m: Memory, d: nat, v: VPage)
    requires d < FRAMES
  {
    && HasTable(m, d, v / 1024) && Present(Pte(m, d, v))
    && DirEntry(m, d, v / 1024) / 4 % 2 == 1 && Pte(m, d, v) / 4 % 2 == 1
  }

  /** What a page allows: writing is decided by its own entry, and user mode
      reaches no page, whatever flags it was mapped with. */
  lemma Access(m: Memory, free: set<nat>, dirs: set<nat>, max: nat, d: nat, v: VPage)
    requires PtOk(m, free, dirs, max) && d in dirs
    ensures Writable(m, d, v) <==> Present(Pte(m, d, v)) && Pte(m, d, v) / 2 % 2 == 1
    ensures !UserMay(m, d, v)
  {
    var e := DirEntry(m, d, v / 1024);
    if HasTable(m, d, v / 1024) {
      RightsOf(e);
    }
  }

  lemma RightsOf(e: Word)
    requires e % 4096 == 3
    ensures e / 2 % 2 == 1 && e / 4 % 2 == 0
  {
    Rest(e);
    Halves(e / 4096, e);
  }

  lemma Rest(e: nat)
    ensures e == 4096 * (e / 4096) + e % 4096
  {
  }

  lemma Halves(q: nat, e: nat)
    requires e == 4096 * q + 3
    ensures e / 2 % 2 == 1 && e / 4 % 2 == 0
  {
    Half(e, 2048 * q + 1, 1);
    Half(2048 * q + 1, 1024 * q, 1);
    Quarter(e, 1024 * q, 3);
    Half(1024 * q, 512 * q, 0);
  }

  lemma Half(x: nat, k: nat, r: nat)
    requires x == 2 * k + r && r < 2
    ensures x / 2 == k && x % 2 == r
  {
  }

  lemma Quarter(x: nat, k: nat, r: nat)
    requires x == 4 * k + r && r < 4
    ensures x / 4 == k
  {
  }

  lemma AtInjective(f: nat, i: nat, g: nat, j: nat)
    requires i < 1024 && j < 1024
    ensures At(f, i) == At(g, j) <==> f == g && i == j
  {
  }

  predicate InFrame(f: nat, k: nat) {
    At(f, 0) <= k < At(f, 0) + 1024
  }

  /** m' is m with anything in frame t, and entry (d, i) pointing to it. */
  ghost predicate TableLinked(m: Memory, m': Memory, d: nat, i: nat, t: nat)
    requires d < FRAMES && i < 1024 && t < FRAMES
  {
    && m'[At(d, i)] == t * 4096 + 3
    && forall k :: 0 <= k < MEM_WORDS && k != At(d, i) && !InFrame(t, k) ==> m'[k] == m[k]
  }

  lemma LinkedEntry(m: Memory, m': Memory, d: nat, i: nat, t: nat, e: nat, j: nat)
    requires d < FRAMES && e < FRAMES && t < FRAMES && i < 1024 && j < 1024 && e != t && TableLinked(m, m', d, i, t)
    ensures DirEntry(m', e, j) == if e == d && j == i then t * 4096 + 3 else DirEntry(m, e, j)
  {
    AtInjective(e, j, d, i);
    var k := At(e, j);
    assert 0 <= k < MEM_WORDS && !InFrame(t, k);
  }

  /** Linking a table that lies in a free frame gives directory d that table's
      entries at index i and changes no other translation. */
  lemma TableLinkedKeeps(m: Memory, m': Memory, free: set<nat>, dirs: set<nat>, max: nat, d: nat, i: nat, t: nat)
    requires PtOk(m, free, dirs, max) && d in dirs && i < 1024 && !Present(DirEntry(m, d, i))
    requires t in free && 1 <= t < max && TableLinked(m, m', d, i, t)
    ensures PtOk(m', free - {t}, dirs, max) && HasTable(m', d, i) && Table(m', d, i) == t
    ensures forall e, v: VPage :: e in dirs ==>
              Pte(m', e, v) == if e == d && v / 1024 == i then m'[At(t, v % 1024)] else Pte(m, e, v)
  {
    hide TableLinked, DirEntry;
    forall e: nat, j: nat | e in dirs && j < 1024
      ensures DirEntry(m', e, j) == if e == d && j == i then t * 4096 + 3 else DirEntry(m, e, j)
    {
      LinkedEntry(m, m', d, i, t, e, j);
    }
    LinkedPtOk(m, m', free, dirs, max, d, i, t);
    forall e, v: VPage | e in dirs
      ensures Pte(m', e, v) == if e == d && v / 1024 == i then m'[At(t, v % 1024)] else Pte(m, e, v)
    {
      LinkedPte(m, m', free, dirs, max, d, i, t, e, v);
    }
  }

  ghost predicate OneEntrySet(m: Memory, m': Memory, dirs: set<nat>, d: nat, i: nat, t: nat) {
    forall e: nat, j: nat :: e in dirs && e < FRAMES && j < 1024 ==>
      DirEntry(m', e, j) == if e == d && j == i then t * 4096 + 3 else DirEntry(m, e, j)
  }

  lemma LinkedPtOk(m: Memory, m': Memory, free: set<nat>, dirs: set<nat>, max: nat, d: nat, i: nat, t: nat)
    requires PtOk(m, free, dirs, max) && d in dirs && i < 1024 && !Present(DirEntry(m, d, i))
    requires t in free && 1 <= t < max && OneEntrySet(m, m', dirs, d, i, t)
    ensures PtOk(m', free - {t}, dirs, max) && HasTable(m', d, i) && Table(m', d, i) == t
  {
    hide DirEntry, HasTable, OneEntrySet, Present, FrameOf;
    forall e: nat, j: nat | e in dirs
      ensures HasTable(m', e, j) <==> (e == d && j == i) || HasTable(m, e, j)
      ensures HasTable(m', e, j) ==> Table(m', e, j) == if e == d && j == i then t else Table(m, e, j)
      ensures HasTable(m, e, j) ==> j < 1024 && Present(DirEntry(m, e, j))
      ensures j < 1024 ==> (Present(DirEntry(m', e, j)) <==> (e == d && j == i) || Present(DirEntry(m, e, j)))
      ensures j < 1024 && Present(DirEntry(m', e, j)) ==> DirEntry(m', e, j) % 4096 == 3
    {
      LinkedRights(m, m', free, dirs, max, d, i, t, e, j);
      LinkedTable(m, m', dirs, d, i, t, e, j);
    }
  }

  lemma LinkedRights(m: Memory, m': Memory, free: set<nat>, dirs: set<nat>, max: nat, d: nat, i: nat, t: nat,
      e: nat, j: nat)
    requires PtOk(m, free, dirs, max) && e in dirs && t < FRAMES && OneEntrySet(m, m', dirs, d, i, t)
    ensures j < 1024 && Present(DirEntry(m', e, j)) ==> DirEntry(m', e, j) % 4096 == 3
  {
    hide DirEntry, HasTable;
    assert (t * 4096 + 3) % 4096 == 3;
  }

  lemma LinkedTable(m: Memory, m': Memory, dirs: set<nat>, d: nat, i: nat, t: nat, e: nat, j: nat)
    requires d in dirs && e in dirs && d < FRAMES && e < FRAMES && i < 1024 && t < FRAMES
    requires OneEntrySet(m, m', dirs, d, i, t)
    ensures HasTable(m', e, j) <==> (e == d && j == i) || HasTable(m, e, j)
    ensures HasTable(m', e, j) ==> Table(m', e, j) == if e == d && j == i then t else Table(m, e, j)
    ensures HasTable(m, e, j) ==> j < 1024 && Present(DirEntry(m, e, j))
    ensures j < 1024 ==> (Present(DirEntry(m', e, j)) <==> (e == d && j == i) || Present(DirEntry(m, e, j)))
  {
    hide DirEntry;
  }

  lemma LinkedPte(m: Memory, m': Memory, free: set<nat>, dirs: set<nat>, max: nat, d: nat, i: nat, t: nat, e: nat,
      v: VPage)
    requires PtOk(m, free, dirs, max) && d in dirs && e in dirs && i < 1024 && !Present(DirEntry(m, d, i))
    requires t in free && 1 <= t < max && TableLinked(m, m', d, i, t) && OneEntrySet(m, m', dirs, d, i, t)
    ensures Pte(m', e, v) == if e == d && v / 1024 == i then m'[At(t, v % 1024)] else Pte(m, e, v)
  {
    hide TableLinked, DirEntry, OneEntrySet, PtOk, HasTable;
    DirsInMemory(m, free, dirs, max, d, t);
    DirsInMemory(m, free, dirs, max, e, t);
    LinkedTable(m, m', dirs, d, i, t, e, v / 1024);
    if !(e == d && v / 1024 == i) && HasTable(m, e, v / 1024) {
      TableElsewhere(m, free, dirs, max, d, t, e, v / 1024);
      LinkedWord(m, m', d, i, t, Table(m, e, v / 1024), v % 1024);
    }
  }

  lemma DirsInMemory(m: Memory, free: set<nat>, dirs: set<nat>, max: nat, d: nat, t: nat)
    requires PtOk(m, free, dirs, max) && d in dirs && t < max
    ensures d < FRAMES && t < FRAMES
  {
    hide DirEntry, HasTable;
  }

  lemma TableElsewhere(m: Memory, free: set<nat>, dirs: set<nat>, max: nat, d: nat, t: nat, e: nat, j: nat)
    requires PtOk(m, free, dirs, max) && d in dirs && e in dirs && t in free && HasTable(m, e, j)
    ensures Table(m, e, j) < FRAMES && Table(m, e, j) != t && Table(m, e, j) != d
  {
    hide DirEntry;
  }

  lemma LinkedWord(m: Memory, m': Memory, d: nat, i: nat, t: nat, f: nat, k: nat)
    requires d < FRAMES && f < FRAMES && t < FRAMES && i < 1024 && k < 1024 && f != t && f != d
    requires TableLinked(m, m', d, i, t)
    ensures m'[At(f, k)] == m[At(f, k)]
  {
    AtInjective(f, k, d, i);
    var x := At(f, k);
    assert 0 <= x < MEM_WORDS && !InFrame(t, x);
  }

  /** A first directory with no entries translates nothing. */
  lemma FirstDir(m: Memory, free: set<nat>, d: nat, max: nat)
    requires max <= FRAMES && 1 <= d < max && d !in free
    requires forall j: nat :: j < 1024 ==> DirEntry(m, d, j) == ABSENT
    ensures PtOk(m, free, {d}, max) && forall v: VPage :: Pte(m, d, v) == ABSENT
  {
  }

  /** Writing the entry of page v under directory d is seen at page v only, and
      above the shared part by no other directory. */
  lemma EntryWritten(m: Memory, m': Memory, free: set<nat>, dirs: set<nat>, max: nat, d: nat, v: VPage, w: Word)
    requires PtOk(m, free, dirs, max) && d in dirs && HasTable(m, d, v / 1024)
    requires m' == m[At(Table(m, d, v / 1024), v % 1024) := w]
    ensures PtOk(m', free, dirs, max)
    ensures Pte(m', d, v) == w
    ensures forall e, u: VPage :: e in dirs && (u != v || (e != d && v >= SHARED * 1024)) ==>
              Pte(m', e, u) == Pte(m, e, u)
  {
    hide DirEntry;
    var t := Table(m, d, v / 1024);
    forall e: nat, j: nat | e in dirs && j < 1024 ensures DirEntry(m', e, j) == DirEntry(m, e, j) {
      SameEntry(m, m', t, v % 1024, e, j, w);
    }
    forall e, u: VPage | e in dirs && (u != v || (e != d && v >= SHARED * 1024)) ensures Pte(m', e, u) == Pte(m, e, u) {
      if HasTable(m, e, u / 1024) {
        AtInjective(Table(m, e, u / 1024), u % 1024, t, v % 1024);
      }
    }
  }

  lemma SameEntry(m: Memory, m': Memory, t: nat, k: nat, e: nat, j: nat, w: Word)
    requires t < FRAMES && e < FRAMES && t != e && k < 1024 && j < 1024 && m' == m[At(t, k) := w]
    ensures DirEntry(m', e, j) == DirEntry(m, e, j)
  {
    AtInjective(t, k, e, j);
  }

  /** m' is m with frame p holding a directory that shares the kernel's low part. */
  ghost predicate DirAdded(m: Memory, m': Memory, kernel: nat, p: nat)
    requires p < FRAMES && kernel < FRAMES
  {
    && (forall j: nat :: j < 1024 ==> m'[At(p, j)] == if j < SHARED then m[At(kernel, j)] else ABSENT)
    && (forall k :: 0 <= k < MEM_WORDS && !InFrame(p, k) ==> m'[k] == m[k])
  }

  lemma NewDirEntry(m: Memory, m': Memory, kernel: nat, p: nat, e: nat, j: nat)
    requires p < FRAMES && kernel < FRAMES && e < FRAMES && j < 1024 && DirAdded(m, m', kernel, p)
    ensures DirEntry(m', e, j) ==
            if e != p then DirEntry(m, e, j) else if j < SHARED then DirEntry(m, kernel, j) else ABSENT
  {
    var k := At(e, j);
    assert 0 <= k < MEM_WORDS;
    assert InFrame(p, k) <==> e == p;
    assert e == p ==> k - At(p, 0) == j;
  }

  /** A new user directory translates the shared low part as the kernel does and
      nothing above it; all other directories are unaffected. */
  lemma DirAddedKeeps(m: Memory, m': Memory, free: set<nat>, dirs: set<nat>, max: nat, kernel: nat, p: nat)
    requires PtOk(m, free, dirs, max) && kernel in dirs && p in free && 1 <= p < max && DirAdded(m, m', kernel, p)
    ensures PtOk(m', free - {p}, dirs + {p}, max)
    ensures forall e, v: VPage :: e in dirs ==> Pte(m', e, v) == Pte(m, e, v)
    ensures forall v: VPage :: Pte(m', p, v) == if v < SHARED * 1024 then Pte(m, kernel, v) else ABSENT
  {
    hide DirAdded, DirEntry;
    forall e: nat, j: nat | e < FRAMES && j < 1024
      ensures DirEntry(m', e, j) ==
              if e != p then DirEntry(m, e, j) else if j < SHARED then DirEntry(m, kernel, j) else ABSENT
    {
      NewDirEntry(m, m', kernel, p, e, j);
    }
    forall e, v: VPage | e in dirs ensures Pte(m', e, v) == Pte(m, e, v) {
      OutsideDir(m, m', kernel, p, e, v);
    }
    forall v: VPage ensures Pte(m', p, v) == if v < SHARED * 1024 then Pte(m, kernel, v) else ABSENT {
      if v / 1024 < SHARED && HasTable(m, kernel, v / 1024) {
        SameWordOutside(m, m', kernel, p, Table(m, kernel, v / 1024), v % 1024);
      }
    }
  }

  lemma SameWordOutside(m: Memory, m': Memory, kernel: nat, p: nat, t: nat, k: nat)
    requires p < FRAMES && kernel < FRAMES && t < FRAMES && k < 1024 && t != p && DirAdded(m, m', kernel, p)
    ensures m'[At(t, k)] == m[At(t, k)]
  {
    var x := At(t, k);
    assert 0 <= x < MEM_WORDS;
    assert !InFrame(p, x);
  }

  lemma OutsideDir(m: Memory, m': Memory, kernel: nat, p: nat, e: nat, v: VPage)
    requires p < FRAMES && kernel < FRAMES && e < FRAMES && e != p && DirAdded(m, m', kernel, p)
    requires HasTable(m, e, v / 1024) ==> Table(m, e, v / 1024) != p
    ensures Pte(m', e, v) == Pte(m, e, v)
  {
    NewDirEntry(m, m', kernel, p, e, v / 1024);
    if HasTable(m, e, v / 1024) {
      SameWordOutside(m, m', kernel, p, Table(m, e, v / 1024), v % 1024);
    }
  }
}

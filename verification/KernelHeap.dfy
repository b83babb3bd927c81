/** kmalloc, kfree and krealloc over the 1 MB arena, with the block headers
    (size, free flag, address of the next header) stored inside it. */
module KernelHeap {
  import opened HeapSpec

  const HEAP_START: int := 0x0080_0000

  type Word = x: int | 0 <= x < 0x1_0000_0000

  /** The address of an arena word. */
  function Addr(w: nat): int { HEAP_START + 4 * w }
  function WordOf(a: int): int { (a - HEAP_START) / 4 }

  /** The headers of the blocks bs lie in m from word o on, each pointing to the
      next and the last one to `end`. */
  predicate Linked(m: seq<Word>, bs: seq<Blk>, o: nat, end: int)
    requires o + Total(bs) <= |m|
    decreases bs
  {
    bs == [] ||
    (&& m[o] == 4 * bs[0].size
     && m[o + 1] == (if bs[0].free then 1 else 0)
     && m[o + 2] == (if |bs| == 1 then end else Addr(o + HDR + bs[0].size))
     && Linked(m, bs[1..], o + HDR + bs[0].size, end))
  }

  lemma {:induction false} LinkedFrame(m: seq<Word>, m': seq<Word>, bs: seq<Blk>, o: nat, end: int)
    requires o + Total(bs) <= |m| && |m'| == |m| && Linked(m, bs, o, end)
    requires forall k :: o <= k < o + Total(bs) ==> m'[k] == m[k]
    ensures Linked(m', bs, o, end)
    decreases bs
  {
    if bs != [] {
      LinkedFrame(m, m', bs[1..], o + HDR + bs[0].size, end);
    }
  }

  lemma {:induction false} LinkedSplit(m: seq<Word>, a: seq<Blk>, b: seq<Blk>, o: nat, p: nat, end: int)
    requires p == o + Total(a) && o + Total(a + b) <= |m| && b != [] && Linked(m, a + b, o, end)
    ensures Total(a + b) == Total(a) + Total(b)
    ensures Linked(m, a, o, Addr(p)) && Linked(m, b, p, end)
    decreases a
  {
    TotalConcat(a, b);
    if a == [] {
      assert a + b == b;
    } else {
      assert (a + b)[1..] == a[1..] + b;
      LinkedSplit(m, a[1..], b, o + HDR + a[0].size, p, end);
    }
  }

  lemma {:induction false} LinkedJoin(m: seq<Word>, a: seq<Blk>, b: seq<Blk>, o: nat, p: nat, end: int)
    requires p == o + Total(a) && p + Total(b) <= |m| && b != []
    requires Linked(m, a, o, Addr(p)) && Linked(m, b, p, end)
    ensures Total(a + b) == Total(a) + Total(b)
    ensures Linked(m, a + b, o, end)
    decreases a
  {
    TotalConcat(a, b);
    if a == [] {
      assert a + b == b;
    } else {
      assert (a + b)[1..] == a[1..] + b;
      LinkedJoin(m, a[1..], b, o + HDR + a[0].size, p, end);
    }
  }

  /** Every live payload has the same contents in both memories. */
  ghost predicate SamePayloads(bs: seq<Blk>, m: seq<Word>, m': seq<Word>) {
    |m'| == |m| && forall x, k :: x in Live(bs, 0) && x.0 <= k < x.0 + x.1 && k < |m| ==> m'[k] == m[k]
  }

  predicate ArenaOk(m: seq<Word>, bs: seq<Blk>) {
    |m| == WORDS && Ok(bs) && Linked(m, bs, 0, 0)
  }

  /** The three parts of a linked arena around block i. */
  lemma LinkedAround(m: seq<Word>, bs: seq<Blk>, i: nat)
    requires ArenaOk(m, bs) && i < |bs|
    ensures Pos(bs, i) + HDR + bs[i].size + Total(bs[i + 1..]) == WORDS
    ensures Linked(m, bs[..i], 0, Addr(Pos(bs, i)))
    ensures Linked(m, bs[i..], Pos(bs, i), 0)
    ensures Total(bs[i..]) == HDR + bs[i].size + Total(bs[i + 1..])
  {
    hide Linked, Coalesced;
    assert bs == bs[..i] + bs[i..];
    TotalConcat(bs[..i], bs[i..]);
    LinkedSplit(m, bs[..i], bs[i..], 0, Pos(bs, i), 0);
    assert bs[i..][1..] == bs[i + 1..];
  }

  lemma HeaderAt(m: seq<Word>, bs: seq<Blk>, i: nat)
    requires ArenaOk(m, bs) && i < |bs|
    ensures var p := Pos(bs, i);
            && p + HDR + bs[i].size <= WORDS
            && m[p] == 4 * bs[i].size && m[p + 1] == (if bs[i].free then 1 else 0)
            && m[p + 2] == (if i + 1 < |bs| then Addr(Pos(bs, i + 1)) else 0)
            && Pos(bs, i + 1) == p + HDR + bs[i].size
  {
    LinkedAround(m, bs, i);
    assert bs[..i + 1] == bs[..i] + [bs[i]];
    TotalConcat(bs[..i], [bs[i]]);
    Single(bs[i], 0);
  }

  /** Rewriting the words of a free block i changes no payload. */
  lemma FreeSpaceUnused(bs: seq<Blk>, i: nat, m: seq<Word>, m': seq<Word>)
    requires Ok(bs) && i < |bs| && bs[i].free && |m| == WORDS && |m'| == |m|
    requires forall k :: 0 <= k < |m| && !(Pos(bs, i) <= k < Pos(bs, i) + HDR + bs[i].size) ==> m'[k] == m[k]
    ensures SamePayloads(bs, m, m')
  {
    hide Total, Live, Coalesced;
    var a, c := bs[..i], bs[i + 1..];
    CutAt(bs, i);
    Single(bs[i], Total(a));
    Replace(a, [bs[i]], [bs[i]], c);
    forall x, k | x in Live(bs, 0) && x.0 <= k < x.0 + x.1 && k < |m| ensures m'[k] == m[k] {
      if x in Live(a, 0) {
        LiveBounds(a, 0, x);
      } else {
        LiveBounds(c, Total(a) + HDR + bs[i].size, x);
      }
    }
  }

  /** Rewriting the header of any block i changes no payload. */
  lemma HeadersUnused(bs: seq<Blk>, i: nat, m: seq<Word>, m': seq<Word>)
    requires Ok(bs) && i < |bs| && |m| == WORDS && |m'| == |m|
    requires forall k :: 0 <= k < |m| && !(Pos(bs, i) <= k < Pos(bs, i) + HDR) ==> m'[k] == m[k]
    ensures SamePayloads(bs, m, m')
  {
    hide Total, Live, Coalesced;
    var a, c := bs[..i], bs[i + 1..];
    CutAt(bs, i);
    Single(bs[i], Total(a));
    Replace(a, [bs[i]], [bs[i]], c);
    forall x, k | x in Live(bs, 0) && x.0 <= k < x.0 + x.1 && k < |m| ensures m'[k] == m[k] {
      if x in Live(a, 0) {
        LiveBounds(a, 0, x);
      } else if x in Live(c, Total(a) + HDR + bs[i].size) {
        LiveBounds(c, Total(a) + HDR + bs[i].size, x);
      }
    }
  }

  lemma LinkedOne(m: seq<Word>, b: Blk, o: nat, end: int)
    requires o + HDR + b.size <= |m|
    requires m[o] == 4 * b.size && m[o + 1] == (if b.free then 1 else 0) && m[o + 2] == end
    ensures Total([b]) == HDR + b.size && Linked(m, [b], o, end)
  {
    Single(b, 0);
    assert [b][1..] == [];
    assert Linked(m, [], o + HDR + b.size, end);
  }

  lemma LinkedTwo(m: seq<Word>, b: Blk, d: Blk, o: nat, end: int)
    requires o + HDR + b.size + HDR + d.size <= |m|
    requires m[o] == 4 * b.size && m[o + 1] == (if b.free then 1 else 0) && m[o + 2] == Addr(o + HDR + b.size)
    requires var n := o + HDR + b.size; m[n] == 4 * d.size && m[n + 1] == (if d.free then 1 else 0) && m[n + 2] == end
    ensures Total([b, d]) == HDR + b.size + HDR + d.size && Linked(m, [b, d], o, end)
  {
    Single(b, 0);
    Single(d, 0);
    LinkedOne(m, d, o + HDR + b.size, end);
    LinkedOne(m, b, o, Addr(o + HDR + b.size));
    LinkedJoin(m, [b], [d], o, o + HDR + b.size, end);
    assert [b] + [d] == [b, d];
  }

  // ---- the writes of each operation ---------------------------------------

  /** The memory after kmalloc took block i for w words. */
  function CarveWrites(m: seq<Word>, p: nat, n: nat, w: nat): (m': seq<Word>)
    requires |m| == WORDS && p + HDR + n <= WORDS && n >= w
    ensures |m'| == |m|
  {
    if n > w + 4 then
      var q := p + HDR + w;
      m[q := 4 * (n - w - HDR)][q + 1 := 1][q + 2 := m[p + 2]][p := 4 * w][p + 2 := Addr(q)][p + 1 := 0]
    else m[p + 1 := 0]
  }

  lemma CarveWritesOk(m: seq<Word>, bs: seq<Blk>, i: nat, w: nat)
    requires ArenaOk(m, bs) && i < |bs| && bs[i].free && bs[i].size >= w
    ensures Pos(bs, i) + HDR + bs[i].size <= WORDS
    ensures var m' := CarveWrites(m, Pos(bs, i), bs[i].size, w);
            ArenaOk(m', Carve(bs, i, w)) && SamePayloads(bs, m, m')
  {
    hide Linked, Total, Coalesced, Live;
    HeaderAt(m, bs, i);
    CarveKeeps(bs, i, w);
    var a, b, c, p := bs[..i], bs[i], bs[i + 1..], Pos(bs, i);
    var m' := CarveWrites(m, p, b.size, w);
    FreeSpaceUnused(bs, i, m, m');
    CutAt(bs, i);
    Single(b, 0);
    var end := if c == [] then 0 else Addr(p + HDR + b.size);
    if b.size > w + 4 {
      LinkedTwo(m', Blk(w, false), Blk(b.size - w - HDR, true), p, end);
    } else {
      LinkedOne(m', Blk(b.size, false), p, end);
    }
    Relink(m, m', a, [b], Pieces(b.size, w), c, p, p + HDR + b.size, end);
  }

  /** The memory after kfree marked block i free and joined a free successor. */
  function MergeNextWrites(m: seq<Word>, p: nat, n: nat, joined: bool, n2: nat): (m': seq<Word>)
    requires |m| == WORDS && p + HDR + n <= WORDS
    requires joined ==> p + HDR + n + HDR + n2 <= WORDS
    ensures |m'| == |m|
  {
    if joined then m[p + 1 := 1][p := 4 * (n + HDR + n2)][p + 2 := m[p + HDR + n + 2]] else m[p + 1 := 1]
  }

  /** Tiled and linked, but block i and its predecessor may both be free. */
  predicate ArenaBut(m: seq<Word>, bs: seq<Blk>, i: nat) {
    |m| == WORDS && i < |bs| && OkBut(bs, i) && Linked(m, bs, 0, 0)
  }

  lemma MergeNextOk(m: seq<Word>, bs: seq<Blk>, i: nat)
    requires ArenaOk(m, bs) && i < |bs| && !bs[i].free
    ensures Pos(bs, i) + HDR + bs[i].size <= WORDS
    ensures var joined := i + 1 < |bs| && bs[i + 1].free;
            var n2 := if joined then bs[i + 1].size else 0;
            && (joined ==> Pos(bs, i) + HDR + bs[i].size + HDR + n2 <= WORDS)
            && var m' := MergeNextWrites(m, Pos(bs, i), bs[i].size, joined, n2);
            && ArenaBut(m', MergeNext(bs, i), i) && SamePayloads(bs, m, m')
  {
    hide Linked, Total, Coalesced, Live;
    HeaderAt(m, bs, i);
    if i + 1 < |bs| && bs[i + 1].free {
      JoinNextOk(m, bs, i);
    } else {
      LoneFreeOk(m, bs, i);
    }
  }

  lemma JoinNextOk(m: seq<Word>, bs: seq<Blk>, i: nat)
    requires ArenaOk(m, bs) && i + 1 < |bs| && !bs[i].free && bs[i + 1].free
    ensures Pos(bs, i) + HDR + bs[i].size + HDR + bs[i + 1].size <= WORDS
    ensures var m' := MergeNextWrites(m, Pos(bs, i), bs[i].size, true, bs[i + 1].size);
            ArenaBut(m', MergeNext(bs, i), i) && SamePayloads(bs, m, m')
  {
    hide Linked, Total, Coalesced, Live;
    HeaderAt(m, bs, i);
    HeaderAt(m, bs, i + 1);
    MergeNextKeeps(bs, i);
    var a, b, d, c, p := bs[..i], bs[i], bs[i + 1], bs[i + 2..], Pos(bs, i);
    var m' := MergeNextWrites(m, p, b.size, true, d.size);
    CutTwo(bs, i);
    Pair(b, d, 0);
    Single(b, 0);
    Single(d, 0);
    var f := Blk(b.size + HDR + d.size, true);
    Single(f, 0);
    var q := p + HDR + f.size;
    var end := if c == [] then 0 else Addr(q);
    LinkedOne(m', f, p, end);
    Relink(m, m', a, [b, d], [f], c, p, q, end);
    HeadersUnused(bs, i, m, m');
  }

  lemma LoneFreeOk(m: seq<Word>, bs: seq<Blk>, i: nat)
    requires ArenaOk(m, bs) && i < |bs| && !bs[i].free && (i + 1 == |bs| || !bs[i + 1].free)
    requires Pos(bs, i) + HDR + bs[i].size <= WORDS
    ensures var m' := MergeNextWrites(m, Pos(bs, i), bs[i].size, false, 0);
            ArenaBut(m', MergeNext(bs, i), i) && SamePayloads(bs, m, m')
  {
    hide Linked, Total, Coalesced, Live;
    HeaderAt(m, bs, i);
    MergeNextKeeps(bs, i);
    var a, b, c, p := bs[..i], bs[i], bs[i + 1..], Pos(bs, i);
    var m' := MergeNextWrites(m, p, b.size, false, 0);
    CutAt(bs, i);
    Single(b, 0);
    var q := p + HDR + b.size;
    var end := if c == [] then 0 else Addr(q);
    Single(Blk(b.size, true), 0);
    LinkedOne(m', Blk(b.size, true), p, end);
    Relink(m, m', a, [b], [Blk(b.size, true)], c, p, q, end);
    HeadersUnused(bs, i, m, m');
  }

  lemma HeaderBut(m: seq<Word>, bs: seq<Blk>, i: nat, k: nat)
    requires ArenaBut(m, bs, i) && k < |bs|
    ensures var p := Pos(bs, k);
            && p + HDR + bs[k].size <= WORDS
            && m[p] == 4 * bs[k].size && m[p + 1] == (if bs[k].free then 1 else 0)
            && m[p + 2] == (if k + 1 < |bs| then Addr(Pos(bs, k + 1)) else 0)
            && Pos(bs, k + 1) == p + HDR + bs[k].size
  {
    assert bs == bs[..k] + bs[k..];
    TotalConcat(bs[..k], bs[k..]);
    LinkedSplit(m, bs[..k], bs[k..], 0, Pos(bs, k), 0);
    assert bs[..k + 1] == bs[..k] + [bs[k]];
    TotalConcat(bs[..k], [bs[k]]);
    Single(bs[k], 0);
  }

  lemma MergePrevOk(m: seq<Word>, bs: seq<Blk>, i: nat)
    requires ArenaBut(m, bs, i) && bs[i].free
    ensures i > 0 && bs[i - 1].free ==>
              var p := Pos(bs, i - 1);
              && p + HDR + bs[i - 1].size + HDR + bs[i].size <= WORDS && Pos(bs, i) + 2 < WORDS
              && (var m' := m[p := 4 * (bs[i - 1].size + HDR + bs[i].size)][p + 2 := m[Pos(bs, i) + 2]];
                  ArenaOk(m', MergePrev(bs, i)) && SamePayloads(MergePrev(bs, i), m, m'))
    ensures i == 0 || !bs[i - 1].free ==> ArenaOk(m, bs) && MergePrev(bs, i) == bs
  {
    hide Linked, Total, Coalesced, Live;
    MergePrevKeeps(bs, i);
    if i > 0 && bs[i - 1].free {
      HeaderBut(m, bs, i, i);
      HeaderBut(m, bs, i, i - 1);
      var f := Blk(bs[i - 1].size + HDR + bs[i].size, true);
      var p := Pos(bs, i - 1);
      var m' := m[p := 4 * f.size][p + 2 := m[Pos(bs, i) + 2]];
      JoinPrevOk(m, bs, i, f, p, m');
      JoinPrevSame(m, bs, i, p, m');
    }
  }

  lemma JoinPrevSame(m: seq<Word>, bs: seq<Blk>, i: nat, p: nat, m': seq<Word>)
    requires 0 < i < |bs| && bs[i - 1].free && p == Pos(bs, i - 1)
    requires Ok(MergePrev(bs, i)) && |m| == WORDS && |m'| == |m|
    requires forall k :: 0 <= k < |m| && !(p <= k < p + HDR) ==> m'[k] == m[k]
    ensures SamePayloads(MergePrev(bs, i), m, m')
  {
    hide Total, Coalesced, Live;
    assert MergePrev(bs, i)[..i - 1] == bs[..i - 1];
    HeadersUnused(MergePrev(bs, i), i - 1, m, m');
  }

  lemma JoinPrevOk(m: seq<Word>, bs: seq<Blk>, i: nat, f: Blk, p: nat, m': seq<Word>)
    requires ArenaBut(m, bs, i) && i > 0 && bs[i].free && bs[i - 1].free && p == Pos(bs, i - 1)
    requires f == Blk(bs[i - 1].size + HDR + bs[i].size, true)
    requires p + HDR + f.size <= WORDS && Pos(bs, i) + 2 < WORDS
    requires m' == m[p := 4 * f.size][p + 2 := m[Pos(bs, i) + 2]]
    ensures ArenaOk(m', MergePrev(bs, i))
  {
    hide Linked, Total, Coalesced, Live;
    MergePrevKeeps(bs, i);
    HeaderBut(m, bs, i, i);
    HeaderBut(m, bs, i, i - 1);
    var a, q, b, c := bs[..i - 1], bs[i - 1], bs[i], bs[i + 1..];
    CutTwo(bs, i - 1);
    Pair(q, b, 0);
    Single(q, 0);
    Single(b, 0);
    Single(f, 0);
    var r := p + HDR + f.size;
    var end := if c == [] then 0 else Addr(r);
    LinkedOne(m', f, p, end);
    Relink(m, m', a, [q, b], [f], c, p, r, end);
  }

  ghost predicate AgreeOn(m: seq<Word>, m': seq<Word>, lo: nat, hi: nat) {
    |m'| == |m| && hi <= |m| && forall k :: lo <= k < hi ==> m'[k] == m[k]
  }

  lemma RelinkTail(m: seq<Word>, m': seq<Word>, x: seq<Blk>, y: seq<Blk>, c: seq<Blk>, o: nat, p: nat, end: int)
    requires o + Total(x + c) <= |m| && Linked(m, x + c, o, 0)
    requires x != [] && y != [] && Total(x) == Total(y) && p == o + Total(x)
    requires AgreeOn(m, m', p, |m|) && o + Total(y) <= |m|
    requires end == (if c == [] then 0 else Addr(p)) && Linked(m', y, o, end)
    ensures Total(y + c) == Total(x + c) && Linked(m', y + c, o, 0)
  {
    hide Linked, Total;
    if c == [] {
      assert x + c == x && y + c == y;
    } else {
      LinkedSplit(m, x, c, o, p, 0);
      LinkedFrame(m, m', c, p, 0);
      LinkedJoin(m', y, c, o, p, 0);
    }
  }

  lemma RelinkFront(m: seq<Word>, m': seq<Word>, a: seq<Blk>, t: seq<Blk>, t': seq<Blk>, p: nat)
    requires |m| == WORDS && Total(a + t) == WORDS && Linked(m, a + t, 0, 0) && t != [] && t' != []
    requires p == Total(a) && AgreeOn(m, m', 0, p) && Total(t') == Total(t)
    requires p + Total(t') <= |m'| && Linked(m', t', p, 0)
    ensures Total(a + t') == WORDS && Linked(m', a + t', 0, 0)
  {
    hide Linked, Total;
    LinkedSplit(m, a, t, 0, p, 0);
    LinkedFrame(m, m', a, 0, Addr(p));
    LinkedJoin(m', a, t', 0, p, 0);
  }

  /** Replacing the middle of a linked arena, given the new headers. */
  lemma Relink(m: seq<Word>, m': seq<Word>, a: seq<Blk>, x: seq<Blk>, y: seq<Blk>, c: seq<Blk>, p: nat, q: nat,
      end: int)
    requires |m| == WORDS && Total(a + x + c) == WORDS && Linked(m, a + x + c, 0, 0)
    requires x != [] && y != [] && Total(x) == Total(y) && p == Total(a) && q == p + Total(x) && q <= WORDS
    requires AgreeOn(m, m', 0, p) && AgreeOn(m, m', q, |m|)
    requires end == (if c == [] then 0 else Addr(q)) && Linked(m', y, p, end)
    ensures Total(a + y + c) == WORDS && Linked(m', a + y + c, 0, 0)
  {
    hide Linked, Total;
    var t, t' := x + c, y + c;
    assert a + x + c == a + t;
    assert a + y + c == a + t';
    LinkedSplit(m, a, t, 0, p, 0);
    RelinkTail(m, m', x, y, c, p, q, end);
    RelinkFront(m, m', a, t, t', p);
  }

  lemma PosStrict(bs: seq<Blk>, i: nat, j: nat)
    requires i < j <= |bs|
    ensures Pos(bs, i) < Pos(bs, j)
  {
    assert bs[..j] == bs[..i] + bs[i..j];
    TotalConcat(bs[..i], bs[i..j]);
    assert Total(bs[i..j]) >= HDR;
  }

  /** Writing inside the payload of block i leaves every header alone. */
  lemma {:induction false} PayloadWriteLinked(m: seq<Word>, m': seq<Word>, bs: seq<Blk>, o: nat, end: int, i: nat,
      p: nat)
    requires o + Total(bs) <= |m| && |m'| == |m| && Linked(m, bs, o, end) && i < |bs| && p == o + Total(bs[..i]) + HDR
    requires forall k :: o <= k < |m| && !(p <= k < p + bs[i].size) ==> m'[k] == m[k]
    ensures Linked(m', bs, o, end)
    decreases i
  {
    var o' := o + HDR + bs[0].size;
    if i == 0 {
      LinkedFrame(m, m', bs[1..], o', end);
    } else {
      assert bs[..i][1..] == bs[1..][..i - 1];
      PayloadWriteLinked(m, m', bs[1..], o', end, i - 1, p);
    }
  }

  /** The block that owns a live payload. */
  lemma {:induction false} IndexOf(bs: seq<Blk>, o: nat, x: (nat, nat)) returns (i: nat)
    requires x in Live(bs, o)
    ensures i < |bs| && !bs[i].free && x == (o + Pos(bs, i) + HDR, bs[i].size)
  {
    if !bs[0].free && x == (o + HDR, bs[0].size) {
      i := 0;
    } else {
      var j := IndexOf(bs[1..], o + HDR + bs[0].size, x);
      i := j + 1;
      assert bs[..i][1..] == bs[1..][..j];
    }
  }

  class Heap {
    const mem: array<Word>
    ghost var blocks: seq<Blk>

    ghost predicate Valid()
      reads this, mem
    {
      ArenaOk(mem[..], blocks)
    }

    /** kheap_init: one free block covers the arena. */
    constructor ()
      ensures Valid() && blocks == Initial() && fresh(mem)
    {
      mem := new Word[WORDS](_ => 0);
      blocks := Initial();
      new;
      mem[0] := 4 * (WORDS - HDR);
      mem[1] := 1;
      mem[2] := 0;
      InitialOk();
      LinkedOne(mem[..], Blk(WORDS - HDR, true), 0, 0);
    }

    /** First fit.  A success adds one live payload of n words, at least the rounded
        request and at most 16 bytes more, and leaves the contents of all others alone. */
    method Kmalloc(size: Word) returns (ptr: int, ghost n: nat)
      requires Valid()
      modifies this, mem
      ensures Valid()
      ensures var fit := FirstFit(old(blocks), Round(size) / 4);
              && (ptr == 0 <==> size == 0 || fit == |old(blocks)|)
              && (ptr == 0 ==> blocks == old(blocks) && mem[..] == old(mem[..]))
              && (ptr != 0 ==>
                  blocks == Malloc(old(blocks), Round(size) / 4).0 && ptr == Addr(Pos(old(blocks), fit) + HDR))
      ensures ptr % 4 == 0
      ensures ptr != 0 ==> Round(size) <= 4 * n <= Round(size) + 16 && (WordOf(ptr), n) !in Live(old(blocks), 0)
                           && Live(blocks, 0) == Live(old(blocks), 0) + {(WordOf(ptr), n)}
      ensures ptr != 0 ==>
                var split := 4 * old(blocks)[FirstFit(old(blocks), Round(size) / 4)].size > Round(size) + 16;
                && |blocks| == |old(blocks)| + (if split then 1 else 0)
                && FreeWords(blocks) == FreeWords(old(blocks)) - n - (if split then HDR else 0)
      ensures SamePayloads(old(blocks), old(mem[..]), mem[..])
    {
      hide Linked, Total, Coalesced, Live, Pieces, CarveWrites;
      n := 0;
      if size == 0 { return 0, 0; }
      var sz := Round(size);
      ghost var w := sz / 4;
      var curr := FindFit(sz);
      if curr == 0 { return 0, 0; }
      ghost var i, m := FirstFit(blocks, w), mem[..];
      var c := WordOf(curr);
      HeaderAt(m, blocks, i);
      CarveWritesOk(m, blocks, i, w);
      CarveKeeps(blocks, i, w);
      CarveSplits(blocks, i, w);
      TakeBlock(c, sz, blocks[i].size);
      n := Pieces(blocks[i].size, w)[0].size;
      blocks := Carve(blocks, i, w);
      ptr := Addr(c + 3);
    }

    /** Walk the list to the first free block of at least sz bytes. */
    method FindFit(sz: nat) returns (curr: int)
      requires Valid() && sz % 4 == 0
      ensures var fit := FirstFit(blocks, sz / 4);
              curr == if fit == |blocks| then 0 else Addr(Pos(blocks, fit))
    {
      hide Linked, Total, Coalesced;
      curr := HEAP_START;
      ghost var i := 0;
      StartsAtZero(blocks);
      while curr != 0
        invariant i <= |blocks| && (curr == 0 <==> i == |blocks|) && (curr != 0 ==> curr == Addr(Pos(blocks, i)))
        invariant forall k :: 0 <= k < i ==> !(blocks[k].free && blocks[k].size >= sz / 4)
        decreases |blocks| - i
      {
        HeaderAt(mem[..], blocks, i);
        var c := WordOf(curr);
        if mem[c + 1] != 0 && mem[c] >= sz { return; }
        curr := mem[c + 2];
        i := i + 1;
      }
    }

    /** Split the block at word c when more than 16 bytes would be left, and mark it used. */
    method TakeBlock(c: nat, sz: nat, ghost size: nat)
      requires mem.Length == WORDS && sz % 4 == 0 && 4 * size >= sz && c + HDR + size <= WORDS
      requires mem[c] == 4 * size
      modifies mem
      ensures mem[..] == CarveWrites(old(mem[..]), c, size, sz / 4)
    {
      if mem[c] > sz + 16 {
        var q := c + 3 + sz / 4;
        mem[q] := mem[c] - sz - 12;
        mem[q + 1] := 1;
        mem[q + 2] := mem[c + 2];
        mem[c] := sz;
        mem[c + 2] := Addr(q);
      }
      mem[c + 1] := 0;
    }

    /** Free a live payload: join it with free neighbours on both sides. */
    method Kfree(ptr: int, ghost i: nat)
      requires Valid()
      requires ptr != 0 ==> i < |blocks| && !blocks[i].free && ptr == Addr(Pos(blocks, i) + HDR)
      modifies this, mem
      ensures Valid()
      ensures ptr == 0 ==> blocks == old(blocks) && mem[..] == old(mem[..])
      ensures ptr != 0 ==> blocks == Free(old(blocks), i)
      ensures ptr != 0 ==> Live(blocks, 0) == Live(old(blocks), 0) - {(WordOf(ptr), old(blocks)[i].size)}
      ensures SamePayloads(blocks, old(mem[..]), mem[..])
    {
      hide Linked, Total, Coalesced, Live, MergeNext, MergePrev, OkBut;
      if ptr == 0 { return; }
      var b := WordOf(ptr) - 3;
      ghost var bs, m := blocks, mem[..];
      ghost var bs1 := MergeNext(bs, i);
      FreeKeeps(bs, i);
      MergeNextKeeps(bs, i);
      SamePos(bs, bs1, i);
      FreeAndJoin(b, i);
      ghost var m1 := mem[..];
      JoinPrev(b, bs1, i);
      blocks := Free(bs, i);
      FewerLive(bs, bs1, m, m1);
      FewerLive(bs1, blocks, m, m1);
      SamePayloadsTrans(blocks, m, m1, mem[..]);
    }

    /** Mark the block at word b free and swallow a free successor. */
    method FreeAndJoin(b: nat, ghost i: nat)
      requires Valid() && i < |blocks| && !blocks[i].free && b == Pos(blocks, i)
      modifies mem
      ensures ArenaBut(mem[..], MergeNext(blocks, i), i) && SamePayloads(blocks, old(mem[..]), mem[..])
    {
      hide Linked, Total, Coalesced, Live, ArenaBut, SamePayloads;
      ghost var bs, m := blocks, mem[..];
      HeaderAt(m, bs, i);
      MergeNextOk(m, bs, i);
      if i + 1 < |bs| {
        HeaderAt(m, bs, i + 1);
      }
      mem[b + 1] := 1;
      var nx := mem[b + 2];
      if nx != 0 && mem[WordOf(nx) + 1] != 0 {
        mem[b] := mem[b] + 12 + mem[WordOf(nx)];
        mem[b + 2] := mem[WordOf(nx) + 2];
      }
      ghost var joined := i + 1 < |bs| && bs[i + 1].free;
      assert mem[..] == MergeNextWrites(m, b, bs[i].size, joined, if joined then bs[i + 1].size else 0);
    }

    /** Let a free predecessor swallow the free block at word b. */
    method JoinPrev(b: nat, ghost bs: seq<Blk>, ghost i: nat)
      requires ArenaBut(mem[..], bs, i) && bs[i].free && b == Pos(bs, i)
      modifies mem
      ensures ArenaOk(mem[..], MergePrev(bs, i)) && SamePayloads(MergePrev(bs, i), old(mem[..]), mem[..])
    {
      hide Linked, Total, Coalesced, Live, ArenaOk;
      ghost var m := mem[..];
      var prev := FindPrev(b, bs, i);
      MergePrevOk(m, bs, i);
      if i > 0 {
        HeaderBut(m, bs, i, i - 1);
      }
      HeaderBut(m, bs, i, i);
      if prev != 0 && mem[WordOf(prev) + 1] != 0 {
        var c := WordOf(prev);
        mem[c] := mem[c] + 12 + mem[b];
        mem[c + 2] := mem[b + 2];
        assert mem[..] == m[c := 4 * (bs[i - 1].size + HDR + bs[i].size)][c + 2 := m[b + 2]];
      }
    }

    /** The block whose next pointer is the header at word b, or 0. */
    method FindPrev(b: nat, ghost bs: seq<Blk>, ghost i: nat) returns (prev: int)
      requires ArenaBut(mem[..], bs, i) && b == Pos(bs, i)
      ensures prev == if i == 0 then 0 else Addr(Pos(bs, i - 1))
    {
      hide Linked, Total, Coalesced;
      prev := HEAP_START;
      ghost var k := 0;
      StartsAtZero(bs);
      while prev != 0 && mem[WordOf(prev) + 2] != Addr(b)
        invariant k <= |bs|
        invariant (prev == 0 <==> k == |bs|) && (prev != 0 ==> prev == Addr(Pos(bs, k)) && Pos(bs, k) + 2 < WORDS)
        invariant i > 0 ==> k < i
        decreases |bs| - k
      {
        HeaderBut(mem[..], bs, i, k);
        if k + 1 < |bs| {
          HeaderBut(mem[..], bs, i, k + 1);
        }
        if i == k + 1 {
          assert false;
        }
        prev := mem[WordOf(prev) + 2];
        k := k + 1;
      }
      if prev != 0 {
        HeaderBut(mem[..], bs, i, k);
        if k + 1 < i {
          PosStrict(bs, k + 1, i);
        } else if k + 1 > i && k + 1 < |bs| {
          PosStrict(bs, i, k + 1);
        }
      }
    }

    /** Grow a live payload: a new one with the old contents in front, or the
        old one untouched when it is large enough or memory is out. */
    method Krealloc(ptr: int, size: Word, ghost i: nat) returns (np: int, ghost n: nat)
      requires Valid()
      requires ptr != 0 ==> i < |blocks| && !blocks[i].free && ptr == Addr(Pos(blocks, i) + HDR) && size <= 0xFFFF_FFFC
      modifies this, mem
      ensures Valid() && np % 4 == 0
      ensures var fit := FirstFit(old(blocks), Round(size) / 4);
              np == 0 <==> if ptr == 0 then size == 0 || fit == |old(blocks)|
                           else 4 * old(blocks)[i].size < size && fit == |old(blocks)|
      ensures ptr == 0 && np == 0 ==> blocks == old(blocks) && mem[..] == old(mem[..])
      ensures ptr != 0 && (4 * old(blocks)[i].size >= size || np == 0) ==>
                && np == (if 4 * old(blocks)[i].size >= size then ptr else 0)
                && blocks == old(blocks) && mem[..] == old(mem[..])
      ensures ptr != 0 && 4 * old(blocks)[i].size < size && np != 0 ==>
                && var x := (WordOf(ptr), old(blocks)[i].size);
                && size <= 4 * n <= Round(size) + 16
                && Live(blocks, 0) == Live(old(blocks), 0) - {x} + {(WordOf(np), n)}
                && Moved(x, WordOf(np), old(mem[..]), mem[..])
                && forall y, k :: y in Live(old(blocks), 0) && y != x && y.0 <= k < y.0 + y.1 && k < WORDS ==>
                    mem[k] == old(mem[k])
      ensures ptr == 0 && np != 0 ==>
                && Round(size) <= 4 * n <= Round(size) + 16
                && Live(blocks, 0) == Live(old(blocks), 0) + {(WordOf(np), n)}
                && SamePayloads(old(blocks), old(mem[..]), mem[..])
    {
      hide Linked, Total, Coalesced, Live, FirstFit, Malloc, Round, Moved;
      n := 0;
      if ptr == 0 {
        np, n := Kmalloc(size);
        return;
      }
      HeaderAt(mem[..], blocks, i);
      Aligned(Pos(blocks, i) + HDR);
      if mem[WordOf(ptr) - 3] >= size { return ptr, 0; }
      RoundUp(size);
      np, n := Relocate(ptr, size, i);
    }

    /** Take a larger block, copy the payload over and free the old one. */
    method Relocate(ptr: int, size: Word, ghost i: nat) returns (np: int, ghost n: nat)
      requires Valid() && 0 < size <= 0xFFFF_FFFC
      requires i < |blocks| && !blocks[i].free && ptr == Addr(Pos(blocks, i) + HDR) && 4 * blocks[i].size < Round(size)
      modifies this, mem
      ensures Valid() && np % 4 == 0
      ensures np == 0 <==> FirstFit(old(blocks), Round(size) / 4) == |old(blocks)|
      ensures np == 0 ==> blocks == old(blocks) && mem[..] == old(mem[..])
      ensures np != 0 ==>
                && var x := (WordOf(ptr), old(blocks)[i].size);
                && Round(size) <= 4 * n <= Round(size) + 16
                && Live(blocks, 0) == Live(old(blocks), 0) - {x} + {(WordOf(np), n)}
                && Moved(x, WordOf(np), old(mem[..]), mem[..])
                && forall y, k :: y in Live(old(blocks), 0) && y != x && y.0 <= k < y.0 + y.1 && k < WORDS ==>
                     mem[k] == old(mem[k])
    {
      hide Linked, Total, Coalesced, Live, FirstFit, Malloc, Round, Moved;
      n := 0;
      ghost var bs, m := blocks, mem[..];
      HeaderAt(m, bs, i);
      LiveHas(bs, 0, i);
      np, n := Kmalloc(size);
      if np == 0 { return; }
      ghost var x, y, m1 := (WordOf(ptr), bs[i].size), (WordOf(np), n), mem[..];
      ghost var j := IndexOf(blocks, 0, x);
      HeaderAt(m1, blocks, j);
      CopyPayload(WordOf(ptr) - 3, WordOf(np), x, y);
      ghost var m2, bs2 := mem[..], blocks;
      Kfree(ptr, j);
      assert blocks == Free(bs2, j);
      assert Live(blocks, 0) == Live(bs, 0) - {x} + {y};
      MovedThrough(x, y, blocks, m, m1, m2, mem[..]);
      OthersThrough(x, y, bs, bs2, blocks, m, m1, m2, mem[..]);
    }

    /** The copy loop of krealloc, a word at a time. */
    method CopyPayload(b: nat, q: nat, ghost x: (nat, nat), ghost y: (nat, nat))
      requires Valid() && x in Live(blocks, 0) && y in Live(blocks, 0) && x != y && x.0 == b + HDR && y.0 == q
      requires y.1 >= x.1 && b + HDR <= WORDS && mem[b] == 4 * x.1
      modifies mem
      ensures Valid() && Moved(x, q, old(mem[..]), mem[..])
      ensures forall k :: 0 <= k < WORDS && !(y.0 <= k < y.0 + y.1) ==> mem[k] == old(mem[k])
    {
      hide Linked, Total, Coalesced, Live;
      LiveDisjoint(blocks, 0, x, y);
      LiveBounds(blocks, 0, x);
      LiveBounds(blocks, 0, y);
      CopyWords(b, q, x.1);
      PayloadWriteKeeps(old(mem[..]), mem[..], blocks, y);
    }

    method CopyWords(b: nat, q: nat, ghost n: nat)
      requires mem.Length == WORDS && b + HDR + n <= WORDS && q + n <= WORDS && mem[b] == 4 * n
      requires b + HDR + n <= q || q + n <= b
      modifies mem
      ensures mem[..][q..q + n] == old(mem[..])[b + HDR..b + HDR + n]
      ensures forall t :: 0 <= t < WORDS && !(q <= t < q + n) ==> mem[t] == old(mem[t])
    {
      var k := 0;
      while 4 * k < mem[b]
        invariant 0 <= k <= n
        invariant forall t :: 0 <= t < WORDS && !(q <= t < q + n) ==> mem[t] == old(mem[t])
        invariant mem[..][q..q + k] == old(mem[..])[b + HDR..b + HDR + k]
        decreases n - k
      {
        CopyStep(old(mem[..]), b + HDR, mem[..], q, k);
        ghost var m := mem[..];
        mem[q + k] := mem[b + HDR + k];
        assert mem[..] == m[q + k := m[b + HDR + k]];
        k := k + 1;
      }
    }
  }

  lemma CopyStep(m: seq<Word>, p: nat, m1: seq<Word>, q: nat, k: nat)
    requires |m| == |m1| && p + k < |m| && q + k < |m| && m1[p + k] == m[p + k]
    requires m1[q..q + k] == m[p..p + k]
    ensures m1[q + k := m1[p + k]][q..q + k + 1] == m[p..p + k + 1]
  {
    assert m[p..p + k + 1] == m[p..p + k] + [m[p + k]];
    assert m1[q + k := m1[p + k]][q..q + k + 1] == m1[q..q + k] + [m1[p + k]];
  }

  lemma Aligned(w: nat)
    ensures Addr(w) % 4 == 0 && Addr(w) != 0
  {
  }

  lemma RoundUp(size: Word)
    requires size <= 0xFFFF_FFFC
    ensures Round(size) >= size && forall n: nat :: 4 * n < size ==> 4 * n < Round(size)
  {
  }

  lemma PayloadWriteKeeps(m: seq<Word>, m': seq<Word>, bs: seq<Blk>, y: (nat, nat))
    requires ArenaOk(m, bs) && y in Live(bs, 0) && |m'| == |m|
    requires forall k :: 0 <= k < WORDS && !(y.0 <= k < y.0 + y.1) ==> m'[k] == m[k]
    ensures ArenaOk(m', bs)
  {
    hide Linked, Total, Coalesced, Live;
    var j := IndexOf(bs, 0, y);
    PayloadWriteLinked(m, m', bs, 0, 0, j, y.0);
  }

  /** The words of payload x are found again from word q on. */
  ghost predicate Moved(x: (nat, nat), q: int, m: seq<Word>, m': seq<Word>) {
    0 <= q && x.0 + x.1 <= |m| && q + x.1 <= |m'| && m'[q..q + x.1] == m[x.0..x.0 + x.1]
  }

  lemma MovedThrough(x: (nat, nat), y: (nat, nat), bs: seq<Blk>, m: seq<Word>, m1: seq<Word>, m2: seq<Word>,
      m3: seq<Word>)
    requires |m| == |m1| == |m2| == |m3| && y.1 >= x.1 && y in Live(bs, 0)
    requires forall k :: x.0 <= k < x.0 + x.1 && k < |m| ==> m1[k] == m[k]
    requires Moved(x, y.0, m1, m2) && SamePayloads(bs, m2, m3)
    ensures Moved(x, y.0, m, m3)
  {
    hide Live;
    assert m1[x.0..x.0 + x.1] == m[x.0..x.0 + x.1];
    assert m3[y.0..y.0 + x.1] == m2[y.0..y.0 + x.1];
  }

  lemma OthersThrough(x: (nat, nat), y: (nat, nat), bs: seq<Blk>, bs2: seq<Blk>, bs3: seq<Blk>,
      m: seq<Word>, m1: seq<Word>, m2: seq<Word>, m3: seq<Word>)
    requires |m| == |m1| == |m2| == |m3| == WORDS
    requires SamePayloads(bs, m, m1) && SamePayloads(bs3, m2, m3)
    requires y in Live(bs2, 0) && y !in Live(bs, 0)
    requires Live(bs2, 0) == Live(bs, 0) + {y} && Live(bs3, 0) == Live(bs, 0) - {x} + {y}
    requires forall k :: 0 <= k < WORDS && !(y.0 <= k < y.0 + y.1) ==> m2[k] == m1[k]
    ensures forall z, k :: z in Live(bs, 0) && z != x && z.0 <= k < z.0 + z.1 && k < WORDS ==> m3[k] == m[k]
  {
    hide Live;
    forall z, k | z in Live(bs, 0) && z != x && z.0 <= k < z.0 + z.1 && k < WORDS ensures m3[k] == m[k] {
      LiveDisjoint(bs2, 0, z, y);
      assert m1[k] == m[k];
      assert m2[k] == m1[k];
      assert m3[k] == m2[k];
    }
  }

  lemma StartsAtZero(bs: seq<Blk>)
    ensures Pos(bs, 0) == 0
  {
  }

  lemma SamePos(bs: seq<Blk>, bs': seq<Blk>, i: nat)
    requires i <= |bs| && i <= |bs'| && bs[..i] == bs'[..i]
    ensures Pos(bs, i) == Pos(bs', i)
  {
  }

  lemma FewerLive(bs: seq<Blk>, bs': seq<Blk>, m: seq<Word>, m': seq<Word>)
    requires Live(bs', 0) <= Live(bs, 0)
    ensures SamePayloads(bs, m, m') ==> SamePayloads(bs', m, m')
  {
  }

  lemma SamePayloadsTrans(bs: seq<Blk>, m: seq<Word>, m1: seq<Word>, m2: seq<Word>)
    ensures SamePayloads(bs, m, m1) && SamePayloads(bs, m1, m2) ==> SamePayloads(bs, m, m2)
  {
  }
}

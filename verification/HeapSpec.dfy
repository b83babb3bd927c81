/** The kernel heap as a list of blocks that tile the arena, in words of four
    bytes: every size the allocator ever stores is a multiple of four. */
module HeapSpec {
  const WORDS: nat := 262144
  const HDR: nat := 3
  const TWO32: int := 0x1_0000_0000

  datatype Blk = Blk(size: nat, free: bool)

  /** Words covered by the blocks, headers included. */
  function Total(bs: seq<Blk>): nat {
    if bs == [] then 0 else HDR + bs[0].size + Total(bs[1..])
  }

  predicate Coalesced(bs: seq<Blk>) {
    |bs| < 2 || (!(bs[0].free && bs[1].free) && Coalesced(bs[1..]))
  }

  /** The list exactly tiles the arena and no two neighbours are both free. */
  predicate Ok(bs: seq<Blk>) {
    bs != [] && Total(bs) == WORDS && Coalesced(bs)
  }

  function Initial(): seq<Blk> {
    [Blk(WORDS - HDR, true)]
  }

  /** The word at which block i's header starts. */
  function Pos(bs: seq<Blk>, i: nat): nat
    requires i <= |bs|
  {
    Total(bs[..i])
  }

  /** Payload start and length of every block in use, the list starting at word o. */
  function Live(bs: seq<Blk>, o: nat): set<(nat, nat)> {
    if bs == [] then {}
    else (if bs[0].free then {} else {(o + HDR, bs[0].size)}) + Live(bs[1..], o + HDR + bs[0].size)
  }

  lemma {:induction false} TotalConcat(a: seq<Blk>, b: seq<Blk>)
    ensures Total(a + b) == Total(a) + Total(b)
  {
    if a == [] {
      assert a + b == b;
    } else {
      assert (a + b)[1..] == a[1..] + b;
      TotalConcat(a[1..], b);
    }
  }

  lemma {:induction false} LiveConcat(a: seq<Blk>, b: seq<Blk>, o: nat)
    ensures Live(a + b, o) == Live(a, o) + Live(b, o + Total(a))
  {
    if a == [] {
      assert a + b == b;
    } else {
      assert (a + b)[1..] == a[1..] + b;
      LiveConcat(a[1..], b, o + HDR + a[0].size);
    }
  }

  /** No free block ends a next to a free block that starts b. */
  predicate Apart(a: seq<Blk>, b: seq<Blk>) {
    a == [] || b == [] || !(a[|a| - 1].free && b[0].free)
  }

  lemma {:induction false} CoalescedConcat(a: seq<Blk>, b: seq<Blk>)
    ensures Coalesced(a + b) <==> Coalesced(a) && Coalesced(b) && Apart(a, b)
  {
    if a == [] {
      assert a + b == b;
    } else {
      assert (a + b)[1..] == a[1..] + b;
      CoalescedConcat(a[1..], b);
    }
  }

  lemma ApartMiddle(a: seq<Blk>, m: seq<Blk>, c: seq<Blk>)
    requires m != []
    ensures Apart(a + m, c) == Apart(m, c) && Apart(a, m + c) == Apart(a, m)
  {
  }

  lemma CoalescedThree(a: seq<Blk>, m: seq<Blk>, c: seq<Blk>)
    requires m != []
    ensures Coalesced(a + m + c) <==> Coalesced(a) && Coalesced(m) && Coalesced(c) && Apart(a, m) && Apart(m, c)
  {
    hide Coalesced, Apart;
    CoalescedConcat(a, m);
    CoalescedConcat(a + m, c);
    ApartMiddle(a, m, c);
  }

  lemma {:induction false} LiveBounds(bs: seq<Blk>, o: nat, x: (nat, nat))
    requires x in Live(bs, o)
    ensures o + HDR <= x.0 && x.0 + x.1 <= o + Total(bs)
  {
    if x != (o + HDR, bs[0].size) || bs[0].free {
      LiveBounds(bs[1..], o + HDR + bs[0].size, x);
    }
  }

  /** Two different live payloads never overlap. */
  lemma {:induction false} LiveDisjoint(bs: seq<Blk>, o: nat, x: (nat, nat), y: (nat, nat))
    requires x in Live(bs, o) && y in Live(bs, o) && x != y
    ensures x.0 + x.1 + HDR <= y.0 || y.0 + y.1 + HDR <= x.0
  {
    var o', rest := o + HDR + bs[0].size, bs[1..];
    if x in Live(rest, o') && y in Live(rest, o') {
      LiveDisjoint(rest, o', x, y);
    } else if x in Live(rest, o') {
      LiveBounds(rest, o', x);
    } else {
      LiveBounds(rest, o', y);
    }
  }

  /** The middle of a list replaced by blocks of the same total size. */
  lemma Replace(a: seq<Blk>, m: seq<Blk>, m': seq<Blk>, c: seq<Blk>)
    requires Total(m) == Total(m')
    ensures Total(a + m' + c) == Total(a + m + c) == Total(a) + Total(m) + Total(c)
    ensures Live(a + m' + c, 0) == Live(a, 0) + Live(m', Total(a)) + Live(c, Total(a) + Total(m))
    ensures Live(a + m + c, 0) == Live(a, 0) + Live(m, Total(a)) + Live(c, Total(a) + Total(m))
  {
    hide Total, Live;
    TotalConcat(a, m);
    TotalConcat(a, m');
    TotalConcat(a + m, c);
    TotalConcat(a + m', c);
    LiveConcat(a, m, 0);
    LiveConcat(a, m', 0);
    LiveConcat(a + m, c, 0);
    LiveConcat(a + m', c, 0);
  }

  lemma Single(b: Blk, o: nat)
    ensures Total([b]) == HDR + b.size && Coalesced([b])
    ensures Live([b], o) == if b.free then {} else {(o + HDR, b.size)}
  {
    assert [b][1..] == [];
    assert Live([], o + HDR + b.size) == {};
  }

  lemma Pair(b: Blk, d: Blk, o: nat)
    ensures Total([b, d]) == HDR + b.size + HDR + d.size
    ensures Coalesced([b, d]) <==> !(b.free && d.free)
    ensures Live([b, d], o) == Live([b], o) + Live([d], o + HDR + b.size)
  {
    assert [b] + [d] == [b, d];
    Single(b, o);
    Single(d, o + HDR + b.size);
    TotalConcat([b], [d]);
    CoalescedConcat([b], [d]);
    LiveConcat([b], [d], o);
  }

  lemma CutAt(bs: seq<Blk>, i: nat)
    requires i < |bs|
    ensures bs == bs[..i] + [bs[i]] + bs[i + 1..]
  {
  }

  // ---- kmalloc ------------------------------------------------------------

  /** (size + 3) & ~3 in 32 bits: sizes above 0xFFFFFFFC wrap to 0. */
  function Round(size: nat): (r: nat)
    requires size < TWO32
    ensures r % 4 == 0
    ensures if size <= 0xFFFF_FFFC then size <= r < size + 4 else r == 0
  {
    (size + 3) % TWO32 / 4 * 4
  }

  /** The first free block of at least w words, or |bs|. */
  function FirstFit(bs: seq<Blk>, w: nat): (i: nat)
    ensures i <= |bs|
    ensures i < |bs| ==> bs[i].free && bs[i].size >= w
    ensures forall k :: 0 <= k < i ==> !(bs[k].free && bs[k].size >= w)
  {
    if bs == [] || (bs[0].free && bs[0].size >= w) then 0 else 1 + FirstFit(bs[1..], w)
  }

  /** What a free block of n words becomes: split when more than four words remain. */
  function Pieces(n: nat, w: nat): (m: seq<Blk>)
    requires n >= w
    ensures m != [] && m[0].size >= w && !m[0].free
  {
    if n > w + 4 then [Blk(w, false), Blk(n - w - HDR, true)] else [Blk(n, false)]
  }

  function Carve(bs: seq<Blk>, i: nat, w: nat): (r: seq<Blk>)
    requires i < |bs| && bs[i].free && bs[i].size >= w
  {
    bs[..i] + Pieces(bs[i].size, w) + bs[i + 1..]
  }

  /** The block list after an allocation of w words, and the index it got (|bs| if none). */
  function Malloc(bs: seq<Blk>, w: nat): (r: (seq<Blk>, nat))
    ensures r.1 <= |bs| && (r.1 == |bs| ==> r.0 == bs)
  {
    var i := FirstFit(bs, w);
    if i == |bs| then (bs, i) else (Carve(bs, i, w), i)
  }

  lemma PiecesFacts(n: nat, w: nat, o: nat)
    requires n >= w
    ensures var m := Pieces(n, w);
            && Total(m) == HDR + n && Coalesced(m)
            && Live(m, o) == {(o + HDR, m[0].size)}
  {
    if n > w + 4 {
      Pair(Blk(w, false), Blk(n - w - HDR, true), o);
      Single(Blk(w, false), o);
      Single(Blk(n - w - HDR, true), o + HDR + w);
    } else {
      Single(Blk(n, false), o);
    }
  }

  /** An allocation keeps the arena tiled and coalesced and adds exactly one
      live payload, large enough and new, at the chosen block. */
  lemma CarveKeeps(bs: seq<Blk>, i: nat, w: nat)
    requires Ok(bs) && i < |bs| && bs[i].free && bs[i].size >= w
    ensures var x := (Pos(bs, i) + HDR, Pieces(bs[i].size, w)[0].size);
            Ok(Carve(bs, i, w)) && Live(Carve(bs, i, w), 0) == Live(bs, 0) + {x} && x !in Live(bs, 0)
  {
    hide Total, Coalesced, Live, Pieces;
    var a, b, c, m := bs[..i], bs[i], bs[i + 1..], Pieces(bs[i].size, w);
    CutAt(bs, i);
    Single(b, Total(a));
    PiecesFacts(b.size, w, Total(a));
    Replace(a, [b], m, c);
    LastPiece(b.size, w);
    CoalescedSwap(a, [b], m, c);
    NotBefore(a, Total(a) + HDR, m[0].size);
    NotAfter(c, Total(a) + HDR + b.size, Total(a) + HDR, m[0].size);
  }

  /** A coalesced list stays so when its middle is replaced by a coalesced one
      whose ends are free only where the old ends were. */
  lemma CoalescedSwap(a: seq<Blk>, m: seq<Blk>, m': seq<Blk>, c: seq<Blk>)
    requires Coalesced(a + m + c) && m != [] && m' != [] && Coalesced(m')
    requires m'[0].free ==> a == [] || !a[|a| - 1].free || m[0].free
    requires m'[|m'| - 1].free ==> c == [] || !c[0].free || m[|m| - 1].free
    ensures Coalesced(a + m' + c)
  {
    hide Coalesced;
    CoalescedThree(a, m, c);
    CoalescedThree(a, m', c);
  }

  lemma LastPiece(n: nat, w: nat)
    requires n >= w
    ensures var m := Pieces(n, w); |m| == 1 || m[|m| - 1].free
  {
  }

  lemma NotBefore(a: seq<Blk>, p: nat, n: nat)
    requires p >= Total(a) + HDR
    ensures (p, n) !in Live(a, 0)
  {
    if (p, n) in Live(a, 0) {
      LiveBounds(a, 0, (p, n));
    }
  }

  lemma NotAfter(c: seq<Blk>, o: nat, p: nat, n: nat)
    requires p < o + HDR
    ensures (p, n) !in Live(c, o)
  {
    if (p, n) in Live(c, o) {
      LiveBounds(c, o, (p, n));
    }
  }

  // ---- space --------------------------------------------------------------

  /** Words in the payloads of free blocks, and in those of blocks in use. */
  function FreeWords(bs: seq<Blk>): nat {
    if bs == [] then 0 else (if bs[0].free then bs[0].size else 0) + FreeWords(bs[1..])
  }

  function UsedWords(bs: seq<Blk>): nat {
    if bs == [] then 0 else (if bs[0].free then 0 else bs[0].size) + UsedWords(bs[1..])
  }

  function UsedBlocks(bs: seq<Blk>): nat {
    if bs == [] then 0 else (if bs[0].free then 0 else 1) + UsedBlocks(bs[1..])
  }

  lemma {:induction false} FreeWordsConcat(a: seq<Blk>, b: seq<Blk>)
    ensures FreeWords(a + b) == FreeWords(a) + FreeWords(b)
  {
    if a == [] {
      assert a + b == b;
    } else {
      assert (a + b)[1..] == a[1..] + b;
      FreeWordsConcat(a[1..], b);
    }
  }

  /** Every word of the arena is a header, free or in use, and the free blocks
      are at most one more than those in use. */
  lemma {:induction false} SpaceAccounts(bs: seq<Blk>)
    ensures Total(bs) == FreeWords(bs) + UsedWords(bs) + HDR * |bs|
    ensures Coalesced(bs) ==> |bs| <= 2 * UsedBlocks(bs) + if bs != [] && bs[0].free then 1 else 0
    ensures UsedBlocks(bs) <= |bs|
  {
    if bs != [] {
      SpaceAccounts(bs[1..]);
    }
  }

  /** What an allocation makes of the chosen block: at most four words more than
      asked for are handed out, and only when they could not hold a block; else a
      free block with the rest follows right behind. */
  lemma CarveSplits(bs: seq<Blk>, i: nat, w: nat)
    requires i < |bs| && bs[i].free && bs[i].size >= w
    ensures var r, n := Carve(bs, i, w), bs[i].size;
            && i < |r| && r[..i] == bs[..i] && !r[i].free && w <= r[i].size <= w + 4
            && (if n <= w + 4 then r[i].size == n && r[i + 1..] == bs[i + 1..]
                else
                  && r[i].size == w && i + 1 < |r| && r[i + 1] == Blk(n - w - HDR, true)
                  && r[i + 2..] == bs[i + 1..] && Pos(r, i + 1) == Pos(bs, i) + HDR + w)
            && FreeWords(bs) == FreeWords(r) + r[i].size + (if n <= w + 4 then 0 else HDR)
  {
    var r, n, m := Carve(bs, i, w), bs[i].size, Pieces(bs[i].size, w);
    CutAt(bs, i);
    PiecesFree(n, w);
    hide FreeWords, Total;
    FreeWordsConcat(bs[..i], [bs[i]]);
    FreeWordsConcat(bs[..i] + [bs[i]], bs[i + 1..]);
    FreeWordsConcat(bs[..i], m);
    FreeWordsConcat(bs[..i] + m, bs[i + 1..]);
    assert r[..i] == bs[..i];
    if n > w + 4 {
      assert r[i + 2..] == bs[i + 1..];
      assert r[..i + 1] == bs[..i] + [Blk(w, false)];
      TotalConcat(bs[..i], [Blk(w, false)]);
      Single(Blk(w, false), 0);
    } else {
      assert r[i + 1..] == bs[i + 1..];
    }
  }

  lemma PiecesFree(n: nat, w: nat)
    requires n >= w
    ensures FreeWords(Pieces(n, w)) == if n > w + 4 then n - w - HDR else 0
    ensures FreeWords([Blk(n, true)]) == n
  {
    assert [Blk(n, true)][1..] == [] && [Blk(n, false)][1..] == [];
    if n > w + 4 {
      var d := Blk(n - w - HDR, true);
      assert [Blk(w, false), d][1..] == [d] && [d][1..] == [];
      assert FreeWords([d]) == d.size + FreeWords([]);
    }
  }

  function Allocated(k: nat, w: nat): (bs: seq<Blk>) { seq(k, _ => Blk(w, false)) }

  /** The block list after k allocations of w words in the fresh arena. */
  function Mallocs(k: nat, w: nat): seq<Blk> {
    if k == 0 then Initial() else Malloc(Mallocs(k - 1, w), w).0
  }

  /** The words that k blocks of w words take, headers included. */
  function Stride(k: nat, w: nat): nat { if k == 0 then 0 else Stride(k - 1, w) + HDR + w }

  lemma {:induction false} StrideIs(k: nat, w: nat)
    ensures Stride(k, w) == k * (HDR + w)
  {
    if k > 0 {
      StrideIs(k - 1, w);
    }
  }

  /** A fresh arena is filled without gaps: as long as more than four words are
      left over, k equal allocations lie back to back in front of the rest. */
  lemma {:induction false} FreshArenaPacks(k: nat, w: nat)
    requires Stride(k, w) + HDR + 1 < WORDS
    ensures Mallocs(k, w) == Allocated(k, w) + [Blk(WORDS - HDR - Stride(k, w), true)]
  {
    hide Malloc, Allocated, Initial, Stride;
    StrideMore(k, w);
    if k > 0 {
      FreshArenaPacks(k - 1, w);
      PacksOneMore(k - 1, w, WORDS - HDR - Stride(k - 1, w));
    } else {
      PacksNone(w);
    }
  }

  lemma StrideMore(k: nat, w: nat)
    ensures if k == 0 then Stride(k, w) == 0 else Stride(k, w) == Stride(k - 1, w) + HDR + w
  {
  }

  lemma PacksNone(w: nat)
    ensures Initial() == Allocated(0, w) + [Blk(WORDS - HDR, true)]
  {
    assert Allocated(0, w) == [];
  }

  lemma PacksOneMore(k: nat, w: nat, n: nat)
    requires n > w + 4
    ensures Malloc(Allocated(k, w) + [Blk(n, true)], w).0 == Allocated(k + 1, w) + [Blk(n - HDR - w, true)]
  {
    var bs := Allocated(k, w) + [Blk(n, true)];
    FirstFitIs(bs, w, k);
    assert bs[..k] == Allocated(k, w) && bs[k + 1..] == [];
    assert Allocated(k + 1, w) == Allocated(k, w) + [Blk(w, false)];
    assert Pieces(n, w) == [Blk(w, false)] + [Blk(n - HDR - w, true)];
  }

  lemma FirstFitIs(bs: seq<Blk>, w: nat, i: nat)
    requires i < |bs| && bs[i].free && bs[i].size >= w
    requires forall k :: 0 <= k < i ==> !(bs[k].free && bs[k].size >= w)
    ensures FirstFit(bs, w) == i
  {
    hide FirstFit;
    var f := FirstFit(bs, w);
    assert !(i < f) && !(f < i);
  }

  // ---- kfree --------------------------------------------------------------

  /** Block i becomes free and swallows a free successor. */
  function MergeNext(bs: seq<Blk>, i: nat): (r: seq<Blk>)
    requires i < |bs|
    ensures i < |r| && r[i].free && r[..i] == bs[..i]
  {
    if i + 1 < |bs| && bs[i + 1].free then bs[..i] + [Blk(bs[i].size + HDR + bs[i + 1].size, true)] + bs[i + 2..]
    else bs[..i] + [Blk(bs[i].size, true)] + bs[i + 1..]
  }

  /** A free predecessor swallows block i. */
  function MergePrev(bs: seq<Blk>, i: nat): seq<Blk>
    requires i < |bs|
  {
    if i > 0 && bs[i - 1].free then bs[..i - 1] + [Blk(bs[i - 1].size + HDR + bs[i].size, true)] + bs[i + 1..]
    else bs
  }

  function Free(bs: seq<Blk>, i: nat): seq<Blk>
    requires i < |bs|
  {
    MergePrev(MergeNext(bs, i), i)
  }

  /** Tiled, and coalesced on both sides of the cut before block i. */
  predicate OkBut(bs: seq<Blk>, i: nat)
    requires i < |bs|
  {
    Total(bs) == WORDS && Coalesced(bs[..i]) && Coalesced(bs[i..])
  }

  lemma CutTwo(bs: seq<Blk>, i: nat)
    requires i + 1 < |bs|
    ensures bs == bs[..i] + [bs[i], bs[i + 1]] + bs[i + 2..]
  {
  }

  lemma MergeNextKeeps(bs: seq<Blk>, i: nat)
    requires Ok(bs) && i < |bs| && !bs[i].free
    ensures OkBut(MergeNext(bs, i), i)
    ensures Live(MergeNext(bs, i), 0) == Live(bs, 0) - {(Pos(bs, i) + HDR, bs[i].size)}
  {
    hide Total, Coalesced, Live;
    var a, b := bs[..i], bs[i];
    if i + 1 < |bs| && bs[i + 1].free {
      CutTwo(bs, i);
      Pair(b, bs[i + 1], Total(a));
      Single(b, Total(a));
      Single(bs[i + 1], Total(a) + HDR + b.size);
      FreedMiddle(a, [b, bs[i + 1]], Blk(b.size + HDR + bs[i + 1].size, true), bs[i + 2..], b.size);
    } else {
      CutAt(bs, i);
      Single(b, Total(a));
      FreedMiddle(a, [b], Blk(b.size, true), bs[i + 1..], b.size);
    }
  }

  lemma FreedMiddle(a: seq<Blk>, m: seq<Blk>, f: Blk, c: seq<Blk>, n: nat)
    requires Ok(a + m + c) && m != [] && f.free && Total(m) == HDR + f.size
    requires Live(m, Total(a)) == {(Total(a) + HDR, n)}
    requires c == [] || !c[0].free || m[|m| - 1].free
    ensures OkBut(a + [f] + c, |a|)
    ensures Live(a + [f] + c, 0) == Live(a + m + c, 0) - {(Total(a) + HDR, n)}
  {
    hide Total, Coalesced, Live;
    Single(f, Total(a));
    Replace(a, m, [f], c);
    NotBefore(a, Total(a) + HDR, n);
    NotAfter(c, Total(a) + Total(m), Total(a) + HDR, n);
    FreedHalves(a, m, f, c);
    Around(a, f, c);
  }

  lemma Around(a: seq<Blk>, f: Blk, c: seq<Blk>)
    ensures (a + [f] + c)[..|a|] == a && (a + [f] + c)[|a|..] == [f] + c
  {
  }

  lemma FreedHalves(a: seq<Blk>, m: seq<Blk>, f: Blk, c: seq<Blk>)
    requires Coalesced(a + m + c) && m != [] && f.free
    requires c == [] || !c[0].free || m[|m| - 1].free
    ensures Coalesced(a) && Coalesced([f] + c)
  {
    hide Coalesced;
    CoalescedThree(a, m, c);
    CoalescedConcat([f], c);
    Single(f, 0);
  }

  lemma CutHalves(bs: seq<Blk>, i: nat)
    requires 0 < i < |bs|
    ensures bs[..i] == bs[..i - 1] + [bs[i - 1]] && bs[i..] == [bs[i]] + bs[i + 1..]
  {
  }

  lemma JoinPrevKeeps(bs: seq<Blk>, i: nat)
    requires 0 < i < |bs| && bs[i].free && bs[i - 1].free && OkBut(bs, i)
    ensures Ok(MergePrev(bs, i)) && Live(MergePrev(bs, i), 0) == Live(bs, 0)
  {
    hide Total, Coalesced, Live;
    var a, p, b, c := bs[..i - 1], bs[i - 1], bs[i], bs[i + 1..];
    CutTwo(bs, i - 1);
    JoinedLive(a, p, b, c);
    CutHalves(bs, i);
    JoinedHalves(a, p, b, Blk(p.size + HDR + b.size, true), c);
  }

  lemma MergePrevKeeps(bs: seq<Blk>, i: nat)
    requires i < |bs| && bs[i].free && OkBut(bs, i)
    ensures Ok(MergePrev(bs, i)) && Live(MergePrev(bs, i), 0) == Live(bs, 0)
  {
    hide Total, Coalesced, Live;
    if i > 0 && bs[i - 1].free {
      JoinPrevKeeps(bs, i);
    } else {
      CoalescedConcat(bs[..i], bs[i..]);
      assert bs == bs[..i] + bs[i..];
    }
  }

  lemma JoinedLive(a: seq<Blk>, p: Blk, b: Blk, c: seq<Blk>)
    requires p.free && b.free
    ensures var f := Blk(p.size + HDR + b.size, true);
            Total(a + [f] + c) == Total(a + [p, b] + c) && Live(a + [f] + c, 0) == Live(a + [p, b] + c, 0)
  {
    hide Total, Live;
    var f := Blk(p.size + HDR + b.size, true);
    Pair(p, b, Total(a));
    Single(p, Total(a));
    Single(b, Total(a) + HDR + p.size);
    Single(f, Total(a));
    Replace(a, [p, b], [f], c);
  }

  lemma JoinedHalves(a: seq<Blk>, p: Blk, b: Blk, f: Blk, c: seq<Blk>)
    requires Coalesced(a + [p]) && Coalesced([b] + c) && p.free && b.free
    ensures Coalesced(a + [f] + c)
  {
    hide Coalesced;
    CoalescedConcat(a, [p]);
    CoalescedConcat([b], c);
    CoalescedThree(a, [f], c);
    Single(f, 0);
  }

  /** Freeing keeps the arena tiled, leaves no two neighbours free, and removes
      exactly that payload. */
  lemma FreeKeeps(bs: seq<Blk>, i: nat)
    requires Ok(bs) && i < |bs| && !bs[i].free
    ensures Ok(Free(bs, i))
    ensures Live(Free(bs, i), 0) == Live(bs, 0) - {(Pos(bs, i) + HDR, bs[i].size)}
  {
    hide Ok, Live, MergeNext, MergePrev, OkBut;
    MergeNextKeeps(bs, i);
    MergePrevKeeps(MergeNext(bs, i), i);
  }

  // ---- laws over whole runs -----------------------------------------------

  lemma {:induction false} CoalescedAt(bs: seq<Blk>, i: nat)
    requires Coalesced(bs) && i + 1 < |bs|
    ensures !(bs[i].free && bs[i + 1].free)
    decreases i
  {
    if i > 0 {
      CoalescedAt(bs[1..], i - 1);
    }
  }

  /** kfree right after a successful kmalloc restores the exact block list. */
  lemma FreeUndoesMalloc(bs: seq<Blk>, w: nat)
    requires Ok(bs) && Malloc(bs, w).1 < |bs|
    ensures Malloc(bs, w).1 < |Malloc(bs, w).0|
    ensures Free(Malloc(bs, w).0, Malloc(bs, w).1) == bs
  {
    hide Total, Coalesced, FirstFit;
    var (r, i) := Malloc(bs, w);
    var b := bs[i];
    if i + 1 < |bs| {
      CoalescedAt(bs, i);
    }
    if i > 0 {
      CoalescedAt(bs, i - 1);
    }
    CutAt(bs, i);
    var m := MergeNext(r, i);
    if b.size > w + 4 {
      assert r[i] == Blk(w, false) && r[i + 1] == Blk(b.size - w - HDR, true) && r[..i] == bs[..i];
      assert r[i + 2..] == bs[i + 1..];
    } else {
      assert r[i] == Blk(b.size, false) && r[..i] == bs[..i] && r[i + 1..] == bs[i + 1..];
    }
    assert m == bs[..i] + [b] + bs[i + 1..];
  }

  lemma {:induction false} LiveHas(bs: seq<Blk>, o: nat, i: nat)
    requires i < |bs| && !bs[i].free
    ensures (o + Pos(bs, i) + HDR, bs[i].size) in Live(bs, o)
    decreases i
  {
    if i > 0 {
      LiveHas(bs[1..], o + HDR + bs[0].size, i - 1);
      assert bs[1..][..i - 1] == bs[..i][1..];
    }
  }

  /** With nothing live, the arena is the single block it started as. */
  lemma NothingLiveIsInitial(bs: seq<Blk>)
    requires Ok(bs) && Live(bs, 0) == {}
    ensures bs == Initial()
  {
    hide Live;
    forall i | 0 <= i < |bs| ensures bs[i].free {
      if !bs[i].free {
        LiveHas(bs, 0, i);
      }
    }
    if |bs| == 1 {
      assert bs == [bs[0]];
      Single(bs[0], 0);
    }
  }

  datatype Op = Alloc(words: nat) | Release(block: nat)

  predicate Step(bs: seq<Blk>, op: Op, bs': seq<Blk>) {
    match op
    case Alloc(w) => bs' == Malloc(bs, w).0
    case Release(i) => i < |bs| && !bs[i].free && bs' == Free(bs, i)
  }

  /** Every state of a run of allocations and releases from the fresh arena. */
  predicate IsRun(states: seq<seq<Blk>>, ops: seq<Op>) {
    && |states| == |ops| + 1 && states[0] == Initial()
    && forall k :: 0 <= k < |ops| ==> Step(states[k], ops[k], states[k + 1])
  }

  /** The payloads handed out and not yet released along a run. */
  ghost function Outstanding(states: seq<seq<Blk>>, ops: seq<Op>): set<(nat, nat)>
    requires |states| == |ops| + 1
  {
    if ops == [] then {}
    else
      var n := |ops| - 1;
      var bs := states[n];
      var had := Outstanding(states[..n + 1], ops[..n]);
      match ops[n]
      case Alloc(w) =>
        var (_, i) := Malloc(bs, w);
        if i == |bs| then had else had + {(Pos(bs, i) + HDR, Pieces(bs[i].size, w)[0].size)}
      case Release(i) =>
        if i < |bs| then had - {(Pos(bs, i) + HDR, bs[i].size)} else had
  }

  /** Over every run the arena stays tiled and coalesced and its live payloads
      are exactly the outstanding ones; once all are released, in whatever
      order, the arena is the single initial block again. */
  lemma {:induction false} RunKeepsHeap(states: seq<seq<Blk>>, ops: seq<Op>)
    requires IsRun(states, ops)
    ensures Ok(states[|ops|]) && Live(states[|ops|], 0) == Outstanding(states, ops)
    ensures Outstanding(states, ops) == {} ==> states[|ops|] == Initial()
  {
    hide Coalesced, Pieces, FirstFit, Free;
    if ops == [] {
      InitialOk();
    } else {
      var n := |ops| - 1;
      RunKeepsHeap(states[..n + 1], ops[..n]);
      var bs := states[n];
      assert Step(bs, ops[n], states[n + 1]);
      hide Live, Ok, Total;
      match ops[n]
      case Alloc(w) =>
        var i := FirstFit(bs, w);
        if i < |bs| {
          CarveKeeps(bs, i, w);
        }
      case Release(i) =>
        FreeKeeps(bs, i);
    }
    if Live(states[|ops|], 0) == {} {
      NothingLiveIsInitial(states[|ops|]);
    }
  }

  /** Payload x was handed out for this request, with at most four words to spare. */
  predicate HandedOut(bs: seq<Blk>, op: Op, x: (nat, nat)) {
    && op.Alloc?
    && var i := FirstFit(bs, op.words);
    && i < |bs| && x.0 == Pos(bs, i) + HDR && op.words <= x.1 <= op.words + 4
  }

  predicate Served(states: seq<seq<Blk>>, ops: seq<Op>, x: (nat, nat))
    requires |states| >= |ops|
  {
    exists k :: 0 <= k < |ops| && HandedOut(states[k], ops[k], x)
  }

  /** Over every run each live payload was handed out for some request, with at
      most four words to spare; every word that is neither handed out nor one of
      the headers is free, and there are at most two headers for each payload
      and one more. */
  lemma {:induction false} RunSparesSpace(states: seq<seq<Blk>>, ops: seq<Op>)
    requires IsRun(states, ops)
    ensures forall x :: x in Live(states[|ops|], 0) ==> Served(states, ops, x)
    ensures var bs := states[|ops|];
            FreeWords(bs) == WORDS - UsedWords(bs) - HDR * |bs| && |bs| <= 2 * UsedBlocks(bs) + 1
  {
    hide Coalesced, Pieces, FirstFit, Free, Total, Live, FreeWords, UsedWords, UsedBlocks;
    RunKeepsHeap(states, ops);
    SpaceAccounts(states[|ops|]);
    if ops == [] {
      InitialOk();
    } else {
      var n := |ops| - 1;
      var s0, s1 := states[..n + 1], ops[..n];
      RunSparesSpace(s0, s1);
      assert s0[n] == states[n] && Step(states[n], ops[n], states[n + 1]);
      var bs := states[n];
      RunKeepsHeap(s0, s1);
      if ops[n].Alloc? && FirstFit(bs, ops[n].words) < |bs| {
        CarveSplits(bs, FirstFit(bs, ops[n].words), ops[n].words);
        CarveKeeps(bs, FirstFit(bs, ops[n].words), ops[n].words);
      } else if ops[n].Release? {
        FreeKeeps(bs, ops[n].block);
      }
      forall x | x in Live(states[n + 1], 0) ensures Served(states, ops, x) {
        if x in Live(bs, 0) {
          assert Served(s0, s1, x);
          var k :| 0 <= k < |s1| && HandedOut(s0[k], s1[k], x);
          assert HandedOut(states[k], ops[k], x);
        } else {
          assert HandedOut(states[n], ops[n], x);
        }
      }
    }
  }

  lemma InitialOk()
    ensures Ok(Initial()) && Live(Initial(), 0) == {}
  {
    Single(Blk(WORDS - HDR, true), 0);
  }
}

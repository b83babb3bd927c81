/** Bit-per-unit allocation bitmaps held in bytes, as both the HEXAFS block
    allocator and the physical page allocator keep them. */
module Bitmap {
  import opened Bytes

  function Pow2(w: nat): nat {
    if w == 0 then 1 else 2 * Pow2(w - 1)
  }

  /** (b >> i) & 1 */
  predicate Bit(b: nat, i: nat) {
    if i == 0 then b % 2 == 1 else Bit(b / 2, i - 1)
  }

  /** b | (1 << i), for a value of w bits */
  function OrBit(b: nat, i: nat, w: nat): (r: nat)
    requires i < w && b < Pow2(w)
    ensures r < Pow2(w)
  {
    if i == 0 then b / 2 * 2 + 1 else 2 * OrBit(b / 2, i - 1, w - 1) + b % 2
  }

  /** b & ~(1 << i), for a value of w bits */
  function AndNotBit(b: nat, i: nat, w: nat): (r: nat)
    requires i < w && b < Pow2(w)
    ensures r < Pow2(w)
  {
    if i == 0 then b / 2 * 2 else 2 * AndNotBit(b / 2, i - 1, w - 1) + b % 2
  }

  lemma BitOf(q: nat, r: nat, j: nat)
    requires r < 2
    ensures Bit(2 * q + r, j) <==> if j == 0 then r == 1 else Bit(q, j - 1)
  {
    assert (2 * q + r) / 2 == q && (2 * q + r) % 2 == r;
  }

  lemma {:induction false} BitsAfter(b: nat, i: nat, w: nat, j: nat)
    requires i < w && b < Pow2(w)
    ensures Bit(OrBit(b, i, w), j) <==> j == i || Bit(b, j)
    ensures Bit(AndNotBit(b, i, w), j) <==> j != i && Bit(b, j)
    decreases i
  {
    hide Bit;
    BitOf(b / 2, b % 2, j);
    if i == 0 {
      BitOf(b / 2, 1, j);
      BitOf(b / 2, 0, j);
    } else {
      BitOf(OrBit(b / 2, i - 1, w - 1), b % 2, j);
      BitOf(AndNotBit(b / 2, i - 1, w - 1), b % 2, j);
      if j > 0 {
        BitsAfter(b / 2, i - 1, w - 1, j - 1);
      }
    }
  }

  function SetBit(b: byte, i: nat): (r: byte)
    requires i < 8
    ensures forall j: nat :: Bit(r, j) <==> j == i || Bit(b, j)
  {
    assert Pow2(8) == 256;
    assert forall j: nat :: Bit(OrBit(b, i, 8), j) <==> j == i || Bit(b, j) by {
      forall j: nat ensures Bit(OrBit(b, i, 8), j) <==> j == i || Bit(b, j) {
        BitsAfter(b, i, 8, j);
      }
    }
    OrBit(b, i, 8)
  }

  function ClearBit(b: byte, i: nat): (r: byte)
    requires i < 8
    ensures forall j: nat :: Bit(r, j) <==> j != i && Bit(b, j)
  {
    assert Pow2(8) == 256;
    assert forall j: nat :: Bit(AndNotBit(b, i, 8), j) <==> j != i && Bit(b, j) by {
      forall j: nat ensures Bit(AndNotBit(b, i, 8), j) <==> j != i && Bit(b, j) {
        BitsAfter(b, i, 8, j);
      }
    }
    AndNotBit(b, i, 8)
  }

  /** Units past the end of the bitmap read as used. */
  predicate Used(bm: seq<byte>, n: nat) {
    n / 8 < |bm| ==> Bit(bm[n / 8], n % 8)
  }

  function Mark(bm: seq<byte>, n: nat): (r: seq<byte>)
    ensures |r| == |bm|
    ensures forall k: nat :: Used(r, k) <==> k == n || Used(bm, k)
  {
    if n / 8 >= |bm| then bm else bm[n / 8 := SetBit(bm[n / 8], n % 8)]
  }

  function Unmark(bm: seq<byte>, n: nat): (r: seq<byte>)
    ensures |r| == |bm|
    ensures n / 8 < |bm| ==> forall k: nat :: Used(r, k) <==> k != n && Used(bm, k)
    ensures n / 8 >= |bm| ==> r == bm
  {
    if n / 8 >= |bm| then bm else bm[n / 8 := ClearBit(bm[n / 8], n % 8)]
  }

  /** The first unused unit of [lo, hi), or hi. */
  function FindFree(bm: seq<byte>, lo: nat, hi: nat): (r: nat)
    requires lo <= hi
    ensures lo <= r <= hi
    ensures forall k: nat :: lo <= k < r ==> Used(bm, k)
    ensures r < hi ==> !Used(bm, r)
    decreases hi - lo
  {
    if lo == hi || !Used(bm, lo) then lo else FindFree(bm, lo + 1, hi)
  }

  lemma FindFreeHere(bm: seq<byte>, lo: nat, hi: nat)
    requires lo <= hi
    ensures lo == hi || !Used(bm, lo) ==> FindFree(bm, lo, hi) == lo
  {
  }

  // ---- the hinted allocator ----------------------------------------------

  function FreeUnits(bm: seq<byte>, lo: nat, hi: nat): set<nat> {
    set k: nat | lo <= k < hi && !Used(bm, k)
  }

  /** Scan from the hint to the end, then from the start to the hint; hi means none. */
  function Scan(bm: seq<byte>, lo: nat, hint: nat, hi: nat): (r: nat)
    requires lo <= hint <= hi
    ensures lo <= r <= hi
    ensures r < hi <==> r in FreeUnits(bm, lo, hi)
    ensures r == hi <==> FreeUnits(bm, lo, hi) == {}
  {
    var i := FindFree(bm, hint, hi);
    if i < hi then assert i in FreeUnits(bm, lo, hi); i
    else
      var j := FindFree(bm, lo, hint);
      if j < hint then assert j in FreeUnits(bm, lo, hi); j else hi
  }

  /** The scan finds the lowest free unit exactly when the free units do not
      lie on both sides of the hint. */
  lemma ScanIsLowest(bm: seq<byte>, lo: nat, hint: nat, hi: nat)
    requires lo <= hint <= hi
    requires FreeUnits(bm, lo, hi) != {}
    ensures (forall k :: k in FreeUnits(bm, lo, hi) ==> Scan(bm, lo, hint, hi) <= k)
       <==> || (forall k :: k in FreeUnits(bm, lo, hi) ==> hint <= k)
            || (forall k :: k in FreeUnits(bm, lo, hi) ==> k < hint)
  {
    var r := Scan(bm, lo, hint, hi);
    assert r in FreeUnits(bm, lo, hi);
    if r < hint {
      forall k | k in FreeUnits(bm, lo, hi) ensures r <= k < hint {
      }
    }
  }

  datatype Allocator = Allocator(bm: seq<byte>, hint: nat)
  datatype AllocOp = Take | Release(unit: nat)

  predicate HintOk(a: Allocator, lo: nat, hi: nat) {
    lo <= a.hint <= hi && forall k :: k in FreeUnits(a.bm, lo, hi) ==> a.hint <= k
  }

  /** One allocator call: taking moves the hint past the unit, releasing lowers it. */
  function AllocStep(a: Allocator, op: AllocOp, lo: nat, hi: nat): (b: Allocator)
    requires lo <= a.hint <= hi
    ensures lo <= b.hint <= hi
  {
    match op
    case Take =>
      var r := Scan(a.bm, lo, a.hint, hi);
      if r == hi then a else Allocator(Mark(a.bm, r), r + 1)
    case Release(n) =>
      if lo <= n < hi then Allocator(Unmark(a.bm, n), if n < a.hint then n else a.hint) else a
  }

  function AllocRun(a: Allocator, ops: seq<AllocOp>, lo: nat, hi: nat): (b: Allocator)
    requires lo <= a.hint <= hi
    ensures lo <= b.hint <= hi
  {
    if ops == [] then a else AllocStep(AllocRun(a, ops[..|ops| - 1], lo, hi), ops[|ops| - 1], lo, hi)
  }

  /** Over every run that starts with nothing free below the hint, that stays
      so, and hence every allocation returns the lowest free unit. */
  lemma {:induction false} AllocRunLowest(a: Allocator, ops: seq<AllocOp>, lo: nat, hi: nat)
    requires HintOk(a, lo, hi)
    ensures var b := AllocRun(a, ops, lo, hi);
            && HintOk(b, lo, hi)
            && forall k :: k in FreeUnits(b.bm, lo, hi) ==> Scan(b.bm, lo, b.hint, hi) <= k
  {
    var b := AllocRun(a, ops, lo, hi);
    if ops != [] {
      AllocRunLowest(a, ops[..|ops| - 1], lo, hi);
      AllocStepKeepsHint(AllocRun(a, ops[..|ops| - 1], lo, hi), ops[|ops| - 1], lo, hi);
    }
    if FreeUnits(b.bm, lo, hi) != {} {
      ScanIsLowest(b.bm, lo, b.hint, hi);
    }
  }

  lemma AllocStepKeepsHint(a: Allocator, op: AllocOp, lo: nat, hi: nat)
    requires HintOk(a, lo, hi)
    ensures HintOk(AllocStep(a, op, lo, hi), lo, hi)
  {
    var b := AllocStep(a, op, lo, hi);
    if FreeUnits(a.bm, lo, hi) != {} {
      ScanIsLowest(a.bm, lo, a.hint, hi);
    }
    forall k | k in FreeUnits(b.bm, lo, hi) ensures b.hint <= k {
      assert k in FreeUnits(a.bm, lo, hi) || op == Release(k);
    }
  }
}

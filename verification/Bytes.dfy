/** Bytes, little-endian words inside buffers, and the shift-add content hash
    that HEXAFS uses for every checksum. */
module Bytes {

  const TWO32: int := 0x1_0000_0000

  type byte = x: int | 0 <= x < 256
  type u32 = x: int | 0 <= x < 0x1_0000_0000
  type i32 = x: int | -0x8000_0000 <= x < 0x8000_0000

  function Unsigned(x: i32): u32 { if x < 0 then x + TWO32 else x }
  function Signed(x: u32): i32 { if x < 0x8000_0000 then x else x - TWO32 }

  function Zeros(n: nat): (s: seq<byte>)
    ensures |s| == n && forall i :: 0 <= i < n ==> s[i] == 0
  {
    seq(n, _ => 0)
  }

  /** memcpy of `b` into the buffer `s` at offset `o`. */
  function Patch(s: seq<byte>, o: nat, b: seq<byte>): (r: seq<byte>)
    requires o + |b| <= |s|
    ensures |r| == |s|
    ensures forall i :: 0 <= i < |s| ==> r[i] == if o <= i < o + |b| then b[i - o] else s[i]
  {
    s[..o] + b + s[o + |b|..]
  }

  function Le32(v: u32): (b: seq<byte>)
    ensures |b| == 4
  {
    [v % 256, v / 256 % 256, v / 256 / 256 % 256, v / 256 / 256 / 256]
  }

  function Get32(s: seq<byte>, o: nat): u32
    requires o + 4 <= |s|
  {
    var b0: int, b1: int, b2: int, b3: int := s[o], s[o + 1], s[o + 2], s[o + 3];
    b0 + 256 * b1 + 65536 * b2 + 16777216 * b3
  }

  function Put32(s: seq<byte>, o: nat, v: u32): (r: seq<byte>)
    requires o + 4 <= |s|
    ensures |r| == |s|
  {
    Patch(s, o, Le32(v))
  }

  lemma LeWord(v: u32)
    ensures Get32(Le32(v), 0) == v
  {
    var q1 := v / 256;
    var q2 := q1 / 256;
    assert q2 == q2 / 256 * 256 + q2 % 256;
    assert q1 == q2 * 256 + q1 % 256;
  }

  /** A stored word reads back; every byte outside it is untouched. */
  lemma PutGet(s: seq<byte>, o: nat, v: u32)
    requires o + 4 <= |s|
    ensures Get32(Put32(s, o, v), o) == v
    ensures forall i :: 0 <= i < |s| && !(o <= i < o + 4) ==> Put32(s, o, v)[i] == s[i]
  {
    hide Le32;
    LeWord(v);
    var r, b := Put32(s, o, v), Le32(v);
    assert r[o] == b[0] && r[o + 1] == b[1] && r[o + 2] == b[2] && r[o + 3] == b[3];
  }

  /** Two buffers that agree on four bytes agree on the word stored there. */
  lemma SameWord(s: seq<byte>, t: seq<byte>, o: nat)
    requires o + 4 <= |s| && o + 4 <= |t|
    requires forall i :: o <= i < o + 4 ==> s[i] == t[i]
    ensures Get32(s, o) == Get32(t, o)
  {
  }

  // ---- content hash -------------------------------------------------------

  function HashStep(h: u32, b: byte): u32 {
    (h * 33 + b) % TWO32
  }

  /** The value hexafs_content_hash returns for the bytes `s`. */
  function Hash(s: seq<byte>): u32 {
    if s == [] then 5381 else HashStep(Hash(s[..|s| - 1]), s[|s| - 1])
  }

  /** The wrapping `(h << 5) + h` of the source is a multiplication by 33. */
  lemma ShiftAdd(h: u32, b: byte)
    ensures (h * 32 % TWO32 + h + b) % TWO32 == HashStep(h, b)
  {
    var k := h * 32 / TWO32;
    assert h * 33 + b == h * 32 % TWO32 + h + b + k * TWO32;
  }

  /** The bytes as digits at base 33, without wrapping. */
  function Weighted(s: seq<byte>): nat {
    if s == [] then 0 else 33 * Weighted(s[..|s| - 1]) + s[|s| - 1]
  }

  function Pow33(n: nat): nat { if n == 0 then 1 else 33 * Pow33(n - 1) }

  /** Wrapping at every byte is wrapping once at the end. */
  lemma WrapLater(x: nat, c: byte)
    ensures (x % TWO32 * 33 + c) % TWO32 == (33 * x + c) % TWO32
  {
    var q := x / TWO32;
    assert 33 * x + c == x % TWO32 * 33 + c + 33 * q * TWO32;
  }

  /** The hash is the polynomial of the bytes at 33, started at 5381. */
  lemma {:induction false} HashIsSum(s: seq<byte>)
    ensures Hash(s) == (5381 * Pow33(|s|) + Weighted(s)) % TWO32
  {
    if s != [] {
      var t, c := s[..|s| - 1], s[|s| - 1];
      HashIsSum(t);
      hide Hash, Weighted;
      WrapLater(5381 * Pow33(|t|) + Weighted(t), c);
    }
  }

  method ContentHash(data: seq<byte>) returns (h: u32)
    ensures h == Hash(data)
  {
    h := 5381;
    for i := 0 to |data|
      invariant h == Hash(data[..i])
    {
      assert data[..i + 1][..i] == data[..i];
      ShiftAdd(h, data[i]);
      h := (h * 32 % TWO32 + h + data[i]) % TWO32;
    }
    assert data[..|data|] == data;
  }

  /** 33 is invertible modulo 2^32, so one hash step loses nothing of the state. */
  lemma HashStepInjective(g: u32, h: u32, b: byte)
    requires HashStep(g, b) == HashStep(h, b)
    ensures g == h
  {
    var x, y := g * 33 + b, h * 33 + b;
    var q := x / TWO32 - y / TWO32;
    assert x - y == q * TWO32;
    var d := g - h;
    assert 33 * d == q * TWO32;
    assert 33 * 1041204193 == 1 + 8 * TWO32;
    assert d == TWO32 * (1041204193 * q - 8 * d);
  }

  /** Prefixes with different hashes stay different after any common suffix. */
  lemma {:induction false} HashSuffix(p: seq<byte>, q: seq<byte>, s: seq<byte>)
    requires Hash(p) != Hash(q)
    ensures Hash(p + s) != Hash(q + s)
  {
    if s == [] {
      assert p + s == p && q + s == q;
    } else {
      var t := s[..|s| - 1];
      HashSuffix(p, q, t);
      assert (p + s)[..|p + s| - 1] == p + t && (q + s)[..|q + s| - 1] == q + t;
      if Hash(p + s) == Hash(q + s) {
        HashStepInjective(Hash(p + t), Hash(q + t), s[|s| - 1]);
      }
    }
  }

  lemma HashSnoc(p: seq<byte>, b: byte)
    ensures Hash(p + [b]) == HashStep(Hash(p), b)
  {
    assert (p + [b])[..|p|] == p;
  }

  lemma StepSeparates(h: u32, b: byte, c: byte)
    requires b != c
    ensures HashStep(h, b) != HashStep(h, c)
  {
  }

  /** Changing exactly one byte always changes the hash. */
  lemma HashOneByte(s: seq<byte>, i: nat, v: byte)
    requires i < |s| && v != s[i]
    ensures Hash(s[i := v]) != Hash(s)
  {
    hide Hash, HashStep;
    var p := s[..i];
    HashSnoc(p, s[i]);
    HashSnoc(p, v);
    StepSeparates(Hash(p), s[i], v);
    HashSuffix(p + [v], p + [s[i]], s[i + 1..]);
    assert p + [s[i]] + s[i + 1..] == s && p + [v] + s[i + 1..] == s[i := v];
  }

  lemma PatchTwo(s: seq<byte>, o: nat, lo: byte, hi: byte)
    requires o + 2 <= |s|
    ensures s[..o] + [lo] + [hi] + s[o + 2..] == Patch(s, o, [lo, hi])
    ensures s[o] == lo && s[o + 1] == hi ==> Patch(s, o, [lo, hi]) == s
  {
  }

  /** Writing a nonzero 16-bit value over two zero bytes always changes the hash:
      the state moves by 33*lo + hi, which is nonzero modulo 2^32. */
  lemma HashTwoBytes(s: seq<byte>, o: nat, lo: byte, hi: byte)
    requires o + 2 <= |s| && s[o] == 0 && s[o + 1] == 0
    requires lo != 0 || hi != 0
    ensures Hash(Patch(s, o, [lo, hi])) != Hash(s)
  {
    hide Hash, HashStep;
    var p := s[..o];
    HashSnoc(p, 0);
    HashSnoc(p + [0], 0);
    HashSnoc(p, lo);
    HashSnoc(p + [lo], hi);
    TwoSteps(Hash(p), lo, hi);
    HashSuffix(p + [lo] + [hi], p + [0] + [0], s[o + 2..]);
    PatchTwo(s, o, 0, 0);
    PatchTwo(s, o, lo, hi);
  }

  lemma TwoSteps(h: u32, lo: byte, hi: byte)
    requires lo != 0 || hi != 0
    ensures HashStep(HashStep(h, lo), hi) != HashStep(HashStep(h, 0), 0)
  {
    var a, b := HashStep(h, lo), HashStep(h, 0);
    var k := (h * 33 + lo) / TWO32 - h * 33 / TWO32;
    assert a == b + lo - k * TWO32;
    var m := (a * 33 + hi) / TWO32 - b * 33 / TWO32;
    assert HashStep(a, hi) == HashStep(b, 0) + 33 * lo + hi - (33 * k + m) * TWO32;
  }

  // ---- sealed blocks: a checksum word computed with itself zeroed ---------

  function Checksum(s: seq<byte>, o: nat): u32
    requires o + 4 <= |s|
  {
    Hash(Put32(s, o, 0))
  }

  predicate Sealed(s: seq<byte>, o: nat)
    requires o + 4 <= |s|
  {
    Get32(s, o) == Checksum(s, o)
  }

  function Seal(s: seq<byte>, o: nat): (r: seq<byte>)
    requires o + 4 <= |s|
    ensures |r| == |s|
  {
    Put32(s, o, Checksum(s, o))
  }

  lemma SealSeals(s: seq<byte>, o: nat)
    requires o + 4 <= |s|
    ensures Sealed(Seal(s, o), o)
    ensures forall i :: 0 <= i < |s| && !(o <= i < o + 4) ==> Seal(s, o)[i] == s[i]
  {
    var r := Seal(s, o);
    PutGet(s, o, Checksum(s, o));
    assert Put32(r, o, 0) == Put32(s, o, 0);
  }

  /** The checksum is the hash of the block with the four bytes of its own word
      zero, and lies there least significant byte first. */
  lemma SealedIff(s: seq<byte>, o: nat, z: seq<byte>)
    requires o + 4 <= |s| && |z| == |s|
    requires forall i :: 0 <= i < |s| ==> z[i] == if o <= i < o + 4 then 0 else s[i]
    ensures Sealed(s, o) <==> Get32(s, o) == (5381 * Pow33(|z|) + Weighted(z)) % TWO32
  {
    hide Hash, Weighted, Pow33;
    HashIsSum(z);
    assert Put32(s, o, 0) == z;
  }

  /** A sealed block rejects every change of exactly one of its bytes. */
  lemma SealedRejectsByte(s: seq<byte>, o: nat, i: nat, v: byte)
    requires o + 4 <= |s| && Sealed(s, o)
    requires i < |s| && v != s[i]
    ensures !Sealed(s[i := v], o)
  {
    var t := s[i := v];
    if o <= i < o + 4 {
      assert Put32(t, o, 0) == Put32(s, o, 0);
      assert Get32(t, o) != Get32(s, o);
    } else {
      var z := Put32(s, o, 0);
      assert z[i] == s[i];
      assert Put32(t, o, 0) == z[i := v];
      HashOneByte(z, i, v);
      assert Get32(t, o) == Get32(s, o);
    }
  }
}

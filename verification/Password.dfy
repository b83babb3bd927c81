/** Password records: "SSSS+IHHHHHHHH", printed through itoa and parsed back by
    check_pwd. */
module Password {
  import opened Bytes

  // ---- itoa ---------------------------------------------------------------

  function Digit(d: nat): (c: char)
    requires d < 36
  {
    if d > 9 then (d - 10 + 'A' as int) as char else (d + '0' as int) as char
  }

  /** The digits of n, most significant first; none for 0. */
  function Digits(n: nat, base: nat): string
    requires 2 <= base <= 36
  {
    if n == 0 then [] else Digits(n / base, base) + [Digit(n % base)]
  }

  /** What itoa leaves in its buffer: only base 10 shows a sign. */
  function Itoa(num: i32, base: nat): string
    requires 2 <= base <= 36
  {
    if num == 0 then "0"
    else if base == 10 && num < 0 then "-" + Digits(0 - num, base)
    else Digits(Unsigned(num), base)
  }

  function Reverse(s: string): (r: string)
    ensures |r| == |s| && forall k :: 0 <= k < |s| ==> r[k] == s[|s| - 1 - k]
  {
    seq(|s|, k requires 0 <= k < |s| => s[|s| - 1 - k])
  }

  /** The digits come out last first and the buffer is then reversed in place. */
  method ItoaInto(num: i32, str: array<char>, base: nat) returns (len: nat)
    requires 2 <= base <= 36 && |Itoa(num, base)| < str.Length
    modifies str
    ensures len < str.Length && str[len] == '\0' && str[..len] == Itoa(num, base)
  {
    hide Digits;
    if num == 0 {
      str[0], str[1] := '0', '\0';
      return 1;
    }
    var negative := base == 10 && num < 0;
    var unum: u32 := if negative then 0 - num else Unsigned(num);
    var i := DigitLoop(unum, str, base);
    if negative {
      ReverseSnoc(str[..i], '-');
      str[i] := '-';
      i := i + 1;
    }
    str[i] := '\0';
    ReverseInPlace(str, i);
    len := i;
  }

  /** The digits of n, least significant first. */
  method DigitLoop(n: u32, str: array<char>, base: nat) returns (i: nat)
    requires 2 <= base <= 36 && |Digits(n, base)| <= str.Length
    modifies str
    ensures i <= str.Length && Reverse(str[..i]) == Digits(n, base)
  {
    hide Digits, Digit, Reverse;
    EmptyDigits(n, base);
    var unum: u32 := n;
    i := 0;
    while unum != 0
      invariant i + |Digits(unum, base)| == |Digits(n, base)|
      invariant Digits(n, base) == Digits(unum, base) + Reverse(str[..i])
      decreases unum
    {
      ghost var was := str[..i];
      SplitDigit(unum, base, was);
      str[i] := Digit(unum % base);
      DivSmall(unum, base);
      assert str[..i + 1] == was + [Digit(unum % base)];
      unum := unum / base;
      i := i + 1;
    }
    NoDigits(base, str[..i]);
  }

  lemma EmptyDigits(n: nat, base: nat)
    requires 2 <= base <= 36
    ensures Digits(n, base) == Digits(n, base) + Reverse([])
  {
  }

  lemma NoDigits(base: nat, s: string)
    requires 2 <= base <= 36
    ensures Digits(0, base) + Reverse(s) == Reverse(s)
  {
  }

  lemma DivSmall(n: nat, base: nat)
    requires n > 0 && base >= 2
    ensures n / base < n
  {
  }

  lemma ReverseSnoc(s: string, c: char)
    ensures Reverse(s + [c]) == [c] + Reverse(s)
  {
  }

  lemma SplitDigit(n: nat, base: nat, s: string)
    requires 2 <= base <= 36 && n > 0
    ensures Digits(n, base) + Reverse(s) == Digits(n / base, base) + Reverse(s + [Digit(n % base)])
    ensures |Digits(n, base)| == |Digits(n / base, base)| + 1
  {
    ReverseSnoc(s, Digit(n % base));
  }

  /** The value of a digit up to 'Z', and of a number written with such digits. */
  function DigitIs(c: char): int {
    if '0' <= c <= '9' then c as int - 48 else c as int - 55
  }

  function ValueOf(s: string, base: nat): int {
    if s == [] then 0 else ValueOf(s[..|s| - 1], base) * base + DigitIs(s[|s| - 1])
  }

  predicate IsDigit(c: char, base: nat) {
    ('0' <= c <= '9' || 'A' <= c <= 'Z') && DigitIs(c) < base
  }

  lemma DigitOf(d: nat, base: nat)
    requires d < base <= 36
    ensures DigitIs(Digit(d)) == d && IsDigit(Digit(d), base) && (Digit(d) == '0' ==> d == 0)
  {
  }

  lemma Rejoin(n: nat, base: nat)
    requires base >= 2
    ensures n / base * base + n % base == n && (n > 0 && n / base == 0 ==> n % base != 0)
  {
  }

  ghost predicate Spells(s: string, n: nat, base: nat) {
    && ValueOf(s, base) == n
    && (forall i :: 0 <= i < |s| ==> IsDigit(s[i], base))
    && (if n == 0 then s == [] else s != [] && s[0] != '0')
  }

  lemma OneDigitMore(s: string, q: nat, d: nat, n: nat, base: nat)
    requires 2 <= base <= 36 && d < base && Spells(s, q, base) && n == q * base + d
    requires n > 0 && (q == 0 ==> d != 0)
    ensures Spells(s + [Digit(d)], n, base)
  {
    hide Digit, DigitIs, IsDigit;
    DigitOf(d, base);
    var t := s + [Digit(d)];
    assert t[..|t| - 1] == s;
    assert q * base == 0 ==> q == 0;
  }

  lemma {:induction false} DigitsValue(n: nat, base: nat)
    requires 2 <= base <= 36
    ensures Spells(Digits(n, base), n, base)
  {
    if n > 0 {
      DivSmall(n, base);
      DigitsValue(n / base, base);
      Rejoin(n, base);
      hide Spells, Digit;
      OneDigitMore(Digits(n / base, base), n / base, n % base, n, base);
    }
  }

  /** What itoa prints reads back as the number, with a minus sign in base 10 and
      as the unsigned word in every other base, without leading zeros. */
  lemma ItoaValue(num: i32, base: nat)
    requires 2 <= base <= 36
    ensures var s := Itoa(num, base);
            var minus := base == 10 && num < 0;
            var t := if minus then s[1..] else s;
            && s != [] && (minus ==> s[0] == '-')
            && ValueOf(t, base) == (if minus then 0 - num else Unsigned(num))
            && t != [] && (forall i :: 0 <= i < |t| ==> IsDigit(t[i], base))
            && (t[0] == '0' ==> num == 0 && |t| == 1)
  {
    hide Digits;
    DigitsValue(Unsigned(num), base);
    if num == 0 {
      assert "0"[..0] == [] && ValueOf("0"[..0], base) == 0;
    } else if base == 10 && num < 0 {
      DigitsValue(0 - num, base);
      assert Itoa(num, base)[1..] == Digits(0 - num, base);
    }
  }

  /** Eight hexadecimal digits hold every 32-bit value. */
  lemma HexIsShort(x: i32)
    ensures |Itoa(x, 16)| <= 8
  {
    AtMostDigits(Unsigned(x), 8);
    assert Pow16(8) == TWO32 by {
      assert Pow16(4) == 0x1_0000;
    }
  }

  function Pow16(n: nat): nat { if n == 0 then 1 else 16 * Pow16(n - 1) }

  lemma {:induction false} AtMostDigits(n: nat, k: nat)
    requires n < Pow16(k)
    ensures |Digits(n, 16)| <= k
  {
    if n > 0 {
      AtMostDigits(n / 16, k - 1);
    }
  }

  method ReverseInPlace(str: array<char>, n: nat)
    requires n <= str.Length
    modifies str
    ensures str[..n] == Reverse(old(str[..n]))
    ensures forall k :: n <= k < str.Length ==> str[k] == old(str[k])
  {
    var lo, hi := 0, n - 1;
    while lo < hi
      invariant 0 <= lo <= hi + 1 && lo + hi == n - 1
      invariant forall k :: 0 <= k < n ==> str[k] == if lo <= k <= hi then old(str[k]) else old(str[n - 1 - k])
      invariant forall k :: n <= k < str.Length ==> str[k] == old(str[k])
    {
      str[lo], str[hi] := str[hi], str[lo];
      lo, hi := lo + 1, hi - 1;
    }
    assert str[..n] == Reverse(old(str[..n]));
  }

  // ---- hashing ------------------------------------------------------------

  function Absorb(h: u32, pass: seq<byte>): u32 {
    if pass == [] then h else HashStep(Absorb(h, pass[..|pass| - 1]), pass[|pass| - 1])
  }

  function Stir(h: u32, n: nat): u32 {
    if n == 0 then h
    else
      var g := Stir(h, n - 1);
      (g * 33 + g / 0x1_0000 + g % 256) % TWO32
  }

  /** pwd_hash: the first of `iters` rounds is the pass over the password itself. */
  function PwdHash(pass: seq<byte>, salt: u32, iters: nat): u32 {
    Stir(Absorb((5381 + salt) % TWO32, pass), if iters == 0 then 0 else iters - 1)
  }

  method ComputeHash(pass: seq<byte>, salt: u32, iters: nat) returns (h: u32)
    ensures h == PwdHash(pass, salt, iters)
  {
    h := (5381 + salt) % TWO32;
    ghost var start := h;
    for i := 0 to |pass|
      invariant h == Absorb(start, pass[..i])
    {
      assert pass[..i + 1][..i] == pass[..i];
      h := (h * 33 + pass[i]) % TWO32;
    }
    assert pass[..|pass|] == pass;
    ghost var mid := h;
    var i := 1;
    while i < iters
      invariant 1 <= i && (iters >= 1 ==> i <= iters) && h == Stir(mid, if iters == 0 then 0 else i - 1)
    {
      h := (h * 33 + h / 0x1_0000 + h % 256) % TWO32;
      i := i + 1;
    }
  }

  // ---- what the hash is ---------------------------------------------------

  lemma {:induction false} AbsorbIsSum(h: nat, pass: seq<byte>)
    ensures Absorb(h % TWO32, pass) == (h * Pow33(|pass|) + Weighted(pass)) % TWO32
  {
    if pass != [] {
      var t, c := pass[..|pass| - 1], pass[|pass| - 1];
      AbsorbIsSum(h, t);
      hide Absorb, Weighted;
      var x := h * Pow33(|t|) + Weighted(t);
      assert h * Pow33(|pass|) == 33 * (h * Pow33(|t|));
      WrapLater(x, c);
    }
  }

  /** The first iteration is the polynomial of the bytes at 33, started at 5381
      plus the salt. */
  lemma OneIteration(pass: seq<byte>, salt: u32)
    ensures PwdHash(pass, salt, 1) == ((5381 + salt) * Pow33(|pass|) + Weighted(pass)) % TWO32
  {
    AbsorbIsSum(5381 + salt, pass);
  }

  /** Bit i of x. */
  predicate Bit(x: nat, i: nat) { if i == 0 then x % 2 == 1 else Bit(x / 2, i - 1) }

  predicate ShiftedLeft(l: u32, h: u32, n: nat) {
    forall i :: 0 <= i < 32 ==> (Bit(l, i) <==> i >= n && Bit(h, i - n))
  }

  predicate ShiftedRight(r: u32, h: u32, n: nat) {
    forall i :: 0 <= i < 32 ==> (Bit(r, i) <==> i + n < 32 && Bit(h, i + n))
  }

  predicate OnlyLow(b: u32, h: u32, n: nat) {
    forall i :: 0 <= i < 32 ==> (Bit(b, i) <==> i < n && Bit(h, i))
  }

  function Pow2(n: nat): (r: nat)
    ensures r > 0
  {
    if n == 0 then 1 else 2 * Pow2(n - 1)
  }

  lemma {:induction false} BitsUp(h: nat, n: nat, i: nat)
    ensures Bit(h * Pow2(n), i) <==> i >= n && Bit(h, i - n)
    decreases n
  {
    if n > 0 {
      assert h * Pow2(n) == 2 * (h * Pow2(n - 1));
      if i > 0 {
        BitsUp(h, n - 1, i - 1);
      }
    }
  }

  function Div(n: nat, p: nat): nat
    requires p > 0
  {
    n / p
  }

  lemma {:induction false} BitsDown(h: nat, n: nat, i: nat)
    ensures Bit(Div(h, Pow2(n)), i) <==> Bit(h, i + n)
    decreases n
  {
    if n > 0 {
      HalfFirst(h, Pow2(n - 1));
      BitsDown(h / 2, n - 1, i);
    }
  }

  lemma HalfFirst(h: nat, p: nat)
    requires p > 0
    ensures h / (2 * p) == h / 2 / p
  {
    var q := h / (2 * p);
    var r := h - q * (2 * p);
    assert q * (2 * p) == 2 * (q * p) && 0 <= r < 2 * p;
    assert h / 2 == q * p + r / 2;
    Quotient(h / 2, p, q, r / 2);
  }

  lemma Quotient(n: nat, p: nat, q: nat, r: nat)
    requires p > 0 && n == q * p + r && r < p
    ensures n / p == q
  {
    Multiple(n / p - q, p);
    assert (n / p - q) * p == r - n % p;
  }

  lemma Multiple(d: int, p: nat)
    ensures d >= 1 ==> d * p >= p
    ensures d <= -1 ==> d * p + p <= 0
  {
  }

  lemma {:induction false} BitsBelow(h: nat, n: nat, i: nat)
    ensures Bit(h % Pow2(n), i) <==> i < n && Bit(h, i)
    decreases n
  {
    if n == 0 {
      ZeroBits(i);
    } else {
      HalfRest(h, Pow2(n - 1));
      if i > 0 {
        BitsBelow(h / 2, n - 1, i - 1);
      }
    }
  }

  lemma {:induction false} ZeroBits(i: nat)
    ensures !Bit(0, i)
  {
    if i > 0 {
      ZeroBits(i - 1);
    }
  }

  lemma HalfRest(h: nat, p: nat)
    requires p > 0
    ensures h % (2 * p) / 2 == h / 2 % p && h % (2 * p) % 2 == h % 2
  {
    HalfFirst(h, p);
    var q := h / (2 * p);
    assert q * (2 * p) == 2 * (q * p);
    assert h / 2 / p == q;
    assert h / 2 % p == h / 2 - q * p;
  }

  lemma {:induction false} BitsAbove(h: nat, n: nat, i: nat)
    requires h < Pow2(n) && i >= n
    ensures !Bit(h, i)
    decreases n
  {
    if n == 0 {
      ZeroBits(i);
    } else {
      BitsAbove(h / 2, n - 1, i - 1);
    }
  }

  lemma Powers()
    ensures Pow2(5) == 32 && Pow2(8) == 256 && Pow2(16) == 0x1_0000 && Pow2(32) == TWO32
  {
    assert Pow2(12) == 4096;
    assert Pow2(20) == 0x10_0000;
    assert Pow2(28) == 0x1000_0000;
  }

  lemma ShiftsOf(h: u32)
    ensures ShiftedLeft(h * 32 % TWO32, h, 5) && ShiftedRight(h / 0x1_0000, h, 16) && OnlyLow(h % 256, h, 8)
  {
    hide Bit, Pow2;
    Powers();
    forall i | 0 <= i < 32 ensures Bit(h * 32 % TWO32, i) <==> i >= 5 && Bit(h, i - 5) {
      BitsBelow(h * 32, 32, i);
      BitsUp(h, 5, i);
    }
    forall i | 0 <= i < 32 ensures Bit(h / 0x1_0000, i) <==> i + 16 < 32 && Bit(h, i + 16) {
      BitsDown(h, 16, i);
      if i + 16 >= 32 {
        BitsAbove(h, 32, i + 16);
      }
    }
    forall i | 0 <= i < 32 ensures Bit(h % 256, i) <==> i < 8 && Bit(h, i) {
      BitsBelow(h, 8, i);
    }
  }

  /** The bits determine the word. */
  lemma {:induction false} SameBits(x: nat, y: nat, n: nat)
    requires x < Pow2(n) && y < Pow2(n) && forall i :: 0 <= i < n ==> (Bit(x, i) <==> Bit(y, i))
    ensures x == y
  {
    if n > 0 {
      assert Bit(x, 0) <==> Bit(y, 0);
      forall i | 0 <= i < n - 1 ensures Bit(x / 2, i) <==> Bit(y / 2, i) {
        assert Bit(x, i + 1) <==> Bit(y, i + 1);
      }
      SameBits(x / 2, y / 2, n - 1);
    }
  }

  /** Every further iteration takes h to (h << 5) + h + (h >> 16) + (h & 0xFF),
      wrapping at 32 bits; the shifts are the words with these bits. */
  lemma OneMoreIteration(pass: seq<byte>, salt: u32, k: nat, l: u32, r: u32, b: u32)
    requires k >= 1
    requires var h := PwdHash(pass, salt, k); ShiftedLeft(l, h, 5) && ShiftedRight(r, h, 16) && OnlyLow(b, h, 8)
    ensures PwdHash(pass, salt, k + 1) == (l + PwdHash(pass, salt, k) + r + b) % TWO32
  {
    hide Absorb, Bit, Pow2;
    var h := PwdHash(pass, salt, k);
    ShiftsOf(h);
    Powers();
    SameBits(l, h * 32 % TWO32, 32);
    SameBits(r, h / 0x1_0000, 32);
    SameBits(b, h % 256, 32);
    var q := h * 32 / TWO32;
    assert h * 33 + r + b == l + h + r + b + q * TWO32;
  }

  // ---- records ------------------------------------------------------------

  function HexVal(c: char): (v: nat)
    ensures v < 16
  {
    if '0' <= c <= '9' then c as int - '0' as int
    else if 'a' <= c <= 'f' then c as int - 'a' as int + 10
    else if 'A' <= c <= 'F' then c as int - 'A' as int + 10
    else 0
  }

  function ParseHex(s: string): u32 {
    if s == [] then 0 else (ParseHex(s[..|s| - 1]) * 16 + HexVal(s[|s| - 1])) % TWO32
  }

  /** The last four digits of s, padded on the left with zeros. */
  function LastFour(s: string): (r: string)
    ensures |r| == 4
  {
    seq(4, i requires 0 <= i < 4 => if |s| >= 4 - i then s[|s| - (4 - i)] else '0')
  }

  const ITERS: nat := 5

  /** encode_pwd */
  function Encode(pass: seq<byte>, salt: u32): string {
    LastFour(Itoa(Signed(salt), 16)) + "+" + [Digit(ITERS)] + Itoa(Signed(PwdHash(pass, salt, ITERS)), 16)
  }

  method EncodePwd(pass: seq<byte>, salt: u32) returns (out: string)
    ensures out == Encode(pass, salt)
  {
    hide PwdHash, Itoa, LastFour;
    var tmp := new char[16];
    var h := ComputeHash(pass, salt, ITERS);
    HexIsShort(Signed(salt));
    HexIsShort(Signed(h));
    var sl := ItoaInto(Signed(salt), tmp, 16);
    out := SaltChars(tmp[..sl]);
    out := out + "+" + ["0123456789ABCDEF"[ITERS % 16]];
    var hl := ItoaInto(Signed(h), tmp, 16);
    out := out + tmp[..hl];
  }

  method SaltChars(text: string) returns (out: string)
    ensures out == LastFour(text)
  {
    out := "0000";
    var i, sl := 0, |text|;
    while i < sl && i < 4
      invariant 0 <= i <= sl && i <= 4 && |out| == 4
      invariant forall k :: 0 <= k < 4 ==> out[k] == if 3 - k < i then text[sl - 1 - (3 - k)] else '0'
    {
      out := out[3 - i := text[sl - 1 - i]];
      i := i + 1;
    }
    assert out == LastFour(text);
  }

  function CharAt(s: string, i: nat): char { if i < |s| then s[i] else '\0' }

  function From(s: string, i: nat): string { if i <= |s| then s[i..] else [] }

  /** check_pwd, both formats. */
  predicate Check(pass: seq<byte>, rec: string) {
    if CharAt(rec, 4) == '+' then
      PwdHash(pass, ParseHex(rec[..4]), HexVal(CharAt(rec, 5))) == ParseHex(From(rec, 6))
    else
      CharAt(rec, 2) == ' ' && PwdHash(pass, ParseHex(rec[..2]), 1) == ParseHex(From(rec, 3))
  }

  method ParseLoop(s: string) returns (v: u32)
    ensures v == ParseHex(s)
  {
    v := 0;
    for i := 0 to |s|
      invariant v == ParseHex(s[..i])
    {
      assert s[..i + 1][..i] == s[..i];
      v := (v * 16 + HexVal(s[i])) % TWO32;
    }
    assert s[..|s|] == s;
  }

  method CheckPwd(pass: seq<byte>, rec: string) returns (ok: bool)
    ensures ok == Check(pass, rec)
  {
    if CharAt(rec, 4) == '+' {
      var salt := ParseLoop(rec[..4]);
      var sh := ParseLoop(From(rec, 6));
      var h := ComputeHash(pass, salt, HexVal(CharAt(rec, 5)));
      return h == sh;
    }
    if CharAt(rec, 2) != ' ' { return false; }
    var salt := ParseLoop(rec[..2]);
    var sh := ParseLoop(From(rec, 3));
    var h := ComputeHash(pass, salt, 1);
    return h == sh;
  }

  /** Both cases of the letters count, and any other character is 0. */
  lemma HexValues(c: char)
    ensures forall d :: 0 <= d < 16 ==> HexVal("0123456789ABCDEF"[d]) == d && HexVal("0123456789abcdef"[d]) == d
    ensures c !in "0123456789ABCDEFabcdef" ==> HexVal(c) == 0
  {
    if HexVal(c) != 0 {
      var d := HexVal(c);
      assert c == "0123456789ABCDEF"[d] || c == "abcdef"[d - 10];
      assert "0123456789ABCDEFabcdef"[d] == "0123456789ABCDEF"[d];
      if d >= 10 {
        assert "0123456789ABCDEFabcdef"[d + 6] == "abcdef"[d - 10];
      }
    }
  }

  lemma DigitValue(d: nat)
    requires d < 16
    ensures HexVal(Digit(d)) == d
  {
  }

  lemma {:induction false} ParseDigits(n: nat)
    requires n < TWO32
    ensures ParseHex(Digits(n, 16)) == n
  {
    if n > 0 {
      ParseDigits(n / 16);
      DigitValue(n % 16);
      var s := Digits(n, 16);
      assert s[..|s| - 1] == Digits(n / 16, 16);
    }
  }

  /** What was printed in hexadecimal parses back, for every 32-bit value. */
  lemma ParseItoa(x: u32)
    ensures ParseHex(Itoa(Signed(x), 16)) == x
  {
    if x == 0 {
      assert "0"[..0] == "";
      assert ParseHex("0") == 0;
    } else {
      ParseDigits(x);
    }
  }

  function Shift(n: nat, i: nat): nat { if i == 0 then n else Shift(n / 16, i - 1) }

  lemma {:induction false} DigitAt(n: nat, i: nat)
    ensures var s := Digits(n, 16);
            if i < |s| then s[|s| - 1 - i] == Digit(Shift(n, i) % 16) else Shift(n, i) == 0
    decreases i
  {
    if n == 0 {
      ShiftZero(i);
    } else if i > 0 {
      DigitAt(n / 16, i - 1);
    }
  }

  lemma {:induction false} ShiftZero(i: nat)
    ensures Shift(0, i) == 0
  {
    if i > 0 {
      ShiftZero(i - 1);
    }
  }

  lemma ShiftThree(n: nat)
    ensures Shift(n, 0) == n && Shift(n, 1) == n / 16 && Shift(n, 2) == n / 16 / 16 && Shift(n, 3) == n / 16 / 16 / 16
  {
    assert Shift(n / 16 / 16, 1) == Shift(n / 16 / 16 / 16, 0);
    assert Shift(n / 16, 2) == Shift(n / 16 / 16, 1);
    assert Shift(n / 16, 1) == Shift(n / 16 / 16, 0);
  }

  lemma DigitZero()
    ensures Digit(0) == '0'
  {
  }

  lemma SaltDigit(salt: u32, i: nat)
    requires i < 4
    ensures LastFour(Itoa(Signed(salt), 16))[3 - i] == Digit(Shift(salt, i) % 16)
  {
    hide Digits, Shift, Digit;
    DigitZero();
    if salt != 0 {
      DigitAt(salt, i);
    } else {
      ShiftZero(i);
    }
  }

  /** The four salt characters hold the low 16 bits of the salt. */
  lemma SaltField(salt: u32)
    ensures ParseHex(LastFour(Itoa(Signed(salt), 16))) == salt % 0x1_0000
  {
    hide *;
    SaltDigit(salt, 0);
    SaltDigit(salt, 1);
    SaltDigit(salt, 2);
    SaltDigit(salt, 3);
    ShiftThree(salt);
    var a, b, c, d := salt / 16 / 16 / 16 % 16, salt / 16 / 16 % 16, salt / 16 % 16, salt % 16;
    FourDigits(LastFour(Itoa(Signed(salt), 16)), a, b, c, d);
    LowBits(salt, a, b, c, d);
  }

  lemma Unique(n: nat, q: nat, r: nat)
    requires r < 0x1_0000 && n == 0x1_0000 * q + r
    ensures n % 0x1_0000 == r
  {
  }

  lemma LowBits(n: nat, a: nat, b: nat, c: nat, d: nat)
    requires a == n / 16 / 16 / 16 % 16 && b == n / 16 / 16 % 16 && c == n / 16 % 16 && d == n % 16
    ensures ((a * 16 + b) * 16 + c) * 16 + d == n % 0x1_0000
  {
    var n1 := n / 16;
    var n2 := n1 / 16;
    var n3 := n2 / 16;
    var n4 := n3 / 16;
    assert n == 16 * n1 + d && n1 == 16 * n2 + c && n2 == 16 * n3 + b && n3 == 16 * n4 + a;
    Unique(n, n4, ((a * 16 + b) * 16 + c) * 16 + d);
  }

  lemma FourDigits(f: string, a: nat, b: nat, c: nat, d: nat)
    requires a < 16 && b < 16 && c < 16 && d < 16
    requires |f| == 4 && f[0] == Digit(a) && f[1] == Digit(b) && f[2] == Digit(c) && f[3] == Digit(d)
    ensures ParseHex(f) == ((a * 16 + b) * 16 + c) * 16 + d
  {
    DigitValue(a);
    DigitValue(b);
    DigitValue(c);
    DigitValue(d);
    hide HexVal, Digit;
    assert f[..3][..2] == f[..2] && f[..2][..1] == f[..1] && f[..1][..0] == [];
    assert ParseHex(f[..0]) == 0;
    assert ParseHex(f[..1]) == a;
    assert ParseHex(f[..2]) == a * 16 + b;
    assert ParseHex(f[..3]) == (a * 16 + b) * 16 + c;
  }

  /** A record of k iterations holding the hash h accepts exactly the passwords
      whose hash under the salt's low 16 bits is h. */
  lemma AnyRecord(salt: u32, k: nat, h: u32, other: seq<byte>)
    requires k < 16
    ensures Check(other, LastFour(Itoa(Signed(salt), 16)) + "+" + [Digit(k)] + Itoa(Signed(h), 16)) <==>
            PwdHash(other, salt % 0x1_0000, k) == h
  {
    hide PwdHash, ParseHex, Itoa;
    var rec := LastFour(Itoa(Signed(salt), 16)) + "+" + [Digit(k)] + Itoa(Signed(h), 16);
    SaltField(salt);
    ParseItoa(h);
    DigitValue(k);
    assert rec[..4] == LastFour(Itoa(Signed(salt), 16));
    assert rec[4] == '+' && rec[5] == Digit(k) && rec[6..] == Itoa(Signed(h), 16);
  }

  /** For every password and every salt a record accepts another password
      exactly when the hash under the salt's low 16 bits equals the stored one. */
  lemma RecordAccepts(pass: seq<byte>, salt: u32, other: seq<byte>)
    ensures Check(other, Encode(pass, salt)) <==> PwdHash(other, salt % 0x1_0000, ITERS) == PwdHash(pass, salt, ITERS)
  {
    hide PwdHash, Check, Itoa;
    AnyRecord(salt, ITERS, PwdHash(pass, salt, ITERS), other);
  }

  lemma {:induction false} NoPlus(n: nat, i: nat)
    requires i < |Digits(n, 16)|
    ensures Digits(n, 16)[i] != '+'
  {
    if n > 0 && i < |Digits(n / 16, 16)| {
      NoPlus(n / 16, i);
    }
  }

  /** A record of the old format, of an 8-bit salt and a hash of one iteration,
      accepts exactly the passwords with that hash; what has neither mark is
      refused. */
  lemma OldRecordAccepts(salt: nat, h: u32, other: seq<byte>)
    requires salt < 256
    ensures Check(other, [Digit(salt / 16), Digit(salt % 16), ' '] + Itoa(Signed(h), 16)) <==>
            PwdHash(other, salt, 1) == h
  {
    hide PwdHash, Digits, HexVal;
    var text := Itoa(Signed(h), 16);
    var rec := [Digit(salt / 16), Digit(salt % 16), ' '] + text;
    ParseItoa(h);
    DigitValue(salt / 16);
    DigitValue(salt % 16);
    assert rec[..2][..1][..0] == [] && ParseHex(rec[..2][..1][..0]) == 0;
    assert ParseHex(rec[..2][..1]) == salt / 16;
    assert ParseHex(rec[..2]) == salt;
    assert rec[3..] == text;
    if |rec| > 4 && h != 0 {
      NoPlus(h, 1);
    }
  }

  lemma GarbageIsRefused(rec: string, pass: seq<byte>)
    requires CharAt(rec, 4) != '+' && CharAt(rec, 2) != ' '
    ensures !Check(pass, rec)
  {
  }

  /** With a 16-bit salt, check_pwd accepts exactly the passwords of equal salted hash. */
  lemma RecordRoundTrip(pass: seq<byte>, salt: u32, other: seq<byte>)
    requires salt <= 0xFFFF
    ensures Check(pass, Encode(pass, salt))
    ensures Check(other, Encode(pass, salt)) <==> PwdHash(other, salt, ITERS) == PwdHash(pass, salt, ITERS)
  {
    hide *;
    RecordAccepts(pass, salt, pass);
    RecordAccepts(pass, salt, other);
  }

  lemma {:induction false} AbsorbOneByte(h: u32, pass: seq<byte>, i: nat, v: byte)
    requires i < |pass| && v != pass[i]
    ensures Absorb(h, pass[i := v]) != Absorb(h, pass)
  {
    hide HashStep;
    var n := |pass| - 1;
    if i == n {
      assert pass[i := v][..n] == pass[..n];
      StepSeparates(Absorb(h, pass[..n]), pass[n], v);
    } else {
      AbsorbOneByte(h, pass[..n], i, v);
      assert pass[i := v][..n] == pass[..n][i := v];
      if Absorb(h, pass[i := v]) == Absorb(h, pass) {
        HashStepInjective(Absorb(h, pass[..n][i := v]), Absorb(h, pass[..n]), pass[n]);
      }
    }
  }

  /** A record of the old format never accepts two passwords that differ in
      exactly one byte. */
  lemma OldRecordSeparates(rec: string, pass: seq<byte>, i: nat, v: byte)
    requires i < |pass| && v != pass[i] && CharAt(rec, 4) != '+' && Check(pass, rec)
    ensures !Check(pass[i := v], rec)
  {
    hide ParseHex, Absorb;
    AbsorbOneByte((5381 + ParseHex(rec[..2])) % TWO32, pass, i, v);
  }

  lemma AbsorbMore(h: u32, pass: seq<byte>, c: byte)
    ensures Absorb(h, pass + [c]) == HashStep(Absorb(h, pass), c)
  {
    assert (pass + [c])[..|pass|] == pass;
  }

  lemma LastByteMoves(pass: seq<byte>, salt: u32, v: byte)
    requires pass != []
    ensures var g, h := PwdHash(pass, salt, 1), PwdHash(pass[|pass| - 1 := v], salt, 1);
            v >= pass[|pass| - 1] ==> h == (g + (v - pass[|pass| - 1])) % TWO32
  {
    hide Absorb;
    var n, t := |pass| - 1, pass[..|pass| - 1];
    assert pass == t + [pass[n]] && pass[n := v] == t + [v];
    AbsorbMore((5381 + salt) % TWO32, t, pass[n]);
    AbsorbMore((5381 + salt) % TWO32, t, v);
    hide HashStep;
    if v >= pass[n] {
      StepMoves(Absorb((5381 + salt) % TWO32, t), pass[n], v);
    }
  }

  lemma StepMoves(h: u32, c: byte, v: byte)
    requires v >= c
    ensures HashStep(h, v) == (HashStep(h, c) + (v - c)) % TWO32
  {
    WrapSum(h * 33 + c, v - c);
  }

  lemma WrapSum(x: nat, y: nat)
    ensures (x % TWO32 + y) % TWO32 == (x + y) % TWO32
  {
    var q, z := x / TWO32, x % TWO32 + y;
    assert x + y == z + q * TWO32;
  }

  lemma SameRest(x: nat, y: nat)
    requires x % TWO32 == y % TWO32
    ensures x - y == (x / TWO32 - y / TWO32) * TWO32
  {
  }

  lemma LowPart(g: nat, d: nat)
    requires 0 < d < 256
    ensures (g + d) % 256 - g % 256 == d || (g + d) % 256 - g % 256 == d - 256
  {
    var q, r := g / 256, g % 256;
    assert g + d == 256 * q + (r + d);
    assert r + d < 256 || g + d == 256 * (q + 1) + (r + d - 256);
  }

  lemma HighPart(g: nat, d: nat)
    requires 0 < d < 256
    ensures (g + d) / 0x1_0000 - g / 0x1_0000 == 0 || (g + d) / 0x1_0000 - g / 0x1_0000 == 1
  {
    var q, r := g / 0x1_0000, g % 0x1_0000;
    assert g + d == 0x1_0000 * q + (r + d);
    assert r + d < 0x1_0000 || g + d == 0x1_0000 * (q + 1) + (r + d - 0x1_0000);
  }

  lemma TopWord(r: nat)
    requires r < 256
    ensures (TWO32 - 256 + r) / 0x1_0000 == 65535 && (TWO32 - 256 + r) % 256 == r
  {
    assert TWO32 - 256 + r == 0x1_0000 * 65535 + (65280 + r);
    assert TWO32 - 256 + r == 256 * 16777215 + r;
  }

  /** Where a word and one a little above it differ in the parts that an
      iteration adds. */
  lemma Parts(g: u32, d: nat)
    requires 0 < d < 256
    ensures var h := (g + d) % TWO32;
            var q, r := h / 0x1_0000 - g / 0x1_0000, h % 256 - g % 256;
            if g + d < TWO32 then h == g + d && (q == 0 || q == 1) && (r == d || r == d - 256)
            else h == g + d - TWO32 && q == -65535 && r == d - 256
  {
    if g + d < TWO32 {
      assert (g + d) % TWO32 == g + d;
      LowPart(g, d);
      HighPart(g, d);
    } else {
      var h := g + d - TWO32;
      assert (g + d) % TWO32 == h && h < 256;
      assert h / 0x1_0000 == 0 && h % 256 == h;
      TopWord(g - (TWO32 - 256));
    }
  }

  lemma SumsDiffer(g: u32, d: nat, h: u32)
    requires 0 < d < 256 && h == (g + d) % TWO32
    ensures var x, y := h * 33 + h / 0x1_0000 + h % 256, g * 33 + g / 0x1_0000 + g % 256;
            var diff := if g + d < TWO32 then x - y else x - y + 33 * TWO32;
            0 < diff < TWO32 || 0 - TWO32 < diff < 0
  {
    Parts(g, d);
  }

  /** One more iteration keeps words apart that differ by less than 256. */
  lemma RoundSeparates(g: u32, d: nat)
    requires 0 < d < 256
    ensures Stir((g + d) % TWO32, 1) != Stir(g, 1)
  {
    var h := (g + d) % TWO32;
    var x, y := h * 33 + h / 0x1_0000 + h % 256, g * 33 + g / 0x1_0000 + g % 256;
    SumsDiffer(g, d, h);
    StirNone(g);
    StirNone(h);
    StirOnce(g, 0, g);
    StirOnce(h, 0, h);
    hide Stir;
    NotSameRest(x, y, if g + d < TWO32 then 0 else 33);
  }

  lemma NotSameRest(x: nat, y: nat, k: nat)
    requires var diff := x - y + k * TWO32; 0 < diff < TWO32 || 0 - TWO32 < diff < 0
    ensures x % TWO32 != y % TWO32
  {
    if x % TWO32 == y % TWO32 {
      SameRest(x, y);
      assert false;
    }
  }

  lemma FewIterations(pass: seq<byte>, salt: u32)
    ensures PwdHash(pass, salt, 0) == PwdHash(pass, salt, 1)
    ensures PwdHash(pass, salt, 2) == Stir(PwdHash(pass, salt, 1), 1)
  {
    hide Absorb;
  }

  lemma LastByteCounts(pass: seq<byte>, salt: u32, v: byte, k: nat)
    requires pass != [] && v > pass[|pass| - 1] && k <= 2
    ensures PwdHash(pass[|pass| - 1 := v], salt, k) != PwdHash(pass, salt, k)
  {
    hide Absorb, Stir, PwdHash;
    var p := pass[|pass| - 1 := v];
    FewIterations(pass, salt);
    FewIterations(p, salt);
    LastByteMoves(pass, salt, v);
    RoundSeparates(PwdHash(pass, salt, 1), v - pass[|pass| - 1]);
  }

  /** A record of at most two iterations never accepts two passwords that differ
      in their last byte only. */
  lemma LastByteTold(rec: string, pass: seq<byte>, v: byte)
    requires pass != [] && v != pass[|pass| - 1] && Check(pass, rec)
    requires CharAt(rec, 4) == '+' && HexVal(CharAt(rec, 5)) <= 2
    ensures !Check(pass[|pass| - 1 := v], rec)
  {
    hide ParseHex, PwdHash, HexVal;
    var n, salt, k := |pass| - 1, ParseHex(rec[..4]), HexVal(CharAt(rec, 5));
    if v > pass[n] {
      LastByteCounts(pass, salt, v, k);
    } else {
      assert pass[n := v][n := pass[n]] == pass;
      LastByteCounts(pass[n := v], salt, pass[n], k);
    }
  }

  lemma OneByteMore(h: u32, s: seq<byte>, g: u32, c: byte, t: seq<byte>)
    requires Absorb(h, s) == g && t == s + [c]
    ensures Absorb(h, t) == HashStep(g, c)
  {
    hide HashStep;
    AbsorbMore(h, s, c);
  }

  /** The pass over four bytes, word by word. */
  lemma FourBytes(s: seq<byte>, h0: u32, h1: u32, h2: u32, h3: u32, h4: u32)
    requires |s| == 4
    requires h1 == HashStep(h0, s[0]) && h2 == HashStep(h1, s[1])
    requires h3 == HashStep(h2, s[2]) && h4 == HashStep(h3, s[3])
    ensures Absorb(h0, s) == h4
  {
    assert Absorb(h0, []) == h0;
    hide Absorb, HashStep;
    OneByteMore(h0, [], h0, s[0], s[..1]);
    OneByteMore(h0, s[..1], h1, s[1], s[..2]);
    OneByteMore(h0, s[..2], h2, s[2], s[..3]);
    OneByteMore(h0, s[..3], h3, s[3], s);
  }

  lemma StirOnce(h: u32, n: nat, g: u32)
    requires Stir(h, n) == g
    ensures Stir(h, n + 1) == (g * 33 + g / 0x1_0000 + g % 256) % TWO32
  {
  }

  lemma MoreDigits(n: nat)
    requires n > 0
    ensures Digits(n, 16) == Digits(n / 16, 16) + [Digit(n % 16)]
  {
  }

  const ROOT: seq<byte> := [0x72, 0x6F, 0x6F, 0x74]
  const TOOR: seq<byte> := [0x74, 0x6F, 0x6F, 0x72]

  lemma RootsPass()
    ensures Absorb(5546, ROOT) == 2286372046
  {
    assert HashStep(5546, 0x72) == 183132;
    assert HashStep(183132, 0x6F) == 6043467;
    assert HashStep(6043467, 0x6F) == 199434522;
    assert HashStep(199434522, 0x74) == 2286372046;
    hide Absorb, HashStep;
    FourBytes(ROOT, 5546, 183132, 6043467, 199434522, 2286372046);
  }

  lemma RootsRounds()
    ensures Stir(2286372046, 4) == 0x7E89156E
  {
    hide Stir;
    StirNone(2286372046);
    StirOnce(2286372046, 0, 2286372046);
    StirOnce(2286372046, 1, 2435868579);
    StirOnce(2286372046, 2, 3074289110);
    StirOnce(2286372046, 3, 2667339945);
  }

  lemma RootsHash()
    ensures PwdHash(ROOT, 0xA5, 5) == 0x7E89156E
  {
    hide Absorb, Stir;
    RootsPass();
    RootsRounds();
  }

  lemma ToorsPass()
    ensures Absorb(5546, TOOR) == 2286443918
  {
    assert HashStep(5546, 0x74) == 183134;
    assert HashStep(183134, 0x6F) == 6043533;
    assert HashStep(6043533, 0x6F) == 199436700;
    assert HashStep(199436700, 0x72) == 2286443918;
    hide Absorb, HashStep;
    FourBytes(TOOR, 5546, 183134, 6043533, 199436700, 2286443918);
  }

  lemma ToorsRounds()
    ensures Stir(2286443918, 4) == 0x56C49B2E
  {
    hide Stir;
    StirNone(2286443918);
    StirOnce(2286443918, 0, 2286443918);
    StirOnce(2286443918, 1, 2438240292);
    StirOnce(2286443918, 2, 3152555548);
    StirOnce(2286443918, 3, 955166112);
  }

  lemma ToorsHash()
    ensures PwdHash(TOOR, 0xA5, 5) == 0x56C49B2E
  {
    hide Absorb, Stir;
    ToorsPass();
    ToorsRounds();
  }

  lemma StirNone(h: u32)
    ensures Stir(h, 0) == h
  {
  }

  lemma RootsDigits()
    ensures Digits(0x7E89156E, 16) == "7E89156E" && Digits(0xA5, 16) == "A5"
  {
    assert Digits(0, 16) == "";
    hide Digits;
    MoreDigits(0x7);
    MoreDigits(0x7E);
    MoreDigits(0x7E8);
    MoreDigits(0x7E89);
    MoreDigits(0x7E891);
    MoreDigits(0x7E8915);
    MoreDigits(0x7E89156);
    MoreDigits(0x7E89156E);
    MoreDigits(0xA);
    MoreDigits(0xA5);
  }

  /** The record of root that the kernel starts with accepts "root", and not "toor". */
  lemma RootsRecord()
    ensures Encode(ROOT, 0xA5) == "00A5+57E89156E"
    ensures Check(ROOT, Encode(ROOT, 0xA5)) && !Check(TOOR, Encode(ROOT, 0xA5))
  {
    RootsHash();
    ToorsHash();
    RootsDigits();
    hide PwdHash, Digits, Check;
    RecordRoundTrip(ROOT, 0xA5, TOOR);
    assert LastFour("A5") == "00A5";
    assert Encode(ROOT, 0xA5) == "00A5" + "+" + "5" + "7E89156E";
  }
}

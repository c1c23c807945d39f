/** Numbers as bytes in memory and as decimal text (std::to_string, std::stoi). */
module Numbers {
  import opened Types

  // ---- Little-endian integers --------------------------------------------------------

  // sizeof(int) and sizeof(uint32_t); sizeof(double) and sizeof(size_t).
  const SIZE_32: nat := 4
  const SIZE_64: nat := 8

  function Pow256(n: nat): (p: nat)
    ensures p > 0
  {
    if n == 0 then 1 else 256 * Pow256(n - 1)
  }

  // The low `width` bytes of x.
  function Encode(x: nat, width: nat): (bs: Bytes)
    ensures |bs| == width
  {
    if width == 0 then [] else [(x % 256) as char] + Encode(x / 256, width - 1)
  }

  function Decode(bs: Bytes): nat {
    if bs == [] then 0 else bs[0] as int + 256 * Decode(bs[1..])
  }

  lemma {:induction false} DecodeBound(bs: Bytes)
    ensures Decode(bs) < Pow256(|bs|)
  {
    if bs != [] {
      DecodeBound(bs[1..]);
    }
  }

  lemma {:induction false} DecodeEncode(x: nat, width: nat)
    requires x < Pow256(width)
    ensures Decode(Encode(x, width)) == x
  {
    if width > 0 {
      assert x / 256 < Pow256(width - 1);
      DecodeEncode(x / 256, width - 1);
      assert Encode(x, width)[1..] == Encode(x / 256, width - 1);
    }
  }

  lemma {:induction false} EncodeDecode(bs: Bytes)
    ensures Encode(Decode(bs), |bs|) == bs
  {
    if bs != [] {
      EncodeDecode(bs[1..]);
      assert Decode(bs) % 256 == bs[0] as int && Decode(bs) / 256 == Decode(bs[1..]);
    }
  }

  // The bytes weighted with the powers of 256, the first one with 1.
  function PlaceValue(bs: Bytes): nat {
    if bs == [] then 0 else PlaceValue(bs[..|bs| - 1]) + bs[|bs| - 1] as int * Pow256(|bs| - 1)
  }

  /** Numbers are stored little-endian. */
  lemma {:induction false} LittleEndian(bs: Bytes)
    ensures Decode(bs) == PlaceValue(bs)
  {
    if bs != [] {
      var front, last := bs[..|bs| - 1], bs[|bs| - 1];
      LittleEndian(front);
      DecodeAppend(front, last);
      assert bs == front + [last];
    }
  }

  lemma {:induction false} DecodeAppend(bs: Bytes, c: Byte)
    ensures Decode(bs + [c]) == Decode(bs) + c as int * Pow256(|bs|)
  {
    if bs == [] {
      assert bs + [c] == [c] && [c][1..] == [];
    } else {
      assert (bs + [c])[1..] == bs[1..] + [c];
      DecodeAppend(bs[1..], c);
      var n, k := Pow256(|bs| - 1), c as int;
      assert 256 * (k * n) == k * (256 * n);
    }
  }

  // Conversions to uint32_t and to the 64-bit types keep the low bits.
  function Low32(x: nat): UInt32 {
    if x < 0x1_0000_0000 then x else x % 0x1_0000_0000
  }

  function Low64(x: nat): Double {
    if x < 0x1_0000_0000_0000_0000 then x else x % 0x1_0000_0000_0000_0000
  }

  // Two's complement.
  function ToUnsigned(i: Int32): UInt32 {
    if i < 0 then i + 0x1_0000_0000 else i
  }

  function ToSigned(u: UInt32): Int32 {
    if u < 0x8000_0000 then u else u - 0x1_0000_0000
  }

  // ---- Decimal text ------------------------------------------------------------------

  predicate IsDigit(c: Byte) {
    '0' <= c <= '9'
  }

  predicate IsSpace(c: Byte) {
    c == ' ' || '\t' <= c <= '\r'
  }

  predicate AllDigits(s: Bytes) {
    forall i :: 0 <= i < |s| ==> IsDigit(s[i])
  }

  function Digits(n: nat): (s: Bytes)
    ensures s != [] && AllDigits(s)
  {
    var d: Byte := (n % 10 + 48) as char;
    if n < 10 then [d] else Digits(n / 10) + [d]
  }

  function Magnitude(i: int): nat {
    if i < 0 then -i else i
  }

  // std::to_string(int)
  function IntText(i: Int32): Bytes {
    if i < 0 then "-" + Digits(Magnitude(i)) else Digits(i)
  }

  function DigitsValue(s: Bytes): int {
    if s == [] then 0 else 10 * DigitsValue(s[..|s| - 1]) + (s[|s| - 1] as int - 48)
  }

  function SkipSpace(s: Bytes): Bytes {
    if s != [] && IsSpace(s[0]) then SkipSpace(s[1..]) else s
  }

  // The length of the longest prefix of digits.
  function DigitCount(s: Bytes): (n: nat)
    ensures n <= |s| && (n < |s| ==> !IsDigit(s[n]))
  {
    if s == [] || !IsDigit(s[0]) then 0 else 1 + DigitCount(s[1..])
  }

  // std::stoi: blanks, an optional sign, digits; whatever follows is ignored.
  function Stoi(s: Bytes): Result<Int32> {
    var t := SkipSpace(s);
    var signed := t != [] && (t[0] == '-' || t[0] == '+');
    var u := if signed then t[1..] else t;
    var n := DigitCount(u);
    if n == 0 then Err(InvalidArgument)
    else
      var m := DigitsValue(u[..n]);
      var v := if signed && t[0] == '-' then -m else m;
      if -0x8000_0000 <= v < 0x8000_0000 then Ok(v) else Err(OutOfRange)
  }

  lemma {:induction false} DigitsRoundTrip(n: nat)
    ensures DigitsValue(Digits(n)) == n
  {
    if n >= 10 {
      DigitsRoundTrip(n / 10);
      assert Digits(n)[..|Digits(n)| - 1] == Digits(n / 10);
    }
  }

  lemma {:induction false} DigitCountOf(s: Bytes, rest: Bytes)
    requires AllDigits(s) && (rest != [] ==> !IsDigit(rest[0]))
    ensures DigitCount(s + rest) == |s|
  {
    if s == [] {
      assert s + rest == rest;
    } else {
      assert (s + rest)[1..] == s[1..] + rest;
      DigitCountOf(s[1..], rest);
    }
  }

  /** Every 32-bit integer is read back from its decimal text. */
  lemma IntTextRoundTrip(i: Int32)
    ensures Stoi(IntText(i)) == Ok(i)
  {
    var ds := Digits(Magnitude(i));
    DigitsRoundTrip(Magnitude(i));
    DigitCountOf(ds, []);
    assert ds + [] == ds && ds[..|ds|] == ds;
    if i < 0 {
      assert IntText(i)[1..] == ds;
    }
  }

  /** The digits of a number are those of its tenth and its last one, ... */
  lemma {:induction false} DecimalDigits(n: nat)
    requires n < 0x8000_0000
    ensures n < 10 ==> IntText(n) == [(48 + n) as char]
    ensures n >= 10 ==> IntText(n) == IntText(n / 10) + [(48 + n % 10) as char]
  {
  }

  /** ... and a minus comes in front. */
  lemma {:induction false} NegativeDigits(n: nat)
    requires 0 < n <= 0x8000_0000
    ensures n < 10 ==> IntText(0 - n) == ['-', (48 + n) as char]
    ensures n >= 10 ==> IntText(0 - n) == IntText(0 - n / 10) + [(48 + n % 10) as char]
  {
  }

  lemma {:induction false} SpaceIsSkipped(w: Bytes, s: Bytes)
    requires (forall c :: c in w ==> IsSpace(c)) && (s != [] ==> !IsSpace(s[0]))
    ensures SkipSpace(w + s) == s
  {
    if w == [] {
      assert w + s == s;
    } else {
      assert (w + s)[1..] == w[1..] + s;
      SpaceIsSkipped(w[1..], s);
    }
  }

  lemma SignIsRead(sign: Bytes, ds: Bytes, rest: Bytes)
    requires sign == "" || sign == "+" || sign == "-"
    requires AllDigits(ds) && (rest != [] ==> !IsDigit(rest[0]))
    requires ds == [] ==> rest == [] || (rest[0] != '+' && rest[0] != '-' && !IsSpace(rest[0]))
    ensures var s, v := sign + (ds + rest), if sign == "-" then -DigitsValue(ds) else DigitsValue(ds);
      Stoi(s) == if ds == [] then Err(InvalidArgument)
                 else if -0x8000_0000 <= v < 0x8000_0000 then Ok(v) else Err(OutOfRange)
  {
    var s, u := sign + (ds + rest), ds + rest;
    DigitCountOf(ds, rest);
    assert u[..|ds|] == ds;
    if sign == "" {
      assert s == u;
    } else {
      assert s[1..] == u;
    }
  }

  lemma SkippedFirst(w: Bytes, s: Bytes)
    requires (forall c :: c in w ==> IsSpace(c)) && (s != [] ==> !IsSpace(s[0]))
    ensures Stoi(w + s) == Stoi(s)
  {
    SpaceIsSkipped(w, s);
    SpaceIsSkipped([], s);
    assert [] + s == s;
  }

  /** stoi skips white space, takes a sign or none, and reads the digits that follow, whatever stands
      behind them; without a digit it throws, and if the number does not fit. */
  lemma StoiReads(w: Bytes, sign: Bytes, ds: Bytes, rest: Bytes)
    requires forall c :: c in w ==> c == ' ' || '\t' <= c <= '\r'
    requires sign == "" || sign == "+" || sign == "-"
    requires (forall c :: c in ds ==> '0' <= c <= '9') && (rest != [] ==> !('0' <= rest[0] <= '9'))
    requires ds == [] && rest != [] ==>
               rest[0] != '+' && rest[0] != '-' && rest[0] != ' ' && !('\t' <= rest[0] <= '\r')
    ensures var v := if sign == "-" then -DigitsValue(ds) else DigitsValue(ds);
      Stoi(w + (sign + (ds + rest))) ==
      if ds == [] then Err(InvalidArgument)
      else if -0x8000_0000 <= v < 0x8000_0000 then Ok(v) else Err(OutOfRange)
  {
    var s := sign + (ds + rest);
    forall i | 0 <= i < |ds| ensures IsDigit(ds[i]) {
      assert ds[i] in ds;
    }
    SignIsRead(sign, ds, rest);
    assert s != [] ==> !IsSpace(s[0]);
    SkippedFirst(w, s);
  }

  /** The value of a digit string: ten times that of the digits in front, and the last one. */
  lemma DigitsCount(ds: Bytes, c: Byte)
    requires '0' <= c <= '9'
    ensures DigitsValue([]) == 0
    ensures DigitsValue(ds + [c]) == 10 * DigitsValue(ds) + (c as int - 48)
  {
    assert (ds + [c])[..|ds|] == ds;
  }
}

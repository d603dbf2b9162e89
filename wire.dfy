/**
  Wire-level building blocks shared by every camloc component: bytes, the
  big-endian integer and double encodings (`to_be_bytes`/`from_be_bytes`),
  UTF-8 well-formedness as `std::str::from_utf8` checks it, decimal text, the
  textual form of IPv4 and socket addresses, and byte streams that are read
  with `read_exact` or written with `write_all`.

  A double (`f64`) is modelled as its 64-bit IEEE-754 pattern, so every
  encoding round-trip below is exact at the bit level. Rust text (`&str`,
  `String`) is modelled as its UTF-8 bytes.
 */
module Wire {

  type byte = b: int | 0 <= b < 256
  type Bytes = seq<byte>

  /** The bit pattern of an IEEE-754 binary64 value, read as an unsigned integer. */
  type F64 = x: nat | x < 0x1_0000_0000_0000_0000

  datatype Option<+T> = None | Some(value: T)

  /** Slicing a concatenation at the seam gives back its parts. */
  lemma Split<T>(a: seq<T>, b: seq<T>)
    ensures (a + b)[..|a|] == a && (a + b)[|a|..] == b
  {
  }

  /** The three parts of `a + (b + c)`, sliced at their seams. */
  lemma Split3<T>(a: seq<T>, b: seq<T>, c: seq<T>)
    ensures |a + (b + c)| == |a| + |b| + |c|
    ensures (a + (b + c))[..|a|] == a && (a + (b + c))[|a|..|a| + |b|] == b
    ensures (a + (b + c))[|a| + |b|..] == c
  {
  }

  /** Regrouping a chain of four concatenations to the right. */
  lemma Regroup4<T>(a: seq<T>, b: seq<T>, c: seq<T>, d: seq<T>)
    ensures a + b + c + d == a + (b + (c + d))
  {
  }

  // ------------------------------------------------- big-endian unsigned ints

  function Pow256(n: nat): (p: nat)
    ensures p >= 1
  {
    if n == 0 then 1 else Pow256(n - 1) * 256
  }

  /** The `n` low-order bytes of `x`, most significant first (`to_be_bytes` of an
      unsigned integer `n` bytes wide, after `as` has kept the low bits). */
  function ToBigEndian(x: nat, n: nat): (r: Bytes)
    ensures |r| == n
  {
    if n == 0 then [] else ToBigEndian(x / 256, n - 1) + [x % 256]
  }

  /** `from_be_bytes` of an unsigned integer as wide as `b`. */
  function FromBigEndian(b: Bytes): (x: nat)
    ensures x < Pow256(|b|)
  {
    if b == [] then 0 else FromBigEndian(b[..|b| - 1]) * 256 + b[|b| - 1]
  }

  lemma {:induction false} BigEndianRoundTrip(x: nat, n: nat)
    ensures FromBigEndian(ToBigEndian(x, n)) == x % Pow256(n)
  {
    if n > 0 {
      var r := ToBigEndian(x, n);
      assert r[..n - 1] == ToBigEndian(x / 256, n - 1);
      BigEndianRoundTrip(x / 256, n - 1);
      ModPow256Step(x, n);
    }
  }

  lemma ModPow256Step(x: nat, n: nat)
    requires n > 0
    ensures (x / 256) % Pow256(n - 1) * 256 + x % 256 == x % Pow256(n)
  {
    var p := Pow256(n - 1);
    var q, s := x / 256, x % 256;
    var t, u := q / p, q % p;
    assert x == 256 * p * t + (256 * u + s) by {
      assert q == p * t + u;
      assert x == 256 * q + s;
    }
    assert 0 <= 256 * u + s < 256 * p;
    ModUnique(x, 256 * p, t, 256 * u + s);
  }

  lemma ModUnique(x: int, m: int, t: int, y: int)
    requires m > 0 && 0 <= y < m && x == m * t + y
    ensures x % m == y
  {
    var q, r := x / m, x % m;
    assert m * (q - t) == y - r;
    MulSign(m, q - t);
  }

  lemma MulSign(m: int, k: int)
    requires m > 0
    ensures k >= 1 ==> m * k >= m
    ensures k <= -1 ==> m * k <= -m
  {
  }

  lemma {:induction false} BigEndianBytesRoundTrip(b: Bytes)
    ensures ToBigEndian(FromBigEndian(b), |b|) == b
  {
    if b != [] {
      var init, last := b[..|b| - 1], b[|b| - 1];
      var v := FromBigEndian(b);
      assert v == FromBigEndian(init) * 256 + last;
      DivModByte(FromBigEndian(init), last);
      BigEndianBytesRoundTrip(init);
      assert ToBigEndian(v, |b|) == ToBigEndian(v / 256, |b| - 1) + [v % 256];
      assert b == init + [last];
    }
  }

  lemma DivModByte(f: nat, l: nat)
    requires l < 256
    ensures (f * 256 + l) / 256 == f && (f * 256 + l) % 256 == l
  {
  }

  /** A value below `256^n` survives the round trip unchanged. */
  lemma BigEndianRoundTripExact(x: nat, n: nat)
    requires x < Pow256(n)
    ensures FromBigEndian(ToBigEndian(x, n)) == x
  {
    BigEndianRoundTrip(x, n);
    ModUnique(x, Pow256(n), 0, x);
  }

  // ---------------------------------------------------------------- doubles

  const F64_ZERO: F64 := 0x0000_0000_0000_0000
  const F64_ONE: F64 := 0x3FF0_0000_0000_0000
  const F64_MINUS_ONE: F64 := 0xBFF0_0000_0000_0000
  /** `f64::NAN` */
  const F64_NAN: F64 := 0x7FF8_0000_0000_0000

  /** `f64::is_nan`: all eleven exponent bits set and a non-zero mantissa. */
  predicate IsNaN(x: F64) {
    (x / 0x10_0000_0000_0000) % 0x800 == 0x7FF && x % 0x10_0000_0000_0000 != 0
  }

  /** `f64::to_be_bytes` */
  function F64ToBytes(x: F64): (r: Bytes)
    ensures |r| == 8
  {
    ToBigEndian(x, 8)
  }

  /** `f64::from_be_bytes` */
  function F64FromBytes(b: Bytes): F64
    requires |b| == 8
  {
    assert Pow256(8) == 0x1_0000_0000_0000_0000;
    FromBigEndian(b)
  }

  lemma F64RoundTrip(x: F64)
    ensures F64FromBytes(F64ToBytes(x)) == x
  {
    assert Pow256(8) == 0x1_0000_0000_0000_0000;
    BigEndianRoundTripExact(x, 8);
  }

  lemma F64BytesRoundTrip(b: Bytes)
    requires |b| == 8
    ensures F64ToBytes(F64FromBytes(b)) == b
  {
    BigEndianBytesRoundTrip(b);
  }

  /** Concatenated big-endian encodings of a sequence of doubles. */
  function F64sToBytes(xs: seq<F64>): (r: Bytes)
    ensures |r| == 8 * |xs|
  {
    if xs == [] then [] else F64sToBytes(xs[..|xs| - 1]) + F64ToBytes(xs[|xs| - 1])
  }

  /** Reads a byte string as consecutive 8-byte big-endian doubles
      (`chunks(8).map(f64::from_be_bytes)`). */
  function F64sFromBytes(b: Bytes): (xs: seq<F64>)
    requires |b| % 8 == 0
    ensures |xs| == |b| / 8
  {
    if b == [] then [] else F64sFromBytes(b[..|b| - 8]) + [F64FromBytes(b[|b| - 8..])]
  }

  lemma {:induction false} F64sRoundTrip(xs: seq<F64>)
    ensures F64sFromBytes(F64sToBytes(xs)) == xs
  {
    if xs != [] {
      var init, last := xs[..|xs| - 1], xs[|xs| - 1];
      assert xs == init + [last];
      F64sToSnoc(init, last);
      WholeChunks(init);
      F64sFromSnoc(F64sToBytes(init), F64ToBytes(last));
      F64sRoundTrip(init);
      F64RoundTrip(last);
    }
  }

  lemma {:induction false} F64sBytesRoundTrip(b: Bytes)
    requires |b| % 8 == 0
    ensures F64sToBytes(F64sFromBytes(b)) == b
  {
    if b != [] {
      var front, tail := b[..|b| - 8], b[|b| - 8..];
      assert b == front + tail;
      F64sFromSnoc(front, tail);
      F64sToSnoc(F64sFromBytes(front), F64FromBytes(tail));
      F64sBytesRoundTrip(front);
      F64BytesRoundTrip(tail);
    }
  }

  lemma WholeChunks(xs: seq<F64>)
    ensures |F64sToBytes(xs)| % 8 == 0
  {
  }

  /** Encoding one double more appends its eight bytes. */
  lemma F64sToSnoc(xs: seq<F64>, x: F64)
    ensures F64sToBytes(xs + [x]) == F64sToBytes(xs) + F64ToBytes(x)
  {
    assert (xs + [x])[..|xs|] == xs;
  }

  /** Reading a chunk more gives one double more. */
  lemma F64sFromSnoc(front: Bytes, tail: Bytes)
    requires |front| % 8 == 0 && |tail| == 8
    ensures F64sFromBytes(front + tail) == F64sFromBytes(front) + [F64FromBytes(tail)]
  {
    Split(front, tail);
  }

  // ------------------------------------------------------- fixed-width ints

  /** `(n as u16).to_be_bytes()`: the cast keeps the low 16 bits. */
  function U16ToBytes(n: nat): (r: Bytes)
    ensures |r| == 2
  {
    ToBigEndian(n, 2)
  }

  lemma U16Bytes(n: nat)
    ensures U16ToBytes(n) == [(n / 256) % 256, n % 256]
  {
    assert ToBigEndian(n, 2) == ToBigEndian(n / 256, 1) + [n % 256];
    assert ToBigEndian(n / 256, 1) == ToBigEndian(n / 256 / 256, 0) + [(n / 256) % 256];
  }

  /** `u16::from_be_bytes` */
  function U16FromBytes(b: Bytes): (n: nat)
    requires |b| == 2
    ensures n < 65536
  {
    assert Pow256(2) == 65536;
    FromBigEndian(b)
  }

  lemma U16RoundTrip(n: nat)
    ensures U16FromBytes(U16ToBytes(n)) == n % 65536
  {
    assert Pow256(2) == 65536;
    BigEndianRoundTrip(n, 2);
  }

  lemma U16RoundTripExact(n: nat)
    requires n < 65536
    ensures U16FromBytes(U16ToBytes(n)) == n
  {
    assert Pow256(2) == 65536;
    BigEndianRoundTripExact(n, 2);
  }

  /** `k.to_be_bytes()` for an `i32`: two's complement, most significant byte first. */
  function I32ToBytes(k: int): (r: Bytes)
    requires -0x8000_0000 <= k < 0x8000_0000
    ensures |r| == 4
  {
    ToBigEndian(if k < 0 then k + 0x1_0000_0000 else k, 4)
  }

  /** Java's `DataInputStream.readInt`: a signed big-endian 32-bit integer. */
  function I32FromBytes(b: Bytes): (k: int)
    requires |b| == 4
    ensures -0x8000_0000 <= k < 0x8000_0000
  {
    assert Pow256(4) == 0x1_0000_0000;
    var u := FromBigEndian(b);
    if u >= 0x8000_0000 then u - 0x1_0000_0000 else u
  }

  lemma I32RoundTrip(k: int)
    requires -0x8000_0000 <= k < 0x8000_0000
    ensures I32FromBytes(I32ToBytes(k)) == k
  {
    assert Pow256(4) == 0x1_0000_0000;
    BigEndianRoundTripExact(if k < 0 then k + 0x1_0000_0000 else k, 4);
  }

  /** `n.to_be_bytes()` for a `u64`. */
  function U64ToBytes(n: nat): (r: Bytes)
    requires n < 0x1_0000_0000_0000_0000
    ensures |r| == 8
  {
    ToBigEndian(n, 8)
  }

  /** `u64::from_be_bytes` */
  function U64FromBytes(b: Bytes): (n: nat)
    requires |b| == 8
    ensures n < 0x1_0000_0000_0000_0000
  {
    assert Pow256(8) == 0x1_0000_0000_0000_0000;
    FromBigEndian(b)
  }

  lemma U64RoundTrip(n: nat)
    requires n < 0x1_0000_0000_0000_0000
    ensures U64FromBytes(U64ToBytes(n)) == n
  {
    assert Pow256(8) == 0x1_0000_0000_0000_0000;
    BigEndianRoundTripExact(n, 8);
  }

  // ------------------------------------------------------------------ UTF-8

  predicate IsContinuation(b: byte) { 0x80 <= b <= 0xBF }

  /** The length of the well-formed UTF-8 character at the start of `s`, or 0
      when `s` does not start with one (Table 3-7 of the Unicode standard,
      which is what `std::str::from_utf8` accepts). */
  function Utf8CharLength(s: Bytes): (n: nat)
    requires |s| > 0
    ensures n <= 4 && n <= |s|
  {
    var b0 := s[0];
    if b0 < 0x80 then 1
    else if 0xC2 <= b0 <= 0xDF then
      (if |s| >= 2 && IsContinuation(s[1]) then 2 else 0)
    else if b0 == 0xE0 then
      (if |s| >= 3 && 0xA0 <= s[1] <= 0xBF && IsContinuation(s[2]) then 3 else 0)
    else if (0xE1 <= b0 <= 0xEC) || (0xEE <= b0 <= 0xEF) then
      (if |s| >= 3 && IsContinuation(s[1]) && IsContinuation(s[2]) then 3 else 0)
    else if b0 == 0xED then
      (if |s| >= 3 && 0x80 <= s[1] <= 0x9F && IsContinuation(s[2]) then 3 else 0)
    else if b0 == 0xF0 then
      (if |s| >= 4 && 0x90 <= s[1] <= 0xBF && IsContinuation(s[2]) && IsContinuation(s[3]) then 4 else 0)
    else if 0xF1 <= b0 <= 0xF3 then
      (if |s| >= 4 && IsContinuation(s[1]) && IsContinuation(s[2]) && IsContinuation(s[3]) then 4 else 0)
    else if b0 == 0xF4 then
      (if |s| >= 4 && 0x80 <= s[1] <= 0x8F && IsContinuation(s[2]) && IsContinuation(s[3]) then 4 else 0)
    else 0
  }

  /** `std::str::from_utf8(s).is_ok()` */
  predicate ValidUtf8(s: Bytes)
    decreases |s|
  {
    s == [] || (Utf8CharLength(s) > 0 && ValidUtf8(s[Utf8CharLength(s)..]))
  }

  predicate IsAscii(s: Bytes) {
    forall i :: 0 <= i < |s| ==> s[i] < 0x80
  }

  lemma AsciiConcat(a: Bytes, b: Bytes)
    requires IsAscii(a) && IsAscii(b)
    ensures IsAscii(a + b)
  {
    assert forall i :: 0 <= i < |a + b| ==> (a + b)[i] == if i < |a| then a[i] else b[i - |a|];
  }

  /** The bytes of an ASCII string literal. */
  function AsciiBytes(s: string): (r: Bytes)
    requires forall i :: 0 <= i < |s| ==> s[i] < 128 as char
    ensures |r| == |s| && IsAscii(r)
    ensures forall i :: 0 <= i < |s| ==> r[i] == s[i] as int
  {
    seq(|s|, i requires 0 <= i < |s| => s[i] as int)
  }

  /** ASCII text is valid UTF-8. */
  lemma {:induction false} AsciiIsUtf8(s: Bytes)
    requires IsAscii(s)
    ensures ValidUtf8(s)
  {
    if s != [] {
      assert Utf8CharLength(s) == 1;
      assert IsAscii(s[1..]) by {
        forall i | 0 <= i < |s[1..]| ensures s[1..][i] < 0x80 {
          assert s[1..][i] == s[i + 1];
        }
      }
      AsciiIsUtf8(s[1..]);
    }
  }

  // ---------------------------------------------------------- decimal text

  predicate IsDigit(b: byte) { 0x30 <= b <= 0x39 }

  function Digit(d: nat): (b: byte)
    requires d < 10
    ensures IsDigit(b)
  {
    0x30 + d
  }

  predicate AllDigits(s: Bytes) {
    forall i :: 0 <= i < |s| ==> IsDigit(s[i])
  }

  /** The `Display` form of an unsigned integer: decimal digits, no leading zero. */
  function NatToDecimal(n: nat): (r: Bytes)
    ensures |r| >= 1 && AllDigits(r)
    ensures r[0] == 0x30 ==> n == 0
    ensures n < 10 ==> |r| == 1
    ensures 10 <= n < 100 ==> |r| == 2
    ensures 100 <= n < 1000 ==> |r| == 3
    decreases n
  {
    if n < 10 then [Digit(n)] else NatToDecimal(n / 10) + [Digit(n % 10)]
  }

  /** The number a string of decimal digits denotes. */
  function DecimalValue(s: Bytes): nat
    requires AllDigits(s)
  {
    if s == [] then 0 else DecimalValue(s[..|s| - 1]) * 10 + (s[|s| - 1] - 0x30) as nat
  }

  lemma {:induction false} DecimalRoundTrip(n: nat)
    ensures DecimalValue(NatToDecimal(n)) == n
    decreases n
  {
    if n >= 10 {
      var r := NatToDecimal(n);
      assert r[..|r| - 1] == NatToDecimal(n / 10);
      DecimalRoundTrip(n / 10);
    }
  }

  /** The number of leading decimal digits of `s`. */
  function DigitRun(s: Bytes): (k: nat)
    ensures k <= |s| && AllDigits(s[..k])
    ensures k < |s| ==> !IsDigit(s[k])
  {
    if s == [] || !IsDigit(s[0]) then 0
    else
      var k := 1 + DigitRun(s[1..]);
      assert s[..k] == [s[0]] + s[1..][..k - 1];
      k
  }

  lemma {:induction false} DigitRunOfDigits(d: Bytes, rest: Bytes)
    requires AllDigits(d)
    requires rest == [] || !IsDigit(rest[0])
    ensures DigitRun(d + rest) == |d|
  {
    if d != [] {
      assert (d + rest)[1..] == d[1..] + rest;
      DigitRunOfDigits(d[1..], rest);
    }
  }

  // ------------------------------------------------------- IPv4 addresses

  type Octet = n: nat | n < 256

  datatype Ipv4 = Ipv4(a: Octet, b: Octet, c: Octet, d: Octet)

  const DOT: byte := 0x2E
  const COLON: byte := 0x3A

  /** `Ipv4Addr::to_string`: four decimal octets joined by ".". */
  function Ipv4ToString(ip: Ipv4): (r: Bytes)
    ensures IsAscii(r) && 7 <= |r| <= 15
  {
    var s := NatToDecimal(ip.a) + [DOT] + NatToDecimal(ip.b) + [DOT] + NatToDecimal(ip.c) + [DOT] + NatToDecimal(ip.d);
    assert forall i :: 0 <= i < |s| ==> s[i] == DOT || IsDigit(s[i]);
    s
  }

  /** One octet as the standard library's address parser reads it: a maximal
      run of one to three digits, no leading zero unless the octet is "0",
      and a value of at most 255. */
  function ReadOctet(s: Bytes): Option<(Octet, Bytes)> {
    var k := DigitRun(s);
    if k == 0 || k > 3 || (s[0] == 0x30 && k > 1) then None
    else if DecimalValue(s[..k]) > 255 then None
    else Some((DecimalValue(s[..k]), s[k..]))
  }

  function ReadDotOctet(s: Bytes): Option<(Octet, Bytes)> {
    if |s| > 0 && s[0] == DOT then ReadOctet(s[1..]) else None
  }

  /** `s.parse::<Ipv4Addr>()`: four octets separated by dots and nothing
      else. Only the canonical text of an address parses. */
  function ParseIpv4(s: Bytes): (r: Option<Ipv4>)
    ensures r.Some? ==> s == Ipv4ToString(r.value)
  {
    match ReadOctet(s)
    case None => None
    case Some((a, r1)) =>
      match ReadDotOctet(r1)
      case None => None
      case Some((b, r2)) =>
        match ReadDotOctet(r2)
        case None => None
        case Some((c, r3)) =>
          match ReadDotOctet(r3)
          case None => None
          case Some((d, r4)) =>
            if r4 == [] then
              CanonicalFour(s, Ipv4(a, b, c, d), r1, r2, r3);
              Some(Ipv4(a, b, c, d))
            else None
  }

  /** Digits without a leading zero are the decimal text of their value. */
  lemma {:induction false} DecimalCanonical(s: Bytes)
    requires |s| >= 1 && AllDigits(s) && (s[0] == 0x30 ==> |s| == 1)
    ensures NatToDecimal(DecimalValue(s)) == s
    decreases |s|
  {
    var init, last := s[..|s| - 1], s[|s| - 1];
    if |s| > 1 {
      assert init[0] == s[0];
      DecimalCanonical(init);
      var f := DecimalValue(init);
      assert f != 0 by {
        assert NatToDecimal(0)[0] == 0x30 != init[0];
      }
      DivModTen(f, (last - 0x30) as nat);
      assert s == init + [last];
    }
  }

  lemma DivModTen(f: nat, l: nat)
    requires l < 10
    ensures (f * 10 + l) / 10 == f && (f * 10 + l) % 10 == l
  {
  }

  /** What `ReadOctet` accepts is the octet's decimal text. */
  lemma ReadOctetCanonical(s: Bytes, o: Octet, rest: Bytes)
    requires ReadOctet(s) == Some((o, rest))
    ensures s == NatToDecimal(o) + rest
  {
    var k := DigitRun(s);
    DecimalCanonical(s[..k]);
    assert s == s[..k] + s[k..];
  }

  lemma ReadDotOctetCanonical(s: Bytes, o: Octet, rest: Bytes)
    requires ReadDotOctet(s) == Some((o, rest))
    ensures s == [DOT] + NatToDecimal(o) + rest
  {
    ReadOctetCanonical(s[1..], o, rest);
    assert s == [DOT] + s[1..];
  }

  lemma CanonicalFour(s: Bytes, ip: Ipv4, r1: Bytes, r2: Bytes, r3: Bytes)
    requires ReadOctet(s) == Some((ip.a, r1)) && ReadDotOctet(r1) == Some((ip.b, r2))
    requires ReadDotOctet(r2) == Some((ip.c, r3)) && ReadDotOctet(r3) == Some((ip.d, []))
    ensures s == Ipv4ToString(ip)
  {
    ReadOctetCanonical(s, ip.a, r1);
    ReadDotOctetCanonical(r1, ip.b, r2);
    ReadDotOctetCanonical(r2, ip.c, r3);
    ReadDotOctetCanonical(r3, ip.d, []);
    Ipv4StringShape(ip);
  }

  lemma ReadOctetOfDecimal(o: Octet, rest: Bytes)
    requires rest == [] || !IsDigit(rest[0])
    ensures ReadOctet(NatToDecimal(o) + rest) == Some((o, rest))
  {
    var d := NatToDecimal(o);
    DigitRunOfDigits(d, rest);
    assert (d + rest)[..|d|] == d;
    assert (d + rest)[|d|..] == rest;
    DecimalRoundTrip(o);
  }

  lemma DotStep(o: Octet, d: Bytes, rest: Bytes)
    requires d == NatToDecimal(o)
    requires rest == [] || !IsDigit(rest[0])
    ensures ReadDotOctet([DOT] + d + rest) == Some((o, rest))
  {
    assert ([DOT] + d + rest)[1..] == d + rest;
    ReadOctetOfDecimal(o, rest);
  }

  lemma Ipv4StringShape(ip: Ipv4)
    ensures Ipv4ToString(ip) == NatToDecimal(ip.a) + ([DOT] + NatToDecimal(ip.b) + ([DOT] + NatToDecimal(ip.c) + ([DOT] + NatToDecimal(ip.d))))
  {
  }

  /** Parsing the text of an address gives the address back. */
  lemma Ipv4RoundTrip(ip: Ipv4)
    ensures ParseIpv4(Ipv4ToString(ip)) == Some(ip)
  {
    var da, db, dc, dd := NatToDecimal(ip.a), NatToDecimal(ip.b), NatToDecimal(ip.c), NatToDecimal(ip.d);
    var r3 := [DOT] + dd;
    var r2 := [DOT] + dc + r3;
    var r1 := [DOT] + db + r2;
    assert ReadOctet(Ipv4ToString(ip)) == Some((ip.a, r1)) by {
      Ipv4StringShape(ip);
      ReadOctetOfDecimal(ip.a, r1);
    }
    assert ReadDotOctet(r1) == Some((ip.b, r2)) by {
      DotStep(ip.b, db, r2);
    }
    assert ReadDotOctet(r2) == Some((ip.c, r3)) by {
      DotStep(ip.c, dc, r3);
    }
    assert ReadDotOctet(r3) == Some((ip.d, [])) by {
      assert dd + [] == dd;
      DotStep(ip.d, dd, []);
      assert r3 == [DOT] + dd + [];
    }
    ParsesFour(Ipv4ToString(ip), ip, r1, r2, r3);
  }

  /** Four octets read one after the other, with nothing left, parse. */
  lemma ParsesFour(s: Bytes, ip: Ipv4, r1: Bytes, r2: Bytes, r3: Bytes)
    requires ReadOctet(s) == Some((ip.a, r1)) && ReadDotOctet(r1) == Some((ip.b, r2))
    requires ReadDotOctet(r2) == Some((ip.c, r3)) && ReadDotOctet(r3) == Some((ip.d, []))
    ensures ParseIpv4(s) == Some(ip)
  {
  }

  /** The parser and the printer are inverse: a text parses to an address
      exactly when it is that address's text. */
  lemma Ipv4TextIff(s: Bytes, ip: Ipv4)
    ensures ParseIpv4(s) == Some(ip) <==> s == Ipv4ToString(ip)
  {
    if s == Ipv4ToString(ip) {
      Ipv4RoundTrip(ip);
    }
  }

  /** A socket address of the IPv4 family, the only family the system binds. */
  datatype SocketAddr = SocketAddr(ip: Ipv4, port: nat)

  /** `SocketAddr::to_string` for IPv4: "a.b.c.d:port". */
  function SocketAddrToString(addr: SocketAddr): (r: Bytes)
    ensures r == Ipv4ToString(addr.ip) + [COLON] + NatToDecimal(addr.port)
    ensures IsAscii(r)
  {
    var s := Ipv4ToString(addr.ip) + [COLON] + NatToDecimal(addr.port);
    assert forall i :: 0 <= i < |s| ==> s[i] < 0x80;
    s
  }

  /** A UDP datagram with the address it came from or is sent to. */
  datatype Datagram = Datagram(peer: SocketAddr, payload: Bytes)

  /** What `recv_from` leaves in a buffer of `size` bytes: the datagram's
      first `size` bytes, the rest being discarded. */
  function Truncated(payload: Bytes, size: nat): (r: Bytes)
    ensures |r| <= size && |r| <= |payload| && r == payload[..|r|]
    ensures |payload| <= size ==> r == payload
    ensures |payload| > size ==> |r| == size
  {
    if |payload| <= size then payload else payload[..size]
  }

  // ---------------------------------------------------------- byte streams

  /** A readable byte stream (a `TcpStream` or a file) as the bytes it will
      still deliver before its end. */
  class ByteStream {
    var remaining: Bytes

    constructor (bytes: Bytes)
      ensures remaining == bytes
    {
      remaining := bytes;
    }

    /** `read_exact` into a fresh buffer of `n` bytes. On a short stream it
        consumes everything and fails with `UnexpectedEof`. */
    method ReadExact(n: nat) returns (r: Option<Bytes>)
      modifies this
      ensures n <= |old(remaining)| ==> r == Some(old(remaining)[..n]) && remaining == old(remaining)[n..]
      ensures n > |old(remaining)| ==> r == None && remaining == []
    {
      if n <= |remaining| {
        r := Some(remaining[..n]);
        remaining := remaining[n..];
      } else {
        r := None;
        remaining := [];
      }
    }

    /** `read_exact(&mut buf[..n])`: fills the first `n` cells of `buf` in place. */
    method ReadExactInto(buf: array<byte>, n: nat) returns (ok: bool)
      requires n <= buf.Length
      modifies this, buf
      ensures ok == (n <= |old(remaining)|)
      ensures ok ==> buf[..n] == old(remaining)[..n] && remaining == old(remaining)[n..]
      ensures !ok ==> remaining == []
      ensures buf[n..] == old(buf[n..])
    {
      var src := remaining;
      ok := n <= |src|;
      var k := if ok then n else |src|;
      var i := 0;
      while i < k
        invariant 0 <= i <= k
        invariant forall j :: 0 <= j < i ==> buf[j] == src[j]
        invariant forall j :: k <= j < buf.Length ==> buf[j] == old(buf[j])
      {
        buf[i] := src[i];
        i := i + 1;
      }
      assert buf[..k] == src[..k];
      remaining := if ok then src[n..] else [];
    }
  }

  /** A writable byte stream (`stderr`, a `TcpStream`) as everything written to it so far. */
  class ByteSink {
    var written: Bytes

    constructor ()
      ensures written == []
    {
      written := [];
    }

    /** `write_all` */
    method WriteAll(bytes: Bytes)
      modifies this
      ensures written == old(written) + bytes
    {
      written := written + bytes;
    }

    /** tokio's `AsyncWriteExt::write_i32`: big-endian. */
    method WriteI32(k: int)
      requires -0x8000_0000 <= k < 0x8000_0000
      modifies this
      ensures written == old(written) + I32ToBytes(k)
    {
      written := written + I32ToBytes(k);
    }

    /** `write_u16` of a value cast with `as u16`. */
    method WriteU16(n: nat)
      modifies this
      ensures written == old(written) + U16ToBytes(n)
    {
      written := written + U16ToBytes(n);
    }

    /** `write_f64`: big-endian. */
    method WriteF64(x: F64)
      modifies this
      ensures written == old(written) + F64ToBytes(x)
    {
      written := written + F64ToBytes(x);
    }
  }
}

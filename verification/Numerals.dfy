/** Positional numerals, as written by strconv.FormatUint / Itoa and read by strconv.ParseUint / ParseInt. */
module Numerals {
  import opened Common

  function DigitChar(d: nat): char
    requires d < 16
  {
    if d < 10 then '0' + d as char else 'a' + (d - 10) as char
  }

  /** Letters of either case are digits from ten upwards. */
  function DigitValue(c: char): Option<nat> {
    if '0' <= c <= '9' then Some((c - '0') as nat)
    else if 'a' <= c <= 'z' then Some((c - 'a') as nat + 10)
    else if 'A' <= c <= 'Z' then Some((c - 'A') as nat + 10)
    else None
  }

  function Format(n: nat, base: nat): (s: string)
    requires 2 <= base <= 16
    ensures |s| >= 1
  {
    if n < base then [DigitChar(n)] else Format(n / base, base) + [DigitChar(n % base)]
  }

  /** The value of a digit string, None when some character is not a digit of the base. */
  function Value(s: string, base: nat): Option<nat>
    requires 2 <= base <= 16
  {
    if s == [] then Some(0)
    else match (Value(s[..|s| - 1], base), DigitValue(s[|s| - 1]))
      case (Some(v), Some(d)) => if d < base then Some(v * base + d) else None
      case _ => None
  }

  function ParseUint(s: string, base: nat): Option<nat>
    requires 2 <= base <= 16
  {
    if s == [] then None
    else match Value(s, base)
      case Some(v) => if v < U64 then Some(v) else None
      case None => None
  }

  function ParseInt(s: string): Option<int> {
    if s == [] then None
    else
      var negative := s[0] == '-';
      var digits := if s[0] == '-' || s[0] == '+' then s[1..] else s;
      match ParseUint(digits, 10)
      case None => None
      case Some(v) =>
        if negative then (if v <= U64 / 2 then Some(0 - v as int) else None)
        else if v < U64 / 2 then Some(v) else None
  }

  function Itoa(i: int): string {
    if i < 0 then "-" + Format(-i, 10) else Format(i, 10)
  }

  /** util.go parseUint64: an identifier written either as an unsigned or as a signed 64-bit decimal. */
  function ParseId(s: string): Option<nat> {
    if s != [] && s[0] == '-' then
      match ParseInt(s)
      case None => None
      case Some(i) => Some(if i < 0 then i + U64 else i)
    else ParseUint(s, 10)
  }

  function Zeros(n: nat): (s: string)
    ensures |s| == n
  {
    seq(n, i => '0')
  }

  /** Hexadecimal, left-padded with zeros to the given width. */
  function Hex(n: nat, width: nat): string {
    var s := Format(n, 16);
    if |s| < width then Zeros(width - |s|) + s else s
  }

  /** A printable character that is neither a sign nor a separator. */
  predicate Plain(c: char) {
    32 < c as int < 127 && c != '-' && c != '+' && c != ',' && c != '='
  }

  lemma DigitRoundTrip(d: nat)
    requires d < 16
    ensures DigitValue(DigitChar(d)) == Some(d)
    ensures Plain(DigitChar(d))
  {}

  lemma ValueSnoc(s: string, d: nat, base: nat)
    requires 2 <= base <= 16 && d < base && Value(s, base).Some?
    ensures Value(s + [DigitChar(d)], base) == Some(Value(s, base).value * base + d)
  {
    DigitRoundTrip(d);
    assert (s + [DigitChar(d)])[..|s|] == s;
  }

  lemma Recompose(n: nat, base: nat)
    requires 2 <= base <= 16 && n >= base
    ensures 0 <= n / base < n && 0 <= n % base < base && n / base * base + n % base == n
  {}

  lemma {:induction false} FormatValue(n: nat, base: nat)
    requires 2 <= base <= 16
    ensures Value(Format(n, base), base) == Some(n)
  {
    if n < base {
      assert Value([], base) == Some(0);
      ValueSnoc([], n, base);
      assert [] + [DigitChar(n)] == Format(n, base);
    } else {
      var q, d := n / base, n % base;
      Recompose(n, base);
      FormatValue(q, base);
      ValueSnoc(Format(q, base), d, base);
      assert Format(n, base) == Format(q, base) + [DigitChar(d)];
    }
  }

  lemma {:induction false} FormatPlain(n: nat, base: nat)
    requires 2 <= base <= 16
    ensures forall c :: c in Format(n, base) ==> Plain(c)
  {
    if n < base {
      DigitRoundTrip(n);
    } else {
      FormatPlain(n / base, base);
      DigitRoundTrip(n % base);
    }
  }

  /** Digits are written from the most significant on, and letters in lower case. */
  lemma {:induction false} FormatDigits(n: nat, base: nat)
    requires 2 <= base <= 16
    ensures forall c :: c in Format(n, base) ==> '0' <= c <= '9' || 'a' <= c <= 'f'
    ensures n > 0 ==> Format(n, base)[0] != '0'
  {
    if n >= base {
      Recompose(n, base);
      FormatDigits(n / base, base);
      assert n / base > 0;
    }
  }

  lemma ParseUintFormat(n: nat, base: nat)
    requires 2 <= base <= 16 && n < U64
    ensures ParseUint(Format(n, base), base) == Some(n)
  {
    FormatValue(n, base);
  }

  lemma ParseIntDigits(s: string, v: nat)
    requires s != [] && s[0] != '-' && s[0] != '+' && ParseUint(s, 10) == Some(v)
    ensures v < U64 / 2 ==> ParseInt(s) == Some(v)
    ensures v <= U64 / 2 ==> ParseInt("-" + s) == Some(0 - v as int)
  {
    assert ("-" + s)[1..] == s;
  }

  /** Every integer of 64 bits survives printing and parsing. */
  lemma ParseIntItoa(i: int)
    requires -(U64 / 2) <= i < U64 / 2
    ensures ParseInt(Itoa(i)) == Some(i)
  {
    var v: nat := if i < 0 then -i else i;
    var s := Format(v, 10);
    ParseUintFormat(v, 10);
    FormatPlain(v, 10);
    assert s[0] in s;
    ParseIntDigits(s, v);
  }

  function Signed(u: nat): int
    requires u < U64
  {
    if u < U64 / 2 then u else u - U64
  }

  /** parseUint64 reads an identifier back from both of its decimal spellings. */
  lemma IdRoundTrip(u: nat)
    requires u < U64
    ensures ParseId(Format(u, 10)) == Some(u)
    ensures ParseId(Itoa(Signed(u))) == Some(u)
  {
    hide Format, ParseUint, ParseInt, Itoa;
    var i := Signed(u);
    ParseUintFormat(u, 10);
    ParseIntItoa(i);
    FormatStarts(u);
    ItoaStarts(i);
  }

  lemma FormatStarts(n: nat)
    ensures Format(n, 10)[0] != '-' && Format(n, 10)[0] != '+'
  {
    hide Format;
    FormatPlain(n, 10);
    assert Format(n, 10)[0] in Format(n, 10);
  }

  lemma ItoaStarts(i: int)
    ensures Itoa(i) != "" && (Itoa(i)[0] == '-' <==> i < 0)
    ensures i >= 0 ==> Itoa(i) == Format(i, 10)
  {
    hide Format;
    if i >= 0 {
      FormatStarts(i);
    }
  }

  lemma {:induction false} ZerosValue(k: nat, s: string, base: nat)
    requires 2 <= base <= 16
    ensures Value(Zeros(k) + s, base) == Value(s, base)
    decreases k + |s|
  {
    var t := Zeros(k) + s;
    if s != [] {
      assert t[..|t| - 1] == Zeros(k) + s[..|s| - 1];
      ZerosValue(k, s[..|s| - 1], base);
    } else if k > 0 {
      assert t[..|t| - 1] == Zeros(k - 1) + [];
      ZerosValue(k - 1, [], base);
    }
  }

  lemma {:induction false} FormatLength(n: nat, width: nat, bound: nat)
    requires width >= 1 && n < bound && bound == Pow16(width)
    ensures |Format(n, 16)| <= width
    decreases width
  {
    if n >= 16 {
      FormatLength(n / 16, width - 1, bound / 16);
    }
  }

  function Pow16(k: nat): nat { if k == 0 then 1 else 16 * Pow16(k - 1) }

  lemma Pow16Word()
    ensures Pow16(16) == U64
  {
    assert Pow16(4) == 0x1_0000;
    assert Pow16(8) == 0x1_0000_0000;
    assert Pow16(12) == 0x1_0000_0000_0000;
  }

  /** The padded form of a 64-bit number has exactly the requested width (at least 16) and reads back. */
  lemma HexRoundTrip(n: nat, width: nat)
    requires n < U64 && width >= 16
    ensures |Hex(n, width)| == width
    ensures ParseUint(Hex(n, width), 16) == Some(n)
    ensures forall c :: c in Hex(n, width) ==> Plain(c)
  {
    Pow16Word();
    FormatLength(n, 16, U64);
    FormatValue(n, 16);
    FormatPlain(n, 16);
    ZerosValue(width - |Format(n, 16)|, Format(n, 16), 16);
  }
}

/**
 The MessagePack formats used by the generated span encoder and decoder: nil, the array,
 map, str and int format families and float 64, as prefix-free byte strings.
 */
module Msgpack {
  import opened Common

  type Byte = b: int | 0 <= b < 256
  type Bytes = seq<Byte>

  const ARRAY_FIX: int := 144
  const ARRAY_16: int := 0xdc
  const ARRAY_32: int := 0xdd

  datatype Token =
    | Nil
    | Array(n: nat)
    | Map(n: nat)
    | Str(s: Bytes)
    | Int(v: int)     // written by WriteInt64, read by every integer reader
    | Uint(v: int)    // written by WriteUint64
    | Float(bits: nat)

  predicate Valid(t: Token) {
    match t
    case Nil => true
    case Array(n) => n < U32
    case Map(n) => n < U32
    case Str(s) => |s| < U32
    case Int(v) => -(U64 / 2) <= v < U64 / 2
    case Uint(v) => 0 <= v < U64
    case Float(bits) => bits < U64
  }

  /** What the reader makes of it: the sign of the writer's type is not recorded. */
  function Normal(t: Token): Token {
    if t.Uint? then Int(t.v) else t
  }

  // ---------- Big-endian numbers ----------

  function Pow256(n: nat): nat { if n == 0 then 1 else 256 * Pow256(n - 1) }

  function BigEndian(v: nat, n: nat): (b: Bytes)
    ensures |b| == n
  {
    if n == 0 then [] else BigEndian(v / 256, n - 1) + [v % 256]
  }

  function Number(b: Bytes): nat {
    if b == [] then 0 else Number(b[..|b| - 1]) * 256 + b[|b| - 1]
  }

  lemma {:induction false} BigEndianRoundTrip(v: nat, n: nat)
    requires v < Pow256(n)
    ensures Number(BigEndian(v, n)) == v
  {
    if n > 0 {
      BigEndianRoundTrip(v / 256, n - 1);
      assert BigEndian(v, n)[..n - 1] == BigEndian(v / 256, n - 1);
    }
  }

  lemma Powers()
    ensures Pow256(1) == 0x100 && Pow256(2) == 0x1_0000 && Pow256(4) == U32 && Pow256(8) == U64
  {
    assert Pow256(3) == 0x100_0000;
    assert Pow256(6) == 0x1_0000_0000_0000;
  }

  /** Two's complement of v in n bytes. */
  function Wrap(v: int, n: nat): nat
    requires 0 <= v + Pow256(n)
  {
    if v < 0 then v + Pow256(n) else v
  }

  function Unwrap(u: nat, n: nat): int {
    if 2 * u < Pow256(n) then u else u - Pow256(n)
  }

  // ---------- Writing ----------

  function WriteArrayHeader(n: nat): Bytes {
    if n <= 15 then [ARRAY_FIX + n]
    else if n < 0x1_0000 then [ARRAY_16] + BigEndian(n, 2)
    else [ARRAY_32] + BigEndian(n, 4)
  }

  function WriteMapHeader(n: nat): Bytes {
    if n <= 15 then [0x80 + n]
    else if n < 0x1_0000 then [0xde] + BigEndian(n, 2)
    else [0xdf] + BigEndian(n, 4)
  }

  function WriteString(s: Bytes): Bytes {
    if |s| <= 31 then [0xa0 + |s|] + s
    else if |s| < 0x100 then [0xd9] + BigEndian(|s|, 1) + s
    else if |s| < 0x1_0000 then [0xda] + BigEndian(|s|, 2) + s
    else [0xdb] + BigEndian(|s|, 4) + s
  }

  function WriteInt(v: int): Bytes
    requires -(U64 / 2) <= v < U64 / 2
  {
    Powers();
    if 0 <= v <= 127 then [v]
    else if -32 <= v < 0 then [256 + v]
    else if -128 <= v < 0 then [0xd0] + BigEndian(Wrap(v, 1), 1)
    else if -0x8000 <= v < 0x8000 then [0xd1] + BigEndian(Wrap(v, 2), 2)
    else if -0x8000_0000 <= v < 0x8000_0000 then [0xd2] + BigEndian(Wrap(v, 4), 4)
    else [0xd3] + BigEndian(Wrap(v, 8), 8)
  }

  function WriteUint(v: nat): Bytes {
    if v <= 127 then [v]
    else if v < 0x100 then [0xcc] + BigEndian(v, 1)
    else if v < 0x1_0000 then [0xcd] + BigEndian(v, 2)
    else if v < U32 then [0xce] + BigEndian(v, 4)
    else [0xcf] + BigEndian(v, 8)
  }

  function Write(t: Token): (b: Bytes)
    requires Valid(t)
    ensures |b| > 0
  {
    match t
    case Nil => [0xc0]
    case Array(n) => WriteArrayHeader(n)
    case Map(n) => WriteMapHeader(n)
    case Str(s) => WriteString(s)
    case Int(v) => WriteInt(v)
    case Uint(v) => WriteUint(v)
    case Float(bits) => [0xcb] + BigEndian(bits, 8)
  }

  /** The first byte of every format, as the "formats" table of the MessagePack specification gives it. */
  lemma FormatBytes(t: Token)
    requires Valid(t)
    ensures var lead := Write(t)[0];
      match t
      case Nil => Write(t) == [0xc0]
      case Array(n) => lead == if n <= 15 then 0x90 + n else if n <= 0xffff then 0xdc else 0xdd
      case Map(n) => lead == if n <= 15 then 0x80 + n else if n <= 0xffff then 0xde else 0xdf
      case Str(s) => lead == if |s| <= 31 then 0xa0 + |s| else if |s| <= 0xff then 0xd9 else if |s| <= 0xffff then 0xda else 0xdb
      case Int(v) => 0 <= v <= 127 ==> Write(t) == [v]
      case Uint(v) => lead == if v <= 127 then v else if v <= 0xff then 0xcc else if v <= 0xffff then 0xcd
                              else if v <= 0xffff_ffff then 0xce else 0xcf
      case Float(_) => lead == 0xcb
  {
    hide BigEndian;
  }

  // ---------- Reading ----------

  /** A token and the bytes after it. */
  datatype Reading = Failed | Read(token: Token, rest: Bytes)

  /** What an unsigned number in the stream stands for. */
  datatype Kind = AsInt | AsFloat | AsArray | AsMap {
    function Make(n: nat): Token {
      match this
      case AsInt => Int(n)
      case AsFloat => Float(n)
      case AsArray => Array(n)
      case AsMap => Map(n)
    }
  }

  function ReadNumber(b: Bytes, n: nat, kind: Kind): (r: Reading)
    ensures r.Read? ==> |r.rest| <= |b|
  {
    if |b| < n then Failed else Read(kind.Make(Number(b[..n])), b[n..])
  }

  function ReadStr(b: Bytes, width: nat): (r: Reading)
    ensures r.Read? ==> |r.rest| <= |b|
  {
    if |b| < width then Failed
    else
      var n := Number(b[..width]);
      if |b| < width + n then Failed else Read(Str(b[width..width + n]), b[width + n..])
  }

  function ReadSigned(b: Bytes, n: nat): (r: Reading)
    ensures r.Read? ==> |r.rest| <= |b|
  {
    if |b| < n then Failed else Read(Int(Unwrap(Number(b[..n]), n)), b[n..])
  }

  function ReadToken(b: Bytes): (r: Reading)
    ensures r.Read? ==> |r.rest| < |b|
  {
    if b == [] then Failed
    else
      var lead: int := b[0];
      var tail := b[1..];
      if lead < 0x80 then Read(Int(lead), tail)
      else if lead < 0x90 then Read(Map(lead - 0x80), tail)
      else if lead < 0xa0 then Read(Array(lead - 0x90), tail)
      else if lead < 0xc0 then
        (if |tail| < lead - 0xa0 then Failed else Read(Str(tail[..lead - 0xa0]), tail[lead - 0xa0..]))
      else if lead >= 0xe0 then Read(Int(lead - 256), tail)
      else if lead == 0xc0 then Read(Nil, tail)
      else if lead == 0xcb then ReadNumber(tail, 8, AsFloat)
      else if lead == 0xcc then ReadNumber(tail, 1, AsInt)
      else if lead == 0xcd then ReadNumber(tail, 2, AsInt)
      else if lead == 0xce then ReadNumber(tail, 4, AsInt)
      else if lead == 0xcf then ReadNumber(tail, 8, AsInt)
      else if lead == 0xd0 then ReadSigned(tail, 1)
      else if lead == 0xd1 then ReadSigned(tail, 2)
      else if lead == 0xd2 then ReadSigned(tail, 4)
      else if lead == 0xd3 then ReadSigned(tail, 8)
      else if lead == 0xd9 then ReadStr(tail, 1)
      else if lead == 0xda then ReadStr(tail, 2)
      else if lead == 0xdb then ReadStr(tail, 4)
      else if lead == 0xdc then ReadNumber(tail, 2, AsArray)
      else if lead == 0xdd then ReadNumber(tail, 4, AsArray)
      else if lead == 0xde then ReadNumber(tail, 2, AsMap)
      else if lead == 0xdf then ReadNumber(tail, 4, AsMap)
      else Failed
  }

  lemma ReadNumberBack(v: nat, n: nat, kind: Kind, rest: Bytes)
    requires v < Pow256(n)
    ensures ReadNumber(BigEndian(v, n) + rest, n, kind) == Read(kind.Make(v), rest)
  {
    BigEndianRoundTrip(v, n);
    assert (BigEndian(v, n) + rest)[..n] == BigEndian(v, n);
    assert (BigEndian(v, n) + rest)[n..] == rest;
  }

  lemma ReadSignedBack(v: int, n: nat, rest: Bytes)
    requires n >= 1 && 0 <= 2 * v + Pow256(n) < 2 * Pow256(n)
    ensures ReadSigned(BigEndian(Wrap(v, n), n) + rest, n) == Read(Int(v), rest)
  {
    var u := Wrap(v, n);
    BigEndianRoundTrip(u, n);
    assert (BigEndian(u, n) + rest)[..n] == BigEndian(u, n);
    assert (BigEndian(u, n) + rest)[n..] == rest;
  }

  lemma ReadStrBack(s: Bytes, width: nat, rest: Bytes)
    requires |s| < Pow256(width)
    ensures ReadStr(BigEndian(|s|, width) + s + rest, width) == Read(Str(s), rest)
  {
    var b := BigEndian(|s|, width) + s + rest;
    BigEndianRoundTrip(|s|, width);
    assert b[..width] == BigEndian(|s|, width);
    assert b[width..width + |s|] == s && b[width + |s|..] == rest;
  }

  lemma LeadAndTail(lead: Byte, body: Bytes, rest: Bytes)
    ensures ([lead] + body + rest)[0] == lead && ([lead] + body + rest)[1..] == body + rest
  {}

  lemma ReadStringBack(s: Bytes, rest: Bytes)
    requires |s| < U32
    ensures ReadToken(WriteString(s) + rest) == Read(Str(s), rest)
  {
    hide BigEndian, Number, Pow256;
    Powers();
    if |s| <= 31 {
      LeadAndTail(0xa0 + |s|, s, rest);
      assert (s + rest)[..|s|] == s && (s + rest)[|s|..] == rest;
    } else {
      var width := if |s| < 0x100 then 1 else if |s| < 0x1_0000 then 2 else 4;
      var lead: Byte := if |s| < 0x100 then 0xd9 else if |s| < 0x1_0000 then 0xda else 0xdb;
      assert WriteString(s) == [lead] + (BigEndian(|s|, width) + s);
      LeadAndTail(lead, BigEndian(|s|, width) + s, rest);
      ReadStrBack(s, width, rest);
    }
  }

  lemma ReadIntBack(v: int, rest: Bytes)
    requires -(U64 / 2) <= v < U64 / 2
    ensures ReadToken(WriteInt(v) + rest) == Read(Int(v), rest)
  {
    hide BigEndian, Number, Pow256, Wrap;
    Powers();
    if -32 <= v <= 127 {
      assert (WriteInt(v) + rest)[1..] == rest;
    } else {
      var n := if -128 <= v < 0 then 1 else if -0x8000 <= v < 0x8000 then 2
               else if -0x8000_0000 <= v < 0x8000_0000 then 4 else 8;
      var lead: Byte := if n == 1 then 0xd0 else if n == 2 then 0xd1 else if n == 4 then 0xd2 else 0xd3;
      LeadAndTail(lead, BigEndian(Wrap(v, n), n), rest);
      ReadSignedBack(v, n, rest);
    }
  }

  lemma ReadUintBack(v: nat, rest: Bytes)
    requires v < U64
    ensures ReadToken(WriteUint(v) + rest) == Read(Int(v), rest)
  {
    hide BigEndian, Number, Pow256;
    Powers();
    if v <= 127 {
      assert (WriteUint(v) + rest)[1..] == rest;
    } else {
      var n := if v < 0x100 then 1 else if v < 0x1_0000 then 2 else if v < U32 then 4 else 8;
      var lead: Byte := if n == 1 then 0xcc else if n == 2 then 0xcd else if n == 4 then 0xce else 0xcf;
      LeadAndTail(lead, BigEndian(v, n), rest);
      ReadNumberBack(v, n, AsInt, rest);
    }
  }

  lemma ReadHeaderBack(t: Token, rest: Bytes)
    requires (t.Array? || t.Map?) && Valid(t)
    ensures ReadToken(Write(t) + rest) == Read(t, rest)
  {
    hide BigEndian, Number, Pow256;
    Powers();
    var n := t.n;
    if n <= 15 {
      assert (Write(t) + rest)[1..] == rest;
    } else {
      var width := if n < 0x1_0000 then 2 else 4;
      var lead: Byte := if t.Array? then (if width == 2 then 0xdc else 0xdd) else (if width == 2 then 0xde else 0xdf);
      LeadAndTail(lead, BigEndian(n, width), rest);
      if t.Array? { ReadNumberBack(n, width, AsArray, rest); } else { ReadNumberBack(n, width, AsMap, rest); }
    }
  }

  /** Every token is read back from any stream that starts with its bytes. */
  lemma ReadBack(t: Token, rest: Bytes)
    requires Valid(t)
    ensures ReadToken(Write(t) + rest) == Read(Normal(t), rest)
  {
    hide ReadToken, WriteString, WriteInt, WriteUint, WriteArrayHeader, WriteMapHeader, BigEndian, Pow256;
    match t
    case Nil => ReadPlainBack(t, rest);
    case Float(bits) => ReadPlainBack(t, rest);
    case Str(s) => ReadStringBack(s, rest);
    case Int(v) => ReadIntBack(v, rest);
    case Uint(v) => ReadUintBack(v, rest);
    case _ => ReadHeaderBack(t, rest);
  }

  lemma ReadPlainBack(t: Token, rest: Bytes)
    requires (t.Nil? || t.Float?) && Valid(t)
    ensures ReadToken(Write(t) + rest) == Read(t, rest)
  {
    hide BigEndian, Number, Pow256;
    Powers();
    if t.Nil? {
      assert (Write(t) + rest)[1..] == rest;
    } else {
      LeadAndTail(0xcb, BigEndian(t.bits, 8), rest);
      ReadNumberBack(t.bits, 8, AsFloat, rest);
    }
  }

  // ---------- Streams ----------

  predicate AllValid(ts: seq<Token>) { forall i :: 0 <= i < |ts| ==> Valid(ts[i]) }

  function WriteAll(ts: seq<Token>): Bytes
    requires AllValid(ts)
  {
    if ts == [] then [] else Write(ts[0]) + WriteAll(ts[1..])
  }

  /** The tokens of a whole stream. */
  function Tokenize(b: Bytes): Option<seq<Token>>
    decreases |b|
  {
    if b == [] then Some([])
    else match ReadToken(b)
      case Failed => None
      case Read(t, rest) =>
        match Tokenize(rest)
        case None => None
        case Some(ts) => Some([t] + ts)
  }

  function NormalAll(ts: seq<Token>): seq<Token> {
    seq(|ts|, i requires 0 <= i < |ts| => Normal(ts[i]))
  }

  lemma {:induction false} TokenizeBack(ts: seq<Token>)
    requires AllValid(ts)
    ensures Tokenize(WriteAll(ts)) == Some(NormalAll(ts))
  {
    hide ReadToken, Write;
    if ts == [] {
      assert NormalAll(ts) == [];
    } else {
      TokenizeBack(ts[1..]);
      ReadBack(ts[0], WriteAll(ts[1..]));
      assert [Normal(ts[0])] + NormalAll(ts[1..]) == NormalAll(ts);
    }
  }

  lemma {:induction false} WriteAllAppend(xs: seq<Token>, ys: seq<Token>)
    requires AllValid(xs) && AllValid(ys)
    ensures AllValid(xs + ys) && WriteAll(xs + ys) == WriteAll(xs) + WriteAll(ys)
  {
    hide Write, Valid;
    if xs == [] {
      assert xs + ys == ys;
    } else {
      assert (xs + ys)[1..] == xs[1..] + ys;
      WriteAllAppend(xs[1..], ys);
    }
  }
}

/**
 * The byte stream a fingerprinter feeds to its hash: type tags closed by a semicolon, little-endian integers and
 * length-prefixed payloads. The hash itself is not modelled; what is shown is that the stream determines the writes.
 */
module Fingerprint {
  import opened Prelude

  type Bytes = seq<Byte>

  type U64 = n: int | 0 <= n < 0x1_0000_0000_0000_0000

  type I64 = n: int | -0x8000_0000_0000_0000 <= n < 0x8000_0000_0000_0000

  /** A fingerprint being written: 16 bytes. */
  type Print = b: Bytes | |b| == 16 witness seq(16, _ => 0)

  const TWO32: int := 0x1_0000_0000
  const TWO64: int := 0x1_0000_0000_0000_0000

  /** One call of a `write_*` method; strings stand for their UTF-8 bytes. */
  datatype Write =
    | Str(text: Bytes)
    | Raw(bytes: Bytes)
    | Usize(size: U64)
    | Unsigned(u: U64)
    | Signed(i: I64)
    | Bool(b: bool)
    | NoStr
    | SomeStr(some: Bytes)
    | Nested(fp: Print)

  // ----- Encoding -----

  const SEMI: Byte := 59

  const TAG_STR: Bytes := [115, SEMI]              // s;
  const TAG_BYTES: Bytes := [98, SEMI]             // b;
  const TAG_USIZE: Bytes := [117, SEMI]            // u;
  const TAG_U64: Bytes := [117, 56, SEMI]          // u8;
  const TAG_I64: Bytes := [105, 56, SEMI]          // i8;
  const TAG_TRUE: Bytes := [116, SEMI]             // t;
  const TAG_FALSE: Bytes := [102, SEMI]            // f;
  const TAG_SOME: Bytes := [115, 111, 109, 101, SEMI]  // some;
  const TAG_NONE: Bytes := [110, 111, 110, 101, SEMI]  // none;
  const TAG_PRINT: Bytes := [102, 112, SEMI]       // fp;

  /** `n.to_le_bytes()` truncated to `k` bytes. */
  function LittleEndian(n: nat, k: nat): (r: Bytes)
    ensures |r| == k
  {
    if k == 0 then [] else [n % 256] + LittleEndian(n / 256, k - 1)
  }

  function FromLittleEndian(b: Bytes): nat {
    if b == [] then 0 else b[0] + 256 * FromLittleEndian(b[1..])
  }

  /** Two's complement: the 64-bit pattern of a signed number. */
  function ToPattern(i: I64): U64 {
    if i < 0 then i + TWO64 else i
  }

  function FromPattern(u: U64): I64 {
    if u < 0x8000_0000_0000_0000 then u else u - TWO64
  }

  /** `(len as u32).to_le_bytes()` and the payload: the length is truncated to 32 bits. */
  function VarLen(b: Bytes): Bytes {
    LittleEndian(|b| % TWO32, 4) + b
  }

  function EncodeOne(w: Write): (r: Bytes)
    ensures r != []
  {
    match w
    case Str(s) => TAG_STR + VarLen(s)
    case Raw(b) => TAG_BYTES + VarLen(b)
    case Usize(n) => TAG_USIZE + LittleEndian(n, 8)
    case Unsigned(n) => TAG_U64 + LittleEndian(n, 8)
    case Signed(n) => TAG_I64 + LittleEndian(ToPattern(n), 8)
    case Bool(b) => if b then TAG_TRUE else TAG_FALSE
    case NoStr => TAG_NONE
    case SomeStr(s) => TAG_SOME + (TAG_STR + VarLen(s))
    case Nested(p) => TAG_PRINT + p
  }

  function Encode(ws: seq<Write>): Bytes {
    if ws == [] then [] else EncodeOne(ws[0]) + Encode(ws[1..])
  }

  /** The four bytes of a number, the lowest first. */
  lemma LittleEndian4(n: nat)
    ensures LittleEndian(n, 4) == [n % 256, n / 256 % 256, n / 0x1_0000 % 256, n / 0x100_0000 % 256]
  {
    LowestBytes(n, 2);
    LowestBytes(n / 0x1_0000, 0);
    assert n / 0x1_0000 / 256 == n / 0x100_0000;
  }

  lemma LowestBytes(n: nat, k: nat)
    ensures LittleEndian(n, k + 2) == [n % 256, n / 256 % 256] + LittleEndian(n / 0x1_0000, k)
  {
    hide LittleEndian;
    LowestByte(n, k + 1);
    LowestByte(n / 256, k);
    assert n / 256 / 256 == n / 0x1_0000;
  }

  lemma LowestByte(n: nat, k: nat)
    ensures LittleEndian(n, k + 1) == [n % 256] + LittleEndian(n / 256, k)
  {
  }

  /** Eight bytes are the lower four and the upper four. */
  lemma LittleEndian8(n: nat)
    ensures LittleEndian(n, 8) == LittleEndian(n, 4) + LittleEndian(n / TWO32, 4)
  {
    hide LittleEndian;
    LowestBytes(n, 6);
    LowestBytes(n / 0x1_0000, 4);
    LowestBytes(n, 2);
    LowestBytes(n / 0x1_0000, 0);
    assert n / 0x1_0000 / 0x1_0000 == n / TWO32;
    assert LittleEndian(n / TWO32, 0) == [];
  }

  /** What each kind of write puts into the stream, byte by byte. */
  ghost predicate LaidOut(w: Write, b: Bytes) {
    match w
    case Str(s) => b == [115, 59] + LittleEndian(|s| % 0x1_0000_0000, 4) + s
    case Raw(s) => b == [98, 59] + LittleEndian(|s| % 0x1_0000_0000, 4) + s
    case Usize(n) => b == [117, 59] + LittleEndian(n, 8)
    case Unsigned(n) => b == [117, 56, 59] + LittleEndian(n, 8)
    case Signed(n) => b == [105, 56, 59] + LittleEndian(if n < 0 then 0x1_0000_0000_0000_0000 + n else n, 8)
    case Bool(x) => b == [if x then 116 else 102, 59]
    case NoStr => b == [110, 111, 110, 101, 59]
    case SomeStr(s) => b == [115, 111, 109, 101, 59, 115, 59] + LittleEndian(|s| % 0x1_0000_0000, 4) + s
    case Nested(p) => b == [102, 112, 59] + p
  }

  lemma EncodingLaidOut(w: Write)
    ensures LaidOut(w, EncodeOne(w))
  {
    hide LittleEndian;
  }

  lemma {:induction false} EncodeConcat(xs: seq<Write>, ys: seq<Write>)
    ensures Encode(xs + ys) == Encode(xs) + Encode(ys)
  {
    if xs == [] {
      assert xs + ys == ys;
    } else {
      assert (xs + ys)[1..] == xs[1..] + ys;
      EncodeConcat(xs[1..], ys);
    }
  }

  /** The hasher state is the stream written so far. */
  class Fingerprinter {
    var stream: Bytes

    constructor ()
      ensures stream == []
    {
      stream := [];
    }

    method WriteTypeTag(tag: Bytes)
      modifies this
      ensures stream == old(stream) + tag + [SEMI]
    {
      stream := stream + tag;
      stream := stream + [SEMI];
    }

    method WriteVarlenBytes(bytes: Bytes)
      modifies this
      ensures stream == old(stream) + VarLen(bytes)
    {
      stream := stream + LittleEndian(|bytes| % TWO32, 4);
      stream := stream + bytes;
    }

    method WriteStr(s: Bytes)
      modifies this
      ensures stream == old(stream) + EncodeOne(Str(s))
    {
      hide VarLen;
      WriteTypeTag([115]);
      WriteVarlenBytes(s);
    }

    method WriteBytes(bytes: Bytes)
      modifies this
      ensures stream == old(stream) + EncodeOne(Raw(bytes))
    {
      hide VarLen;
      WriteTypeTag([98]);
      WriteVarlenBytes(bytes);
    }

    method WriteUsize(n: U64)
      modifies this
      ensures stream == old(stream) + EncodeOne(Usize(n))
    {
      WriteTypeTag([117]);
      stream := stream + LittleEndian(n, 8);
    }

    method WriteU64(n: U64)
      modifies this
      ensures stream == old(stream) + EncodeOne(Unsigned(n))
    {
      WriteTypeTag([117, 56]);
      stream := stream + LittleEndian(n, 8);
    }

    method WriteI64(n: I64)
      modifies this
      ensures stream == old(stream) + EncodeOne(Signed(n))
    {
      WriteTypeTag([105, 56]);
      stream := stream + LittleEndian(ToPattern(n), 8);
    }

    method WriteBool(b: bool)
      modifies this
      ensures stream == old(stream) + EncodeOne(Bool(b))
    {
      WriteTypeTag(if b then [116] else [102]);
    }

    method WriteOptionStr(opt: Option<Bytes>)
      modifies this
      ensures stream == old(stream) + EncodeOne(if opt.Some? then SomeStr(opt.value) else NoStr)
    {
      hide VarLen;
      match opt {
        case Some(s) =>
          WriteTypeTag([115, 111, 109, 101]);
          WriteStr(s);
          Concat3(old(stream), TAG_SOME, EncodeOne(Str(s)));
        case None =>
          WriteTypeTag([110, 111, 110, 101]);
      }
    }

    method WriteFingerprint(p: Print)
      modifies this
      ensures stream == old(stream) + EncodeOne(Nested(p))
    {
      WriteTypeTag([102, 112]);
      stream := stream + p;
    }
  }

  // ----- Decoding -----

  /** A parsed item and the rest of the stream. */
  datatype Parsed<T> = Fail | Got(value: T, rest: Bytes)

  /** Cut off a fixed number of bytes. */
  function Take(b: Bytes, k: nat): (r: Parsed<Bytes>)
    ensures r.Got? ==> b == r.value + r.rest && |r.value| == k
  {
    if |b| < k then Fail else Got(b[..k], b[k..])
  }

  function TakeVarLen(b: Bytes): Parsed<Bytes> {
    match Take(b, 4)
    case Fail => Fail
    case Got(len, rest) => Take(rest, FromLittleEndian(len))
  }

  function TakeU64(b: Bytes): Parsed<U64> {
    match Take(b, 8)
    case Fail => Fail
    case Got(n, rest) => FromLittleEndianBound(n); Got(FromLittleEndian(n), rest)
  }

  /** The bytes up to the first semicolon. */
  function TakeTag(b: Bytes): (r: Parsed<Bytes>)
    ensures r.Got? ==> b == r.value + r.rest && r.value != []
  {
    if b == [] then Fail
    else if b[0] == SEMI then Got([SEMI], b[1..])
    else
      match TakeTag(b[1..])
      case Fail => Fail
      case Got(tag, rest) => Got([b[0]] + tag, rest)
  }

  function DecodeOne(b: Bytes): Parsed<Write> {
    match TakeTag(b)
    case Fail => Fail
    case Got(tag, rest) =>
      if tag == TAG_STR then
        match TakeVarLen(rest) case Fail => Fail case Got(s, r) => Got(Str(s), r)
      else if tag == TAG_BYTES then
        match TakeVarLen(rest) case Fail => Fail case Got(s, r) => Got(Raw(s), r)
      else if tag == TAG_USIZE then
        match TakeU64(rest) case Fail => Fail case Got(n, r) => Got(Usize(n), r)
      else if tag == TAG_U64 then
        match TakeU64(rest) case Fail => Fail case Got(n, r) => Got(Unsigned(n), r)
      else if tag == TAG_I64 then
        match TakeU64(rest) case Fail => Fail case Got(n, r) => Got(Signed(FromPattern(n)), r)
      else if tag == TAG_TRUE then Got(Bool(true), rest)
      else if tag == TAG_FALSE then Got(Bool(false), rest)
      else if tag == TAG_NONE then Got(NoStr, rest)
      else if tag == TAG_SOME then
        (match TakeTag(rest)
         case Fail => Fail
         case Got(inner, r) =>
           if inner != TAG_STR then Fail
           else match TakeVarLen(r) case Fail => Fail case Got(s, q) => Got(SomeStr(s), q))
      else if tag == TAG_PRINT then
        match Take(rest, 16) case Fail => Fail case Got(p, r) => Got(Nested(p), r)
      else Fail
  }

  lemma {:induction false} FromLittleEndianBound(b: Bytes)
    ensures |b| == 8 ==> FromLittleEndian(b) < TWO64
    ensures |b| == 4 ==> FromLittleEndian(b) < TWO32
    decreases |b|
  {
    ByteBound(b);
    Widths();
  }

  function Pow256(k: nat): nat {
    if k == 0 then 1 else 256 * Pow256(k - 1)
  }

  lemma {:induction false} ByteBound(b: Bytes)
    ensures FromLittleEndian(b) < Pow256(|b|)
  {
    if b != [] {
      ByteBound(b[1..]);
    }
  }

  /** Reading back what was written little-endian. */
  lemma {:induction false} LittleEndianRoundTrip(n: nat, k: nat)
    requires n < Pow256(k)
    ensures FromLittleEndian(LittleEndian(n, k)) == n
  {
    if k > 0 {
      LittleEndianRoundTrip(n / 256, k - 1);
      assert LittleEndian(n, k)[1..] == LittleEndian(n / 256, k - 1);
    }
  }

  lemma {:induction false} LittleEndianOf(b: Bytes)
    ensures LittleEndian(FromLittleEndian(b), |b|) == b
  {
    if b != [] {
      LittleEndianOf(b[1..]);
      var n := FromLittleEndian(b);
      assert n % 256 == b[0] && n / 256 == FromLittleEndian(b[1..]);
      assert b == [b[0]] + b[1..];
    }
  }

  lemma Widths()
    ensures Pow256(4) == TWO32 && Pow256(8) == TWO64
  {
    assert Pow256(4) == 256 * (256 * (256 * (256 * Pow256(0))));
    assert Pow256(8) == 256 * (256 * (256 * (256 * Pow256(4))));
  }

  /** A payload whose length fits 32 bits. */
  predicate Short(w: Write) {
    match w
    case Str(s) => |s| < TWO32
    case Raw(b) => |b| < TWO32
    case SomeStr(s) => |s| < TWO32
    case _ => true
  }

  predicate AllShort(ws: seq<Write>) {
    forall i :: 0 <= i < |ws| ==> Short(ws[i])
  }

  lemma {:induction false} TagReadBack(tag: Bytes, rest: Bytes)
    requires tag != [] && tag[|tag| - 1] == SEMI && forall i :: 0 <= i < |tag| - 1 ==> tag[i] != SEMI
    ensures TakeTag(tag + rest) == Got(tag, rest)
    decreases |tag|
  {
    var b := tag + rest;
    if |tag| == 1 {
      assert tag == [SEMI] && b[1..] == rest;
    } else {
      assert b[1..] == tag[1..] + rest;
      TagReadBack(tag[1..], rest);
      assert [tag[0]] + tag[1..] == tag;
    }
  }

  lemma Concat3<T>(x: seq<T>, y: seq<T>, z: seq<T>)
    ensures (x + y) + z == x + (y + z)
  {
  }

  lemma VarLenReadBack(s: Bytes, rest: Bytes)
    requires |s| < TWO32
    ensures TakeVarLen(VarLen(s) + rest) == Got(s, rest)
  {
    hide LittleEndian, FromLittleEndian, Pow256;
    Widths();
    LittleEndianRoundTrip(|s|, 4);
    var len := LittleEndian(|s| % TWO32, 4);
    var b := VarLen(s) + rest;
    assert b[..4] == len && b[4..] == s + rest;
    assert (s + rest)[..|s|] == s && (s + rest)[|s|..] == rest;
  }

  lemma U64ReadBack(n: U64, rest: Bytes)
    ensures TakeU64(LittleEndian(n, 8) + rest) == Got(n, rest)
  {
    hide LittleEndian, FromLittleEndian, Pow256;
    Widths();
    LittleEndianRoundTrip(n, 8);
    var b := LittleEndian(n, 8) + rest;
    assert b[..8] == LittleEndian(n, 8) && b[8..] == rest;
  }

  /** The tag of a write. */
  function TagOf(w: Write): Bytes {
    match w
    case Str(_) => TAG_STR
    case Raw(_) => TAG_BYTES
    case Usize(_) => TAG_USIZE
    case Unsigned(_) => TAG_U64
    case Signed(_) => TAG_I64
    case Bool(b) => if b then TAG_TRUE else TAG_FALSE
    case NoStr => TAG_NONE
    case SomeStr(_) => TAG_SOME
    case Nested(_) => TAG_PRINT
  }

  /** What follows the tag. */
  function BodyOf(w: Write): Bytes {
    match w
    case Str(s) => VarLen(s)
    case Raw(b) => VarLen(b)
    case Usize(n) => LittleEndian(n, 8)
    case Unsigned(n) => LittleEndian(n, 8)
    case Signed(n) => LittleEndian(ToPattern(n), 8)
    case Bool(_) => []
    case NoStr => []
    case SomeStr(s) => TAG_STR + VarLen(s)
    case Nested(p) => p
  }

  lemma TagsReadable(w: Write, rest: Bytes)
    ensures EncodeOne(w) == TagOf(w) + BodyOf(w)
    ensures TakeTag(TagOf(w) + rest) == Got(TagOf(w), rest)
  {
    hide TakeTag, LittleEndian;
    TagReadBack(TagOf(w), rest);
  }

  /** One write is read back whatever follows it. */
  lemma ReadBackOne(w: Write, rest: Bytes)
    requires Short(w)
    ensures DecodeOne(EncodeOne(w) + rest) == Got(w, rest)
  {
    hide TakeTag, TakeVarLen, TakeU64, LittleEndian, VarLen;
    TagsReadable(w, BodyOf(w) + rest);
    Concat3(TagOf(w), BodyOf(w), rest);
    match w
    case Str(s) => VarLenReadBack(s, rest);
    case Raw(s) => VarLenReadBack(s, rest);
    case Usize(n) => U64ReadBack(n, rest);
    case Unsigned(n) => U64ReadBack(n, rest);
    case Signed(n) => U64ReadBack(ToPattern(n), rest);
    case Bool(b) => assert [] + rest == rest;
    case NoStr => assert [] + rest == rest;
    case SomeStr(s) =>
      TagsReadable(Str(s), VarLen(s) + rest);
      Concat3(TAG_STR, VarLen(s), rest);
      VarLenReadBack(s, rest);
    case Nested(p) => assert (p + rest)[..16] == p && (p + rest)[16..] == rest;
  }

  lemma VarLenCanonical(b: Bytes)
    requires TakeVarLen(b).Got?
    ensures b == VarLen(TakeVarLen(b).value) + TakeVarLen(b).rest
    ensures |TakeVarLen(b).value| < TWO32
  {
    hide LittleEndian, FromLittleEndian;
    FromLittleEndianBound(b[..4]);
    LittleEndianOf(b[..4]);
  }

  lemma U64Canonical(b: Bytes)
    requires TakeU64(b).Got?
    ensures b == LittleEndian(TakeU64(b).value, 8) + TakeU64(b).rest
  {
    hide LittleEndian, FromLittleEndian;
    LittleEndianOf(b[..8]);
  }

  /** Whatever is read is short, and writing it again gives the bytes that were read. */
  lemma ReadIsCanonical(b: Bytes)
    requires DecodeOne(b).Got?
    ensures Short(DecodeOne(b).value)
    ensures b == EncodeOne(DecodeOne(b).value) + DecodeOne(b).rest
    ensures |DecodeOne(b).rest| < |b|
  {
    hide TakeTag, TakeVarLen, TakeU64, LittleEndian, VarLen, EncodeOne;
    var tag, rest := TakeTag(b).value, TakeTag(b).rest;
    var w, r := DecodeOne(b).value, DecodeOne(b).rest;
    assert tag == TagOf(w) && rest == BodyOf(w) + r by {
      if tag == TAG_STR || tag == TAG_BYTES {
        VarLenCanonical(rest);
      } else if tag == TAG_USIZE || tag == TAG_U64 || tag == TAG_I64 {
        U64Canonical(rest);
      } else if tag == TAG_SOME {
        VarLenCanonical(TakeTag(rest).rest);
        Concat3(TAG_STR, VarLen(w.some), r);
      }
    }
    assert Short(w) by {
      if tag == TAG_STR || tag == TAG_BYTES {
        VarLenCanonical(rest);
      } else if tag == TAG_SOME {
        VarLenCanonical(TakeTag(rest).rest);
      }
    }
    TagsReadable(w, r);
    Concat3(tag, BodyOf(w), r);
  }

  function Decode(b: Bytes): Option<seq<Write>>
    decreases |b|
  {
    if b == [] then Some([])
    else
      match DecodeOne(b)
      case Fail => None
      case Got(w, rest) =>
        ReadIsCanonical(b);
        match Decode(rest)
        case None => None
        case Some(ws) => Some([w] + ws)
  }

  /** Decoding recovers every sequence of short writes, and nothing but short writes. */
  lemma {:induction false} DecodeRecovers(ws: seq<Write>)
    ensures Decode(Encode(ws)) == Some(ws) <==> AllShort(ws)
  {
    if AllShort(ws) {
      ShortRecovered(ws);
    } else {
      DecodedIsShort(Encode(ws));
    }
  }

  lemma {:induction false} ShortRecovered(ws: seq<Write>)
    requires AllShort(ws)
    ensures Decode(Encode(ws)) == Some(ws)
  {
    hide DecodeOne, EncodeOne;
    if ws != [] {
      ReadBackOne(ws[0], Encode(ws[1..]));
      ShortRecovered(ws[1..]);
      assert [ws[0]] + ws[1..] == ws;
    }
  }

  lemma {:induction false} DecodedIsShort(b: Bytes)
    ensures Decode(b).Some? ==> AllShort(Decode(b).value) && Encode(Decode(b).value) == b
    decreases |b|
  {
    hide DecodeOne, EncodeOne;
    if b != [] && Decode(b).Some? {
      ReadIsCanonical(b);
      var w, rest := DecodeOne(b).value, DecodeOne(b).rest;
      DecodedIsShort(rest);
      var ws := Decode(rest).value;
      assert Decode(b).value == [w] + ws;
      assert ([w] + ws)[1..] == ws;
    }
  }

  /** Different sequences of short writes feed the hash different bytes. */
  lemma EncodeInjective(xs: seq<Write>, ys: seq<Write>)
    requires AllShort(xs) && AllShort(ys) && Encode(xs) == Encode(ys)
    ensures xs == ys
  {
    ShortRecovered(xs);
    ShortRecovered(ys);
  }

  // ----- The length prefix is 32 bits wide -----

  /** A payload of exactly 2^32 bytes announces length 0, so its bytes pass for writes of their own. */
  lemma LongPayloadCollides(ws: seq<Write>)
    requires |Encode(ws)| == TWO32
    ensures Encode([Raw(Encode(ws))]) == Encode([Raw([])] + ws)
    ensures [Raw(Encode(ws))] != [Raw([])] + ws
  {
    hide LittleEndian;
    EncodeConcat([Raw([])], ws);
    var x := Encode(ws);
    OneEncoded(Raw(x));
    OneEncoded(Raw([]));
    assert LittleEndian(|x| % TWO32, 4) == LittleEndian(0, 4);
    assert VarLen(x) == LittleEndian(0, 4) + x;
    assert VarLen([]) == LittleEndian(0, 4) by {
      assert LittleEndian(0, 4) + [] == LittleEndian(0, 4);
    }
    Concat3(TAG_BYTES, LittleEndian(0, 4), x);
  }

  lemma OneEncoded(w: Write)
    ensures Encode([w]) == EncodeOne(w)
  {
    assert [w][1..] == [];
  }

  function Trues(n: nat): (ws: seq<Write>)
    ensures |ws| == n && forall i :: 0 <= i < n ==> ws[i] == Bool(true)
  {
    seq(n, _ => Bool(true))
  }

  lemma {:induction false} TruesLength(n: nat)
    ensures |Encode(Trues(n))| == 2 * n
  {
    if n > 0 {
      assert Trues(n)[1..] == Trues(n - 1);
      TruesLength(n - 1);
    }
  }

  /** The length of the payload a write announces. */
  function PayloadLength(w: Write): nat {
    match w
    case Str(s) => |s|
    case Raw(b) => |b|
    case SomeStr(s) => |s|
    case _ => 0
  }

  /** No payload is longer than `n` bytes. */
  predicate Bounded(ws: seq<Write>, n: nat) {
    forall i :: 0 <= i < |ws| ==> PayloadLength(ws[i]) <= n
  }

  lemma BoundedIsShort(ws: seq<Write>, n: nat)
    requires Bounded(ws, n) && n < TWO32
    ensures AllShort(ws)
  {
    forall i | 0 <= i < |ws| ensures Short(ws[i]) {
      assert PayloadLength(ws[i]) <= n;
    }
  }

  /** Two different sequences of writes with payloads of up to 2^32 bytes that feed the hash the same bytes. */
  lemma LongWritesCollide() returns (xs: seq<Write>, ys: seq<Write>)
    ensures Bounded(xs, TWO32) && Bounded(ys, TWO32)
    ensures xs != ys && Encode(xs) == Encode(ys)
  {
    hide Encode, Trues;
    var ws := Trues(TWO32 / 2);
    TruesLength(TWO32 / 2);
    LongPayloadCollides(ws);
    xs, ys := [Raw(Encode(ws))], [Raw([])] + ws;
    forall i | 0 <= i < |ys| ensures PayloadLength(ys[i]) <= TWO32 {
      assert i > 0 ==> ys[i] == ws[i - 1];
    }
  }

  /** The encoding is injective on writes with payloads of at most `n` bytes exactly if `n` is below 2^32. */
  lemma EncodeInjectiveIff(n: nat)
    ensures (forall xs, ys :: Bounded(xs, n) && Bounded(ys, n) && Encode(xs) == Encode(ys) ==> xs == ys) <==> n < TWO32
  {
    hide Encode, PayloadLength, AllShort;
    if n < TWO32 {
      forall xs, ys | Bounded(xs, n) && Bounded(ys, n) && Encode(xs) == Encode(ys) ensures xs == ys {
        BoundedIsShort(xs, n);
        BoundedIsShort(ys, n);
        EncodeInjective(xs, ys);
      }
    } else {
      var xs, ys := LongWritesCollide();
      assert Bounded(xs, n) && Bounded(ys, n);
    }
  }
}

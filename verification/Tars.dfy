/**
 * The Tars byte encoder of live_node_fisco.py, and a decoder for the same subset of the
 * protocol (head layout, minimal-width integers, two string forms, simple lists, structs).
 *
 * A Python exception (ValueError of bytearray.append, struct.error of struct.pack) is an
 * `ok == false` result; text is taken after its UTF-8 encoding, as bytes.
 */
module Tars {

  type Byte = b: int | 0 <= b < 256
  type Bytes = seq<Byte>

  const CHAR := 0
  const SHORT := 1
  const INT32 := 2
  const INT64 := 3
  const STRING1 := 6
  const STRING4 := 7
  const STRUCT_BEGIN := 10
  const STRUCT_END := 11
  const ZERO_TAG := 12
  const SIMPLE_LIST := 13

  // ------------------------------------------------------------------ what is encoded

  datatype Value =
    | Int(n: int)
    | Str(text: Bytes)
    | Blob(data: Bytes)
    | Struct(fields: seq<Field>)

  datatype Field = Field(tag: int, value: Value)

  predicate FitsTag(tag: int) { 0 <= tag < 256 }
  predicate FitsInt(n: int, width: nat) { -Half(width) <= n < Half(width) }

  /** Exactly the fields the writer can emit without raising. */
  predicate Encodable(f: Field) {
    && FitsTag(f.tag)
    && match f.value
       case Int(n) => FitsInt(n, 8)
       case Str(text) => |text| < Pow256(4)
       case Blob(data) => |data| < Half(4)
       case Struct(fields) => forall g | g in fields :: Encodable(g)
  }

  // ------------------------------------------------------- big-endian two's complement

  function Pow256(width: nat): (p: int)
    ensures p > 0
  {
    if width == 0 then 1 else 256 * Pow256(width - 1)
  }

  function Half(width: nat): int { Pow256(width) / 2 }

  function BigEndian(n: nat, width: nat): (s: Bytes)
    ensures |s| == width
  {
    if width == 0 then [] else BigEndian(n / 256, width - 1) + [n % 256]
  }

  function Unsigned(s: Bytes): nat {
    if s == [] then 0 else 256 * Unsigned(s[..|s| - 1]) + s[|s| - 1]
  }

  function Pack(n: int, width: nat): (s: Bytes)
    requires FitsInt(n, width)
    ensures |s| == width
  {
    BigEndian(if n < 0 then n + Pow256(width) else n, width)
  }

  function Signed(s: Bytes): int {
    var u := Unsigned(s);
    if u < Half(|s|) then u else u - Pow256(|s|)
  }

  lemma {:induction false} UnsignedBigEndian(n: nat, width: nat)
    requires n < Pow256(width)
    ensures Unsigned(BigEndian(n, width)) == n
  {
    if width > 0 {
      UnsignedBigEndian(n / 256, width - 1);
      UnsignedSnoc(BigEndian(n / 256, width - 1), n % 256);
    }
  }

  lemma UnsignedSnoc(s: Bytes, b: Byte)
    ensures Unsigned(s + [b]) == 256 * Unsigned(s) + b
  {
    assert (s + [b])[..|s|] == s;
  }

  lemma Widths()
    ensures Pow256(1) == 0x100 && Pow256(2) == 0x1_0000
    ensures Pow256(4) == 0x1_0000_0000 && Pow256(8) == 0x1_0000_0000_0000_0000
  {
    assert Pow256(0) == 1;
    assert Pow256(3) == 0x100_0000;
    assert Pow256(5) == 0x100_0000_0000;
    assert Pow256(6) == 0x1_0000_0000_0000;
    assert Pow256(7) == 0x100_0000_0000_0000;
  }

  lemma SignedPack(n: int, width: nat)
    requires FitsInt(n, width) && width > 0
    ensures Signed(Pack(n, width)) == n
  {
    var u := if n < 0 then n + Pow256(width) else n;
    assert Pow256(width) == 256 * Pow256(width - 1);
    UnsignedBigEndian(u, width);
  }

  // ------------------------------------------------------------------------- encoding

  function Head(tag: int, ttype: int): Bytes
    requires FitsTag(tag) && 0 <= ttype < 16
  {
    if tag < 15 then [16 * tag + ttype] else [0xF0 + ttype, tag]
  }

  /** Number of payload bytes of the narrowest integer form; 0 is the zero tag. */
  function IntWidth(n: int): nat {
    if n == 0 then 0 else if FitsInt(n, 1) then 1 else if FitsInt(n, 2) then 2 else if FitsInt(n, 4) then 4 else 8
  }

  function WidthType(width: nat): (t: int)
    ensures 0 <= t < 16
  {
    if width == 0 then ZERO_TAG else if width == 1 then CHAR
    else if width == 2 then SHORT else if width == 4 then INT32 else INT64
  }

  function EncodeInt(tag: int, n: int): Bytes
    requires FitsTag(tag) && FitsInt(n, 8)
  {
    var width := IntWidth(n);
    Head(tag, WidthType(width)) + if width == 0 then [] else Pack(n, width)
  }

  function EncodeString(tag: int, text: Bytes): Bytes
    requires FitsTag(tag) && |text| < Pow256(4)
  {
    if |text| <= 255 then Head(tag, STRING1) + [|text|] + text
    else Head(tag, STRING4) + BigEndian(|text|, 4) + text
  }

  function EncodeBlob(tag: int, data: Bytes): Bytes
    requires FitsTag(tag) && |data| < Half(4)
  {
    Widths();
    Head(tag, SIMPLE_LIST) + Head(0, CHAR) + EncodeInt(0, |data|) + data
  }

  function Encode(f: Field): Bytes
    requires Encodable(f)
    decreases f, 0
  {
    match f.value
    case Int(n) => EncodeInt(f.tag, n)
    case Str(text) => EncodeString(f.tag, text)
    case Blob(data) => EncodeBlob(f.tag, data)
    case Struct(fields) => Head(f.tag, STRUCT_BEGIN) + EncodeBody(fields)
  }

  /** The fields of a struct and the end marker that closes it. */
  function EncodeBody(fields: seq<Field>): Bytes
    requires forall g | g in fields :: Encodable(g)
    decreases fields, 1
  {
    EncodeAll(fields) + [STRUCT_END]
  }

  function EncodeAll(fields: seq<Field>): Bytes
    requires forall g | g in fields :: Encodable(g)
    decreases fields, 0
  {
    if fields == [] then [] else Encode(fields[0]) + EncodeAll(fields[1..])
  }

  lemma {:induction false} EncodeAllJoins(a: seq<Field>, b: seq<Field>)
    requires forall g | g in a + b :: Encodable(g)
    ensures EncodeAll(a + b) == EncodeAll(a) + EncodeAll(b)
  {
    if a == [] {
      assert a + b == b;
    } else {
      assert (a + b)[1..] == a[1..] + b;
      EncodeAllJoins(a[1..], b);
    }
  }

  lemma EncodeAllSnoc(fields: seq<Field>, f: Field)
    requires Encodable(f) && forall g | g in fields :: Encodable(g)
    ensures EncodeAll(fields + [f]) == EncodeAll(fields) + Encode(f)
  {
    EncodeAllJoins(fields, [f]);
    assert EncodeAll([f]) == Encode(f) + EncodeAll([]);
  }

  // ------------------------------------------------------------------------- decoding

  datatype Parsed<T> = Fail | Done(value: T, rest: Bytes)

  function ReadHead(s: Bytes): (r: Parsed<(int, int)>)
    ensures r.Done? ==> |r.rest| < |s|
  {
    if s == [] then Fail
    else if s[0] / 16 < 15 then Done((s[0] / 16, s[0] % 16), s[1..])
    else if |s| < 2 then Fail
    else Done((s[1], s[0] % 16), s[2..])
  }

  function ReadBytes(s: Bytes, n: int): (r: Parsed<Bytes>)
    ensures r.Done? ==> |r.rest| <= |s|
  {
    if 0 <= n <= |s| then Done(s[..n], s[n..]) else Fail
  }

  function ReadInt(ttype: int, s: Bytes): (r: Parsed<int>)
    ensures r.Done? ==> |r.rest| <= |s|
  {
    if ttype == ZERO_TAG then Done(0, s)
    else
      var width := if ttype == CHAR then 1 else if ttype == SHORT then 2
                   else if ttype == INT32 then 4 else if ttype == INT64 then 8 else -1;
      match ReadBytes(s, width)
      case Fail => Fail
      case Done(b, rest) => Done(Signed(b), rest)
  }

  function ReadText(lengthWidth: nat, s: Bytes): (r: Parsed<Bytes>)
    ensures r.Done? ==> |r.rest| <= |s|
  {
    match ReadBytes(s, lengthWidth)
    case Fail => Fail
    case Done(b, rest) => ReadBytes(rest, Unsigned(b))
  }

  /** The inside of a simple list: a byte-type head, an integer field with the length, the bytes. */
  function ReadBlob(s: Bytes): (r: Parsed<Bytes>)
    ensures r.Done? ==> |r.rest| <= |s|
  {
    match ReadHead(s)
    case Fail => Fail
    case Done(elem, s1) =>
      if elem != (0, CHAR) then Fail
      else
        match ReadHead(s1)
        case Fail => Fail
        case Done(len, s2) =>
          if len.0 != 0 then Fail
          else
            match ReadInt(len.1, s2)
            case Fail => Fail
            case Done(n, s3) => ReadBytes(s3, n)
  }

  function DecodeValue(ttype: int, s: Bytes): (r: Parsed<Value>)
    ensures r.Done? ==> |r.rest| <= |s|
    decreases |s|, 1
  {
    if ttype == STRING1 || ttype == STRING4 then
      match ReadText(if ttype == STRING1 then 1 else 4, s)
      case Fail => Fail
      case Done(text, rest) => Done(Str(text), rest)
    else if ttype == SIMPLE_LIST then
      match ReadBlob(s)
      case Fail => Fail
      case Done(data, rest) => Done(Blob(data), rest)
    else if ttype == STRUCT_BEGIN then
      match DecodeBody(s)
      case Fail => Fail
      case Done(fields, rest) => Done(Struct(fields), rest)
    else
      match ReadInt(ttype, s)
      case Fail => Fail
      case Done(n, rest) => Done(Int(n), rest)
  }

  /** Fields up to and including the end marker of the enclosing struct. */
  function DecodeBody(s: Bytes): (r: Parsed<seq<Field>>)
    ensures r.Done? ==> |r.rest| < |s|
    decreases |s|, 0
  {
    match ReadHead(s)
    case Fail => Fail
    case Done(head, s1) =>
      if head == (0, STRUCT_END) then Done([], s1)
      else
        match DecodeValue(head.1, s1)
        case Fail => Fail
        case Done(v, s2) =>
          match DecodeBody(s2)
          case Fail => Fail
          case Done(fields, rest) => Done([Field(head.0, v)] + fields, rest)
  }

  function DecodeField(s: Bytes): Parsed<Field> {
    match ReadHead(s)
    case Fail => Fail
    case Done(head, s1) =>
      match DecodeValue(head.1, s1)
      case Fail => Fail
      case Done(v, rest) => Done(Field(head.0, v), rest)
  }

  // ---------------------------------------------------------------------- round trips

  lemma HeadRoundTrip(tag: int, ttype: int, rest: Bytes)
    requires FitsTag(tag) && 0 <= ttype < 16
    ensures ReadHead(Head(tag, ttype) + rest) == Done((tag, ttype), rest)
  {
    var h := Head(tag, ttype);
    assert (h + rest)[|h|..] == rest;
  }

  lemma BytesRoundTrip(data: Bytes, rest: Bytes)
    ensures ReadBytes(data + rest, |data|) == Done(data, rest)
  {
    assert (data + rest)[..|data|] == data && (data + rest)[|data|..] == rest;
  }

  lemma IntRoundTrip(n: int, rest: Bytes)
    requires FitsInt(n, 8)
    ensures var w := IntWidth(n);
            ReadInt(WidthType(w), (if w == 0 then [] else Pack(n, w)) + rest) == Done(n, rest)
  {
    var w := IntWidth(n);
    if w == 0 {
      assert [] + rest == rest;
    } else {
      SignedPack(n, w);
      BytesRoundTrip(Pack(n, w), rest);
    }
  }

  lemma IntFieldRoundTrip(tag: int, n: int, rest: Bytes)
    requires FitsTag(tag) && FitsInt(n, 8)
    ensures var r := ReadHead(EncodeInt(tag, n) + rest);
            r.Done? && r.value == (tag, WidthType(IntWidth(n))) && ReadInt(r.value.1, r.rest) == Done(n, rest)
  {
    var w := IntWidth(n);
    var h, p := Head(tag, WidthType(w)), if w == 0 then [] else Pack(n, w);
    assert EncodeInt(tag, n) + rest == h + (p + rest);
    HeadRoundTrip(tag, WidthType(w), p + rest);
    IntRoundTrip(n, rest);
  }

  lemma TextRoundTrip(text: Bytes, width: nat, rest: Bytes)
    requires width > 0 && |text| < Pow256(width)
    ensures ReadText(width, BigEndian(|text|, width) + text + rest) == Done(text, rest)
  {
    var len := BigEndian(|text|, width);
    assert len + text + rest == len + (text + rest);
    BytesRoundTrip(len, text + rest);
    UnsignedBigEndian(|text|, width);
    BytesRoundTrip(text, rest);
  }

  lemma StringRoundTrip(tag: int, text: Bytes, rest: Bytes)
    requires FitsTag(tag) && |text| < Pow256(4)
    ensures DecodeField(EncodeString(tag, text) + rest) == Done(Field(tag, Str(text)), rest)
  {
    Widths();
    var width, ttype := if |text| <= 255 then 1 else 4, if |text| <= 255 then STRING1 else STRING4;
    var len := BigEndian(|text|, width);
    if |text| <= 255 {
      assert len == BigEndian(|text| / 256, 0) + [|text|] == [|text|];
    }
    assert EncodeString(tag, text) + rest == Head(tag, ttype) + (len + text + rest);
    HeadRoundTrip(tag, ttype, len + text + rest);
    TextRoundTrip(text, width, rest);
  }

  lemma BlobRoundTrip(tag: int, data: Bytes, rest: Bytes)
    requires FitsTag(tag) && |data| < Half(4)
    ensures DecodeField(EncodeBlob(tag, data) + rest) == Done(Field(tag, Blob(data)), rest)
  {
    Widths();
    var len := EncodeInt(0, |data|);
    var s1 := len + (data + rest);
    var s0 := Head(0, CHAR) + s1;
    assert EncodeBlob(tag, data) + rest == Head(tag, SIMPLE_LIST) + s0;
    HeadRoundTrip(tag, SIMPLE_LIST, s0);
    HeadRoundTrip(0, CHAR, s1);
    IntFieldRoundTrip(0, |data|, data + rest);
    BytesRoundTrip(data, rest);
  }

  lemma StructRoundTrip(tag: int, fields: seq<Field>, rest: Bytes)
    requires Encodable(Field(tag, Struct(fields))) && DecodeBody(EncodeBody(fields) + rest) == Done(fields, rest)
    ensures var bytes := Encode(Field(tag, Struct(fields))) + rest;
            && ReadHead(bytes).Done? && ReadHead(bytes).value == (tag, STRUCT_BEGIN)
            && DecodeField(bytes) == Done(Field(tag, Struct(fields)), rest)
  {
    StructBytes(tag, fields, rest);
    HeadRoundTrip(tag, STRUCT_BEGIN, EncodeBody(fields) + rest);
  }

  lemma StructBytes(tag: int, fields: seq<Field>, rest: Bytes)
    requires Encodable(Field(tag, Struct(fields)))
    ensures Encode(Field(tag, Struct(fields))) + rest == Head(tag, STRUCT_BEGIN) + (EncodeBody(fields) + rest)
  {
  }

  /** Decoding the bytes of one field, followed by anything, gives back the field and the rest. */
  lemma {:induction false} FieldRoundTrip(f: Field, rest: Bytes)
    requires Encodable(f)
    ensures DecodeField(Encode(f) + rest) == Done(f, rest)
    ensures var r := ReadHead(Encode(f) + rest); r.Done? && r.value != (0, STRUCT_END)
    decreases f, 0
  {
    match f.value
    case Int(n) =>
      IntFieldRoundTrip(f.tag, n, rest);
    case Str(text) =>
      StringRoundTrip(f.tag, text, rest);
    case Blob(data) =>
      BlobRoundTrip(f.tag, data, rest);
    case Struct(fields) =>
      BodyRoundTrip(fields, rest);
      StructRoundTrip(f.tag, fields, rest);
  }

  /** The same for the body of a struct: every field, in order, and whatever follows the end marker. */
  lemma {:induction false} BodyRoundTrip(fields: seq<Field>, rest: Bytes)
    requires forall g | g in fields :: Encodable(g)
    ensures DecodeBody(EncodeBody(fields) + rest) == Done(fields, rest)
    decreases fields, 1
  {
    if fields == [] {
      assert EncodeBody(fields) + rest == Head(0, STRUCT_END) + rest;
      HeadRoundTrip(0, STRUCT_END, rest);
    } else {
      var more := EncodeBody(fields[1..]) + rest;
      assert EncodeBody(fields) + rest == Encode(fields[0]) + more;
      FieldRoundTrip(fields[0], more);
      BodyRoundTrip(fields[1..], rest);
      assert [fields[0]] + fields[1..] == fields;
    }
  }

  /** Unique decodability: equal byte strings come from equal fields and equal continuations. */
  lemma BodyInjective(a: seq<Field>, b: seq<Field>, restA: Bytes, restB: Bytes)
    requires (forall g | g in a :: Encodable(g)) && forall g | g in b :: Encodable(g)
    requires EncodeBody(a) + restA == EncodeBody(b) + restB
    ensures a == b && restA == restB
  {
    BodyRoundTrip(a, restA);
    BodyRoundTrip(b, restB);
  }

  // ------------------------------------------------------------------ no proper prefix

  lemma HeadExtends(s: Bytes, more: Bytes)
    requires ReadHead(s).Done?
    ensures ReadHead(s + more) == ReadHead(s).(rest := ReadHead(s).rest + more)
  {
    var k := |s| - |ReadHead(s).rest|;
    assert (s + more)[k..] == s[k..] + more;
  }

  lemma BytesExtend(s: Bytes, n: int, more: Bytes)
    requires ReadBytes(s, n).Done?
    ensures ReadBytes(s + more, n) == ReadBytes(s, n).(rest := ReadBytes(s, n).rest + more)
  {
    assert (s + more)[..n] == s[..n] && (s + more)[n..] == s[n..] + more;
  }

  lemma {:induction false} ValueExtends(ttype: int, s: Bytes, more: Bytes)
    requires DecodeValue(ttype, s).Done?
    ensures DecodeValue(ttype, s + more) == DecodeValue(ttype, s).(rest := DecodeValue(ttype, s).rest + more)
    decreases |s|, 1
  {
    if ttype == STRING1 || ttype == STRING4 {
      var w := if ttype == STRING1 then 1 else 4;
      BytesExtend(s, w, more);
      BytesExtend(ReadBytes(s, w).rest, Unsigned(ReadBytes(s, w).value), more);
    } else if ttype == SIMPLE_LIST {
      HeadExtends(s, more);
      var s1 := ReadHead(s).rest;
      HeadExtends(s1, more);
      IntExtends(ReadHead(s1).value.1, ReadHead(s1).rest, more);
      var r := ReadInt(ReadHead(s1).value.1, ReadHead(s1).rest);
      BytesExtend(r.rest, r.value, more);
    } else if ttype == STRUCT_BEGIN {
      BodyExtends(s, more);
    } else {
      IntExtends(ttype, s, more);
    }
  }

  lemma IntExtends(ttype: int, s: Bytes, more: Bytes)
    requires ReadInt(ttype, s).Done?
    ensures ReadInt(ttype, s + more) == ReadInt(ttype, s).(rest := ReadInt(ttype, s).rest + more)
  {
    if ttype != ZERO_TAG {
      var width := if ttype == CHAR then 1 else if ttype == SHORT then 2
                   else if ttype == INT32 then 4 else if ttype == INT64 then 8 else -1;
      BytesExtend(s, width, more);
    }
  }

  lemma {:induction false} BodyExtends(s: Bytes, more: Bytes)
    requires DecodeBody(s).Done?
    ensures DecodeBody(s + more) == DecodeBody(s).(rest := DecodeBody(s).rest + more)
    decreases |s|, 0
  {
    HeadExtends(s, more);
    var head, s1 := ReadHead(s).value, ReadHead(s).rest;
    if head != (0, STRUCT_END) {
      ValueExtends(head.1, s1, more);
      BodyExtends(DecodeValue(head.1, s1).rest, more);
    }
  }

  lemma CutFails(whole: Bytes, cut: nat)
    requires cut < |whole|
    ensures DecodeBody(whole).Done? && DecodeBody(whole).rest == [] ==> DecodeBody(whole[..cut]).Fail?
  {
    assert whole[..cut] + whole[cut..] == whole;
    if DecodeBody(whole[..cut]).Done? {
      BodyExtends(whole[..cut], whole[cut..]);
    }
  }

  /** Cutting an encoded struct anywhere before its end leaves bytes that do not decode. */
  lemma NoProperPrefix(fields: seq<Field>, cut: nat)
    requires forall g | g in fields :: Encodable(g)
    requires cut < |EncodeBody(fields)|
    ensures DecodeBody(EncodeBody(fields)[..cut]).Fail?
  {
    BodyRoundTrip(fields, []);
    assert EncodeBody(fields) + [] == EncodeBody(fields);
    CutFails(EncodeBody(fields), cut);
  }

  /** No byte string that decodes to this integer field is shorter than the one written. */
  lemma NarrowestInt(tag: int, n: int, s: Bytes)
    requires FitsTag(tag) && FitsInt(n, 8)
    requires DecodeField(s) == Done(Field(tag, Int(n)), [])
    ensures |EncodeInt(tag, n)| <= |s|
  {
    var head, s1 := ReadHead(s).value, ReadHead(s).rest;
    DecodedInt(head.1, s1, n);
    PayloadWidth(head.1, s1, n);
    HeadWidth(s);
    EncodedWidth(tag, n);
  }

  lemma DecodedInt(ttype: int, s: Bytes, n: int)
    requires DecodeValue(ttype, s) == Done(Int(n), [])
    ensures ReadInt(ttype, s) == Done(n, [])
  {
  }

  lemma EncodedWidth(tag: int, n: int)
    requires FitsTag(tag) && FitsInt(n, 8)
    ensures |EncodeInt(tag, n)| == IntWidth(n) + if tag < 15 then 1 else 2
  {
  }

  /** An integer read from the whole payload is no wider than that. */
  lemma PayloadWidth(ttype: int, s: Bytes, n: int)
    requires ReadInt(ttype, s) == Done(n, [])
    ensures IntWidth(n) <= |s|
  {
    if s != [] {
      SignedRange(s);
      assert s[..|s|] == s;
    }
  }

  lemma HeadWidth(s: Bytes)
    requires ReadHead(s).Done?
    ensures |s| >= |ReadHead(s).rest| + if ReadHead(s).value.0 < 15 then 1 else 2
  {
  }

  lemma {:induction false} UnsignedRange(s: Bytes)
    ensures Unsigned(s) < Pow256(|s|)
  {
    if s != [] {
      UnsignedRange(s[..|s| - 1]);
    }
  }

  lemma SignedRange(s: Bytes)
    requires s != []
    ensures FitsInt(Signed(s), |s|)
  {
    UnsignedRange(s);
    assert Pow256(|s|) == 256 * Pow256(|s| - 1);
  }

  // ------------------------------------------------------------------------- on the wire

  /** The type code that a field starts with, by the protocol's numbers. */
  function TypeCode(v: Value): int {
    match v
    case Int(n) =>
      if n == 0 then 12 else if -128 <= n <= 127 then 0 else if -32768 <= n <= 32767 then 1
      else if -0x8000_0000 <= n <= 0x7FFF_FFFF then 2 else 3
    case Str(text) => if |text| <= 255 then 6 else 7
    case Blob(_) => 13
    case Struct(_) => 10
  }

  /** The head: tags below 15 share a byte with the type code, others follow in a byte of their own. */
  lemma WireHead(f: Field)
    requires Encodable(f)
    ensures var s := Encode(f);
            && |s| > 0 && s[0] % 16 == TypeCode(f.value) && s[0] / 16 == (if f.tag < 15 then f.tag else 15)
            && (f.tag >= 15 ==> |s| > 1 && s[1] == f.tag)
  {
    Widths();
    if f.value.Int? { IntTypeCode(f.value.n); }
  }

  lemma IntTypeCode(n: int)
    requires FitsInt(n, 8)
    ensures WidthType(IntWidth(n)) == TypeCode(Int(n))
  {
    Widths();
  }

  /** Numbers go with their most significant byte first. */
  lemma Positional(a: Byte, b: Byte, c: Byte, d: Byte)
    ensures Unsigned([a]) == a && Unsigned([a, b]) == 0x100 * a + b
    ensures Unsigned([a, b, c, d]) == 0x100_0000 * a + 0x1_0000 * b + 0x100 * c + d
  {
    UnsignedSnoc([], a);
    UnsignedSnoc([a], b);
    UnsignedSnoc([a, b], c);
    UnsignedSnoc([a, b, c], d);
    assert [] + [a] == [a] && [a] + [b] == [a, b] && [a, b] + [c] == [a, b, c] && [a, b, c] + [d] == [a, b, c, d];
  }

  lemma {:induction false} PositionalJoins(a: Bytes, b: Bytes)
    ensures Unsigned(a + b) == Unsigned(a) * Pow256(|b|) + Unsigned(b)
    decreases |b|
  {
    if b == [] {
      assert a + b == a;
    } else {
      var shorter := b[..|b| - 1];
      PositionalJoins(a, shorter);
      assert (a + b)[..|a + b| - 1] == a + shorter;
      assert Unsigned(a) * Pow256(|b|) == 256 * (Unsigned(a) * Pow256(|shorter|));
    }
  }

  /** A struct holds its fields behind its head, closed by the end marker 0x0B. */
  lemma WireStruct(tag: int, fields: seq<Field>)
    requires Encodable(Field(tag, Struct(fields)))
    ensures var s, n := Encode(Field(tag, Struct(fields))), if tag < 15 then 1 else 2;
            |s| > n && s[n..] == EncodeAll(fields) + [0x0B]
  {
  }

  /** And fields come one after the other. */
  lemma WireFields(a: seq<Field>, b: seq<Field>)
    requires forall f | f in a + b :: Encodable(f)
    ensures EncodeAll(a + b) == EncodeAll(a) + EncodeAll(b)
    ensures EncodeAll([]) == [] && forall f :: f in a ==> EncodeAll([f]) == Encode(f)
  {
    EncodeAllJoins(a, b);
    forall f | f in a ensures EncodeAll([f]) == Encode(f) { assert [f][1..] == []; }
  }

  /** A simple list: a byte for the type of its elements, its length as an integer of tag 0, and its data. */
  lemma WireBlob(tag: int, data: Bytes)
    requires Encodable(Field(tag, Blob(data)))
    ensures var s, n := Encode(Field(tag, Blob(data))), if tag < 15 then 1 else 2;
            && s[n] == 0 && FitsInt(|data|, 8) && s[n + 1..] == EncodeInt(0, |data|) + data
  {
    Widths();
    assert EncodeBlob(tag, data) == (Head(tag, SIMPLE_LIST) + Head(0, CHAR)) + (EncodeInt(0, |data|) + data);
  }

  /** A text: its length in one byte, or in four, and its bytes. */
  lemma WireString(tag: int, text: Bytes)
    requires Encodable(Field(tag, Str(text)))
    ensures var s, n := Encode(Field(tag, Str(text))), if tag < 15 then 1 else 2;
            if |text| <= 255 then |s| == n + 1 + |text| && s[n] == |text| && s[n + 1..] == text
            else |s| == n + 4 + |text| && Unsigned(s[n..n + 4]) == |text| && s[n + 4..] == text
  {
    Widths();
    var n := if tag < 15 then 1 else 2;
    if |text| > 255 {
      var s, h, size := EncodeString(tag, text), Head(tag, STRING4), BigEndian(|text|, 4);
      UnsignedBigEndian(|text|, 4);
      assert s == h + size + text && s[n..n + 4] == size;
    }
  }
}

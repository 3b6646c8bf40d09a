/** TarsWriter and the two transaction builders of live_node_fisco.py. */
module TarsWriting {
  import opened Results
  import opened Tars

  const CHAIN_ID: Bytes := [99, 104, 97, 105, 110, 48]    // "chain0"
  const GROUP_ID: Bytes := [103, 114, 111, 117, 112, 48]  // "group0"
  const HEX_ZERO: Bytes := [48, 120, 48]                  // "0x0"

  /**
   * Every write appends to `buf`. `ok` is false when the call raises; the caller then
   * abandons the writer, so all that is said of `buf` is that nothing before it changed.
   */
  class TarsWriter {
    var buf: Bytes

    constructor ()
      ensures buf == []
    {
      buf := [];
    }

    method Head(tag: int, ttype: int) returns (ok: bool)
      requires 0 <= ttype < 16
      modifies this
      ensures ok <==> FitsTag(tag)
      ensures ok ==> buf == old(buf) + Tars.Head(tag, ttype)
      ensures old(buf) <= buf
    {
      if tag < 15 {
        if tag < 0 { return false; }
        buf := buf + [16 * tag + ttype];
      } else {
        buf := buf + [0xF0 + ttype];
        if tag > 255 { return false; }
        buf := buf + [tag];
      }
      ok := true;
    }

    method WriteInt(tag: int, value: int) returns (ok: bool)
      modifies this
      ensures ok <==> FitsTag(tag) && FitsInt(value, 4)
      ensures ok ==> FitsInt(value, 8) && buf == old(buf) + EncodeInt(tag, value)
      ensures old(buf) <= buf
    {
      Widths();
      if value == 0 {
        ok := Head(tag, ZERO_TAG);
      } else if -128 <= value <= 127 {
        ok := Head(tag, CHAR);
        if !ok { return; }
        var payload := Pack(value, 1);
        buf := buf + payload;
      } else if -32768 <= value <= 32767 {
        ok := Head(tag, SHORT);
        if !ok { return; }
        var payload := Pack(value, 2);
        buf := buf + payload;
      } else {
        ok := Head(tag, INT32);
        if !ok { return; }
        if !FitsInt(value, 4) { return false; }
        var payload := Pack(value, 4);
        buf := buf + payload;
      }
    }

    method WriteLong(tag: int, value: int) returns (ok: bool)
      modifies this
      ensures ok <==> FitsTag(tag) && FitsInt(value, 8)
      ensures ok ==> buf == old(buf) + Encode(Field(tag, Int(value)))
      ensures old(buf) <= buf
    {
      Widths();
      if -0x8000_0000 <= value <= 0x7FFF_FFFF {
        ok := WriteInt(tag, value);
      } else {
        ok := Head(tag, INT64);
        if !ok { return; }
        if !FitsInt(value, 8) { return false; }
        var payload := Pack(value, 8);
        buf := buf + payload;
      }
    }

    method WriteString(tag: int, text: Bytes) returns (ok: bool)
      modifies this
      ensures ok <==> Encodable(Field(tag, Str(text)))
      ensures ok ==> buf == old(buf) + Encode(Field(tag, Str(text)))
      ensures old(buf) <= buf
    {
      Widths();
      if |text| <= 255 {
        ok := Head(tag, STRING1);
        if !ok { return; }
        buf := buf + [|text|];
      } else {
        ok := Head(tag, STRING4);
        if !ok { return; }
        if |text| >= Pow256(4) { return false; }
        buf := buf + BigEndian(|text|, 4);
      }
      buf := buf + text;
    }

    method WriteBytes(tag: int, data: Bytes) returns (ok: bool)
      modifies this
      ensures ok <==> Encodable(Field(tag, Blob(data)))
      ensures ok ==> buf == old(buf) + Encode(Field(tag, Blob(data)))
      ensures old(buf) <= buf
    {
      ghost var start := buf;
      ok := Head(tag, SIMPLE_LIST);
      if !ok { return; }
      ok := Head(0, CHAR);
      ok := WriteInt(0, |data|);
      if !ok { return; }
      buf := buf + data;
      assert buf == start + EncodeBlob(tag, data);
    }

    /** Unlike WriteInt this does not mask the value, so 128..255 is written as it stands. */
    method WriteByte(tag: int, value: int) returns (ok: bool)
      modifies this
      ensures ok <==> FitsTag(tag) && 0 <= value < 256
      ensures ok ==> buf == old(buf) + EncodeByte(tag, value)
      ensures old(buf) <= buf
    {
      if value == 0 {
        ok := Head(tag, ZERO_TAG);
      } else {
        ok := Head(tag, CHAR);
        if !ok { return; }
        if value < 0 || value > 255 { return false; }
        buf := buf + [value];
      }
    }

    method EndStruct()
      modifies this
      ensures buf == old(buf) + [STRUCT_END]
    {
      buf := buf + [STRUCT_END];
    }
  }

  function EncodeByte(tag: int, value: int): Bytes
    requires FitsTag(tag) && 0 <= value < 256
  {
    if value == 0 then Tars.Head(tag, ZERO_TAG) else Tars.Head(tag, CHAR) + [value]
  }

  /** write_byte is undone by the decoder for 0..127 only: from 128 on, the byte reads back negative. */
  lemma ByteRoundTripIff(tag: int, value: int, rest: Bytes)
    requires FitsTag(tag) && 0 <= value < 256
    ensures DecodeField(EncodeByte(tag, value) + rest) == Done(Field(tag, Int(value)), rest) <==> value < 128
    ensures value < 128 ==> FitsInt(value, 8) && EncodeByte(tag, value) == EncodeInt(tag, value)
  {
    Widths();
    if value < 128 {
      assert value > 0 ==> Pack(value, 1) == BigEndian(0, 0) + [value];
      assert EncodeByte(tag, value) == Encode(Field(tag, Int(value)));
      FieldRoundTrip(Field(tag, Int(value)), rest);
    } else {
      var h := Tars.Head(tag, CHAR);
      assert h + [value] + rest == h + ([value] + rest);
      HeadRoundTrip(tag, CHAR, [value] + rest);
      BytesRoundTrip([value], rest);
      assert Unsigned([value]) == 256 * Unsigned([]) + value;
      assert Signed([value]) == value - 256;
    }
  }

  // ---------------------------------------------------------------------- transactions

  datatype Transaction = Transaction(
    to: Bytes, input: Bytes, version: int, blockLimit: int, gasLimit: int, nonce: Bytes)

  function LeadingFields(tx: Transaction): seq<Field> {
    [Field(1, Int(tx.version)), Field(2, Str(CHAIN_ID)), Field(3, Str(GROUP_ID)),
     Field(4, Int(tx.blockLimit)), Field(5, Str(tx.nonce)), Field(6, Str(tx.to))]
  }

  function TrailingFields(tx: Transaction): seq<Field> {
    [Field(9, Str(HEX_ZERO)), Field(10, Str(HEX_ZERO)), Field(11, Int(tx.gasLimit)),
     Field(12, Str(HEX_ZERO)), Field(13, Str(HEX_ZERO))]
  }

  /** The members of the transaction struct; the input (tag 7) is left out when empty. */
  function TransactionFields(tx: Transaction): (fields: seq<Field>)
    ensures (exists f | f in fields :: f.tag == 7) <==> tx.input != []
    ensures forall i, j | 0 <= i < j < |fields| :: fields[i].tag < fields[j].tag
  {
    LeadingFields(tx) + (if tx.input != [] then [Field(7, Blob(tx.input))] else []) + TrailingFields(tx)
  }

  // ---------------------------------------------------------------- reading it back by tag

  /** The value of the first member with that tag. */
  function MemberAt(fields: seq<Field>, tag: int): Option<Value> {
    if fields == [] then None else if fields[0].tag == tag then Some(fields[0].value) else MemberAt(fields[1..], tag)
  }

  lemma {:induction false} MemberIs(fields: seq<Field>, i: nat)
    requires i < |fields| && forall j, k | 0 <= j < k < |fields| :: fields[j].tag < fields[k].tag
    ensures MemberAt(fields, fields[i].tag) == Some(fields[i].value)
  {
    if i > 0 { MemberIs(fields[1..], i - 1); }
  }

  lemma {:induction false} NoMember(fields: seq<Field>, tag: int)
    requires forall f | f in fields :: f.tag != tag
    ensures MemberAt(fields, tag) == None
  {
    if fields != [] { NoMember(fields[1..], tag); }
  }

  predicate Spells(v: Option<Value>, text: string) {
    match v
    case Some(Str(s)) => |s| == |text| && forall i | 0 <= i < |s| :: s[i] == text[i] as int
    case _ => false
  }

  /** What a reader finds under each tag of the transaction struct. */
  predicate SaysTransaction(fields: seq<Field>, tx: Transaction) {
    && MemberAt(fields, 1) == Some(Int(tx.version))
    && Spells(MemberAt(fields, 2), "chain0") && Spells(MemberAt(fields, 3), "group0")
    && MemberAt(fields, 4) == Some(Int(tx.blockLimit))
    && MemberAt(fields, 5) == Some(Str(tx.nonce)) && MemberAt(fields, 6) == Some(Str(tx.to))
    && MemberAt(fields, 7) == (if tx.input == [] then None else Some(Blob(tx.input)))
    && Spells(MemberAt(fields, 9), "0x0") && Spells(MemberAt(fields, 10), "0x0")
    && MemberAt(fields, 11) == Some(Int(tx.gasLimit))
    && Spells(MemberAt(fields, 12), "0x0") && Spells(MemberAt(fields, 13), "0x0")
    && forall f | f in fields :: f.tag in {1, 2, 3, 4, 5, 6, 7, 9, 10, 11, 12, 13}
  }

  lemma FieldsSayTransaction(tx: Transaction)
    ensures SaysTransaction(TransactionFields(tx), tx)
  {
    var fields := TransactionFields(tx);
    forall i | 0 <= i < |fields| ensures MemberAt(fields, fields[i].tag) == Some(fields[i].value) {
      MemberIs(fields, i);
    }
    assert fields[0].tag == 1 && fields[1].tag == 2 && fields[2].tag == 3;
    assert fields[3].tag == 4 && fields[4].tag == 5 && fields[5].tag == 6;
    var n := |fields| - 5;
    assert fields[n].tag == 9 && fields[n + 1].tag == 10 && fields[n + 2].tag == 11;
    assert fields[n + 3].tag == 12 && fields[n + 4].tag == 13;
    if tx.input == [] { NoMember(fields, 7); } else { assert fields[6].tag == 7; }
  }

  /** Before any continuation, the bytes decode to members that say the transaction. */
  ghost predicate DecodesTo(bytes: Bytes, tx: Transaction) {
    forall rest :: match DecodeBody(bytes + rest)
                   case Done(fields, more) => more == rest && SaysTransaction(fields, tx)
                   case Fail => false
  }

  /** The same for the wrapper: the transaction under tag 1, hash, signature, and an attribute of 0. */
  ghost predicate DecodesToSigned(bytes: Bytes, tx: Transaction, hash: Bytes, signature: Bytes) {
    forall rest :: match DecodeBody(bytes + rest)
                   case Done(fields, more) => more == rest && SaysSigned(fields, tx, hash, signature)
                   case Fail => false
  }

  predicate SaysSigned(fields: seq<Field>, tx: Transaction, hash: Bytes, signature: Bytes) {
    && (match MemberAt(fields, 1) case Some(Struct(inner)) => SaysTransaction(inner, tx) case _ => false)
    && MemberAt(fields, 2) == Some(Blob(hash)) && MemberAt(fields, 3) == Some(Blob(signature))
    && MemberAt(fields, 9) == Some(Int(0)) && forall f | f in fields :: f.tag in {1, 2, 3, 9}
  }

  lemma FieldsSaySigned(tx: Transaction, hash: Bytes, signature: Bytes)
    ensures SaysSigned(SignedFields(tx, hash, signature), tx, hash, signature)
  {
    var fields := SignedFields(tx, hash, signature);
    FieldsSayTransaction(tx);
    forall i | 0 <= i < |fields| ensures MemberAt(fields, fields[i].tag) == Some(fields[i].value) {
      MemberIs(fields, i);
    }
    assert fields[0].tag == 1 && fields[1].tag == 2 && fields[2].tag == 3 && fields[3].tag == 9;
  }

  /** The argument ranges outside which building the transaction raises. */
  predicate Buildable(tx: Transaction) {
    && FitsInt(tx.version, 4) && FitsInt(tx.blockLimit, 8) && FitsInt(tx.gasLimit, 8)
    && |tx.nonce| < Pow256(4) && |tx.to| < Pow256(4) && |tx.input| < Half(4)
  }

  ghost predicate Holds(buf: Bytes, fields: seq<Field>) {
    (forall f | f in fields :: Encodable(f)) && buf == EncodeAll(fields)
  }

  lemma HoldsSnoc(before: Bytes, fields: seq<Field>, f: Field, after: Bytes)
    requires Holds(before, fields) && Encodable(f) && after == before + Encode(f)
    ensures Holds(after, fields + [f])
  {
    EncodeAllSnoc(fields, f);
  }

  /** One field through the writer method that serves its kind; build_transaction_data is a run of these. */
  method Put(writer: TarsWriter, f: Field, ghost fields: seq<Field>) returns (ok: bool)
    requires !f.value.Struct? && Holds(writer.buf, fields)
    modifies writer
    ensures ok <==> Encodable(f)
    ensures ok ==> Holds(writer.buf, fields + [f])
  {
    ghost var before := writer.buf;
    match f.value {
      case Int(n) => ok := writer.WriteLong(f.tag, n);
      case Str(text) => ok := writer.WriteString(f.tag, text);
      case Blob(data) => ok := writer.WriteBytes(f.tag, data);
    }
    if ok { HoldsSnoc(before, fields, f, writer.buf); }
  }

  /** Tags 1 to 6. */
  method WriteLeading(writer: TarsWriter, tx: Transaction) returns (ok: bool)
    requires writer.buf == []
    modifies writer
    ensures ok <==> FitsInt(tx.version, 4) && FitsInt(tx.blockLimit, 8) && |tx.nonce| < Pow256(4) && |tx.to| < Pow256(4)
    ensures ok ==> Holds(writer.buf, LeadingFields(tx))
  {
    Widths();
    ok := writer.WriteInt(1, tx.version);
    if !ok { return; }
    ghost var fields := [Field(1, Int(tx.version))];
    HoldsSnoc([], [], fields[0], writer.buf);
    ok := Put(writer, Field(2, Str(CHAIN_ID)), fields);
    fields := fields + [Field(2, Str(CHAIN_ID))];
    ok := Put(writer, Field(3, Str(GROUP_ID)), fields);
    fields := fields + [Field(3, Str(GROUP_ID))];
    ok := Put(writer, Field(4, Int(tx.blockLimit)), fields);
    if !ok { return; }
    fields := fields + [Field(4, Int(tx.blockLimit))];
    ok := Put(writer, Field(5, Str(tx.nonce)), fields);
    if !ok { return; }
    fields := fields + [Field(5, Str(tx.nonce))];
    ok := Put(writer, Field(6, Str(tx.to)), fields);
    assert fields + [Field(6, Str(tx.to))] == LeadingFields(tx);
  }

  /** Tags 9 to 13. */
  method WriteTrailing(writer: TarsWriter, tx: Transaction, ghost before: seq<Field>) returns (ok: bool)
    requires Holds(writer.buf, before)
    modifies writer
    ensures ok <==> FitsInt(tx.gasLimit, 8)
    ensures ok ==> Holds(writer.buf, before + TrailingFields(tx))
  {
    Widths();
    ghost var fields := before;
    ok := Put(writer, Field(9, Str(HEX_ZERO)), fields);
    fields := fields + [Field(9, Str(HEX_ZERO))];
    ok := Put(writer, Field(10, Str(HEX_ZERO)), fields);
    fields := fields + [Field(10, Str(HEX_ZERO))];
    ok := Put(writer, Field(11, Int(tx.gasLimit)), fields);
    if !ok { return; }
    fields := fields + [Field(11, Int(tx.gasLimit))];
    ok := Put(writer, Field(12, Str(HEX_ZERO)), fields);
    fields := fields + [Field(12, Str(HEX_ZERO))];
    ok := Put(writer, Field(13, Str(HEX_ZERO)), fields);
    assert fields + [Field(13, Str(HEX_ZERO))] == before + TrailingFields(tx);
  }

  /** What a closed body gives its reader: the fields back before any continuation, and nothing from a part of it. */
  lemma ClosedBody(buf: Bytes, fields: seq<Field>)
    requires Holds(buf, fields)
    ensures buf + [STRUCT_END] == EncodeBody(fields)
    ensures forall rest :: DecodeBody(buf + [STRUCT_END] + rest) == Done(fields, rest)
    ensures forall cut | 0 <= cut < |buf| + 1 :: DecodeBody((buf + [STRUCT_END])[..cut]).Fail?
  {
    forall rest ensures DecodeBody(buf + [STRUCT_END] + rest) == Done(fields, rest) {
      BodyRoundTrip(fields, rest);
    }
    forall cut | 0 <= cut < |buf| + 1 ensures DecodeBody((buf + [STRUCT_END])[..cut]).Fail? {
      NoProperPrefix(fields, cut);
    }
  }

  /** An empty nonce is replaced by a generated one. */
  function WithNonce(tx: Transaction, generated: Bytes): (r: Transaction)
    ensures r.to == tx.to && r.input == tx.input && r.version == tx.version
    ensures r.blockLimit == tx.blockLimit && r.gasLimit == tx.gasLimit
    ensures r.nonce == if |tx.nonce| == 0 then generated else tx.nonce
  {
    if tx.nonce == [] then tx.(nonce := generated) else tx
  }

  method BuildTransactionData(given: Transaction, generated: Bytes) returns (r: Option<Bytes>)
    ensures var tx := WithNonce(given, generated);
            && (r.Some? <==> Buildable(tx))
            && (r.Some? ==> forall rest :: DecodeBody(r.value + rest) == Done(TransactionFields(tx), rest))
            && (r.Some? ==> forall cut | 0 <= cut < |r.value| :: DecodeBody(r.value[..cut]).Fail?)
            && (r.Some? ==> (forall f | f in TransactionFields(tx) :: Encodable(f))
                            && r.value == EncodeBody(TransactionFields(tx)))
            && (r.Some? ==> DecodesTo(r.value, tx))
  {
    var tx := WithNonce(given, generated);
    FieldsSayTransaction(tx);
    r := WriteTransaction(tx);
  }

  method WriteTransaction(tx: Transaction) returns (r: Option<Bytes>)
    ensures r.Some? <==> Buildable(tx)
    ensures r.Some? ==> forall rest :: DecodeBody(r.value + rest) == Done(TransactionFields(tx), rest)
    ensures r.Some? ==> forall cut | 0 <= cut < |r.value| :: DecodeBody(r.value[..cut]).Fail?
    ensures r.Some?
            ==> (forall f | f in TransactionFields(tx) :: Encodable(f)) && r.value == EncodeBody(TransactionFields(tx))
  {
    var writer := new TarsWriter();
    var ok := WriteLeading(writer, tx);
    if !ok { return None; }
    ghost var fields := LeadingFields(tx);
    if tx.input != [] {
      ok := Put(writer, Field(7, Blob(tx.input)), fields);
      if !ok { return None; }
      fields := fields + [Field(7, Blob(tx.input))];
    }
    ok := WriteTrailing(writer, tx, fields);
    if !ok { return None; }
    assert fields + TrailingFields(tx) == TransactionFields(tx);
    ClosedBody(writer.buf, TransactionFields(tx));
    writer.EndStruct();
    r := Some(writer.buf);
  }

  /** Two transactions with the same bytes are the same transaction. */
  lemma TransactionFieldsInjective(a: Transaction, b: Transaction)
    requires TransactionFields(a) == TransactionFields(b)
    ensures a == b
  {
    var fa, fb := TransactionFields(a), TransactionFields(b);
    assert fa[0] == fb[0] && fa[3] == fb[3] && fa[4] == fb[4] && fa[5] == fb[5];
    if a.input == [] {
      assert fa[8] == Field(11, Int(a.gasLimit)) && |fa| == 11;
      assert fb[8] == fa[8];
    } else {
      assert fa[6] == Field(7, Blob(a.input)) && fa[9] == Field(11, Int(a.gasLimit)) && |fa| == 12;
      assert fb[6] == fa[6] && fb[9] == fa[9];
    }
  }

  function SignedFields(tx: Transaction, hash: Bytes, signature: Bytes): seq<Field> {
    [Field(1, Struct(TransactionFields(tx))), Field(2, Blob(hash)), Field(3, Blob(signature)), Field(9, Int(0))]
  }

  /**
   * The signed wrapper, with the hash and the signature as inputs. The end marker that
   * build_transaction_data leaves is the one that closes the nested struct opened here.
   */
  method BuildNativeTransaction(tx: Transaction, hash: Bytes, signature: Bytes) returns (r: Option<Bytes>)
    requires tx.nonce != []
    ensures r.Some? <==> Buildable(tx) && |hash| < Half(4) && |signature| < Half(4)
    ensures r.Some? ==> forall rest :: DecodeBody(r.value + rest) == Done(SignedFields(tx, hash, signature), rest)
    ensures r.Some? ==> forall cut | 0 <= cut < |r.value| :: DecodeBody(r.value[..cut]).Fail?
    ensures r.Some? ==> DecodesToSigned(r.value, tx, hash, signature)
  {
    FieldsSaySigned(tx, hash, signature);
    r := WriteSigned(tx, hash, signature);
  }

  method WriteSigned(tx: Transaction, hash: Bytes, signature: Bytes) returns (r: Option<Bytes>)
    requires tx.nonce != []
    ensures r.Some? <==> Buildable(tx) && |hash| < Half(4) && |signature| < Half(4)
    ensures r.Some? ==> forall rest :: DecodeBody(r.value + rest) == Done(SignedFields(tx, hash, signature), rest)
    ensures r.Some? ==> forall cut | 0 <= cut < |r.value| :: DecodeBody(r.value[..cut]).Fail?
  {
    var writer := new TarsWriter();
    var ok := WriteNested(writer, tx);
    if !ok { return None; }
    ghost var fields := [Field(1, Struct(TransactionFields(tx)))];
    ok := Put(writer, Field(2, Blob(hash)), fields);
    if !ok { return None; }
    fields := fields + [Field(2, Blob(hash))];
    ok := Put(writer, Field(3, Blob(signature)), fields);
    if !ok { return None; }
    fields := fields + [Field(3, Blob(signature))];
    PutAttribute(writer, fields);
    fields := fields + [Field(9, Int(0))];
    assert fields == SignedFields(tx, hash, signature);
    ClosedBody(writer.buf, fields);
    writer.EndStruct();
    r := Some(writer.buf);
  }

  /** The transaction struct under tag 1; the end marker it brings along closes it. */
  method WriteNested(writer: TarsWriter, tx: Transaction) returns (ok: bool)
    requires writer.buf == [] && tx.nonce != []
    modifies writer
    ensures ok <==> Buildable(tx)
    ensures ok ==> Holds(writer.buf, [Field(1, Struct(TransactionFields(tx)))])
  {
    ok := writer.Head(1, STRUCT_BEGIN);
    var data := BuildTransactionData(tx, tx.nonce);
    if data.None? { return false; }
    writer.buf := writer.buf + data.value;
    HoldsSnoc([], [], Field(1, Struct(TransactionFields(tx))), writer.buf);
  }

  /** write_byte(9, 0) */
  method PutAttribute(writer: TarsWriter, ghost fields: seq<Field>)
    requires Holds(writer.buf, fields)
    modifies writer
    ensures Holds(writer.buf, fields + [Field(9, Int(0))])
  {
    Widths();
    ghost var before := writer.buf;
    var ok := writer.WriteByte(9, 0);
    ByteRoundTripIff(9, 0, []);
    HoldsSnoc(before, fields, Field(9, Int(0)), writer.buf);
  }
}

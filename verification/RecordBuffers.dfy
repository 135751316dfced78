/** Encode and DecodeRecord (internal/storage/record.go) as they run: one buffer, filled and walked
    with a moving offset. */
module RecordBuffers {
  import opened Bytes
  import opened Records

  /** Writing into a slice of the buffer. */
  method WriteAt(buf: array<byte>, at: nat, src: seq<byte>)
    requires at + |src| <= buf.Length
    modifies buf
    ensures buf[..] == old(buf[..at]) + src + old(buf[at + |src|..])
  {
    ghost var before := buf[..];
    for i := 0 to |src|
      invariant buf[..] == before[..at] + src[..i] + before[at + i..]
    {
      buf[at + i] := src[i];
    }
    assert src[..|src|] == src;
  }

  /** A length-prefixed field; nil is the all-ones length. */
  method WriteField(buf: array<byte>, at: nat, f: Payload) returns (off: nat)
    requires at + FieldSize(f) <= buf.Length
    modifies buf
    ensures off == at + FieldSize(f)
    ensures buf[..] == old(buf[..at]) + PutField(f) + old(buf[off..])
  {
    hide PutU32;
    ghost var before := buf[..];
    match f {
      case None =>
        WriteAt(buf, at, PutU32(NULL_LENGTH));
        off := at + 4;
      case Some(b) =>
        WriteAt(buf, at, PutU32(ToUint32(|b|)));
        WriteAt(buf, at + 4, b);
        off := at + 4 + |b|;
        assert buf[..] == before[..at] + (PutU32(ToUint32(|b|)) + b) + before[off..];
    }
  }

  /** Encode: the checksum goes in last, over the bytes already written behind it. */
  method Encode(r: Record) returns (out: Option<seq<byte>>)
    ensures out == if Encodable(r) then Some(Wire(r)) else None
  {
    hide PutU32, PutI64, PutField;
    var total := EncodedSize(r);
    if total > MAX_RECORD_SIZE {
      return None;
    }
    var buf := new byte[total](_ => 0);
    WriteAt(buf, 0, PutU32(ToUint32(total - 4)));
    WriteAt(buf, 4, PutI64(r.offset));
    WriteAt(buf, 12, PutI64(r.timestamp));
    ghost var head := PutU32(ToUint32(total - 4)) + PutI64(r.offset) + PutI64(r.timestamp);
    assert buf[..20] == head;
    WriteBody(buf, r, head);
    var checksum := Crc32c(buf[24..]);
    WriteAt(buf, 20, PutU32(checksum));
    assert buf[..] == head + PutU32(checksum) + Body(r);
    out := Some(buf[..]);
  }

  method WriteBody(buf: array<byte>, r: Record, ghost head: seq<byte>)
    requires buf.Length == EncodedSize(r) && |head| == 20 && buf[..20] == head
    modifies buf
    ensures buf[..20] == head && buf[24..] == Body(r)
  {
    hide PutU32, PutField;
    var off := 24;
    WriteAt(buf, off, [FromInt8(r.attributes)]);
    off := off + 1;
    assert buf[24..25] == [FromInt8(r.attributes)];
    off := WriteField(buf, off, r.key);
    assert buf[24..off] == [FromInt8(r.attributes)] + PutField(r.key);
    off := WriteField(buf, off, r.value);
    assert buf[24..off] == [FromInt8(r.attributes)] + PutField(r.key) + PutField(r.value);
  }

  /** One length-prefixed field of the payload, from `at` on. */
  method ReadField(payload: seq<byte>, at: nat) returns (f: FieldParse, off: nat)
    requires at <= |payload|
    ensures f == ParseField(payload[at..])
    ensures f.Parsed? ==> off <= |payload| && f.rest == payload[off..]
  {
    hide GetI32;
    off := at;
    if off + 4 > |payload| {
      return Malformed(UnexpectedEof), off;
    }
    assert payload[at..][..4] == payload[off..off + 4];
    var length := GetI32(payload[off..off + 4]);
    off := off + 4;
    if length == -1 {
      assert payload[at..][4..] == payload[off..];
      return Parsed(None, payload[off..]), off;
    }
    if length < 0 {
      return Malformed(Corrupt), off;
    }
    if off + length > |payload| {
      return Malformed(UnexpectedEof), off;
    }
    assert payload[at..][4..4 + length] == payload[off..off + length];
    assert payload[at..][4 + length..] == payload[off + length..];
    f := Parsed(Some(payload[off..off + length]), payload[off + length..]);
    off := off + length;
  }

  /** DecodeRecord on the bytes a reader still holds. */
  method DecodeRecord(data: seq<byte>) returns (d: Decoding)
    ensures d == Decode(data)
  {
    hide GetI32, DecodePayload;
    if |data| == 0 {
      return Failed(Eof);
    }
    if |data| < 4 {
      return Failed(UnexpectedEof);
    }
    var length := GetI32(data[..4]);
    if length < 0 {
      return Failed(Corrupt);
    }
    if length > MAX_RECORD_SIZE {
      return Failed(TooLarge);
    }
    if 4 + length > |data| {
      return Failed(if |data| == 4 then Eof else UnexpectedEof);
    }
    d := WalkPayload(data[4..4 + length]);
  }

  method WalkPayload(payload: seq<byte>) returns (d: Decoding)
    ensures d == DecodePayload(payload)
  {
    hide GetI64, GetU32, ParseField;
    if |payload| < MIN_PAYLOAD {
      return Failed(UnexpectedEof);
    }
    var off := 0;
    var offset := GetI64(payload[off..off + 8]);
    off := off + 8;
    var timestamp := GetI64(payload[off..off + 8]);
    off := off + 8;
    var checksum := GetU32(payload[off..off + 4]);
    off := off + 4;
    if Crc32c(payload[off..]) != checksum {
      return Failed(Corrupt);
    }
    var attributes := ToInt8(payload[off]);
    off := off + 1;
    var key, keyEnd := ReadField(payload, off);
    if key.Malformed? {
      return Failed(key.error);
    }
    var value, _ := ReadField(payload, keyEnd);
    if value.Malformed? {
      return Failed(value.error);
    }
    assert payload[0..8] == payload[..8];
    d := Decoded(Record(offset, timestamp, attributes, key.field, value.field), 4 + |payload|);
  }
}

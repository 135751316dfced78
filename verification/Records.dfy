/** The on-disk record format of internal/storage/record.go: encoding, decoding with every
    error path, and the framing laws the rest of the storage layer stands on. */
module Records {
  import opened Bytes

  /** A nil slice and an empty slice are different values to the encoder. */
  type Payload = Option<seq<byte>>

  datatype Record = Record(offset: int64, timestamp: int64, attributes: int8, key: Payload, value: Payload)

  const MAX_RECORD_SIZE: int := 1_048_576
  const NULL_LENGTH: uint32 := 0xFFFF_FFFF
  const MIN_PAYLOAD: int := 8 + 8 + 4 + 1 + 4 + 4

  /** The CRC32-Castagnoli checksum, left uninterpreted: every result holds for any checksum. */
  const Crc32c: seq<byte> -> uint32

  function FieldSize(f: Payload): nat {
    4 + if f.Some? then |f.value| else 0
  }

  function EncodedSize(r: Record): nat {
    4 + 8 + 8 + 4 + 1 + FieldSize(r.key) + FieldSize(r.value)
  }

  predicate Encodable(r: Record) {
    EncodedSize(r) <= MAX_RECORD_SIZE
  }

  function PutField(f: Payload): (s: seq<byte>)
    ensures |s| == FieldSize(f)
  {
    match f
    case None => PutU32(NULL_LENGTH)
    case Some(b) => PutU32(ToUint32(|b|)) + b
  }

  /** Attributes through value: the region the checksum covers. */
  function Body(r: Record): (s: seq<byte>)
    ensures |s| == EncodedSize(r) - 24
  {
    [FromInt8(r.attributes)] + PutField(r.key) + PutField(r.value)
  }

  /** The wire image; `Encode` writes it only for a record that fits. */
  function Wire(r: Record): (s: seq<byte>)
    ensures |s| == EncodedSize(r)
  {
    PutU32(ToUint32(EncodedSize(r) - 4)) + PutI64(r.offset) + PutI64(r.timestamp) + PutU32(Crc32c(Body(r))) + Body(r)
  }

  datatype DecodeError = Eof | UnexpectedEof | Corrupt | TooLarge

  datatype Decoding = Decoded(rec: Record, n: nat) | Failed(error: DecodeError)

  datatype FieldParse = Parsed(field: Payload, rest: seq<byte>) | Malformed(error: DecodeError)

  function ParseField(s: seq<byte>): FieldParse {
    if |s| < 4 then Malformed(UnexpectedEof)
    else
      var len := GetI32(s[..4]);
      if len == -1 then Parsed(None, s[4..])
      else if len < 0 then Malformed(Corrupt)
      else if 4 + len > |s| then Malformed(UnexpectedEof)
      else Parsed(Some(s[4..4 + len]), s[4 + len..])
  }

  function DecodePayload(payload: seq<byte>): Decoding {
    if |payload| < MIN_PAYLOAD then Failed(UnexpectedEof)
    else if Crc32c(payload[20..]) != GetU32(payload[16..20]) then Failed(Corrupt)
    else
      match ParseField(payload[21..])
      case Malformed(e) => Failed(e)
      case Parsed(key, rest) =>
        match ParseField(rest)
        case Malformed(e) => Failed(e)
        case Parsed(value, _) =>
          var rec := Record(GetI64(payload[..8]), GetI64(payload[8..16]), ToInt8(payload[20]), key, value);
          Decoded(rec, 4 + |payload|)
  }

  /** DecodeRecord on a reader that still holds `data`. A reader at its end is told apart
      from one that ends inside a record, as io.ReadFull does. */
  function Decode(data: seq<byte>): (d: Decoding)
    ensures d.Decoded? ==> 0 < d.n <= |data|
  {
    if |data| == 0 then Failed(Eof)
    else if |data| < 4 then Failed(UnexpectedEof)
    else
      var length := GetI32(data[..4]);
      if length < 0 then Failed(Corrupt)
      else if length > MAX_RECORD_SIZE then Failed(TooLarge)
      else if 4 + length > |data| then Failed(if |data| == 4 then Eof else UnexpectedEof)
      else DecodePayload(data[4..4 + length])
  }

  /** The reader ran out of bytes, as opposed to reading bytes it rejects. */
  predicate AtEnd(d: Decoding) {
    d.Failed? && (d.error.Eof? || d.error.UnexpectedEof?)
  }

  // ---- Framing -------------------------------------------------------------------------

  lemma {:induction false} LengthPrefix(n: nat, s: seq<byte>)
    requires n <= MAX_INT32 && 4 <= |s| && s[..4] == PutU32(n)
    ensures GetI32(s[..4]) == n
  {
    U32RoundTrip(n);
  }

  lemma {:induction false} FieldRoundTrip(f: Payload, rest: seq<byte>)
    requires FieldSize(f) <= MAX_RECORD_SIZE
    ensures ParseField(PutField(f) + rest) == Parsed(f, rest)
  {
    hide PutU32, GetU32;
    var s := PutField(f) + rest;
    match f
    case None =>
      assert s[..4] == PutU32(NULL_LENGTH) && s[4..] == rest;
      U32RoundTrip(NULL_LENGTH);
    case Some(b) =>
      assert s[..4] == PutU32(|b|) && s[4..4 + |b|] == b && s[4 + |b|..] == rest;
      LengthPrefix(|b|, s);
  }

  /** The six regions of a wire image. */
  lemma {:induction false} WireLayout(r: Record)
    requires Encodable(r)
    ensures Wire(r)[..4] == PutU32(EncodedSize(r) - 4)
    ensures Wire(r)[4..12] == PutI64(r.offset)
    ensures Wire(r)[12..20] == PutI64(r.timestamp)
    ensures Wire(r)[20..24] == PutU32(Crc32c(Body(r)))
    ensures Wire(r)[24..] == Body(r)
  {
    hide PutU32, PutI64, Body;
  }

  lemma {:induction false} BodyLayout(r: Record)
    ensures Body(r)[0] == FromInt8(r.attributes)
    ensures Body(r)[1..] == PutField(r.key) + PutField(r.value)
  {
    hide PutField;
  }

  lemma {:induction false} PayloadRoundTrip(r: Record)
    requires Encodable(r)
    ensures DecodePayload(Wire(r)[4..]) == Decoded(r, EncodedSize(r))
  {
    hide Wire, Body, PutField, ParseField, GetI64, PutI64, GetU32, PutU32;
    WireLayout(r);
    BodyLayout(r);
    var p := Wire(r)[4..];
    assert p[..8] == Wire(r)[4..12];
    assert p[8..16] == Wire(r)[12..20];
    assert p[16..20] == Wire(r)[20..24];
    assert p[20..] == Wire(r)[24..];
    I64RoundTrip(r.offset);
    I64RoundTrip(r.timestamp);
    U32RoundTrip(Crc32c(Body(r)));
    assert p[20] == Body(r)[0] && p[21..] == Body(r)[1..];
    FieldRoundTrip(r.key, PutField(r.value));
    assert PutField(r.value) == PutField(r.value) + [];
    FieldRoundTrip(r.value, []);
  }

  /** Decoding an encoded record followed by any bytes returns that record, with nil and empty
      payloads kept apart, and consumes exactly its encoded size. */
  lemma {:induction false} DecodeWire(r: Record, rest: seq<byte>)
    requires Encodable(r)
    ensures Decode(Wire(r) + rest) == Decoded(r, EncodedSize(r))
  {
    hide Wire, DecodePayload, GetI32, PutU32;
    WireLayout(r);
    var s := Wire(r) + rest;
    assert s[..4] == Wire(r)[..4];
    LengthPrefix(EncodedSize(r) - 4, s);
    assert s[4..EncodedSize(r)] == Wire(r)[4..];
    PayloadRoundTrip(r);
  }

  /** No strict prefix of an encoding decodes: the reader always reports running out. */
  lemma {:induction false} CutWire(r: Record, k: nat)
    requires Encodable(r) && k < EncodedSize(r)
    ensures AtEnd(Decode(Wire(r)[..k]))
  {
    hide Wire, DecodePayload, GetI32, PutU32;
    WireLayout(r);
    var s := Wire(r)[..k];
    if k >= 4 {
      assert s[..4] == Wire(r)[..4];
      LengthPrefix(EncodedSize(r) - 4, s);
    }
  }

  lemma {:induction false} FieldBack(s: seq<byte>)
    requires |s| <= MAX_INT32 && ParseField(s).Parsed?
    ensures s == PutField(ParseField(s).field) + ParseField(s).rest
  {
    hide PutU32, GetU32;
    U32Back(s[..4]);
    assert s == s[..4] + s[4..];
    if GetI32(s[..4]) >= 0 {
      var len := GetI32(s[..4]);
      assert s[4..] == s[4..4 + len] + s[4 + len..];
    }
  }

  /** What decodes is what was encoded: if the bytes in front of the reader decode to a record that
      accounts for all of them, they are that record's encoding, checksum included. */
  lemma {:induction false} DecodedIsWire(data: seq<byte>)
    requires Decode(data).Decoded? && Decode(data).n == EncodedSize(Decode(data).rec)
    ensures data[..Decode(data).n] == Wire(Decode(data).rec)
  {
    hide PutU32, GetU32, PutI64, GetI64, PutField, ParseField, EncodedSize, Wire;
    var length := GetI32(data[..4]);
    var payload := data[4..4 + length];
    var r := Decode(data).rec;
    U32Back(data[..4]);
    assert data[..4 + length] == data[..4] + payload;
    PayloadBack(payload);
    SizeFits(r);
  }

  lemma {:induction false} SizeFits(r: Record)
    requires EncodedSize(r) <= MAX_RECORD_SIZE + 4
    ensures ToUint32(EncodedSize(r) - 4) == EncodedSize(r) - 4
    ensures Wire(r) == PutU32(EncodedSize(r) - 4) + (PutI64(r.offset) + PutI64(r.timestamp) + PutU32(Crc32c(Body(r))) + Body(r))
  {
    hide PutU32, PutI64, Body;
  }

  lemma {:induction false} PayloadBack(payload: seq<byte>)
    requires |payload| <= MAX_RECORD_SIZE && DecodePayload(payload).Decoded? && DecodePayload(payload).n == EncodedSize(DecodePayload(payload).rec)
    ensures var r := DecodePayload(payload).rec;
            payload == PutI64(r.offset) + PutI64(r.timestamp) + PutU32(Crc32c(Body(r))) + Body(r)
  {
    hide PutU32, GetU32, PutI64, GetI64, PutField, ParseField;
    var r := DecodePayload(payload).rec;
    I64Back(payload[..8]);
    I64Back(payload[8..16]);
    U32Back(payload[16..20]);
    FieldBack(payload[21..]);
    var rest := ParseField(payload[21..]).rest;
    FieldBack(rest);
    var tail := ParseField(rest).rest;
    assert payload[21..] == PutField(r.key) + PutField(r.value) + tail;
    assert |tail| == 0;
    assert payload[20..] == [payload[20]] + payload[21..];
    assert payload[20..] == Body(r);
    assert payload == payload[..8] + payload[8..16] + payload[16..20] + payload[20..];
  }

  /** A record whose checksummed region was altered is reported as corrupt, unless the checksum of the
      altered bytes happens to be the same. */
  lemma {:induction false} CorruptionDetected(r: Record, body: seq<byte>, rest: seq<byte>)
    requires Encodable(r) && |body| == |Body(r)|
    ensures var data := Wire(r)[..24] + body + rest;
            Crc32c(body) != Crc32c(Body(r)) ==> Decode(data) == Failed(Corrupt)
  {
    hide Wire, Body, PutU32, GetU32, ParseField;
    WireLayout(r);
    var data := Wire(r)[..24] + body + rest;
    assert data[..4] == Wire(r)[..4];
    LengthPrefix(EncodedSize(r) - 4, data);
    var payload := data[4..EncodedSize(r)];
    assert payload[16..20] == Wire(r)[20..24] && payload[20..] == body;
    U32RoundTrip(Crc32c(Body(r)));
  }

  /** A length field that is negative or above the limit is refused before anything else is read. */
  lemma {:induction false} LengthRefused(length: int32, rest: seq<byte>)
    ensures length < 0 ==> Decode(PutI32(length) + rest) == Failed(Corrupt)
    ensures length > MAX_RECORD_SIZE ==> Decode(PutI32(length) + rest) == Failed(TooLarge)
  {
    hide PutI32, GetI32;
    assert (PutI32(length) + rest)[..4] == PutI32(length);
    I32RoundTrip(length);
  }

  // ---- Concatenated records --------------------------------------------------------------

  predicate AllEncodable(recs: seq<Record>) {
    forall i :: 0 <= i < |recs| ==> Encodable(recs[i])
  }

  function Size(recs: seq<Record>): nat {
    if recs == [] then 0 else Size(recs[..|recs| - 1]) + EncodedSize(recs[|recs| - 1])
  }

  /** A record set, or the contents of a segment file: encodings back to back. */
  function Wires(recs: seq<Record>): (s: seq<byte>)
    ensures |s| == Size(recs)
  {
    if recs == [] then [] else Wires(recs[..|recs| - 1]) + Wire(recs[|recs| - 1])
  }

  lemma {:induction false} SizeConcat(a: seq<Record>, b: seq<Record>)
    ensures Size(a + b) == Size(a) + Size(b)
  {
    if b == [] {
      assert a + b == a;
    } else {
      SizeConcat(a, b[..|b| - 1]);
      assert (a + b)[..|a + b| - 1] == a + b[..|b| - 1];
    }
  }

  lemma {:induction false} WiresConcat(a: seq<Record>, b: seq<Record>)
    ensures Wires(a + b) == Wires(a) + Wires(b)
  {
    hide Wire, Wires;
    NoWires();
    if b == [] {
      assert a + b == a;
    } else {
      var front := b[..|b| - 1];
      WiresConcat(a, front);
      WiresLast(b);
      WiresLast(a + b);
      assert (a + b)[..|a + b| - 1] == a + front;
      Assoc(Wires(a), Wires(front), Wire(b[|b| - 1]));
    }
  }

  lemma {:induction false} WiresLast(recs: seq<Record>)
    requires recs != []
    ensures Wires(recs) == Wires(recs[..|recs| - 1]) + Wire(recs[|recs| - 1])
  {
    hide Wire;
  }

  lemma {:induction false} NoWires()
    ensures Wires([]) == []
  {
  }

  lemma {:induction false} Assoc(a: seq<byte>, b: seq<byte>, c: seq<byte>)
    ensures a + (b + c) == (a + b) + c
  {
  }

  /** Where record i starts: dropping that many bytes leaves the encodings from i on. */
  lemma {:induction false} WiresSplit(recs: seq<Record>, i: nat)
    requires i <= |recs|
    ensures Size(recs[..i]) + Size(recs[i..]) == Size(recs)
    ensures Wires(recs)[..Size(recs[..i])] == Wires(recs[..i])
    ensures Wires(recs)[Size(recs[..i])..] == Wires(recs[i..])
  {
    hide *;
    assert recs == recs[..i] + recs[i..];
    WiresConcat(recs[..i], recs[i..]);
    SizeConcat(recs[..i], recs[i..]);
  }

  /** Records before i end no later than record i starts. */
  lemma {:induction false} SizeMonotone(recs: seq<Record>, i: nat, j: nat)
    requires i <= j <= |recs|
    ensures Size(recs[..i]) + 33 * (j - i) <= Size(recs[..j])
  {
    if i < j {
      SizeMonotone(recs, i, j - 1);
      assert recs[..j][..j - 1] == recs[..j - 1];
    }
  }

  lemma {:induction false} SizeStep(recs: seq<Record>, i: nat)
    requires i < |recs|
    ensures Size(recs[..i + 1]) == Size(recs[..i]) + EncodedSize(recs[i])
  {
    assert recs[..i + 1][..i] == recs[..i];
  }

  lemma {:induction false} SizeFront(recs: seq<Record>)
    requires recs != []
    ensures Size(recs) == EncodedSize(recs[0]) + Size(recs[1..])
  {
    assert recs == [recs[0]] + recs[1..];
    SizeConcat([recs[0]], recs[1..]);
    assert [recs[0]][..0] == [];
    assert Size([recs[0]]) == EncodedSize(recs[0]);
  }

  lemma {:induction false} WiresSingle(r: Record)
    ensures Size([r]) == EncodedSize(r)
    ensures Wires([r]) == Wire(r)
  {
    hide Wire, EncodedSize;
    assert [r][..0] == [];
  }

  /** From the start of record i on, a record set is that record's encoding and the rest. */
  lemma {:induction false} WiresAt(recs: seq<Record>, i: nat)
    requires i < |recs|
    ensures Size(recs[..i]) + EncodedSize(recs[i]) + Size(recs[i + 1..]) == Size(recs)
    ensures Wires(recs)[Size(recs[..i])..] == Wire(recs[i]) + Wires(recs[i + 1..])
  {
    hide Wire, Wires, Size, EncodedSize;
    WiresSplit(recs, i);
    assert recs[i..] == [recs[i]] + recs[i + 1..];
    WiresConcat([recs[i]], recs[i + 1..]);
    SizeConcat([recs[i]], recs[i + 1..]);
    WiresSingle(recs[i]);
  }

  /** The decoder at the start of record i of a record set, whatever follows the set. */
  lemma {:induction false} DecodeAt(recs: seq<Record>, i: nat, tail: seq<byte>)
    requires AllEncodable(recs) && i < |recs|
    ensures Size(recs[..i]) < Size(recs)
    ensures Decode((Wires(recs) + tail)[Size(recs[..i])..]) == Decoded(recs[i], EncodedSize(recs[i]))
  {
    hide Wire, Wires, Size, Decode, EncodedSize;
    var p := Size(recs[..i]);
    WiresAt(recs, i);
    DecodeWire(recs[i], Wires(recs[i + 1..]) + tail);
    assert (Wires(recs) + tail)[p..] == Wires(recs)[p..] + tail;
    Assoc(Wire(recs[i]), Wires(recs[i + 1..]), tail);
    assert 0 < EncodedSize(recs[i]) by { EncodedSizePositive(recs[i]); }
  }

  lemma {:induction false} EncodedSizePositive(r: Record)
    ensures EncodedSize(r) >= 33
  {
  }

  // ---- Scanning a file -------------------------------------------------------------------

  /** One decoded record together with the bytes it took. */
  datatype Frame = Frame(rec: Record, n: nat)

  /** What a scan from the start of `data` decodes before its first error. */
  function Frames(data: seq<byte>): (fs: seq<Frame>)
    decreases |data|
  {
    match Decode(data)
    case Failed(_) => []
    case Decoded(rec, n) => [Frame(rec, n)] + Frames(data[n..])
  }

  function FrameOf(r: Record): Frame { Frame(r, EncodedSize(r)) }

  function FramesOf(recs: seq<Record>): (fs: seq<Frame>)
    ensures |fs| == |recs| && forall i :: 0 <= i < |recs| ==> fs[i] == FrameOf(recs[i])
  {
    seq(|recs|, i requires 0 <= i < |recs| => FrameOf(recs[i]))
  }

  /** A scan of encoded records followed by bytes that do not decode finds exactly the records. */
  lemma {:induction false} FramesOfWires(recs: seq<Record>, tail: seq<byte>)
    requires AllEncodable(recs) && Decode(tail).Failed?
    ensures Frames(Wires(recs) + tail) == FramesOf(recs)
    decreases |recs|
  {
    hide Wire, Decode, EncodedSize;
    if recs == [] {
      assert Wires(recs) == [];
      assert Wires(recs) + tail == tail;
    } else {
      var rest := recs[1..];
      FirstRecord(recs, tail);
      FramesOfWires(rest, tail);
      assert FramesOf(recs) == [FrameOf(recs[0])] + FramesOf(rest);
    }
  }

  lemma {:induction false} FirstRecord(recs: seq<Record>, tail: seq<byte>)
    requires AllEncodable(recs) && recs != []
    ensures EncodedSize(recs[0]) <= |Wires(recs) + tail|
    ensures Decode(Wires(recs) + tail) == Decoded(recs[0], EncodedSize(recs[0]))
    ensures (Wires(recs) + tail)[EncodedSize(recs[0])..] == Wires(recs[1..]) + tail
  {
    hide Wire, Wires, Decode, EncodedSize;
    var data := Wires(recs) + tail;
    DecodeAt(recs, 0, tail);
    WiresAt(recs, 0);
    assert recs[..0] == [] && data[0..] == data && Wires(recs)[0..] == Wires(recs);
    Assoc(Wire(recs[0]), Wires(recs[1..]), tail);
  }

  /** The number of whole records in the first `k` bytes of a record set. */
  function WholeRecords(recs: seq<Record>, k: nat): (w: nat)
    ensures w <= |recs| && Size(recs[..w]) <= k
    ensures w < |recs| ==> k < Size(recs[..w + 1])
  {
    if recs == [] then 0
    else if Size(recs) <= k then assert recs[..|recs|] == recs; |recs|
    else
      var w := WholeRecords(recs[..|recs| - 1], k);
      assert recs[..|recs| - 1][..w] == recs[..w];
      assert w < |recs| - 1 ==> recs[..|recs| - 1][..w + 1] == recs[..w + 1];
      assert recs[..|recs|] == recs;
      w
  }

  /** What is left after the last whole record of a cut file does not decode. */
  lemma {:induction false} CutTail(recs: seq<Record>, k: nat)
    requires AllEncodable(recs) && k <= Size(recs)
    ensures var w := WholeRecords(recs, k);
            && Wires(recs)[..k] == Wires(recs[..w]) + Wires(recs)[Size(recs[..w])..k]
            && AtEnd(Decode(Wires(recs)[Size(recs[..w])..k]))
  {
    hide Wire, Wires, Decode, Size, WholeRecords;
    var w := WholeRecords(recs, k);
    var p := Size(recs[..w]);
    WiresSplit(recs, w);
    assert Wires(recs)[..k] == Wires(recs)[..p] + Wires(recs)[p..k];
    if w < |recs| {
      WiresAt(recs, w);
      SizeStep(recs, w);
      assert Wires(recs)[p..k] == Wires(recs)[p..][..k - p] == Wire(recs[w])[..k - p];
      CutWire(recs[w], k - p);
    } else {
      assert recs[..w] == recs;
      assert Wires(recs)[p..k] == [];
      DecodeNothing();
    }
  }

  lemma {:induction false} DecodeNothing()
    ensures Decode([]) == Failed(Eof)
  {
  }

  /** A record-set file cut at any byte scans to exactly its longest whole-record prefix. */
  lemma {:induction false} FramesOfCut(recs: seq<Record>, k: nat)
    requires AllEncodable(recs) && k <= Size(recs)
    ensures Frames(Wires(recs)[..k]) == FramesOf(recs[..WholeRecords(recs, k)])
  {
    CutTail(recs, k);
    var w := WholeRecords(recs, k);
    FramesOfWires(recs[..w], Wires(recs)[Size(recs[..w])..k]);
  }

  // ---- The produce handler's record-set loop ---------------------------------------------

  datatype RecordSet = RecordSet(recs: seq<Record>) | CorruptMessage

  /** What the loop should make of a record set: every frame up to the end of the buffer; a
      clean end of input stops it quietly, any other error rejects the whole set. */
  function ParseRecordSet(data: seq<byte>): RecordSet
    decreases |data|
  {
    if data == [] then RecordSet([])
    else
      match Decode(data)
      case Failed(e) => if e.Eof? then RecordSet([]) else CorruptMessage
      case Decoded(rec, n) =>
        match ParseRecordSet(data[n..])
        case CorruptMessage => CorruptMessage
        case RecordSet(rest) => RecordSet([rec] + rest)
  }

  method DecodeRecordSet(data: seq<byte>) returns (out: RecordSet)
    ensures out == ParseRecordSet(data)
  {
    hide Decode;
    var pos := 0;
    var records: seq<Record> := [];
    while pos < |data|
      invariant 0 <= pos <= |data|
      invariant ParseRecordSet(data) ==
                match ParseRecordSet(data[pos..])
                case CorruptMessage => CorruptMessage
                case RecordSet(rest) => RecordSet(records + rest)
      decreases |data| - pos
    {
      var d := Decode(data[pos..]);
      match d {
        case Failed(e) =>
          if e.Eof? {
            assert records + [] == records;
            return RecordSet(records);
          }
          return CorruptMessage;
        case Decoded(rec, n) =>
          assert data[pos..][n..] == data[pos + n..];
          assert forall rest :: records + ([rec] + rest) == (records + [rec]) + rest;
          records := records + [rec];
          pos := pos + n;
      }
    }
    assert data[pos..] == [];
    assert records + [] == records;
    out := RecordSet(records);
  }

  /** What a producer concatenates, the broker's loop decodes to exactly that list. */
  lemma {:induction false} RecordSetRoundTrip(recs: seq<Record>)
    requires AllEncodable(recs)
    ensures ParseRecordSet(Wires(recs)) == RecordSet(recs)
    decreases |recs|
  {
    hide Wire, Decode, EncodedSize;
    if recs != [] {
      FirstRecord(recs, []);
      assert Wires(recs) + [] == Wires(recs);
      assert Wires(recs[1..]) + [] == Wires(recs[1..]);
      RecordSetRoundTrip(recs[1..]);
      assert [recs[0]] + recs[1..] == recs;
    }
  }
}

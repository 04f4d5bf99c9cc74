/** The 19-byte record of one raw frame: the backend's codec (can/record_codec.py) and the simulator's
    serialiser (can/src/gateway_protocol.cpp) for the same layout. */
module RecordCodec {
  import opened Prelude
  import opened Arithmetic
  import opened RawCan
  import opened VehicleModel
  import opened SignalEncoding
  import opened EcuFrames

  const RECORD_SIZE: nat := 19

  datatype CodecError = Unencodable | WrongLength(length: nat) | InvalidId(id: nat) | InvalidDlc(dlc: nat)

  // ---- big-endian numbers ----

  function Pow256(w: nat): (p: nat)
    ensures p > 0
  {
    if w == 0 then 1 else 256 * Pow256(w - 1)
  }

  function BigEndian(n: nat, w: nat): (bs: seq<byte>)
    ensures |bs| == w
  {
    if w == 0 then [] else BigEndian(n / 256, w - 1) + [n % 256]
  }

  function FromBigEndian(bs: seq<byte>): (n: nat)
    ensures n < Pow256(|bs|)
  {
    if bs == [] then 0 else 256 * FromBigEndian(bs[..|bs| - 1]) + bs[|bs| - 1]
  }

  lemma {:induction false} BigEndianRoundTrip(n: nat, w: nat)
    requires n < Pow256(w)
    ensures FromBigEndian(BigEndian(n, w)) == n
  {
    if w > 0 {
      BigEndianRoundTrip(n / 256, w - 1);
      assert BigEndian(n, w)[..w - 1] == BigEndian(n / 256, w - 1);
    }
  }

  lemma {:induction false} BigEndianIsOnto(bs: seq<byte>)
    ensures BigEndian(FromBigEndian(bs), |bs|) == bs
  {
    if bs != [] {
      BigEndianIsOnto(bs[..|bs| - 1]);
      assert bs == bs[..|bs| - 1] + [bs[|bs| - 1]];
    }
  }

  /** Byte `i` is what shifting and truncating gives. */
  lemma {:induction false} BigEndianAt(n: nat, w: nat, i: nat)
    requires i < w
    ensures BigEndian(n, w)[i] == n / Pow256(w - 1 - i) % 256
  {
    if i < w - 1 {
      BigEndianAt(n / 256, w - 1, i);
      DivideTwice(n, 256, Pow256(w - 2 - i), Pow256(w - 1 - i));
    }
  }

  function Quotient(n: nat, d: nat): nat
    requires d > 0
  {
    n / d
  }

  /** Dividing by `a` and then by `b` is dividing by their product. */
  lemma {:induction false} DivideTwice(n: nat, a: nat, b: nat, product: nat)
    requires a > 0 && b > 0 && product > 0 && product == a * b
    ensures Quotient(Quotient(n, a), b) == Quotient(n, product)
  {
    hide Quotient;
    SameQuotients(n, a, b, product, Quotient(Quotient(n, a), b));
    SameQuotients(n, a, b, product, Quotient(n, product));
  }

  lemma {:induction false} SameQuotients(n: nat, a: nat, b: nat, product: nat, q: nat)
    requires a > 0 && b > 0 && product > 0 && product == a * b
    ensures q <= Quotient(Quotient(n, a), b) <==> q <= Quotient(n, product)
  {
    DivAtLeast(n / a, q, b);
    DivAtLeast(n, q * b, a);
    DivAtLeast(n, q, product);
    assert q * product == q * b * a;
  }

  lemma {:induction false} WideEnough()
    ensures Pow256(8) == TWO_64 && Pow256(2) == 65_536
  {
    assert Pow256(2) == 256 * 256 && Pow256(3) == 256 * Pow256(2);
    assert Pow256(4) == 256 * Pow256(3) && Pow256(5) == 256 * Pow256(4);
    assert Pow256(6) == 256 * Pow256(5) && Pow256(7) == 256 * Pow256(6);
  }

  // ---- the backend's codec ----

  function Zeros(n: nat): (bs: seq<byte>)
    ensures |bs| == n && forall i :: 0 <= i < n ==> bs[i] == 0
  {
    seq(n, _ => 0)
  }

  /** `encode_raw_can_record`: a timestamp that does not fit 64 bits cannot be packed. */
  function EncodeRecord(f: RawFrame): (r: Result<seq<byte>, CodecError>)
    requires ValidFrame(f)
    ensures r.Ok? <==> f.timestamp <= MAX_U64
    ensures r.Ok? ==> |r.value| == RECORD_SIZE
  {
    if f.timestamp > MAX_U64 then Err(Unencodable)
    else Ok(BigEndian(f.timestamp, 8) + BigEndian(f.arbitrationId, 2) + [|f.payload|] + f.payload +
            Zeros(8 - |f.payload|))
  }

  /** `decode_raw_can_record`. */
  function DecodeRecord(data: seq<byte>): (r: Result<RawFrame, CodecError>)
    ensures r.Ok? ==> ValidFrame(r.value) && r.value.timestamp <= MAX_U64
  {
    if |data| != RECORD_SIZE then Err(WrongLength(|data|))
    else
      var id := FromBigEndian(data[8..10]);
      var dlc := data[10];
      if id > MAXIMUM_ID then Err(InvalidId(id))
      else if dlc > 8 then Err(InvalidDlc(dlc))
      else
        WideEnough();
        Ok(RawFrame(id, data[11..11 + dlc], FromBigEndian(data[..8])))
  }

  /** The record of a frame, byte by byte: eight of the timestamp and two of the ID, most significant
      first, the length code, the payload, and zeros. A timestamp beyond 64 bits is the one refusal. */
  lemma {:induction false} EncodedBytes(f: RawFrame)
    requires ValidFrame(f)
    ensures EncodeRecord(f).Ok? <==> f.timestamp <= MAX_U64
    ensures EncodeRecord(f).Ok? ==>
              var record, n := EncodeRecord(f).value, |f.payload|;
              && |record| == RECORD_SIZE
              && (forall i :: 0 <= i < 8 ==> record[i] == f.timestamp / Pow256(7 - i) % 256)
              && record[8] == f.arbitrationId / 256 && record[9] == f.arbitrationId % 256
              && record[10] == n && record[11..11 + n] == f.payload && record[11 + n..] == Zeros(8 - n)
  {
    hide BigEndian, Pow256, Zeros;
    if f.timestamp <= MAX_U64 {
      FieldsInRecord(BigEndian(f.timestamp, 8), BigEndian(f.arbitrationId, 2), |f.payload|, f.payload,
                     Zeros(8 - |f.payload|));
      forall i | 0 <= i < 8
        ensures EncodeRecord(f).value[i] == f.timestamp / Pow256(7 - i) % 256
      {
        BigEndianAt(f.timestamp, 8, i);
      }
      IdBytes(f.arbitrationId);
    }
  }

  lemma {:induction false} FieldsInRecord(time: seq<byte>, id: seq<byte>, dlc: byte, payload: seq<byte>,
                                          padding: seq<byte>)
    requires |time| == 8 && |id| == 2
    ensures var record := time + id + [dlc] + payload + padding;
            && (forall i :: 0 <= i < 8 ==> record[i] == time[i])
            && record[8] == id[0] && record[9] == id[1] && record[10] == dlc
            && record[11..11 + |payload|] == payload && record[11 + |payload|..] == padding
  {
  }

  lemma {:induction false} IdBytes(id: nat)
    requires id <= MAXIMUM_ID
    ensures BigEndian(id, 2)[0] == id / 256 && BigEndian(id, 2)[1] == id % 256
  {
    hide BigEndian;
    BigEndianAt(id, 2, 0);
    BigEndianAt(id, 2, 1);
    SmallPowers();
  }

  /** Why bytes are refused: first the length, then the ID, then the length code. */
  lemma {:induction false} DecodeRefusals(data: seq<byte>)
    ensures var r := DecodeRecord(data);
            && (r == Err(WrongLength(|data|)) <==> |data| != 19)
            && (|data| == 19 ==>
                  var id: int, dlc: int := (data[8] as int) * 256 + data[9] as int, data[10];
                  && (r == Err(InvalidId(id)) <==> id > 0x7FF)
                  && (r == Err(InvalidDlc(dlc)) <==> id <= 0x7FF && dlc > 8)
                  && (r.Ok? <==> id <= 0x7FF && dlc <= 8))
  {
    if |data| == 19 {
      TwoBytes(data[8..10]);
    }
  }

  lemma {:induction false} TwoBytes(bs: seq<byte>)
    requires |bs| == 2
    ensures FromBigEndian(bs) == (bs[0] as int) * 256 + bs[1] as int
  {
    assert bs[..1][..0] == [];
  }

  /** Decoding inverts encoding on every frame that can be encoded. */
  lemma {:induction false} DecodeInvertsEncode(f: RawFrame)
    requires ValidFrame(f) && f.timestamp <= MAX_U64
    ensures DecodeRecord(EncodeRecord(f).value) == Ok(f)
  {
    hide BigEndian, FromBigEndian, Pow256;
    var data := EncodeRecord(f).value;
    WideEnough();
    BigEndianRoundTrip(f.timestamp, 8);
    BigEndianRoundTrip(f.arbitrationId, 2);
    assert data[..8] == BigEndian(f.timestamp, 8);
    assert data[8..10] == BigEndian(f.arbitrationId, 2);
    assert data[11..11 + |f.payload|] == f.payload;
  }

  /** Encoding what was decoded gives the record back with the bytes past the DLC cleared: exactly the
      records whose padding is zero are canonical. */
  lemma {:induction false} EncodeAfterDecode(data: seq<byte>)
    requires DecodeRecord(data).Ok?
    ensures var dlc := data[10];
            EncodeRecord(DecodeRecord(data).value) == Ok(data[..11 + dlc] + Zeros(8 - dlc))
    ensures EncodeRecord(DecodeRecord(data).value) == Ok(data) <==>
            forall i :: 11 + data[10] <= i < RECORD_SIZE ==> data[i] == 0
  {
    hide BigEndian, FromBigEndian, Pow256;
    BigEndianIsOnto(data[..8]);
    BigEndianIsOnto(data[8..10]);
    var dlc := data[10];
    assert data[..11 + dlc] == data[..8] + data[8..10] + [data[10]] + data[11..11 + dlc];
    var canonical := data[..11 + dlc] + Zeros(8 - dlc);
    if forall i :: 11 + dlc <= i < RECORD_SIZE ==> data[i] == 0 {
      assert canonical == data;
    }
    assert forall i :: 11 + dlc <= i < RECORD_SIZE ==> canonical[i] == 0;
  }

  /** `data` is the encoding of `f`, whatever stands in the bytes past its length code. */
  ghost predicate EncodesUpToPadding(data: seq<byte>, f: RawFrame) {
    && ValidFrame(f) && f.timestamp <= MAX_U64 && |data| == RECORD_SIZE
    && data[..11 + |f.payload|] == EncodeRecord(f).value[..11 + |f.payload|]
  }

  /** A record decodes to a frame exactly when it is that frame's encoding up to its padding: whatever
      else is sent, of any length, is refused. */
  lemma {:induction false} DecodesExactlyEncodings(data: seq<byte>, f: RawFrame)
    ensures DecodeRecord(data) == Ok(f) <==> EncodesUpToPadding(data, f)
  {
    hide BigEndian, FromBigEndian, Pow256;
    if DecodeRecord(data) == Ok(f) {
      EncodeAfterDecode(data);
    }
    if EncodesUpToPadding(data, f) {
      SameFields(data, EncodeRecord(f).value, 11 + |f.payload|);
      DecodeInvertsEncode(f);
    }
  }

  lemma {:induction false} SameFields(data: seq<byte>, record: seq<byte>, n: nat)
    requires |data| == RECORD_SIZE && |record| == RECORD_SIZE && 11 <= n <= RECORD_SIZE && data[..n] == record[..n]
    ensures data[..8] == record[..8] && data[8..10] == record[8..10] && data[10] == record[10]
    ensures data[11..n] == record[11..n]
  {
    assert data[..8] == data[..n][..8] && record[..8] == record[..n][..8];
    assert data[8..10] == data[..n][8..10] && record[8..10] == record[..n][8..10];
    assert data[10] == data[..n][10] && record[10] == record[..n][10];
    assert data[11..n] == data[..n][11..n] && record[11..n] == record[..n][11..n];
  }

  // ---- the simulator's serialiser ----

  /** The frame as a receiver sees it: only the bytes within the length travel. */
  function OnTheWire(f: CanFrame): (r: RawFrame)
    requires ValidCanFrame(f)
    ensures ValidFrame(r)
  {
    RawFrame(f.arbitrationId, f.payload[..f.length], f.timestamp)
  }

  /** `serialize_gateway_record`: it writes the very bytes the backend's encoder writes. */
  method SerializeGatewayRecord(f: CanFrame) returns (r: Result<seq<byte>, CodecError>)
    requires f.timestamp <= MAX_U64 && |f.payload| == 8
    ensures r.Ok? <==> ValidCanFrame(f)
    ensures r.Ok? ==> r == EncodeRecord(OnTheWire(f))
  {
    if f.arbitrationId > MAXIMUM_ID || f.length > MAXIMUM_PAYLOAD {
      return Err(if f.arbitrationId > MAXIMUM_ID then InvalidId(f.arbitrationId) else InvalidDlc(f.length));
    }
    hide BigEndian, Pow256;
    var record := new byte[RECORD_SIZE](_ => 0);
    for index := 0 to 8
      invariant forall i :: 0 <= i < index ==> record[i] == BigEndian(f.timestamp, 8)[i]
      invariant forall i :: index <= i < RECORD_SIZE ==> record[i] == 0
    {
      BigEndianAt(f.timestamp, 8, index);
      record[index] := f.timestamp / Pow256(7 - index) % 256;
    }
    BigEndianAt(f.arbitrationId, 2, 0);
    BigEndianAt(f.arbitrationId, 2, 1);
    SmallPowers();
    record[8] := f.arbitrationId / 256 % 256;
    record[9] := f.arbitrationId % 256;
    record[10] := f.length;
    for index := 0 to f.length
      invariant forall i :: 0 <= i < 8 ==> record[i] == BigEndian(f.timestamp, 8)[i]
      invariant record[8] == BigEndian(f.arbitrationId, 2)[0] && record[9] == BigEndian(f.arbitrationId, 2)[1]
      invariant record[10] == f.length
      invariant forall i :: 0 <= i < index ==> record[11 + i] == f.payload[i]
      invariant forall i :: 11 + index <= i < RECORD_SIZE ==> record[i] == 0
    {
      record[11 + index] := f.payload[index];
    }
    SameBytes(record[..], f);
    return Ok(record[..]);
  }

  lemma {:induction false} SmallPowers()
    ensures Pow256(0) == 1 && Pow256(1) == 256
  {
  }

  lemma {:induction false} SameBytes(record: seq<byte>, f: CanFrame)
    requires ValidCanFrame(f) && f.timestamp <= MAX_U64 && |record| == RECORD_SIZE
    requires forall i :: 0 <= i < 8 ==> record[i] == BigEndian(f.timestamp, 8)[i]
    requires record[8] == BigEndian(f.arbitrationId, 2)[0] && record[9] == BigEndian(f.arbitrationId, 2)[1]
    requires record[10] == f.length
    requires forall i :: 0 <= i < f.length ==> record[11 + i] == f.payload[i]
    requires forall i :: 11 + f.length <= i < RECORD_SIZE ==> record[i] == 0
    ensures EncodeRecord(OnTheWire(f)) == Ok(record)
  {
    hide BigEndian;
    assert record[..8] == BigEndian(f.timestamp, 8);
    assert record[8..10] == BigEndian(f.arbitrationId, 2);
    assert record[11..11 + f.length] == f.payload[..f.length];
    assert record[11 + f.length..] == Zeros(8 - f.length);
    assert record == record[..8] + record[8..10] + [record[10]] + record[11..11 + f.length] + record[11 + f.length..];
  }

  // ---- end to end ----

  /** From the vehicle to the reader of the bus: a signal encoded into a frame, serialised, received and
      decoded stands for a representable value nearest to the original, within half a quantum when the
      original is in range. */
  lemma {:induction false} SignalSurvivesTheWire(f: CanFrame, m: Message, values: seq<real>, t: nat, i: nat, other: nat)
    requires WellLaid(m) && Carries(f, m, values, t) && t <= MAX_U64 && i < |values|
    requires other <= TopOf(m.signals[i].width)
    ensures ValidCanFrame(f)
    ensures var s := m.signals[i];
            var received := DecodeRecord(EncodeRecord(OnTheWire(f)).value);
            && received.Ok? && received.value.timestamp == t && received.value.arbitrationId == m.id
            && s.at + BytesOf(s.width) <= |received.value.payload|
            && var read := Scaled(RawSignal(received.value.payload, s), s.scale, s.offset);
            && Distance(read, values[i]) <= Distance(Scaled(other, s.scale, s.offset), values[i])
            && (InRange(values[i], s.scale, s.offset, TopOf(s.width)) ==> Distance(read, values[i]) <= s.scale / 2.0)
  {
    hide Scaled, Distance, Encode, InRange, EncodeRecord, DecodeRecord;
    var s := m.signals[i];
    DecodeInvertsEncode(OnTheWire(f));
    EncodingIsNearest(values[i], s.scale, s.offset, TopOf(s.width), other);
    if InRange(values[i], s.scale, s.offset, TopOf(s.width)) {
      EncodingIsWithinHalfQuantum(values[i], s.scale, s.offset, TopOf(s.width));
    }
  }
}

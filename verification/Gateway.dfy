/** The raw-CAN gateway client (can/gateway.py): exact reads over a connection that hands out bytes in
    chunks of its own choosing. */
module Gateway {
  import opened Prelude
  import opened Arithmetic
  import opened RawCan
  import opened RecordCodec

  const HEADER_SIZE: nat := 8
  const MAGIC: seq<byte> := [84, 78, 67, 82]
  const VERSION: byte := 1

  datatype GatewayError =
    | HeaderLength
    | BadMagic
    | BadVersion(version: nat)
    | BadReserved
    | Truncated(received: nat, wanted: nat)
    | Malformed(reason: CodecError)

  /** `decode_gateway_header`. */
  function DecodeHeader(data: seq<byte>): (r: Result<(), GatewayError>)
  {
    if |data| != HEADER_SIZE then Err(HeaderLength)
    else if data[..4] != MAGIC then Err(BadMagic)
    else if data[4] != VERSION then Err(BadVersion(data[4]))
    else if data[5..8] != [0, 0, 0] then Err(BadReserved)
    else Ok(())
  }

  /** The header the gateway server sends is the only one the client accepts. */
  const HEADER: seq<byte> := MAGIC + [VERSION, 0, 0, 0]

  lemma {:induction false} OnlyOneHeader(data: seq<byte>)
    ensures DecodeHeader(data).Ok? <==> data == HEADER
    ensures HEADER == [84, 78, 67, 82, 1, 0, 0, 0]
  {
    if |data| == HEADER_SIZE {
      assert data == data[..4] + [data[4]] + data[5..8];
    }
  }

  /** Why a header is refused: its length, its magic, its version, its reserved bytes, in this order. */
  lemma {:induction false} HeaderRefusals(data: seq<byte>)
    ensures var r := DecodeHeader(data);
            && (r == Err(HeaderLength) <==> |data| != 8)
            && (|data| == 8 ==>
                  && (r == Err(BadMagic) <==> data[..4] != [84, 78, 67, 82])
                  && (data[..4] == [84, 78, 67, 82] ==>
                        && (r == Err(BadVersion(data[4])) <==> data[4] != 1)
                        && (r == Err(BadReserved) <==> data[4] == 1 && data[5..] != [0, 0, 0])))
  {
  }

  // ---- what a byte stream means ----

  datatype End = Clean | Failed(error: GatewayError)

  /** The frames of a stream of records, up to its end or its first malformed record. */
  function FramesOf(bytes: seq<byte>): (r: (seq<RawFrame>, End))
    decreases |bytes|
  {
    if bytes == [] then ([], Clean)
    else if |bytes| < RECORD_SIZE then ([], Failed(Truncated(|bytes|, RECORD_SIZE)))
    else
      match DecodeRecord(bytes[..RECORD_SIZE])
      case Err(e) => ([], Failed(Malformed(e)))
      case Ok(f) =>
        var (frames, end) := FramesOf(bytes[RECORD_SIZE..]);
        ([f] + frames, end)
  }

  function RecordAt(bytes: seq<byte>, i: nat): seq<byte>
    requires (i + 1) * RECORD_SIZE <= |bytes|
  {
    bytes[i * RECORD_SIZE..(i + 1) * RECORD_SIZE]
  }

  lemma {:induction false} FirstRecord(bytes: seq<byte>)
    requires |bytes| >= RECORD_SIZE
    ensures RecordAt(bytes, 0) == bytes[..RECORD_SIZE]
  {
  }

  lemma {:induction false} LaterRecord(bytes: seq<byte>, i: nat)
    requires |bytes| >= RECORD_SIZE && (i + 1) * RECORD_SIZE <= |bytes[RECORD_SIZE..]|
    ensures RecordAt(bytes, i + 1) == RecordAt(bytes[RECORD_SIZE..], i)
  {
    assert (i + 2) * RECORD_SIZE == RECORD_SIZE + (i + 1) * RECORD_SIZE;
    SliceOfRest(bytes, RECORD_SIZE, i * RECORD_SIZE, (i + 1) * RECORD_SIZE);
  }

  lemma {:induction false} SliceOfRest(bytes: seq<byte>, start: nat, low: nat, high: nat)
    requires start <= |bytes| && low <= high <= |bytes| - start
    ensures bytes[start..][low..high] == bytes[start + low..start + high]
  {
  }

  /** What it means: the frames are the first records of the stream, decoded; all floor(len/19) of them
      unless a malformed record stops it, and the end is clean exactly when, in addition, no partial
      record remains. */
  lemma {:induction false} FramesAreTheRecords(bytes: seq<byte>)
    ensures var (frames, end) := FramesOf(bytes);
            && |frames| <= |bytes| / RECORD_SIZE
            && (forall i :: 0 <= i < |frames| ==> DecodeRecord(RecordAt(bytes, i)) == Ok(frames[i]))
            && (|frames| < |bytes| / RECORD_SIZE ==>
                  DecodeRecord(RecordAt(bytes, |frames|)).Err?
                  && end == Failed(Malformed(DecodeRecord(RecordAt(bytes, |frames|)).error)))
            && (|frames| == |bytes| / RECORD_SIZE ==>
                  end == if |bytes| % RECORD_SIZE == 0 then Clean
                  else Failed(Truncated(|bytes| % RECORD_SIZE, RECORD_SIZE)))
    decreases |bytes|
  {
    hide DecodeRecord, RecordAt;
    if |bytes| >= RECORD_SIZE {
      var rest := bytes[RECORD_SIZE..];
      FramesAreTheRecords(rest);
      FirstRecord(bytes);
      forall i: nat | (i + 1) * RECORD_SIZE <= |rest|
        ensures RecordAt(bytes, i + 1) == RecordAt(rest, i)
      {
        LaterRecord(bytes, i);
      }
    }
  }

  predicate Encodable(frames: seq<RawFrame>) {
    forall i :: 0 <= i < |frames| ==> ValidFrame(frames[i]) && frames[i].timestamp <= MAX_U64
  }

  /** Records written back to back. */
  function RecordsOf(frames: seq<RawFrame>): (bytes: seq<byte>)
    requires Encodable(frames)
    ensures |bytes| == |frames| * RECORD_SIZE
  {
    if frames == [] then [] else RecordsOf(frames[..|frames| - 1]) + EncodeRecord(frames[|frames| - 1]).value
  }

  lemma {:induction false} RecordsToLast(frames: seq<RawFrame>)
    requires Encodable(frames) && frames != []
    ensures var n := |frames| - 1;
            Encodable(frames[..n]) && RecordsOf(frames) == RecordsOf(frames[..n]) + EncodeRecord(frames[n]).value
    ensures RecordsOf([]) == []
  {
    hide EncodeRecord;
  }

  lemma {:induction false} RecordsFromFirst(frames: seq<RawFrame>)
    requires Encodable(frames) && frames != []
    ensures RecordsOf(frames) == EncodeRecord(frames[0]).value + RecordsOf(frames[1..])
  {
    hide EncodeRecord, RecordsOf;
    var n := |frames| - 1;
    var first, last := EncodeRecord(frames[0]).value, EncodeRecord(frames[n]).value;
    RecordsToLast(frames);
    if n == 0 {
      assert frames[1..] == [] && frames[..0] == [];
      assert [] + first == first && first + [] == first;
    } else {
      RecordsFromFirst(frames[..n]);
      RecordsToLast(frames[1..]);
      assert frames[1..][..n - 1] == frames[..n][1..];
      assert frames[1..][n - 1] == frames[n];
      var middle := RecordsOf(frames[..n][1..]);
      assert (first + middle) + last == first + (middle + last);
    }
  }

  /** What the server sends is what the client reads, cleanly. */
  lemma {:induction false} StreamRoundTrip(frames: seq<RawFrame>)
    requires Encodable(frames)
    ensures FramesOf(RecordsOf(frames)) == (frames, Clean)
  {
    hide EncodeRecord, DecodeRecord;
    if frames != [] {
      var first := EncodeRecord(frames[0]).value;
      RecordsFromFirst(frames);
      StreamRoundTrip(frames[1..]);
      DecodeInvertsEncode(frames[0]);
      assert RecordsOf(frames)[..RECORD_SIZE] == first;
      assert RecordsOf(frames)[RECORD_SIZE..] == RecordsOf(frames[1..]);
      assert frames == [frames[0]] + frames[1..];
    }
  }

  // ---- the connection ----

  /** A connection that will deliver `stream` and then end, in chunks nobody controls. */
  class Connection {
    const stream: seq<byte>
    var position: nat
    var closed: bool

    ghost predicate Valid()
      reads this
    {
      position <= |stream|
    }

    ghost function Remaining(): seq<byte>
      requires Valid()
      reads this
    {
      stream[position..]
    }

    constructor (stream: seq<byte>)
      ensures Valid() && Remaining() == stream && !closed
    {
      this.stream := stream;
      position, closed := 0, false;
    }

    /** `recv`: some bytes, at most `size`, and none only at the end of the stream. */
    method Recv(size: nat) returns (chunk: seq<byte>)
      requires Valid() && size > 0
      modifies `position
      ensures Valid() && |chunk| <= size
      ensures old(Remaining()) == chunk + Remaining()
      ensures chunk == [] <==> old(Remaining()) == []
    {
      if position == |stream| {
        return [];
      }
      var left := |stream| - position;
      var n: nat :| 1 <= n <= size && n <= left;
      chunk := stream[position..position + n];
      position := position + n;
    }

    method Close()
      modifies `closed
      ensures closed
    {
      closed := true;
    }
  }

  class RawCanGatewayClient {
    const connection: Connection
    var closed: bool

    ghost predicate Valid()
      reads this, connection
    {
      connection.Valid()
    }

    constructor (connection: Connection)
      requires connection.Valid()
      ensures Valid() && this.connection == connection && !closed
    {
      this.connection := connection;
      closed := false;
    }

    /** Open a session: the header must arrive whole and be the one supported, or the connection is
        closed. */
    method ReadHeader() returns (r: Result<(), GatewayError>)
      requires Valid() && !closed
      modifies this, connection
      ensures Valid()
      ensures r.Ok? <==> HEADER <= old(connection.Remaining())
      ensures r.Ok? ==> old(connection.Remaining()) == HEADER + connection.Remaining() && !closed
      ensures r.Err? ==> closed && connection.closed
    {
      var data := ReadExact(HEADER_SIZE, false);
      if data.Ok? {
        OnlyOneHeader(data.value);
      }
      r := if data.Ok? then DecodeHeader(data.value) else Err(data.error);
      if r.Err? {
        Close();
      }
    }

    /** `_read_exact`: collect chunks until `size` bytes are there. However the connection splits its
        bytes, the result depends on the bytes alone. */
    method ReadExact(size: nat, allowCleanEof: bool) returns (r: Result<seq<byte>, GatewayError>)
      requires Valid() && size > 0
      modifies connection`position
      ensures Valid()
      ensures var before := old(connection.Remaining());
              r == if |before| >= size then Ok(before[..size])
                   else if before == [] && allowCleanEof then Ok([])
                   else Err(Truncated(|before|, size))
      ensures var before := old(connection.Remaining());
              connection.Remaining() == if |before| >= size then before[size..] else []
    {
      var data: seq<byte> := [];
      ghost var before := connection.Remaining();
      while |data| < size
        invariant Valid() && |data| <= size
        invariant before == data + connection.Remaining()
        decreases size - |data|
      {
        var chunk := connection.Recv(size - |data|);
        if chunk == [] {
          assert before == data;
          if allowCleanEof && data == [] {
            return Ok([]);
          }
          return Err(Truncated(|data|, size));
        }
        assert before == data + chunk + connection.Remaining();
        data := data + chunk;
      }
      assert before[..size] == data && before[size..] == connection.Remaining();
      return Ok(data);
    }

    /** `frames`, read to its end: what is yielded and how it ends depend on the bytes alone. */
    method Frames() returns (frames: seq<RawFrame>, end: End)
      requires Valid()
      modifies connection`position
      ensures Valid()
      ensures (frames, end) == FramesOf(old(connection.Remaining()))
    {
      hide DecodeRecord;
      frames := [];
      ghost var all := connection.Remaining();
      assert [] + FramesOf(all).0 == FramesOf(all).0;
      while true
        invariant Valid()
        invariant FramesOf(all) == (frames + FramesOf(connection.Remaining()).0, FramesOf(connection.Remaining()).1)
        decreases |connection.Remaining()|
      {
        ghost var before := connection.Remaining();
        var record := ReadExact(RECORD_SIZE, true);
        assert frames + [] == frames;
        if record.Err? {
          return frames, Failed(record.error);
        }
        if record.value == [] {
          return frames, Clean;
        }
        var decoded := DecodeRecord(record.value);
        if decoded.Err? {
          return frames, Failed(Malformed(decoded.error));
        }
        assert frames + ([decoded.value] + FramesOf(connection.Remaining()).0) ==
               frames + [decoded.value] + FramesOf(connection.Remaining()).0;
        frames := frames + [decoded.value];
      }
    }

    method Close()
      requires Valid()
      modifies this, connection`closed
      ensures Valid() && closed && (!old(closed) ==> connection.closed)
      ensures connection.position == old(connection.position)
    {
      if !closed {
        closed := true;
        connection.Close();
      }
    }
  }

  /** A whole client session over an arbitrarily split stream: after a valid header the client yields
      the records' frames; without one it yields nothing. */
  method ReadStream(stream: seq<byte>) returns (header: Result<(), GatewayError>, frames: seq<RawFrame>, end: End)
    ensures header.Ok? <==> HEADER <= stream
    ensures header.Ok? ==> (frames, end) == FramesOf(stream[HEADER_SIZE..])
    ensures header.Err? ==> frames == []
  {
    var connection := new Connection(stream);
    var client := new RawCanGatewayClient(connection);
    header := client.ReadHeader();
    if header.Err? {
      return header, [], Failed(header.error);
    }
    assert stream[HEADER_SIZE..] == connection.Remaining();
    frames, end := client.Frames();
    client.Close();
  }
}

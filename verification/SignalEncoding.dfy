/** Signal quantisation (can/include/tuneros/ecu/detail/signal_encoding.hpp): scaled, saturating,
    rounded half away from zero, packed little-endian. */
module SignalEncoding {
  import opened RawCan

  const MAX_U8: nat := 255
  const MAX_U16: nat := 65_535

  /** `std::round`. */
  function RoundHalfAway(x: real): int {
    if x >= 0.0 then (x + 0.5).Floor else -((0.5 - x).Floor)
  }

  lemma {:induction false} RoundIsNearest(x: real, n: int)
    ensures var r := RoundHalfAway(x); -0.5 <= x - r as real <= 0.5
    ensures Distance(RoundHalfAway(x) as real, x) <= Distance(n as real, x)
  {
    var r := RoundHalfAway(x);
    if n < r {
      assert n as real <= r as real - 1.0;
    } else if n > r {
      assert n as real >= r as real + 1.0;
    }
  }

  lemma {:induction false} RoundIsMonotone(x: real, y: real)
    requires x <= y
    ensures RoundHalfAway(x) <= RoundHalfAway(y)
  {
  }

  function Distance(a: real, b: real): real {
    if a >= b then a - b else b - a
  }

  function ClampInt(n: int, top: nat): (r: nat)
    ensures r <= top
  {
    if n < 0 then 0 else if n > top then top else n
  }

  /** `encode_scaled_u8` and `encode_scaled_u16`, for `top` 255 and 65535. Reals are finite, so the
      error branch cannot be taken. */
  function Encode(value: real, scale: real, offset: real, top: nat): (raw: nat)
    requires scale > 0.0
    ensures raw <= top
  {
    ClampInt(RoundHalfAway((value - offset) / scale), top)
  }

  /** The value a raw signal stands for in the CAN database. */
  function Scaled(raw: nat, scale: real, offset: real): real {
    raw as real * scale + offset
  }

  /** Halfway between two representable values the encoder takes the upper one. */
  lemma {:induction false} EncodingTies(n: nat, scale: real, offset: real, top: nat)
    requires scale > 0.0 && n < top
    ensures Encode((n as real + 0.5) * scale + offset, scale, offset, top) == n + 1
  {
    var q := n as real + 0.5;
    CancelScale(q, scale);
    assert q * scale + offset - offset == q * scale;
    assert q + 0.5 == (n + 1) as real;
  }

  lemma {:induction false} CancelScale(q: real, scale: real)
    requires scale > 0.0
    ensures q * scale / scale == q
  {
  }

  lemma {:induction false} ClampIsNearest(x: real, n: nat, top: nat)
    requires n <= top
    ensures Distance(ClampInt(RoundHalfAway(x), top) as real, x) <= Distance(n as real, x)
  {
    RoundIsNearest(x, n);
    RoundIsNearest(x, 0);
    RoundIsNearest(x, top);
  }

  lemma {:induction false} ScaledDistance(raw: nat, value: real, scale: real, offset: real)
    requires scale > 0.0
    ensures Distance(Scaled(raw, scale, offset), value) == scale * Distance(raw as real, (value - offset) / scale)
  {
    var x := (value - offset) / scale;
    var n := raw as real;
    assert value == x * scale + offset;
    if n >= x {
      assert n * scale - x * scale == scale * (n - x);
      ProductSign(scale, n - x);
    } else {
      assert x * scale - n * scale == scale * (x - n);
      ProductSign(scale, x - n);
    }
  }

  lemma {:induction false} ProductSign(scale: real, d: real)
    requires scale > 0.0 && d >= 0.0
    ensures scale * d >= 0.0
    ensures d > 0.0 ==> scale * d > 0.0
  {
  }

  lemma {:induction false} ScalingKeepsOrder(scale: real, a: real, b: real)
    requires scale > 0.0 && a <= b
    ensures scale * a <= scale * b
  {
    ProductSign(scale, b - a);
    assert scale * (b - a) == scale * b - scale * a;
  }

  /** Quantisation picks a nearest representable value, for every real: out-of-range values land on
      the nearest end, all others within half a quantum. */
  lemma {:induction false} EncodingIsNearest(value: real, scale: real, offset: real, top: nat, other: nat)
    requires scale > 0.0 && other <= top
    ensures Distance(Scaled(Encode(value, scale, offset, top), scale, offset), value) <=
            Distance(Scaled(other, scale, offset), value)
  {
    hide Distance, Scaled, ClampInt, RoundHalfAway;
    var x := (value - offset) / scale;
    var raw := Encode(value, scale, offset, top);
    ClampIsNearest(x, other, top);
    ScaledDistance(raw, value, scale, offset);
    ScaledDistance(other, value, scale, offset);
    ScalingKeepsOrder(scale, Distance(raw as real, x), Distance(other as real, x));
  }

  predicate InRange(value: real, scale: real, offset: real, top: nat) {
    offset <= value <= Scaled(top, scale, offset)
  }

  lemma {:induction false} InRangePosition(value: real, scale: real, offset: real, top: nat)
    requires scale > 0.0
    ensures InRange(value, scale, offset, top) <==> 0.0 <= (value - offset) / scale <= top as real
  {
    var x := (value - offset) / scale;
    assert value - offset == scale * x;
    if 0.0 <= x {
      ProductSign(scale, x);
    } else {
      ProductSign(scale, -x);
    }
    if x <= top as real {
      ScalingKeepsOrder(scale, x, top as real);
    } else {
      ProductSign(scale, x - top as real);
      assert scale * (x - top as real) == scale * x - scale * top as real;
    }
  }

  /** A value in range survives within half a quantum. */
  lemma {:induction false} EncodingIsWithinHalfQuantum(value: real, scale: real, offset: real, top: nat)
    requires scale > 0.0 && InRange(value, scale, offset, top)
    ensures Distance(Scaled(Encode(value, scale, offset, top), scale, offset), value) <= scale / 2.0
  {
    var x := (value - offset) / scale;
    var raw := Encode(value, scale, offset, top);
    InRangePosition(value, scale, offset, top);
    RoundIsNearest(x, 0);
    assert raw == RoundHalfAway(x);
    ScaledDistance(raw, value, scale, offset);
    ScalingKeepsOrder(scale, Distance(raw as real, x), 0.5);
  }

  lemma {:induction false} EncodingIsMonotone(a: real, b: real, scale: real, offset: real, top: nat)
    requires scale > 0.0 && a <= b
    ensures Encode(a, scale, offset, top) <= Encode(b, scale, offset, top)
  {
    RoundIsMonotone((a - offset) / scale, (b - offset) / scale);
  }

  /** Every representable value is encoded as itself. */
  lemma {:induction false} EncodingInvertsScaling(raw: nat, scale: real, offset: real, top: nat)
    requires scale > 0.0 && raw <= top
    ensures Encode(Scaled(raw, scale, offset), scale, offset, top) == raw
  {
    assert (Scaled(raw, scale, offset) - offset) / scale == raw as real;
    RoundIsNearest(raw as real, raw);
  }

  /** A value out of range saturates at the nearer end. */
  lemma {:induction false} EncodingSaturates(value: real, scale: real, offset: real, top: nat)
    requires scale > 0.0
    ensures value <= offset ==> Encode(value, scale, offset, top) == 0
    ensures value >= Scaled(top, scale, offset) ==> Encode(value, scale, offset, top) == top
  {
    hide Encode;
    EncodingInvertsScaling(0, scale, offset, top);
    EncodingInvertsScaling(top, scale, offset, top);
    assert Scaled(0, scale, offset) == offset;
    if value <= offset {
      EncodingIsMonotone(value, offset, scale, offset, top);
    }
    if value >= Scaled(top, scale, offset) {
      EncodingIsMonotone(Scaled(top, scale, offset), value, scale, offset, top);
    }
  }

  // ---- little-endian fields ----

  /** `pack_u16_little_endian`. */
  method PackU16LittleEndian(payload: array<byte>, at: nat, value: nat)
    requires payload.Length == 8 && at + 1 < 8 && value <= MAX_U16
    modifies payload
    ensures U16At(payload[..], at) == value
    ensures (payload[at] as int) + 256 * (payload[at + 1] as int) == value
    ensures forall k :: 0 <= k < 8 && k != at && k != at + 1 ==> payload[k] == old(payload[k])
  {
    payload[at] := value % 256;
    payload[at + 1] := value / 256 % 256;
  }

  function U16At(payload: seq<byte>, at: nat): (v: nat)
    requires at + 1 < |payload|
    ensures v <= MAX_U16
  {
    var low: int, high: int := payload[at], payload[at + 1];
    low + 256 * high
  }
}

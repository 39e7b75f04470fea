/**
  Storage primitives: little-endian fields, records of them, and checksummed frames.
  The checksum is a parameter of everything that uses it.
 */
module Format {
  import opened Prelude

  type Byte = n: nat | n < 256
  type Bytes = seq<Byte>

  /** The 32-bit checksum of a byte string. */
  type Crc = Bytes -> U32

  const FRAME_HEADER: nat := 12

  /** How many values a field of some width has. */
  function Limit(width: nat): (n: nat)
    ensures n > 0
  {
    if width == 0 then 1 else 256 * Limit(width - 1)
  }

  lemma Limits()
    ensures Limit(1) == 256 && Limit(2) == 0x1_0000 && Limit(4) == U32_LIMIT && Limit(8) == U64_LIMIT
  {
    assert Limit(3) == 0x100_0000;
    assert Limit(5) == 0x100_0000_0000;
    assert Limit(6) == 0x1_0000_0000_0000;
    assert Limit(7) == 0x100_0000_0000_0000;
  }

  function Le(width: nat, value: nat): (bytes: Bytes)
    ensures |bytes| == width
  {
    if width == 0 then [] else [value % 256] + Le(width - 1, value / 256)
  }

  function FromLe(bytes: Bytes): (value: nat)
    ensures value < Limit(|bytes|)
  {
    if bytes == [] then 0 else bytes[0] + 256 * FromLe(bytes[1..])
  }

  /** The lowest byte comes first. */
  lemma LowestByteFirst(width: nat, value: nat, bytes: Bytes)
    ensures width > 0 ==> Le(width, value)[0] == value % 256 && Le(width, value)[1..] == Le(width - 1, value / 256)
    ensures bytes != [] ==> FromLe(bytes) == bytes[0] + 256 * FromLe(bytes[1..])
  {
  }

  lemma {:induction false} LeInverse(width: nat, value: nat)
    requires value < Limit(width)
    ensures FromLe(Le(width, value)) == value
  {
    if width > 0 {
      LeInverse(width - 1, value / 256);
      assert Le(width, value)[1..] == Le(width - 1, value / 256);
    }
  }

  lemma LastByte(low: Byte, high: nat)
    ensures (low + 256 * high) % 256 == low && (low + 256 * high) / 256 == high
  {
  }

  lemma {:induction false} FromLeInverse(bytes: Bytes)
    ensures Le(|bytes|, FromLe(bytes)) == bytes
  {
    if bytes != [] {
      FromLeInverse(bytes[1..]);
      LastByte(bytes[0], FromLe(bytes[1..]));
      assert bytes == [bytes[0]] + bytes[1..];
    }
  }

  function Reversed(bytes: Bytes): Bytes {
    if bytes == [] then [] else Reversed(bytes[1..]) + [bytes[0]]
  }

  /** The identity checksum used in references: one half per reading direction. */
  function Checksum64(crc: Crc, bytes: Bytes): U64 {
    crc(Reversed(bytes)) * U32_LIMIT + crc(bytes)
  }

  // ---- Records -----------------------------------------------------------------------------

  function Width(widths: seq<nat>): nat {
    if widths == [] then 0 else widths[0] + Width(widths[1..])
  }

  predicate Fit(widths: seq<nat>, values: seq<nat>) {
    |widths| == |values| && forall i :: 0 <= i < |widths| ==> values[i] < Limit(widths[i])
  }

  /** The fields of a record, one after the other. */
  function Pack(widths: seq<nat>, values: seq<nat>): (bytes: Bytes)
    requires |widths| == |values|
    ensures |bytes| == Width(widths)
  {
    if widths == [] then [] else Le(widths[0], values[0]) + Pack(widths[1..], values[1..])
  }

  /** Read a record off the front of a byte string. */
  function Unpack(widths: seq<nat>, bytes: Bytes): (r: Option<(seq<nat>, Bytes)>)
    ensures r.Some? ==> |r.value.0| == |widths|
  {
    if widths == [] then Some(([], bytes))
    else if |bytes| < widths[0] then None
    else
      match Unpack(widths[1..], bytes[widths[0]..])
      case None => None
      case Some((values, rest)) => Some(([FromLe(bytes[..widths[0]])] + values, rest))
  }

  lemma Associate(a: Bytes, b: Bytes, c: Bytes)
    ensures a + b + c == a + (b + c)
  {
  }

  /** Reading one field and then the rest. */
  lemma UnpackFront(widths: seq<nat>, first: Bytes, more: Bytes)
    requires widths != [] && |first| == widths[0] && Unpack(widths[1..], more).Some?
    ensures Unpack(widths, first + more)
            == Some(([FromLe(first)] + Unpack(widths[1..], more).value.0, Unpack(widths[1..], more).value.1))
  {
    assert (first + more)[..widths[0]] == first && (first + more)[widths[0]..] == more;
  }

  lemma {:induction false} UnpackInverse(widths: seq<nat>, values: seq<nat>, rest: Bytes)
    requires Fit(widths, values)
    ensures Unpack(widths, Pack(widths, values) + rest) == Some((values, rest))
  {
    if widths == [] {
      assert Pack(widths, values) + rest == rest;
    } else {
      var first, more := Le(widths[0], values[0]), Pack(widths[1..], values[1..]);
      UnpackInverse(widths[1..], values[1..], rest);
      UnpackFront(widths, first, more + rest);
      LeInverse(widths[0], values[0]);
      Associate(first, more, rest);
      assert values == [values[0]] + values[1..];
    }
  }

  lemma {:induction false} UnpackFits(widths: seq<nat>, bytes: Bytes)
    requires Unpack(widths, bytes).Some?
    ensures Fit(widths, Unpack(widths, bytes).value.0)
  {
    if widths != [] {
      UnpackFits(widths[1..], bytes[widths[0]..]);
      var values := Unpack(widths[1..], bytes[widths[0]..]).value.0;
      var all := Unpack(widths, bytes).value.0;
      assert all == [FromLe(bytes[..widths[0]])] + values;
      forall i | 0 <= i < |widths| ensures all[i] < Limit(widths[i]) {
        if i > 0 { assert all[i] == values[i - 1] && widths[i] == widths[1..][i - 1]; }
      }
    }
  }

  lemma {:induction false} WidthOfBoth(a: seq<nat>, b: seq<nat>)
    ensures Width(a + b) == Width(a) + Width(b)
  {
    if a == [] {
      assert a + b == b;
    } else {
      assert (a + b)[1..] == a[1..] + b;
      WidthOfBoth(a[1..], b);
    }
  }

  // ---- Frames --------------------------------------------------------------------------------

  const FRAME_WIDTHS: seq<nat> := [4, 4, 4]

  lemma FrameWidth()
    ensures Width(FRAME_WIDTHS) == FRAME_HEADER
  {
    assert Width([4]) == 4 && Width([4, 4]) == 8;
    assert FRAME_WIDTHS[1..] == [4, 4];
  }

  function Sealed(crc: Crc, magic: U32, payload: Bytes): (frame: Bytes)
    requires |payload| < U32_LIMIT
    ensures |frame| == FRAME_HEADER + |payload|
  {
    FrameWidth();
    Pack(FRAME_WIDTHS, [magic, |payload|, crc(payload)]) + payload
  }

  /** The payload of a frame, if the bytes are exactly one. */
  function Opened(crc: Crc, magic: U32, bytes: Bytes): Option<Bytes> {
    match Unpack(FRAME_WIDTHS, bytes)
    case None => None
    case Some((head, payload)) =>
      if head[0] == magic && head[1] == |payload| && head[2] == crc(payload) then Some(payload) else None
  }

  lemma OpenSealed(crc: Crc, magic: U32, payload: Bytes)
    requires |payload| < U32_LIMIT
    ensures Opened(crc, magic, Sealed(crc, magic, payload)) == Some(payload)
  {
    Limits();
    UnpackInverse(FRAME_WIDTHS, [magic, |payload|, crc(payload)], payload);
  }

  lemma {:induction false} PackInverse(widths: seq<nat>, bytes: Bytes)
    requires Unpack(widths, bytes).Some?
    ensures var (values, rest) := Unpack(widths, bytes).value; Pack(widths, values) + rest == bytes
  {
    if widths != [] {
      PackInverse(widths[1..], bytes[widths[0]..]);
      var (values, rest) := Unpack(widths[1..], bytes[widths[0]..]).value;
      FromLeInverse(bytes[..widths[0]]);
      assert ([FromLe(bytes[..widths[0]])] + values)[1..] == values;
      assert bytes == bytes[..widths[0]] + bytes[widths[0]..];
    }
  }

  /** Nothing but a sealed frame opens. */
  lemma OnlySealedOpens(crc: Crc, magic: U32, bytes: Bytes)
    requires Opened(crc, magic, bytes).Some?
    ensures var payload := Opened(crc, magic, bytes).value;
            |payload| < U32_LIMIT && bytes == Sealed(crc, magic, payload)
  {
    Limits();
    PackInverse(FRAME_WIDTHS, bytes);
    var (head, payload) := Unpack(FRAME_WIDTHS, bytes).value;
    assert head == [magic, |payload|, crc(payload)];
    HeadFits(bytes);
  }

  lemma HeadFits(bytes: Bytes)
    requires Unpack(FRAME_WIDTHS, bytes).Some?
    ensures Unpack(FRAME_WIDTHS, bytes).value.0[1] < U32_LIMIT
  {
    Limits();
    assert FRAME_WIDTHS[1..][0] == 4;
    var rest := Unpack(FRAME_WIDTHS[1..], bytes[4..]).value;
    assert rest.0[0] == FromLe(bytes[4..][..4]);
  }

  /** The append-only encoder. */
  class Enc {
    var buf: Bytes

    constructor ()
      ensures buf == []
    {
      buf := [];
    }

    method Uint(width: nat, value: nat)
      modifies this
      ensures buf == old(buf) + Le(width, value)
    {
      var left, n := value, 0;
      while n < width
        invariant n <= width && buf + Le(width - n, left) == old(buf) + Le(width, value)
      {
        assert Le(width - n, left) == [left % 256] + Le(width - n - 1, left / 256);
        buf := buf + [left % 256];
        left := left / 256;
        n := n + 1;
      }
    }

    method Append(bytes: Bytes)
      modifies this
      ensures buf == old(buf) + bytes
    {
      buf := buf + bytes;
    }
  }

  /** The decoder: it consumes its input from the front and fails on truncation. */
  class Dec {
    var rest: Bytes

    constructor (bytes: Bytes)
      ensures rest == bytes
    {
      rest := bytes;
    }

    method Take(n: nat) returns (head: Option<Bytes>)
      modifies this
      ensures head.Some? <==> n <= |old(rest)|
      ensures if head.Some? then head.value + rest == old(rest) && |head.value| == n else rest == old(rest)
    {
      if |rest| < n {
        return None;
      }
      head := Some(rest[..n]);
      rest := rest[n..];
    }

    /** Reading back what Enc.Uint wrote is LeInverse. */
    method Uint(width: nat) returns (value: Option<nat>)
      modifies this
      ensures value == if width <= |old(rest)| then Some(FromLe(old(rest)[..width])) else None
      ensures rest == if width <= |old(rest)| then old(rest)[width..] else old(rest)
    {
      var head := Take(width);
      if head.None? {
        return None;
      }
      assert old(rest)[..width] == head.value && old(rest)[width..] == rest;
      return Some(FromLe(head.value));
    }
  }
}

/** Request and response frames: a result code, a varint length and snappy-compressed bytes. */
module Frames {
  import opened Common
  import opened Bits
  import Varint

  const MAX_RESPONSE := 10_000_000

  /** Block compression, taken as an abstract pair of functions. */
  datatype Snappy = Snappy(encode: seq<Byte> -> seq<Byte>, decode: seq<Byte> -> Option<seq<Byte>>)

  /** What is taken for granted of it: it inverts itself, and its output is never empty. */
  ghost predicate Sound(snappy: Snappy) {
    forall p :: snappy.decode(snappy.encode(p)) == Some(p) && 0 < |snappy.encode(p)| < TWO_64
  }

  /** Go's nil byte slice is told apart from an empty one. */
  type Payload = Option<seq<Byte>>

  function Body(snappy: Snappy, payload: Payload): seq<Byte> {
    match payload
    case None => []
    case Some(p) => Varint.Encode(|snappy.encode(p)|) + snappy.encode(p)
  }

  function ResponseFrame(snappy: Snappy, payload: Payload, failed: bool): seq<Byte> {
    [if failed then 0x01 else 0x00] + Body(snappy, payload)
  }

  datatype ReadError =
    | NoCode
    | ErrorResponse(code: Byte, data: seq<Byte>)
    | VarintTruncated
    | VarintOverflow
    | ZeroLength
    | TooLarge(length: nat)
    | DataTruncated
    | BadSnappy

  type ReadResult = Result<seq<Byte>, ReadError>

  /** What a reader makes of the bytes it is sent, and how many of them it takes. */
  function ReadBody(snappy: Snappy, s: seq<Byte>): (ReadResult, nat) {
    match Varint.Decode(s)
    case Truncated => (Err(VarintTruncated), |s|)
    case Overflow => (Err(VarintOverflow), Varint.MAX_BYTES)
    case Got(length, k) =>
      if length == 0 then (Err(ZeroLength), k)
      else if length > MAX_RESPONSE then (Err(TooLarge(length)), k)
      else if |s| < k + length then (Err(DataTruncated), |s|)
      else
        Varint.LeadingBounds(s);
        match snappy.decode(s[k..k + length])
        case None => (Err(BadSnappy), k + length)
        case Some(p) => (Ok(p), k + length)
  }

  function ReadFrame(snappy: Snappy, s: seq<Byte>): (ReadResult, nat) {
    if s == [] then (Err(NoCode), 0)
    else if s[0] != 0 then (Err(ErrorResponse(s[0], s[1..])), |s|)
    else
      var (result, taken) := ReadBody(snappy, s[1..]);
      (result, 1 + taken)
  }

  lemma SliceInside(s: seq<Byte>, p: nat, skip: nat, k: nat, n: nat)
    requires p + skip + k + n <= |s|
    ensures s[p..][skip..][k..k + n] == s[p + skip + k..p + skip + k + n]
  {
    assert s[p..][skip..] == s[p + skip..];
  }

  /** A stream: what the peer sent, how much of it was read, and what was written back. */
  class Stream {
    const input: seq<Byte>
    var pos: nat
    var output: seq<Byte>

    constructor (input: seq<Byte>)
      ensures this.input == input && pos == 0 && output == []
    {
      this.input, pos, output := input, 0, [];
    }

    ghost predicate Valid()
      reads this
    {
      pos <= |input|
    }

    /** Reads exactly n bytes, or takes what is left and fails. */
    method ReadFull(n: nat) returns (data: Option<seq<Byte>>)
      requires Valid()
      modifies this`pos
      ensures Valid()
      ensures if old(pos) + n <= |input| then data == Some(input[old(pos)..old(pos) + n]) && pos == old(pos) + n
              else data == None && pos == |input|
    {
      if pos + n <= |input| {
        data := Some(input[pos..pos + n]);
        pos := pos + n;
      } else {
        data := None;
        pos := |input|;
      }
    }

    method Write(data: seq<Byte>)
      modifies this`output
      ensures output == old(output) + data
    {
      output := output + data;
    }

    /** The reader's loop: one byte at a time, or-ed into a 64-bit word at a growing shift. */
    method ReadVarint() returns (r: Varint.Reading)
      requires Valid()
      modifies this`pos
      ensures Valid() && r == Varint.Decode(input[old(pos)..])
      ensures pos == old(pos) + match r
                                case Got(_, k) => k
                                case Overflow => Varint.MAX_BYTES
                                case Truncated => |input| - old(pos)
    {
      ghost var s := input[pos..];
      var length, shift, i := 0, 0, 0;
      Pow2Values();
      Varint.LeadingBounds(s);
      while true
        invariant 0 <= i < Varint.MAX_BYTES && shift == 7 * i && pos == old(pos) + i && Valid()
        invariant i <= Varint.Leading(s)
        invariant length == Varint.Value(s[..i]) && length < Pow2(shift)
        decreases Varint.MAX_BYTES - i
      {
        var buf := ReadFull(1);
        if buf.None? {
          return Varint.Truncated;
        }
        var b := buf.value[0];
        assert b == s[i];
        Varint.ReadStep(s, i, length);
        length := Or(length, ShiftLeft64(And(b, 0x7F), shift));
        i := i + 1;
        if And(b, 0x80) == 0 {
          return Varint.Got(length, i);
        }
        shift := shift + 7;
        if shift >= 64 {
          return Varint.Overflow;
        }
      }
    }

    method ReadResponseBytes(snappy: Snappy) returns (result: ReadResult)
      requires Valid()
      modifies this`pos
      ensures Valid() && (result, pos - old(pos)) == ReadFrame(snappy, input[old(pos)..])
    {
      ghost var s := input[pos..];
      var code := ReadFull(1);
      if code.None? {
        return Err(NoCode);
      }
      if code.value[0] != 0 {
        var data := ReadFull(|input| - pos);
        assert data.value == s[1..];
        return Err(ErrorResponse(code.value[0], data.value));
      }
      assert s[1..] == input[pos..];
      var r := ReadVarint();
      if r.Truncated? {
        return Err(VarintTruncated);
      }
      if r.Overflow? {
        return Err(VarintOverflow);
      }
      if r.value == 0 {
        return Err(ZeroLength);
      }
      if r.value > MAX_RESPONSE {
        return Err(TooLarge(r.value));
      }
      var compressed := ReadFull(r.value);
      if compressed.None? {
        return Err(DataTruncated);
      }
      SliceInside(input, old(pos), 1, r.consumed, r.value);
      var payload := snappy.decode(compressed.value);
      return if payload.None? then Err(BadSnappy) else Ok(payload.value);
    }

    method WriteBody(snappy: Snappy, payload: Payload)
      modifies this`output
      ensures output == old(output) + Body(snappy, payload)
    {
      if payload.Some? {
        var compressed := snappy.encode(payload.value);
        var prefix := Varint.Write(|compressed|);
        Write(prefix);
        Write(compressed);
      }
    }

    method WriteResponseBytes(snappy: Snappy, payload: Payload, failed: bool)
      modifies this`output
      ensures output == old(output) + ResponseFrame(snappy, payload, failed)
    {
      if failed {
        Write([0x01]);
      } else {
        Write([0x00]);
      }
      WriteBody(snappy, payload);
    }

    /** A request is a frame's body without a code. */
    method WriteRequestBytes(snappy: Snappy, payload: Payload)
      modifies this`output
      ensures output == old(output) + Body(snappy, payload)
    {
      WriteBody(snappy, payload);
    }
  }

  /** Reading a body followed by anything: the payload up to the limit, a refusal beyond it. */
  lemma BodyRoundTrip(snappy: Snappy, p: seq<Byte>, rest: seq<Byte>)
    requires Sound(snappy)
    ensures var (c, body) := (snappy.encode(p), Body(snappy, Some(p)));
            ReadBody(snappy, body + rest)
            == if |c| <= MAX_RESPONSE then (Ok(p), |body|) else (Err(TooLarge(|c|)), |Varint.Encode(|c|)|)
  {
    var c := snappy.encode(p);
    var prefix := Varint.Encode(|c|);
    assert snappy.decode(c) == Some(p);
    assert prefix + c + rest == prefix + (c + rest);
    Varint.RoundTrip(|c|, c + rest);
    assert (prefix + (c + rest))[|prefix|..|prefix| + |c|] == c;
  }

  /**
   * A success frame reads back as its payload and takes exactly its own bytes, whatever follows,
   * if and only if its compressed length is at most 10,000,000.
   */
  lemma ResponseRoundTrip(snappy: Snappy, p: seq<Byte>, rest: seq<Byte>)
    requires Sound(snappy)
    ensures var frame := ResponseFrame(snappy, Some(p), false);
            var (result, taken) := ReadFrame(snappy, frame + rest);
            && (|snappy.encode(p)| <= MAX_RESPONSE <==> result == Ok(p))
            && (|snappy.encode(p)| <= MAX_RESPONSE ==> taken == |frame| && (frame + rest)[taken..] == rest)
            && (|snappy.encode(p)| > MAX_RESPONSE ==> result == Err(TooLarge(|snappy.encode(p)|)))
  {
    var frame := ResponseFrame(snappy, Some(p), false);
    BodyRoundTrip(snappy, p, rest);
    assert (frame + rest)[1..] == Body(snappy, Some(p)) + rest;
  }

  /** An error frame is always reported as an error, with everything that was sent after its code. */
  lemma ErrorFrameIsReported(snappy: Snappy, payload: Payload, rest: seq<Byte>)
    ensures var s := ResponseFrame(snappy, payload, true) + rest;
            ReadFrame(snappy, s) == (Err(ErrorResponse(0x01, Body(snappy, payload) + rest)), |s|)
  {
    var s := ResponseFrame(snappy, payload, true) + rest;
    assert s[1..] == Body(snappy, payload) + rest;
  }

  /** Whatever code other than 0 comes first is the code reported, with all that follows as its data. */
  lemma ErrorCodeIsReported(snappy: Snappy, code: Byte, data: seq<Byte>)
    ensures ReadFrame(snappy, [code] + data) == (Err(ErrorResponse(code, data)), 1 + |data|) <==> code != 0
  {
    assert ([code] + data)[1..] == data;
  }

  /** A length and whatever bytes follow: each refusal has exactly one cause. */
  predicate Outcome(snappy: Snappy, length: nat, data: seq<Byte>, result: ReadResult, taken: nat) {
    var prefix := |Varint.Encode(length)|;
    if length == 0 then result == Err(ZeroLength) && taken == prefix
    else if length > 10_000_000 then result == Err(TooLarge(length)) && taken == prefix
    else if |data| < length then result == Err(DataTruncated) && taken == prefix + |data|
    else
      && taken == prefix + length
      && (if result.Ok? then snappy.decode(data[..length]) == Some(result.value)
          else result == Err(BadSnappy) && snappy.decode(data[..length]) == None)
  }

  /** Every announced 64-bit length, followed by any bytes, is read or refused for the reason there is. */
  lemma FrameOutcomes(snappy: Snappy, length: nat, data: seq<Byte>)
    requires length < TWO_64
    ensures var (result, taken) := ReadFrame(snappy, [0] + (Varint.Encode(length) + data));
            taken > 0 && Outcome(snappy, length, data, result, taken - 1)
  {
    var body := Varint.Encode(length) + data;
    assert ([0] + body)[1..] == body;
    BodyOutcomes(snappy, length, data);
  }

  lemma BodyOutcomes(snappy: Snappy, length: nat, data: seq<Byte>)
    requires length < TWO_64
    ensures var (result, taken) := ReadBody(snappy, Varint.Encode(length) + data);
            Outcome(snappy, length, data, result, taken)
  {
    var prefix := Varint.Encode(length);
    Varint.RoundTrip(length, data);
    if |data| >= length {
      assert (prefix + data)[|prefix|..|prefix| + length] == data[..length];
    }
  }

  /** Without a readable length: fewer than ten continuation bytes are cut short, ten are one too many. */
  lemma LengthOutcomes(snappy: Snappy, padding: seq<Byte>, data: seq<Byte>)
    requires forall b <- padding :: b >= 128
    ensures |padding| < 10 ==> ReadFrame(snappy, [0] + padding) == (Err(VarintTruncated), 1 + |padding|)
    ensures |padding| == 10 ==> ReadFrame(snappy, [0] + (padding + data)) == (Err(VarintOverflow), 11)
    ensures ReadFrame(snappy, []) == (Err(NoCode), 0)
  {
    assert ([0] + padding)[1..] == padding && ([0] + (padding + data))[1..] == padding + data;
    Varint.Refusals(padding, data);
  }

  /** A success frame without a payload cannot be read: the reader insists on a length. */
  lemma NilPayloadIsUnreadable(snappy: Snappy)
    ensures ReadFrame(snappy, ResponseFrame(snappy, None, false)) == (Err(VarintTruncated), 1)
  {
    assert ResponseFrame(snappy, None, false)[1..] == [];
  }

  /**
   * Whatever is sent, an accepted response is a zero code, a readable length between 1 and
   * 10,000,000, and that many bytes that decompress to the result; nothing else is taken.
   */
  lemma AcceptedFrames(snappy: Snappy, s: seq<Byte>)
    ensures var (result, taken) := ReadFrame(snappy, s);
            result.Ok? ==>
              && s[0] == 0 && taken <= |s| && taken <= 1 + Varint.MAX_BYTES + MAX_RESPONSE
              && Varint.Decode(s[1..]).Got?
              && (var Got(length, k) := Varint.Decode(s[1..]);
                  && 1 <= length <= MAX_RESPONSE && taken == 1 + k + length
                  && snappy.decode(s[1 + k..taken]) == Some(result.value))
  {
    if s != [] && s[0] == 0 && Varint.Decode(s[1..]).Got? {
      var Got(length, k) := Varint.Decode(s[1..]);
      if |s[1..]| >= k + length {
        assert s[1..][k..k + length] == s[1 + k..1 + k + length];
      }
    }
  }
}

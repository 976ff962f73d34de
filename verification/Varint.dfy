/** The hand-written base-128 varint of the request and response frames. */
module Varint {
  import opened Common
  import opened Bits

  // ----- The code -----

  function Encode(n: nat): seq<Byte> {
    if n < 128 then [n] else [n % 128 + 128] + Encode(n / 128)
  }

  /** The number a byte string spells, seven bits a byte, lowest first. */
  function Value(bytes: seq<Byte>): nat {
    if bytes == [] then 0 else bytes[0] % 128 + 128 * Value(bytes[1..])
  }

  const MAX_BYTES := 10

  datatype Reading = Got(value: nat, consumed: nat) | Truncated | Overflow

  /** How many bytes with the continuation bit lead a stream. */
  function Leading(s: seq<Byte>): nat {
    if s == [] || s[0] < 128 then 0 else 1 + Leading(s[1..])
  }

  /**
   * What the reader makes of a stream: it stops at the first byte without the continuation bit, but
   * reads ten bytes at most, and keeps 64 bits.
   */
  function Decode(s: seq<Byte>): Reading {
    var k := Leading(s);
    LeadingBounds(s);
    if k < MAX_BYTES && k < |s| then Got(Value(s[..k + 1]) % TWO_64, k + 1)
    else if k >= MAX_BYTES then Overflow
    else Truncated
  }

  lemma {:induction false} LeadingBounds(s: seq<Byte>)
    ensures Leading(s) <= |s|
    ensures forall i :: 0 <= i < Leading(s) ==> s[i] >= 128
    ensures Leading(s) < |s| ==> s[Leading(s)] < 128
  {
    if s != [] && s[0] >= 128 {
      LeadingBounds(s[1..]);
      forall i | 0 <= i < Leading(s) ensures s[i] >= 128 {
        if i > 0 {
          assert s[i] == s[1..][i - 1];
        }
      }
    }
  }

  // ----- The writer's loop, on the bits of the length -----

  /** One turn of the writer: the low seven bits with the continuation bit, and the rest. */
  lemma WriteStep(length: nat)
    ensures Or(And(length, 0x7F), 0x80) == length % 128 + 128 && ShiftRight(length, 7) == length / 128
  {
    Pow2Values();
    AndMask(length, 7);
    OrIsSum(length % 128, 1, 7);
    ShiftRightDivides(length, 7);
  }

  method Write(n: nat) returns (bytes: seq<Byte>)
    ensures bytes == Encode(n)
  {
    bytes := [];
    var length := n;
    while length >= 0x80
      invariant bytes + Encode(length) == Encode(n)
      decreases length
    {
      WriteStep(length);
      var low := Or(And(length, 0x7F), 0x80);
      assert bytes + Encode(length) == (bytes + [low]) + Encode(length / 128);
      bytes := bytes + [low];
      length := ShiftRight(length, 7);
    }
    bytes := bytes + [length];
  }

  // ----- One turn of the reader's loop -----

  /** The bits of one byte that the reader looks at. */
  lemma ByteBits(b: Byte)
    ensures And(b, 0x7F) == b % 128 && (And(b, 0x80) == 0 <==> b < 128)
  {
    Pow2Values();
    AndMask(b, 7);
    AndBit(b, 7);
  }

  /** Or-ing one more byte into the word at its shift. */
  lemma WordStep(s: seq<Byte>, b: Byte, length: nat)
    requires |s| < MAX_BYTES && length == Value(s) < Pow2(7 * |s|)
    ensures Or(length, ShiftLeft64(b % 128, 7 * |s|)) == Value(s + [b]) % TWO_64
  {
    ValueAppend(s, b);
    OrInWord(length, b % 128, 7 * |s|);
  }

  lemma WordFits(s: seq<Byte>, b: Byte)
    requires |s| < MAX_BYTES - 1
    ensures Value(s + [b]) % TWO_64 == Value(s + [b]) < Pow2(7 * |s| + 7)
  {
    ShortFits(s + [b]);
  }

  lemma NextWord(before: seq<Byte>, b: Byte, after: seq<Byte>, length: nat)
    requires after == before + [b]
    requires |before| < MAX_BYTES && length == Value(before) < Pow2(7 * |before|)
    ensures var word := Or(length, ShiftLeft64(b % 128, 7 * |before|));
            && word == Value(after) % TWO_64
            && (|before| < MAX_BYTES - 1 ==> word == Value(after) && word < Pow2(7 * |before| + 7))
  {
    WordStep(before, b, length);
    if |before| < MAX_BYTES - 1 {
      WordFits(before, b);
    }
  }

  lemma LeadingStep(s: seq<Byte>, i: nat)
    requires i < |s| && i <= Leading(s)
    ensures if s[i] < 128 then Leading(s) == i else i + 1 <= Leading(s)
  {
    LeadingBounds(s);
  }

  lemma {:induction false} ReadStep(s: seq<Byte>, i: nat, length: nat)
    requires i < |s| && i < MAX_BYTES && i <= Leading(s) && length == Value(s[..i]) < Pow2(7 * i)
    ensures var word := Or(length, ShiftLeft64(And(s[i], 0x7F), 7 * i));
            && word == Value(s[..i + 1]) % TWO_64
            && (i < MAX_BYTES - 1 ==> word == Value(s[..i + 1]) && word < Pow2(7 * i + 7))
    ensures And(s[i], 0x80) == 0 <==> s[i] < 128
    ensures if s[i] < 128 then Leading(s) == i else i + 1 <= Leading(s)
  {
    LeadingStep(s, i);
    ByteBits(s[i]);
    var low, after := And(s[i], 0x7F), s[..i + 1];
    assert after == s[..i] + [s[i]];
    assert |s[..i]| == i;
    NextWord(s[..i], s[i], after, length);
  }

  /** Nine bytes never fill a 64-bit word. */
  lemma ShortFits(s: seq<Byte>)
    ensures Value(s) < Pow2(7 * |s|)
    ensures |s| < MAX_BYTES ==> Value(s) % TWO_64 == Value(s)
  {
    ValueBound(s);
    if |s| < MAX_BYTES {
      Pow2Values();
      Pow2Monotone(7 * |s|, 63);
    }
  }

  /** In a 64-bit word, or-ing shifted bits adds them and drops what does not fit. */
  lemma OrInWord(a: nat, c: nat, k: nat)
    requires k <= 63 && a < Pow2(k)
    ensures Or(a, ShiftLeft64(c, k)) == (a + c * Pow2(k)) % TWO_64
  {
    Pow2Positive(64 - k);
    var q, kept := Divide(c, Pow2(64 - k));
    OrInWordParts(a, q, kept, c, k);
  }

  lemma OrInWordParts(a: nat, q: nat, kept: nat, c: nat, k: nat)
    requires k <= 63 && a < Pow2(k) && kept < Pow2(64 - k) && c == q * Pow2(64 - k) + kept
    ensures Or(a, ShiftLeft64(c, k)) == (a + c * Pow2(k)) % TWO_64
  {
    assert Pow2(64 - k) * Pow2(k) == TWO_64 by {
      Pow2Values();
      Pow2Add(64 - k, k);
    }
    DropHigh(a, c, q, kept, Pow2(64 - k), Pow2(k));
    OrIsSum(a, kept, k);
  }

  lemma DropHigh(a: nat, c: nat, q: nat, kept: nat, high: nat, p: nat)
    requires a < p && kept < high && high * p == TWO_64 && c == q * high + kept
    ensures (c * p) % TWO_64 == kept * p
    ensures (a + c * p) % TWO_64 == a + kept * p
  {
    assert c * p == q * TWO_64 + kept * p by {
      assert (q * high + kept) * p == (q * high) * p + kept * p;
      assert (q * high) * p == q * (high * p);
    }
    assert a + kept * p < TWO_64 by {
      var spare := high - kept - 1;
      assert spare * p >= 0;
      assert high * p == spare * p + kept * p + p;
    }
    DivModUnique(c * p, TWO_64, q, kept * p);
    DivModUnique(a + c * p, TWO_64, q, a + kept * p);
  }

  lemma {:induction false} Pow2Monotone(a: nat, b: nat)
    requires a <= b
    ensures Pow2(a) <= Pow2(b)
  {
    if a < b {
      Pow2Monotone(a, b - 1);
    }
  }

  lemma {:induction false} ValueAppend(s: seq<Byte>, b: Byte)
    ensures Value(s + [b]) == Value(s) + (b % 128) * Pow2(7 * |s|)
  {
    if s == [] {
      assert s + [b] == [b] && [b][1..] == [];
    } else {
      assert (s + [b])[1..] == s[1..] + [b];
      ValueAppend(s[1..], b);
      Pow2Values();
      Pow2Add(7, 7 * |s| - 7);
      var c, p := b % 128, Pow2(7 * |s| - 7);
      assert 128 * (c * p) == c * (128 * p);
    }
  }

  // ----- Refusals -----

  lemma {:induction false} LeadingAll(padding: seq<Byte>, rest: seq<Byte>)
    requires forall b <- padding :: b >= 128
    ensures Leading(padding + rest) == |padding| + Leading(rest)
  {
    if padding == [] {
      assert padding + rest == rest;
    } else {
      assert padding[0] in padding && forall b <- padding[1..] :: b in padding;
      assert (padding + rest)[1..] == padding[1..] + rest;
      LeadingAll(padding[1..], rest);
    }
  }

  /** Fewer than ten bytes with the continuation bit are cut short; ten are too many, whatever follows. */
  lemma Refusals(padding: seq<Byte>, rest: seq<Byte>)
    requires forall b <- padding :: b >= 128
    ensures |padding| < 10 ==> Decode(padding) == Truncated
    ensures |padding| >= 10 ==> Decode(padding + rest) == Overflow
  {
    LeadingAll(padding, []);
    LeadingAll(padding, rest);
    assert padding + [] == padding;
  }

  // ----- Round trip, minimality, prefix code -----

  lemma {:induction false} EncodeShape(n: nat)
    ensures var e := Encode(n);
            |e| > 0 && Leading(e) == |e| - 1 && Value(e) == n && (e[|e| - 1] == 0 ==> n == 0)
  {
    if n >= 128 {
      EncodeShape(n / 128);
      assert Encode(n)[1..] == Encode(n / 128);
    }
  }

  lemma {:induction false} ValueBound(s: seq<Byte>)
    ensures Value(s) < Pow2(7 * |s|)
  {
    if s != [] {
      ValueBound(s[1..]);
      Pow2Values();
      Pow2Add(7, 7 * |s| - 7);
    }
  }

  /** The code of a number below 128^k has at most k bytes. */
  lemma {:induction false} EncodeLength(n: nat, k: nat)
    requires k > 0 && n < Pow2(7 * k)
    ensures |Encode(n)| <= k
  {
    if n >= 128 {
      Pow2Values();
      if k > 1 {
        Pow2Add(7, 7 * k - 7);
        EncodeLength(n / 128, k - 1);
      }
    }
  }

  lemma {:induction false} LeadingConcat(s: seq<Byte>, rest: seq<Byte>)
    requires Leading(s) < |s|
    ensures Leading(s + rest) == Leading(s)
  {
    LeadingBounds(s);
    if s[0] >= 128 {
      assert (s + rest)[1..] == s[1..] + rest;
      LeadingConcat(s[1..], rest);
    }
  }

  lemma TenBytesSuffice(n: nat)
    requires n < TWO_64
    ensures |Encode(n)| <= MAX_BYTES
  {
    Pow2Values();
    Pow2Monotone(64, 70);
    EncodeLength(n, MAX_BYTES);
  }

  lemma DecodeWhole(s: seq<Byte>, code: seq<Byte>, n: nat)
    requires code <= s && 0 < |code| <= MAX_BYTES && Leading(s) == |code| - 1
    requires Value(code) == n < TWO_64
    ensures Decode(s) == Got(n, |code|)
  {
    assert s[..|code|] == code;
    assert n % TWO_64 == n;
  }

  /** Reading back what was written returns the number and leaves the bytes that follow. */
  lemma RoundTrip(n: nat, rest: seq<Byte>)
    requires n < TWO_64
    ensures Decode(Encode(n) + rest) == Got(n, |Encode(n)|)
    ensures |Encode(n)| <= MAX_BYTES && (Encode(n) + rest)[|Encode(n)|..] == rest
  {
    var e := Encode(n);
    EncodeShape(n);
    LeadingConcat(e, rest);
    TenBytesSuffice(n);
    DecodeWhole(e + rest, e, n);
  }

  /** No accepted byte string spells a number in fewer bytes than the writer does. */
  lemma EncodingIsMinimal(s: seq<Byte>)
    requires Decode(s).Got?
    ensures |Encode(Decode(s).value)| <= Decode(s).consumed <= MAX_BYTES
  {
    var k := Decode(s).consumed;
    LeadingBounds(s);
    ValueBound(s[..k]);
    assert Decode(s).value <= Value(s[..k]);
    EncodeLength(Decode(s).value, k);
  }

  /** The varint is a prefix code: no number's code begins another's. */
  lemma PrefixFree(m: nat, n: nat, rest: seq<Byte>)
    requires m < TWO_64 && n < TWO_64
    requires Encode(m) <= Encode(n) + rest
    ensures m == n
  {
    var tail := (Encode(n) + rest)[|Encode(m)|..];
    assert Encode(m) + tail == Encode(n) + rest;
    RoundTrip(m, tail);
    RoundTrip(n, rest);
  }

  lemma TenthByte(low: nat, high: nat, b: nat)
    requires low < high && 2 * high == TWO_64 && b < 128
    ensures (low + b * high) % TWO_64 == low + b * high <==> b <= 1
  {
    if b <= 1 {
      assert low + b * high < TWO_64;
    } else {
      assert (b - 2) * high >= 0;
      assert low + b * high >= TWO_64;
    }
  }

  lemma TenBytes(s: seq<Byte>)
    requires |s| == MAX_BYTES && s[9] < 128
    ensures Value(s) % TWO_64 == Value(s) <==> s[9] <= 1
  {
    NineAndOne(s[..9], s[9], s);
  }

  lemma NineAndOne(nine: seq<Byte>, last: Byte, s: seq<Byte>)
    requires |nine| == 9 && last < 128 && s == nine + [last]
    ensures Value(s) % TWO_64 == Value(s) <==> last <= 1
  {
    ValueAppend(nine, last);
    ValueBound(nine);
    Pow2Values();
    TenthByte(Value(nine), Pow2(63), last);
  }

  /**
   * The tenth byte is not checked: the reader's number is the one spelled by the bytes it took
   * exactly when it took fewer than ten or the tenth is at most 1; otherwise bits are dropped.
   */
  lemma BitsAreDroppedSilently(s: seq<Byte>)
    requires Decode(s).Got?
    ensures var Got(value, k) := Decode(s);
            value == Value(s[..k]) <==> k < MAX_BYTES || s[MAX_BYTES - 1] <= 1
  {
    var k := Decode(s).consumed;
    if k < MAX_BYTES {
      ShortFits(s[..k]);
    } else {
      LeadingBounds(s);
      TenBytes(s[..MAX_BYTES]);
    }
  }

  /** It happens: nine padding bytes and a 2 spell 2^64, and are read as 0. */
  lemma DroppedBits()
    ensures var s: seq<Byte> := seq(9, _ => 0x80) + [0x02];
            Decode(s) == Got(0, MAX_BYTES) && Value(s) == TWO_64
  {
    var pad: seq<Byte> := seq(9, _ => 0x80);
    PaddingOnly(9);
    LeadingPad(9, [0x02]);
    ValueAppend(pad, 0x02);
    Pow2Values();
    assert (pad + [0x02])[..MAX_BYTES] == pad + [0x02];
  }

  lemma {:induction false} PaddingOnly(n: nat)
    ensures Value(seq(n, _ => 0x80)) == 0
  {
    if n > 0 {
      PaddingOnly(n - 1);
      assert seq(n, _ => 0x80)[1..] == seq(n - 1, _ => 0x80);
    }
  }

  lemma {:induction false} LeadingPad(n: nat, rest: seq<Byte>)
    ensures Leading(seq(n, _ => 0x80) + rest) == n + Leading(rest)
  {
    var s: seq<Byte> := seq(n, _ => 0x80) + rest;
    if n == 0 {
      assert s == rest;
    } else {
      LeadingPad(n - 1, rest);
      assert s[1..] == seq(n - 1, _ => 0x80) + rest;
    }
  }

  /** The reader accepts exactly one spelling of each number, plus padded and overflowing ones. */
  lemma CanonicalSpelling(s: seq<Byte>)
    requires Decode(s).Got?
    ensures var Got(value, k) := Decode(s);
            s[..k] == Encode(value) <==> (k == 1 || s[k - 1] != 0) && (k < MAX_BYTES || s[MAX_BYTES - 1] <= 1)
  {
    var Got(value, k) := Decode(s);
    LeadingBounds(s);
    BitsAreDroppedSilently(s);
    EncodeShape(value);
    if value == Value(s[..k]) && (k == 1 || s[k - 1] != 0) {
      Spelled(s[..k]);
    }
  }

  lemma {:induction false} Spelled(s: seq<Byte>)
    requires |s| > 0 && s[|s| - 1] < 128 && (forall i :: 0 <= i < |s| - 1 ==> s[i] >= 128)
    requires |s| == 1 || s[|s| - 1] != 0
    ensures Encode(Value(s)) == s
    ensures s[|s| - 1] != 0 ==> Value(s) > 0
  {
    if |s| == 1 {
      assert s[1..] == [];
    } else {
      Spelled(s[1..]);
      assert s == [s[0]] + s[1..];
    }
  }
}

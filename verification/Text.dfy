/** Decimal and hexadecimal printing, number parsing and splitting of strings. */
module Text {
  import opened Common

  // ----- Decimal numbers -----

  function Digit(d: nat): char
    requires d < 10
  {
    "0123456789"[d]
  }

  predicate IsDigit(c: char) {
    '0' <= c <= '9'
  }

  function DigitValue(c: char): nat
    requires IsDigit(c)
  {
    c as int - '0' as int
  }

  function Decimal(n: nat): string {
    if n < 10 then [Digit(n)] else Decimal(n / 10) + [Digit(n % 10)]
  }

  predicate AllDigits(s: string) {
    forall c <- s :: IsDigit(c)
  }

  function Number(s: string): nat
    requires AllDigits(s)
  {
    if s == [] then 0 else 10 * Number(s[..|s| - 1]) + DigitValue(s[|s| - 1])
  }

  /** Parsing in base 10 into 64 bits: digits only, at least one, leading zeros allowed. */
  function ParseUint(s: string): Option<nat> {
    if s != [] && AllDigits(s) && Number(s) < TWO_64 then Some(Number(s)) else None
  }

  lemma {:induction false} DecimalIsNumber(n: nat)
    ensures AllDigits(Decimal(n)) && Decimal(n) != [] && Number(Decimal(n)) == n
  {
    if n >= 10 {
      DecimalIsNumber(n / 10);
      assert Decimal(n)[..|Decimal(n)| - 1] == Decimal(n / 10);
    } else {
      assert Decimal(n)[..0] == [];
    }
  }

  lemma DecimalInjective(m: nat, n: nat)
    requires Decimal(m) == Decimal(n)
    ensures m == n
  {
    DecimalIsNumber(m);
    DecimalIsNumber(n);
  }

  lemma DecimalShift(n: nat, d: nat)
    requires d < 10
    ensures Decimal(10 * n + d) == if n == 0 then [Digit(d)] else Decimal(n) + [Digit(d)]
  {
    assert n > 0 ==> (10 * n + d) / 10 == n && (10 * n + d) % 10 == d;
  }

  lemma DigitOfValue(c: char)
    requires IsDigit(c)
    ensures Digit(DigitValue(c)) == c
  {
    assert "0123456789"[DigitValue(c)] == c;
  }

  lemma {:induction false} PrintsBack(s: string)
    requires s != [] && AllDigits(s) && (|s| == 1 || s[0] != '0')
    ensures Decimal(Number(s)) == s
  {
    var front, last := s[..|s| - 1], s[|s| - 1];
    assert forall c <- front :: c in s;
    DigitOfValue(last);
    assert Number(s) == 10 * Number(front) + DigitValue(last);
    DecimalShift(Number(front), DigitValue(last));
    assert front + [last] == s;
    if |s| == 1 {
      assert front == [];
    } else {
      PrintsBack(front);
      NumberPositive(front);
    }
  }

  lemma {:induction false} ZeroNeverLeads(n: nat)
    requires n > 0
    ensures Decimal(n) != [] && Decimal(n)[0] != '0'
  {
    if n >= 10 {
      ZeroNeverLeads(n / 10);
    }
  }

  /** A digit string is the printed form of its number exactly when it has no padding zero. */
  lemma PaddingFree(s: string)
    requires s != [] && AllDigits(s)
    ensures Decimal(Number(s)) == s <==> |s| == 1 || s[0] != '0'
  {
    if |s| == 1 || s[0] != '0' {
      PrintsBack(s);
    } else if Number(s) > 0 {
      ZeroNeverLeads(Number(s));
    }
  }

  lemma {:induction false} NumberPositive(s: string)
    requires s != [] && AllDigits(s) && s[0] != '0'
    ensures Number(s) > 0
  {
    if |s| > 1 {
      assert forall c <- s[..|s| - 1] :: c in s;
      NumberPositive(s[..|s| - 1]);
    } else {
      assert s[..0] == [];
      assert DigitValue(s[0]) > 0;
    }
  }

  // ----- Hexadecimal bytes -----

  function HexDigit(d: nat): char
    requires d < 16
  {
    "0123456789abcdef"[d]
  }

  function Hex(bytes: seq<Byte>): string {
    if bytes == [] then [] else [HexDigit(bytes[0] / 16), HexDigit(bytes[0] % 16)] + Hex(bytes[1..])
  }

  lemma HexDigitInjective(d: nat, e: nat)
    requires d < 16 && e < 16 && HexDigit(d) == HexDigit(e)
    ensures d == e
  {
  }

  lemma {:induction false} HexLength(bytes: seq<Byte>)
    ensures |Hex(bytes)| == 2 * |bytes|
    ensures forall c <- Hex(bytes) :: IsDigit(c) || 'a' <= c <= 'f'
  {
    if bytes != [] {
      HexLength(bytes[1..]);
    }
  }

  /** The digit's value, for the ten decimal digits and the lower-case letters from a to f. */
  predicate SpellsDigit(c: char, value: nat) {
    if '0' <= c <= '9' then value == c as int - '0' as int
    else 'a' <= c <= 'f' && value == 10 + (c as int - 'a' as int)
  }

  predicate SpellsByte(high: char, low: char, b: Byte) {
    SpellsDigit(high, b / 16) && SpellsDigit(low, b % 16)
  }

  /** Each byte is spelled by its two digits, the high one first. */
  lemma {:induction false} HexSpells(bytes: seq<Byte>, i: nat)
    requires i < |bytes|
    ensures |Hex(bytes)| == 2 * |bytes| && SpellsByte(Hex(bytes)[2 * i], Hex(bytes)[2 * i + 1], bytes[i])
  {
    HexLength(bytes);
    HexLength(bytes[1..]);
    if i == 0 {
      DigitsSpell(bytes[0]);
    } else {
      HexSpells(bytes[1..], i - 1);
      assert Hex(bytes)[2..] == Hex(bytes[1..]);
    }
  }

  lemma DigitsSpell(b: Byte)
    ensures SpellsByte(HexDigit(b / 16), HexDigit(b % 16), b)
  {
  }

  lemma {:induction false} HexInjective(a: seq<Byte>, b: seq<Byte>)
    requires Hex(a) == Hex(b)
    ensures a == b
  {
    HexLength(a);
    HexLength(b);
    if a != [] {
      var (x, y) := (Hex(a), Hex(b));
      assert x[0] == HexDigit(a[0] / 16) && y[0] == HexDigit(b[0] / 16);
      assert x[1] == HexDigit(a[0] % 16) && y[1] == HexDigit(b[0] % 16);
      HexDigitInjective(a[0] / 16, b[0] / 16);
      HexDigitInjective(a[0] % 16, b[0] % 16);
      assert x[2..] == Hex(a[1..]) && y[2..] == Hex(b[1..]);
      HexInjective(a[1..], b[1..]);
      assert a == [a[0]] + a[1..] && b == [b[0]] + b[1..];
    }
  }

  // ----- Prefixes, suffixes and splitting -----

  predicate HasPrefix(s: string, prefix: string) {
    prefix <= s
  }

  predicate HasSuffix(s: string, suffix: string) {
    |suffix| <= |s| && s[|s| - |suffix|..] == suffix
  }

  predicate MatchAt(s: string, sep: string, i: nat) {
    i + |sep| <= |s| && s[i..i + |sep|] == sep
  }

  /** The leftmost occurrence of a separator at or after an index. */
  function Find(s: string, sep: string, from: nat): (r: Option<nat>)
    ensures r.Some? ==> from <= r.value && r.value + |sep| <= |s|
    decreases |s| - from
  {
    if from + |sep| > |s| then None else if MatchAt(s, sep, from) then Some(from) else Find(s, sep, from + 1)
  }

  lemma {:induction false} FindIsLeftmost(s: string, sep: string, from: nat)
    requires from <= |s|
    ensures match Find(s, sep, from)
            case Some(i) => MatchAt(s, sep, i) && forall j: nat :: from <= j < i ==> !MatchAt(s, sep, j)
            case None => forall j: nat :: from <= j ==> !MatchAt(s, sep, j)
    decreases |s| - from
  {
    if from + |sep| <= |s| && !MatchAt(s, sep, from) {
      FindIsLeftmost(s, sep, from + 1);
    }
  }

  lemma {:induction false} FindMatches(s: string, sep: string, from: nat)
    ensures var r := Find(s, sep, from); r.Some? ==> s[r.value..r.value + |sep|] == sep
    decreases |s| - from
  {
    if from + |sep| <= |s| && !MatchAt(s, sep, from) {
      FindMatches(s, sep, from + 1);
    }
  }

  /** The leftmost occurrence is the only one with no occurrence before it. */
  lemma FindUnique(s: string, sep: string, from: nat, i: nat)
    requires from <= i && MatchAt(s, sep, i) && forall j: nat :: from <= j < i ==> !MatchAt(s, sep, j)
    ensures Find(s, sep, from) == Some(i)
  {
    FindIsLeftmost(s, sep, from);
  }

  /** Splitting, from an index on, at the leftmost separators that do not overlap. */
  function SplitFrom(s: string, sep: string, start: nat): seq<string>
    requires sep != "" && start <= |s|
    decreases |s| - start
  {
    match Find(s, sep, start)
    case None => [s[start..]]
    case Some(i) => [s[start..i]] + SplitFrom(s, sep, i + |sep|)
  }

  function Split(s: string, sep: string): seq<string>
    requires sep != ""
  {
    SplitFrom(s, sep, 0)
  }

  lemma SplitStep(s: string, sep: string, start: nat, i: nat, piece: string, rest: seq<string>)
    requires sep != "" && start <= |s| && Find(s, sep, start) == Some(i)
    requires piece == s[start..i] && rest == SplitFrom(s, sep, i + |sep|)
    ensures SplitFrom(s, sep, start) == [piece] + rest
  {
  }

  // ----- What splitting means -----

  function Join(parts: seq<string>, sep: string): string {
    if parts == [] then ""
    else if |parts| == 1 then parts[0]
    else parts[0] + (sep + Join(parts[1..], sep))
  }

  lemma JoinFirst(piece: string, pieces: seq<string>, sep: string)
    requires pieces != []
    ensures Join([piece] + pieces, sep) == piece + (sep + Join(pieces, sep))
  {
    assert ([piece] + pieces)[1..] == pieces;
  }

  lemma Cut(s: string, i: nat, k: nat)
    requires i <= k <= |s|
    ensures s[i..] == s[i..k] + s[k..]
  {
  }

  /** Splitting loses nothing: joining the pieces with the separator gives the string back. */
  lemma {:induction false} SplitJoins(s: string, sep: string, start: nat)
    requires sep != "" && start <= |s|
    ensures SplitFrom(s, sep, start) != [] && Join(SplitFrom(s, sep, start), sep) == s[start..]
    decreases |s| - start
  {
    match Find(s, sep, start)
    case None =>
    case Some(i) =>
      var rest := SplitFrom(s, sep, i + |sep|);
      FindMatches(s, sep, start);
      SplitJoins(s, sep, i + |sep|);
      Cut(s, start, i);
      Cut(s, i, i + |sep|);
      JoinFirst(s[start..i], rest, sep);
      SplitStep(s, sep, start, i, s[start..i], rest);
  }

  /** No piece contains the separator. */
  lemma {:induction false} PiecesAreFree(s: string, sep: string, start: nat, k: nat, j: nat)
    requires sep != "" && start <= |s| && k < |SplitFrom(s, sep, start)|
    ensures !MatchAt(SplitFrom(s, sep, start)[k], sep, j)
    decreases |s| - start
  {
    FindIsLeftmost(s, sep, start);
    match Find(s, sep, start)
    case None =>
      assert SplitFrom(s, sep, start)[k] == s[start..|s|];
      PieceIsFree(s, sep, start, |s|, j);
    case Some(i) =>
      assert SplitFrom(s, sep, start) == [s[start..i]] + SplitFrom(s, sep, i + |sep|);
      if k == 0 {
        PieceIsFree(s, sep, start, i, j);
      } else {
        PiecesAreFree(s, sep, i + |sep|, k - 1, j);
      }
  }

  lemma PieceIsFree(s: string, sep: string, start: nat, end: nat, j: nat)
    requires start <= end <= |s| && (start + j + |sep| <= end ==> !MatchAt(s, sep, start + j))
    ensures !MatchAt(s[start..end], sep, j)
  {
    if start + j + |sep| <= end {
      var t := s[start..];
      assert t[j..j + |sep|] == s[start + j..start + j + |sep|];
      assert s[start..end] == t[..end - start];
      assert t[..end - start][j..j + |sep|] == t[j..j + |sep|];
    }
  }

  // ----- Splitting a string put together from pieces -----

  lemma MatchShift(a: string, t: string, sep: string, i: nat)
    ensures MatchAt(a + t, sep, |a| + i) == MatchAt(t, sep, i)
  {
    if i + |sep| <= |t| {
      assert (a + t)[|a| + i..|a| + i + |sep|] == t[i..i + |sep|];
    }
  }

  lemma {:induction false} FindShift(a: string, t: string, sep: string, i: nat)
    requires i <= |t|
    ensures Find(a + t, sep, |a| + i) ==
            match Find(t, sep, i) case None => None case Some(k) => Some(|a| + k)
    decreases |t| - i
  {
    MatchShift(a, t, sep, i);
    if i + |sep| <= |t| && !MatchAt(t, sep, i) {
      FindShift(a, t, sep, i + 1);
    }
  }

  lemma SplitEndShift(a: string, t: string, u: string, sep: string, i: nat)
    requires sep != "" && i <= |t| && u == a + t
    requires Find(t, sep, i) == None && Find(u, sep, |a| + i) == None
    ensures SplitFrom(u, sep, |a| + i) == SplitFrom(t, sep, i)
  {
    assert u[|a| + i..] == t[i..];
  }

  lemma SplitStepShift(a: string, t: string, u: string, sep: string, i: nat, k: nat, rest: seq<string>)
    requires sep != "" && i <= |t| && u == a + t
    requires Find(t, sep, i) == Some(k) && Find(u, sep, |a| + i) == Some(|a| + k)
    requires rest == SplitFrom(t, sep, k + |sep|) == SplitFrom(u, sep, |a| + k + |sep|)
    ensures SplitFrom(u, sep, |a| + i) == SplitFrom(t, sep, i)
  {
    assert u[|a| + i..|a| + k] == t[i..k];
    SplitStep(t, sep, i, k, t[i..k], rest);
    SplitStep(u, sep, |a| + i, |a| + k, t[i..k], rest);
  }

  /** What follows a prefix splits as it does alone. */
  lemma {:induction false} SplitShift(a: string, t: string, sep: string, i: nat)
    requires sep != "" && i <= |t|
    ensures SplitFrom(a + t, sep, |a| + i) == SplitFrom(t, sep, i)
    decreases |t| - i
  {
    FindShift(a, t, sep, i);
    match Find(t, sep, i)
    case None => SplitEndShift(a, t, a + t, sep, i);
    case Some(k) =>
      SplitShift(a, t, sep, k + |sep|);
      assert |a| + (k + |sep|) == |a| + k + |sep|;
      SplitStepShift(a, t, a + t, sep, i, k, SplitFrom(t, sep, k + |sep|));
  }

  lemma NoMatch(s: string, sep: string, j: nat)
    requires sep != "" && (j < |s| ==> s[j] != sep[0])
    ensures !MatchAt(s, sep, j)
  {
    if j + |sep| <= |s| {
      assert s[j..j + |sep|][0] == s[j];
    }
  }

  /** A piece free of the separator's first character ends at the first separator. */
  lemma SplitFirst(a: string, sep: string, rest: string)
    requires sep != "" && sep[0] !in a
    ensures Split(a + sep + rest, sep) == [a] + Split(rest, sep)
  {
    var s := a + sep + rest;
    assert s[|a|..|a| + |sep|] == sep;
    forall j: nat | j < |a| ensures !MatchAt(s, sep, j) {
      NoMatch(s, sep, j);
    }
    FindUnique(s, sep, 0, |a|);
    assert s[0..|a|] == a;
    SplitShift(a + sep, rest, sep, 0);
  }

  lemma SplitNone(a: string, sep: string)
    requires sep != "" && sep[0] !in a
    ensures Split(a, sep) == [a]
  {
    forall j: nat ensures !MatchAt(a, sep, j) {
      NoMatch(a, sep, j);
    }
    FindIsLeftmost(a, sep, 0);
    assert a[0..] == a;
  }
}

/**
 * Which subnet patterns claim a common name, and when a whole registry gives every name one answer.
 * Both questions reduce to trying finitely many names made of the patterns' prefixes and suffixes.
 */
module Overlaps {
  import opened Common
  import opened Text
  import opened Topics
  import opened Registries

  predicate Accepts(pattern: string, base: string) {
    ParseBase(SubnetTopic(pattern, MAX_UINT64), base).Subnet?
  }

  predicate Crashes(pattern: string, base: string) {
    ParseBase(SubnetTopic(pattern, MAX_UINT64), base).Crash?
  }

  /** A base name that a pattern accepts, with the digits it reads there. */
  predicate Spells(pattern: string, base: string, digits: string) {
    && base == Prefix(pattern) + (digits + Suffix(pattern))
    && digits != "" && AllDigits(digits) && Number(digits) < MAX_UINT64
  }

  lemma AcceptsSpelled(pattern: string, base: string, digits: string)
    requires Spells(pattern, base, digits)
    ensures Accepts(pattern, base)
  {
    ReadsIsParsed(SubnetTopic(pattern, MAX_UINT64), base, digits, Number(digits));
  }

  lemma Spelled(pattern: string, base: string) returns (digits: string)
    requires Accepts(pattern, base)
    ensures Spells(pattern, base, digits)
  {
    var st := SubnetTopic(pattern, MAX_UINT64);
    var subnet := ParseBase(st, base).id;
    ParsedIsRead(st, base, subnet);
    digits :| Reads(st, base, digits, subnet);
  }

  // ----- Numbers of concatenated digits -----

  lemma NumberAppend(s: string, c: char)
    requires AllDigits(s) && IsDigit(c)
    ensures AllDigits(s + [c]) && Number(s + [c]) == 10 * Number(s) + DigitValue(c)
  {
    assert (s + [c])[..|s|] == s;
  }

  lemma LastDigit(a: string, tail: string)
    requires AllDigits(a) && AllDigits(tail) && tail != ""
    ensures var front, last := tail[..|tail| - 1], tail[|tail| - 1];
            && AllDigits(front) && IsDigit(last) && AllDigits(a + front) && AllDigits(a + tail)
            && Number(a + tail) == 10 * Number(a + front) + DigitValue(last)
  {
    var front, last := tail[..|tail| - 1], tail[|tail| - 1];
    assert forall c <- front :: c in tail;
    NumberAppend(a + front, last);
    assert a + tail == (a + front) + [last];
  }

  lemma {:induction false} NumberMonotone(a: string, b: string, tail: string)
    requires AllDigits(a) && AllDigits(b) && AllDigits(tail) && Number(a) <= Number(b)
    ensures AllDigits(a + tail) && AllDigits(b + tail) && Number(a + tail) <= Number(b + tail)
  {
    if tail == "" {
      assert a + tail == a && b + tail == b;
    } else {
      LastDigit(a, tail);
      LastDigit(b, tail);
      NumberMonotone(a, b, tail[..|tail| - 1]);
    }
  }

  /** One zero is the least way to continue a number. */
  lemma {:induction false} ZeroIsLeast(x: string, w: string)
    requires AllDigits(x) && AllDigits(w) && w != ""
    ensures AllDigits(x + "0") && AllDigits(x + w) && Number(x + "0") <= Number(x + w)
  {
    NumberAppend(x, '0');
    LastDigit(x, w);
    if |w| == 1 {
      assert x + w[..0] == x;
    } else {
      ZeroIsLeast(x, w[..|w| - 1]);
    }
  }

  lemma ZeroBetween(x: string, e: string, y: string)
    requires AllDigits(x) && AllDigits(e) && AllDigits(y) && e != ""
    ensures AllDigits((x + "0") + y) && AllDigits((x + e) + y) && Number((x + "0") + y) <= Number((x + e) + y)
  {
    ZeroIsLeast(x, e);
    NumberMonotone(x + "0", x + e, y);
  }

  // ----- Base names -----

  /** A base name that is read as it stands; these are all that topic names strip to. */
  predicate Bare(base: string) {
    BaseName(base) == base
  }

  lemma StrippedIsBare(name: string)
    ensures Bare(BaseName(name))
  {
    if HasPrefix(name, ROOT) && |Split(name, "/")| >= 4 {
      PiecesAreFree(name, "/", 0, 3, 0);
      SlashFreeIsRootless(Split(name, "/")[3]);
    }
  }

  lemma SlashFreeIsRootless(piece: string)
    requires !MatchAt(piece, "/", 0)
    ensures !HasPrefix(piece, ROOT)
  {
    if piece != "" {
      assert piece[0..1] == [piece[0]];
    }
  }

  function Slashes(s: string): nat {
    if s == "" then 0 else (if s[0] == '/' then 1 else 0) + Slashes(s[1..])
  }

  lemma {:induction false} SlashesAppend(a: string, b: string)
    ensures Slashes(a + b) == Slashes(a) + Slashes(b)
  {
    if a == "" {
      assert a + b == b;
    } else {
      assert (a + b)[1..] == a[1..] + b;
      SlashesAppend(a[1..], b);
    }
  }

  lemma {:induction false} NoSlashes(s: string)
    requires '/' !in s
    ensures Slashes(s) == 0
  {
    if s != "" {
      assert forall c <- s[1..] :: c in s;
      NoSlashes(s[1..]);
    }
  }

  lemma OneSlash(a: string, b: string)
    ensures Slashes(a + "/" + b) == Slashes(a) + 1 + Slashes(b)
  {
    SlashesAppend(a + "/", b);
    SlashesAppend(a, "/");
  }

  lemma {:induction false} PiecesAreSlashes(s: string)
    ensures |Split(s, "/")| == 1 + Slashes(s)
    decreases |s|
  {
    UntilSlashIs(s);
    var first := UntilSlash(s);
    NoSlashes(first);
    if first == s {
      SplitNone(s, "/");
    } else {
      var rest := s[|first| + 1..];
      assert s == first + "/" + rest;
      SplitFirst(first, "/", rest);
      PiecesAreSlashes(rest);
      OneSlash(first, rest);
    }
  }

  lemma SlashesAround(a: string, digits: string, b: string)
    requires '/' !in digits
    ensures Slashes(a + (digits + b)) == Slashes(a) + Slashes(b)
  {
    SlashesAppend(a, digits + b);
    SlashesAppend(digits, b);
    NoSlashes(digits);
  }

  /** A zero in the place of a name's digits leaves it bare. */
  lemma ZeroIsBare(a: string, digits: string, b: string)
    requires AllDigits(digits) && Bare(a + (digits + b))
    ensures Bare(a + ("0" + b))
  {
    var (name, least) := (a + (digits + b), a + ("0" + b));
    if HasPrefix(least, ROOT) {
      RootIsInFront(a, b);
      assert HasPrefix(name, ROOT);
      FewPieces(name);
      SlashesAround(a, digits, b);
      SlashesAround(a, "0", b);
      PiecesAreSlashes(name);
      PiecesAreSlashes(least);
    }
  }

  /** The root has no zero, so it lies wholly before one. */
  lemma RootIsInFront(a: string, b: string)
    requires HasPrefix(a + ("0" + b), ROOT)
    ensures HasPrefix(a, ROOT)
  {
    var least := a + ("0" + b);
    assert least[|a|] == '0';
    forall k | 0 <= k < |ROOT| ensures least[k] == ROOT[k] && least[k] != '0' {
    }
    assert a[..|ROOT|] == least[..|ROOT|];
  }

  lemma FewPieces(name: string)
    requires Bare(name) && HasPrefix(name, ROOT)
    ensures |Split(name, "/")| < 4
  {
    if |Split(name, "/")| >= 4 {
      PiecesAreFree(name, "/", 0, 3, 0);
      SlashFreeIsRootless(name);
      assert false;
    }
  }

  // ----- Names that two patterns accept -----

  /** The names to try when the first pattern's prefix is not the longer one. */
  function ProbesFrom(p: string, q: string): seq<string> {
    var (s, s') := (Suffix(p), Suffix(q));
    [Prefix(q) + ("0" + if |s| <= |s'| then s' else s)]
    + seq(|s| + 1, m requires 0 <= m <= |s| => Prefix(q) + s[m..])
  }

  function Probes(p: string, q: string): seq<string> {
    if |Prefix(p)| <= |Prefix(q)| then ProbesFrom(p, q) else ProbesFrom(q, p)
  }

  /** Two patterns both accept one of the names to try. */
  predicate Meet(p: string, q: string) {
    exists base <- Probes(p, q) :: Bare(base) && Accepts(p, base) && Accepts(q, base)
  }

  lemma LateProbe(p: string, q: string, m: nat)
    requires m <= |Suffix(p)|
    ensures Prefix(q) + Suffix(p)[m..] in ProbesFrom(p, q)
  {
    assert ProbesFrom(p, q)[m + 1] == Prefix(q) + Suffix(p)[m..];
  }

  /** The first pattern's number ends inside the second's prefix: the name itself is one to try. */
  lemma EndsInsidePrefix(p: string, q: string, base: string, d: string, e: string)
    requires Spells(p, base, d) && Spells(q, base, e) && |Prefix(p)| + |d| <= |Prefix(q)|
    ensures base in ProbesFrom(p, q)
  {
    var m := |Prefix(q)| - |Prefix(p)| - |d|;
    var (rest, s) := (base[|Prefix(q)|..], Suffix(p));
    assert base[|Prefix(p)| + |d|..] == s;
    assert rest == s[m..];
    assert base == Prefix(q) + rest;
    LateProbe(p, q, m);
  }

  /** Else both numbers can be shortened to their forced digits around one zero. */
  lemma EndsBeyondPrefix(p: string, q: string, base: string, d: string, e: string)
    requires Spells(p, base, d) && Spells(q, base, e)
    requires |Prefix(p)| <= |Prefix(q)| < |Prefix(p)| + |d| && Bare(base)
    ensures Meet(p, q)
  {
    var x, w := Forced(p, q, base, d, e);
    if |Suffix(p)| <= |Suffix(q)| {
      LongerSuffixBehind(p, q, d, e, x, w);
    } else {
      LongerSuffixInFront(p, q, d, e, x, w);
    }
  }

  /** Two ways to cut one string: the longer front is the shorter one and a middle piece. */
  lemma SplitHead(a: string, s: string, b: string, t: string) returns (x: string)
    requires a + s == b + t && |a| <= |b|
    ensures b == a + x && s == x + t
  {
    x := b[|a|..];
    assert (a + s)[..|a|] == a && (b + t)[..|a|] == b[..|a|];
    assert (a + s)[|a|..] == s && (b + t)[|a|..] == x + t;
  }

  /** What the longer prefix forces on the first pattern's number, and what is left of it. */
  lemma Forced(p: string, q: string, base: string, d: string, e: string) returns (x: string, w: string)
    requires Spells(p, base, d) && Spells(q, base, e)
    requires |Prefix(p)| <= |Prefix(q)| < |Prefix(p)| + |d|
    ensures Prefix(q) == Prefix(p) + x && d == x + w && w != ""
    ensures AllDigits(x) && AllDigits(w) && w + Suffix(p) == e + Suffix(q)
  {
    x := SplitHead(Prefix(p), d + Suffix(p), Prefix(q), e + Suffix(q));
    w := SplitHead(x, e + Suffix(q), d, Suffix(p));
    assert forall c <- x :: c in d;
    assert forall c <- w :: c in d;
  }

  lemma Regroup(a: string, b: string, c: string)
    ensures a + (b + c) == (a + b) + c
  {
  }

  /** A number between forced digits, with one zero in the place of the free ones. */
  lemma ZeroForFree(x: string, e: string, y: string, d: string)
    requires d == x + (e + y) && AllDigits(d) && e != "" && Number(d) < MAX_UINT64
    ensures var least := x + ("0" + y); AllDigits(least) && Number(least) < MAX_UINT64
  {
    assert forall c <- x :: c in d;
    assert forall c <- e :: c in e + y && c in d;
    assert forall c <- y :: c in e + y && c in d;
    ZeroBetween(x, e, y);
    Regroup(x, e, y);
    Regroup(x, "0", y);
  }

  /** Accepted with the least number: a zero between the digits that prefix and suffix force. */
  lemma LeastAccepted(p: string, base: string, x: string, e: string, y: string, prefix: string, suffix: string)
    requires prefix == Prefix(p) + x && suffix == y + Suffix(p) && base == prefix + ("0" + suffix)
    requires AllDigits(x + (e + y)) && e != "" && Number(x + (e + y)) < MAX_UINT64
    ensures Accepts(p, base)
  {
    ZeroForFree(x, e, y, x + (e + y));
    var least := x + ("0" + y);
    LeastBase(Prefix(p), x, y, Suffix(p));
    AcceptsSpelled(p, base, least);
  }

  lemma LeastBase(a: string, x: string, y: string, s: string)
    ensures (a + x) + ("0" + (y + s)) == a + ((x + ("0" + y)) + s)
  {
    Regroup(a, x, "0" + (y + s));
    Regroup("0", y, s);
    Regroup(x, "0" + y, s);
  }

  lemma LongerSuffixBehind(p: string, q: string, d: string, e: string, x: string, w: string)
    requires Prefix(q) == Prefix(p) + x && d == x + w && w + Suffix(p) == e + Suffix(q)
    requires AllDigits(d) && Number(d) < MAX_UINT64 && e != ""
    requires |Prefix(p)| <= |Prefix(q)| && |Suffix(p)| <= |Suffix(q)|
    requires AllDigits(e) && Bare(Prefix(q) + (e + Suffix(q)))
    ensures Meet(p, q)
  {
    var base := Prefix(q) + ("0" + Suffix(q));
    ZeroIsBare(Prefix(q), e, Suffix(q));
    var y := SplitHead(e, Suffix(q), w, Suffix(p));
    LeastAccepted(p, base, x, e, y, Prefix(q), Suffix(q));
    ZeroAccepted(q, base);
    assert ProbesFrom(p, q)[0] == base;
  }

  lemma ZeroAccepted(q: string, base: string)
    requires base == Prefix(q) + ("0" + Suffix(q))
    ensures Accepts(q, base)
  {
    NumberAppend("", '0');
    assert "" + ['0'] == "0";
    AcceptsSpelled(q, base, "0");
  }

  lemma LongerSuffixInFront(p: string, q: string, d: string, e: string, x: string, w: string)
    requires Prefix(q) == Prefix(p) + x && d == x + w && w + Suffix(p) == e + Suffix(q) && w != ""
    requires AllDigits(d) && AllDigits(e) && Number(d) < MAX_UINT64 && Number(e) < MAX_UINT64
    requires |Prefix(p)| <= |Prefix(q)| && |Suffix(q)| < |Suffix(p)|
    requires AllDigits(w) && Bare(Prefix(q) + (w + Suffix(p)))
    ensures Meet(p, q)
  {
    var base := Prefix(q) + ("0" + Suffix(p));
    ZeroIsBare(Prefix(q), w, Suffix(p));
    var y := SplitHead(w, Suffix(p), e, Suffix(q));
    Neutral(w, Suffix(p));
    LeastAccepted(p, base, x, w, "", Prefix(q), Suffix(p));
    Neutral(e, Prefix(q));
    LeastAccepted(q, base, "", w, y, Prefix(q), Suffix(p));
    assert ProbesFrom(p, q)[0] == base;
  }

  lemma Neutral(a: string, b: string)
    ensures a + "" == "" + a == a && b + "" == "" + b == b
  {
  }

  /** Two patterns accept some common topic name exactly when they both accept one of the names to try. */
  lemma CommonName(p: string, q: string)
    ensures (exists name :: Accepts(p, BaseName(name)) && Accepts(q, BaseName(name))) <==> Meet(p, q)
  {
    forall name | Accepts(p, BaseName(name)) && Accepts(q, BaseName(name)) ensures Meet(p, q) {
      StrippedIsBare(name);
      CommonBase(p, q, BaseName(name));
    }
    if base :| base in Probes(p, q) && Bare(base) && Accepts(p, base) && Accepts(q, base) {
      assert Accepts(p, BaseName(base)) && Accepts(q, BaseName(base));
    }
  }

  lemma CommonBase(p: string, q: string, base: string)
    requires Accepts(p, base) && Accepts(q, base) && Bare(base)
    ensures Meet(p, q)
  {
    if |Prefix(p)| <= |Prefix(q)| {
      CommonNameFrom(p, q, base);
    } else {
      CommonNameFrom(q, p, base);
      MeetSymmetric(q, p);
    }
  }

  lemma CommonNameFrom(p: string, q: string, base: string)
    requires |Prefix(p)| <= |Prefix(q)| && Accepts(p, base) && Accepts(q, base) && Bare(base)
    ensures Meet(p, q)
  {
    var d := Spelled(p, base);
    var e := Spelled(q, base);
    if |Prefix(p)| + |d| <= |Prefix(q)| {
      EndsInsidePrefix(p, q, base, d, e);
    } else {
      EndsBeyondPrefix(p, q, base, d, e);
    }
  }

  lemma MeetSymmetric(p: string, q: string)
    requires |Prefix(p)| < |Prefix(q)| && Meet(p, q)
    ensures Meet(q, p)
  {
    assert Probes(p, q) == Probes(q, p);
  }

  // ----- Names on which a pattern crashes -----

  /** The prefix followed by what is left of a suffix that overlaps it. */
  function CrashNames(p: string): seq<string> {
    seq(|Suffix(p)|, k requires 0 <= k < |Suffix(p)| => Prefix(p) + Suffix(p)[k + 1..])
  }

  lemma CrashIsListed(p: string, base: string)
    requires Crashes(p, base)
    ensures base in CrashNames(p)
  {
    CrashesExactly(SubnetTopic(p, MAX_UINT64), base);
    var k := |Prefix(p)| + |Suffix(p)| - |base|;
    assert base == Prefix(p) + base[|Prefix(p)|..];
    assert base[|Prefix(p)|..] == base[|base| - |Suffix(p)|..][k..];
    assert CrashNames(p)[k - 1] == Prefix(p) + Suffix(p)[k..];
  }

  // ----- Whole registries -----

  /** One pattern crashes on a name that another accepts. */
  predicate CrashesFirst(p: string, q: string) {
    exists base <- CrashNames(p) :: Bare(base) && Crashes(p, base) && Accepts(q, base)
  }

  /** Two registered patterns whose order matters for some name. */
  ghost predicate Clash<H(!new)>(subnetHandlers: map<string, H>, p: string, q: string)
    requires p in subnetHandlers && q in subnetHandlers
  {
    (subnetHandlers[p] != subnetHandlers[q] && Meet(p, q)) || CrashesFirst(p, q)
  }

  lemma DisagreementIsClash<H(!new)>(subnetHandlers: map<string, H>, p: string, q: string, name: string)
    requires p in subnetHandlers && q in subnetHandlers && Decides(p, name) && Decides(q, name)
    requires Decision(subnetHandlers, p, name) != Decision(subnetHandlers, q, name)
    ensures Clash(subnetHandlers, p, q) || Clash(subnetHandlers, q, p)
  {
    var base := BaseName(name);
    StrippedIsBare(name);
    if Accepts(p, base) && Accepts(q, base) {
      CommonName(p, q);
    } else if Crashes(p, base) {
      CrashIsListed(p, base);
    } else {
      CrashIsListed(q, base);
    }
  }

  lemma ClashIsDisagreement<H(!new)>(subnetHandlers: map<string, H>, p: string, q: string) returns (name: string)
    requires p in subnetHandlers && q in subnetHandlers && Clash(subnetHandlers, p, q)
    ensures Decides(p, name) && Decides(q, name)
    ensures Decision(subnetHandlers, p, name) != Decision(subnetHandlers, q, name)
  {
    if CrashesFirst(p, q) {
      name :| name in CrashNames(p) && Bare(name) && Crashes(p, name) && Accepts(q, name);
    } else {
      name :| name in Probes(p, q) && Bare(name) && Accepts(p, name) && Accepts(q, name);
    }
  }

  /** Every iteration order gives every name the same answer. */
  ghost predicate OrderFree<H(!new)>(subnetHandlers: map<string, H>) {
    forall name, a, b :: IsOrder(a, subnetHandlers.Keys) && IsOrder(b, subnetHandlers.Keys) ==>
      Search(subnetHandlers, a, name) == Search(subnetHandlers, b, name)
  }

  /**
   * A registry gives every name one answer, whatever the iteration order,
   * exactly when no two of its patterns clash.
   */
  lemma OrderFreeExactly<H(!new)>(subnetHandlers: map<string, H>)
    ensures OrderFree(subnetHandlers) <==>
            forall p, q :: p in subnetHandlers && q in subnetHandlers ==> !Clash(subnetHandlers, p, q)
  {
    if p, q :| p in subnetHandlers && q in subnetHandlers && Clash(subnetHandlers, p, q) {
      var name := ClashIsDisagreement(subnetHandlers, p, q);
      OrderIndependence(subnetHandlers, name);
      assert !Agreed(subnetHandlers, name);
    } else {
      forall name ensures Agreed(subnetHandlers, name) {
        forall p, q | p in subnetHandlers && q in subnetHandlers && Decides(p, name) && Decides(q, name)
          ensures Decision(subnetHandlers, p, name) == Decision(subnetHandlers, q, name)
        {
          if Decision(subnetHandlers, p, name) != Decision(subnetHandlers, q, name) {
            DisagreementIsClash(subnetHandlers, p, q, name);
          }
        }
      }
      forall name, a, b | IsOrder(a, subnetHandlers.Keys) && IsOrder(b, subnetHandlers.Keys)
        ensures Search(subnetHandlers, a, name) == Search(subnetHandlers, b, name)
      {
        OrderIndependence(subnetHandlers, name);
      }
    }
  }
}

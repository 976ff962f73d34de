/**
 * Names of gossip topics, as in the section "Topics and messages" of the Ethereum
 * phase 0 p2p interface, and the parser that reads a subnet back from a name.
 */
module Topics {
  import opened Common
  import opened Text

  datatype Topic = Topic(name: string)

  datatype SubnetTopic = SubnetTopic(pattern: string, maxSubnets: nat)

  datatype TopicError = EmptyPattern | NoPlaceholder | NoSubnets | SubnetTooLarge

  type Digest = d: seq<Byte> | |d| == 4 witness [0, 0, 0, 0]

  const PLACEHOLDER := "%d"
  const ROOT := "/eth2/"
  const ENCODING := "/ssz_snappy"

  function NewSubnetTopic(pattern: string, maxSubnets: nat): Result<SubnetTopic, TopicError> {
    if pattern == "" then Err(EmptyPattern)
    else if Find(pattern, PLACEHOLDER, 0) == None then Err(NoPlaceholder)
    else if maxSubnets == 0 then Err(NoSubnets)
    else Ok(SubnetTopic(pattern, maxSubnets))
  }

  function WithForkDigest(topic: Topic, digest: Digest): Topic {
    Topic(ROOT + (Hex(digest) + ("/" + (topic.name + ENCODING))))
  }

  // ----- Patterns -----

  function Prefix(pattern: string): string {
    SplitJoins(pattern, PLACEHOLDER, 0);
    Split(pattern, PLACEHOLDER)[0]
  }

  function Suffix(pattern: string): string {
    var parts := Split(pattern, PLACEHOLDER);
    if |parts| > 1 then parts[1] else ""
  }

  /** One placeholder and no other percent sign, so that formatting only fills in the number. */
  predicate OnePlaceholder(pattern: string) {
    pattern == Prefix(pattern) + PLACEHOLDER + Suffix(pattern) && '%' !in Prefix(pattern) + Suffix(pattern)
  }

  function Format(pattern: string, subnet: nat): string
    requires OnePlaceholder(pattern)
  {
    Prefix(pattern) + (Decimal(subnet) + Suffix(pattern))
  }

  function TopicForSubnet(st: SubnetTopic, subnet: nat, digest: Digest): Result<Topic, TopicError>
    requires OnePlaceholder(st.pattern)
  {
    if subnet >= st.maxSubnets then Err(SubnetTooLarge)
    else Ok(WithForkDigest(Topic(Format(st.pattern, subnet)), digest))
  }

  /** Putting a pattern together from a prefix and a suffix free of percent signs. */
  lemma PatternOf(prefix: string, suffix: string)
    requires '%' !in prefix && '%' !in suffix
    ensures var pattern := prefix + PLACEHOLDER + suffix;
            Prefix(pattern) == prefix && Suffix(pattern) == suffix && OnePlaceholder(pattern)
  {
    SplitFirst(prefix, PLACEHOLDER, suffix);
    SplitNone(suffix, PLACEHOLDER);
  }

  /** The constructor accepts exactly the patterns with a placeholder, for at least one subnet, as they are. */
  lemma ConstructorAccepts(pattern: string, maxSubnets: nat)
    ensures NewSubnetTopic(pattern, maxSubnets) == Ok(SubnetTopic(pattern, maxSubnets)) <==>
            maxSubnets > 0 && exists i: nat :: MatchAt(pattern, "%d", i)
    ensures NewSubnetTopic(pattern, maxSubnets).Ok? ==>
            NewSubnetTopic(pattern, maxSubnets).value == SubnetTopic(pattern, maxSubnets)
    ensures NewSubnetTopic(pattern, maxSubnets) == Err(EmptyPattern) <==> pattern == ""
    ensures NewSubnetTopic(pattern, maxSubnets) == Err(NoSubnets) <==>
            maxSubnets == 0 && exists i: nat :: MatchAt(pattern, "%d", i)
  {
    FindIsLeftmost(pattern, PLACEHOLDER, 0);
  }

  // ----- Parsing -----

  /** A crash stands for the slice out of range when prefix and suffix overlap in a short name. */
  datatype Parsed = Subnet(id: nat) | PrefixMismatch | SuffixMismatch | Crash | NotANumber | TooLarge

  /** The topic name between the fork digest and the encoding, when there is one. */
  function BaseName(topicName: string): string {
    if HasPrefix(topicName, ROOT) then
      var parts := Split(topicName, "/");
      if |parts| >= 4 then parts[3] else topicName
    else topicName
  }

  function ParseBase(st: SubnetTopic, name: string): Parsed {
    var prefix, suffix := Prefix(st.pattern), Suffix(st.pattern);
    if !HasPrefix(name, prefix) then PrefixMismatch
    else if suffix != "" && !HasSuffix(name, suffix) then SuffixMismatch
    else
      var rest := name[|prefix|..];
      if suffix != "" && |rest| < |suffix| then Crash
      else
        match ParseUint(if suffix == "" then rest else rest[..|rest| - |suffix|])
        case None => NotANumber
        case Some(subnet) => if subnet >= st.maxSubnets then TooLarge else Subnet(subnet)
  }

  function ParseSubnet(st: SubnetTopic, topicName: string): Parsed {
    ParseBase(st, BaseName(topicName))
  }

  // ----- Which names are accepted -----

  /** A base name is read as a subnet exactly when it is the prefix, a number below the maximum and the suffix. */
  lemma AcceptedNames(st: SubnetTopic, name: string, subnet: nat)
    ensures ParseBase(st, name) == Subnet(subnet) <==> exists digits :: Reads(st, name, digits, subnet)
  {
    if ParseBase(st, name) == Subnet(subnet) {
      ParsedIsRead(st, name, subnet);
    } else if exists digits :: Reads(st, name, digits, subnet) {
      var digits :| Reads(st, name, digits, subnet);
      ReadsIsParsed(st, name, digits, subnet);
    }
  }

  /** What stands between prefix and suffix decides: a number below the maximum, one too large, or none. */
  lemma MiddleDecides(st: SubnetTopic, middle: string)
    ensures ParseBase(st, Prefix(st.pattern) + (middle + Suffix(st.pattern)))
            == if middle == "" || !AllDigits(middle) || Number(middle) >= 0x1_0000_0000_0000_0000 then NotANumber
               else if Number(middle) >= st.maxSubnets then TooLarge else Subnet(Number(middle))
  {
    var prefix, suffix := Prefix(st.pattern), Suffix(st.pattern);
    var name := prefix + (middle + suffix);
    var rest := name[|prefix|..];
    assert rest == middle + suffix && name[|name| - |suffix|..] == suffix;
    assert rest[..|rest| - |suffix|] == middle;
    assert suffix == "" ==> rest == middle;
  }

  /** The other refusals: the name lacks the prefix, or has it and lacks the suffix. */
  lemma MismatchExactly(st: SubnetTopic, name: string)
    ensures ParseBase(st, name) == PrefixMismatch <==> !(Prefix(st.pattern) <= name)
    ensures ParseBase(st, name) == SuffixMismatch <==>
            Prefix(st.pattern) <= name && !HasSuffix(name, Suffix(st.pattern))
  {
    assert HasSuffix(name, "");
  }

  lemma ParsedIsRead(st: SubnetTopic, name: string, subnet: nat)
    requires ParseBase(st, name) == Subnet(subnet)
    ensures exists digits :: Reads(st, name, digits, subnet)
  {
    var prefix, suffix := Prefix(st.pattern), Suffix(st.pattern);
    var rest := name[|prefix|..];
    assert name == prefix + rest;
    if suffix == "" {
      assert rest == rest + suffix;
      assert Reads(st, name, rest, subnet);
    } else {
      var digits := rest[..|rest| - |suffix|];
      assert rest[|rest| - |suffix|..] == name[|name| - |suffix|..];
      assert rest == digits + suffix;
      assert Reads(st, name, digits, subnet);
    }
  }

  ghost predicate Reads(st: SubnetTopic, name: string, digits: string, subnet: nat) {
    && name == Prefix(st.pattern) + (digits + Suffix(st.pattern))
    && digits != "" && AllDigits(digits) && Number(digits) == subnet
    && subnet < st.maxSubnets && subnet < TWO_64
  }

  lemma ReadsIsParsed(st: SubnetTopic, name: string, digits: string, subnet: nat)
    requires Reads(st, name, digits, subnet)
    ensures ParseBase(st, name) == Subnet(subnet)
  {
    var prefix, suffix := Prefix(st.pattern), Suffix(st.pattern);
    var rest := name[|prefix|..];
    assert rest == digits + suffix;
    assert name[|name| - |suffix|..] == suffix;
    if suffix == "" {
      assert rest == digits;
    } else {
      assert rest[..|rest| - |suffix|] == digits;
    }
    assert ParseUint(digits) == Some(subnet);
  }

  /** The parser fails outright exactly when a name is too short for the prefix and suffix it has. */
  lemma CrashesExactly(st: SubnetTopic, name: string)
    ensures var prefix, suffix := Prefix(st.pattern), Suffix(st.pattern);
            ParseBase(st, name) == Crash <==>
            HasPrefix(name, prefix) && HasSuffix(name, suffix) && |name| < |prefix| + |suffix|
  {
    assert HasSuffix(name, "");
  }

  /** Overlapping prefix and suffix do occur: "a1" against "a1%d1". */
  lemma CrashHappens(st: SubnetTopic)
    requires st.pattern == "a1%d1"
    ensures ParseSubnet(st, "a1") == Crash && NewSubnetTopic(st.pattern, 1).Ok?
  {
    PatternOf("a1", "1");
    assert "a1" + PLACEHOLDER + "1" == st.pattern;
    assert !HasPrefix("a1", ROOT) by {
      assert ROOT[0] == '/';
    }
    FindIsLeftmost(st.pattern, PLACEHOLDER, 0);
    assert MatchAt(st.pattern, PLACEHOLDER, 2);
  }

  /** An accepted base name is the one the printer gives unless its number has padding zeros. */
  lemma AcceptedButNotPrinted(st: SubnetTopic, name: string, digits: string, subnet: nat)
    requires OnePlaceholder(st.pattern) && Reads(st, name, digits, subnet)
    ensures name == Format(st.pattern, subnet) <==> |digits| == 1 || digits[0] != '0'
  {
    PaddingFree(digits);
    var prefix, suffix := Prefix(st.pattern), Suffix(st.pattern);
    if name == Format(st.pattern, subnet) {
      Middle(prefix, digits, suffix);
      Middle(prefix, Decimal(subnet), suffix);
    }
  }

  lemma Middle(a: string, b: string, c: string)
    ensures (a + (b + c))[|a|..|a + (b + c)| - |c|] == b
  {
  }

  // ----- Full names -----

  /** The pieces of a full name; the base name may itself contain slashes. */
  lemma FullNameParts(digest: Digest, base: string)
    ensures var parts := Split(WithForkDigest(Topic(base), digest).name, "/");
            parts == ["", "eth2", Hex(digest)] + Split(base + ENCODING, "/")
  {
    var tail := base + ENCODING;
    var hexed := Hex(digest) + ("/" + tail);
    HexLength(digest);
    assert '/' !in Hex(digest);
    assert hexed == Hex(digest) + "/" + tail;
    SplitFirst(Hex(digest), "/", tail);
    RootedParts(hexed);
  }

  /** What precedes the first slash of a string. */
  function UntilSlash(s: string): string {
    if s == "" || s[0] == '/' then "" else [s[0]] + UntilSlash(s[1..])
  }

  lemma {:induction false} UntilSlashIs(s: string)
    ensures '/' !in UntilSlash(s) && UntilSlash(s) <= s
    ensures UntilSlash(s) == s <==> '/' !in s
    ensures UntilSlash(s) != s ==> s[|UntilSlash(s)|] == '/'
  {
    if s != "" && s[0] != '/' {
      UntilSlashIs(s[1..]);
      assert s == [s[0]] + s[1..];
    }
  }

  /** Stripping a full name gives its base name up to the first slash. */
  lemma BaseOfFullName(digest: Digest, base: string)
    ensures BaseName(WithForkDigest(Topic(base), digest).name) == UntilSlash(base)
  {
    var name := WithForkDigest(Topic(base), digest).name;
    FullNameParts(digest, base);
    assert HasPrefix(name, ROOT);
    UntilSlashIs(base);
    var first := UntilSlash(base);
    var rest := (base + ENCODING)[|first| + 1..];
    assert base + ENCODING == first + "/" + rest;
    SplitFirst(first, "/", rest);
  }

  lemma FirstPiece(s: string)
    ensures Split(s, "/") != [] && Split(s, "/")[0] == UntilSlash(s)
  {
    UntilSlashIs(s);
    var first := UntilSlash(s);
    if first == s {
      SplitNone(s, "/");
    } else {
      var rest := s[|first| + 1..];
      assert s == first + "/" + rest;
      SplitFirst(first, "/", rest);
    }
  }

  /** The pieces of a name that begins with the root: those of what follows, after an empty one and "eth2". */
  lemma RootedParts(rest: string)
    ensures Split(ROOT + rest, "/") == ["", "eth2"] + Split(rest, "/")
  {
    assert "eth2/" + rest == "eth2" + "/" + rest;
    SplitFirst("eth2", "/", rest);
    assert ROOT + rest == "" + "/" + ("eth2/" + rest);
    SplitFirst("", "/", "eth2/" + rest);
  }

  /**
   * What a topic name is stripped to, whoever wrote it: after the root and anything up to a slash, what
   * follows up to the next; a name without the root, or without a slash after it, is left as it is.
   */
  lemma StrippedExactly(name: string, digest: string, tail: string)
    requires '/' !in digest
    ensures BaseName("/eth2/" + (digest + ("/" + tail))) == UntilSlash(tail)
    ensures BaseName("/eth2/" + digest) == "/eth2/" + digest
    ensures !("/eth2/" <= name) ==> BaseName(name) == name
  {
    FirstPiece(tail);
    assert digest + ("/" + tail) == digest + "/" + tail;
    SplitFirst(digest, "/", tail);
    RootedParts(digest + ("/" + tail));
    SplitNone(digest, "/");
    RootedParts(digest);
  }

  // ----- Main results -----

  lemma FormatIsRead(st: SubnetTopic, subnet: nat)
    requires OnePlaceholder(st.pattern) && subnet < st.maxSubnets <= TWO_64
    ensures ParseBase(st, Format(st.pattern, subnet)) == Subnet(subnet)
  {
    DecimalIsNumber(subnet);
    ReadsIsParsed(st, Format(st.pattern, subnet), Decimal(subnet), subnet);
  }

  lemma FormatSlash(pattern: string, subnet: nat)
    requires OnePlaceholder(pattern)
    ensures '/' in Format(pattern, subnet) <==> '/' in pattern
  {
    DecimalIsNumber(subnet);
    assert '/' !in Decimal(subnet);
  }

  /** A base name cut at its first slash no longer fits the pattern. */
  lemma CutNameIsRefused(st: SubnetTopic, subnet: nat)
    requires OnePlaceholder(st.pattern) && '/' in st.pattern
    ensures !ParseBase(st, UntilSlash(Format(st.pattern, subnet))).Subnet?
  {
    var prefix, suffix := Prefix(st.pattern), Suffix(st.pattern);
    var cut := UntilSlash(Format(st.pattern, subnet));
    UntilSlashIs(Format(st.pattern, subnet));
    EndsAreInside(cut, prefix, suffix, '/');
    if '/' in prefix {
      assert !HasPrefix(cut, prefix);
    } else {
      assert '/' in suffix && !HasSuffix(cut, suffix);
    }
  }

  lemma EndsAreInside(s: string, prefix: string, suffix: string, c: char)
    ensures HasPrefix(s, prefix) && c in prefix ==> c in s
    ensures HasSuffix(s, suffix) && c in suffix ==> c in s
  {
  }

  /** Printing and parsing a subnet are inverse for every fork digest exactly when the pattern has no slash. */
  lemma TopicRoundTrip(st: SubnetTopic, subnet: nat, digest: Digest)
    requires OnePlaceholder(st.pattern) && subnet < st.maxSubnets <= TWO_64
    ensures TopicForSubnet(st, subnet, digest).Ok?
    ensures ParseSubnet(st, TopicForSubnet(st, subnet, digest).value.name) == Subnet(subnet) <==> '/' !in st.pattern
  {
    var base := Format(st.pattern, subnet);
    BaseOfFullName(digest, base);
    UntilSlashIs(base);
    FormatSlash(st.pattern, subnet);
    if '/' in st.pattern {
      CutNameIsRefused(st, subnet);
    } else {
      FormatIsRead(st, subnet);
    }
  }

  /** The bare base name is read like the full one. */
  lemma BareNameRoundTrip(st: SubnetTopic, subnet: nat)
    requires OnePlaceholder(st.pattern) && '/' !in st.pattern && subnet < st.maxSubnets <= TWO_64
    ensures ParseSubnet(st, Format(st.pattern, subnet)) == Subnet(subnet)
  {
    FormatSlash(st.pattern, subnet);
    assert ROOT[0] == '/';
    FormatIsRead(st, subnet);
  }

  /** A topic is printed for a subnet exactly when its name would be read back as that subnet. */
  lemma PrintedExactlyWhenReadable(st: SubnetTopic, subnet: nat, digest: Digest)
    requires OnePlaceholder(st.pattern) && '/' !in st.pattern && st.maxSubnets <= TWO_64
    ensures TopicForSubnet(st, subnet, digest).Ok? <==>
            ParseSubnet(st, WithForkDigest(Topic(Format(st.pattern, subnet)), digest).name) == Subnet(subnet)
  {
    if subnet < st.maxSubnets {
      TopicRoundTrip(st, subnet, digest);
    }
  }

  lemma NameLayout(digest: Digest, base: string)
    ensures var name := WithForkDigest(Topic(base), digest).name;
            && |name| >= 26 && name[6..14] == Hex(digest) && name[15..|name| - 11] == base
            && name == "/eth2/" + name[6..14] + "/" + base + "/ssz_snappy"
  {
    HexLength(digest);
    var tail := base + ENCODING;
    var name := WithForkDigest(Topic(base), digest).name;
    assert name[6..] == Hex(digest) + ("/" + tail);
    assert name[15..] == tail;
    assert tail[..|tail| - 11] == base;
    assert name == "/eth2/" + (Hex(digest) + ("/" + (base + "/ssz_snappy")));
  }

  /** A topic's full name: the root, each byte of the fork digest as two hexadecimal digits, base and encoding. */
  lemma FullName(digest: Digest, base: string)
    ensures var name := WithForkDigest(Topic(base), digest).name;
            && |name| == 26 + |base| && name == "/eth2/" + name[6..14] + "/" + base + "/ssz_snappy"
            && forall i :: 0 <= i < 4 ==> SpellsByte(name[6 + 2 * i], name[7 + 2 * i], digest[i])
  {
    NameLayout(digest, base);
    var name := WithForkDigest(Topic(base), digest).name;
    forall i | 0 <= i < 4 ensures SpellsByte(name[6 + 2 * i], name[7 + 2 * i], digest[i]) {
      HexSpells(digest, i);
      assert name[6..14][2 * i] == name[6 + 2 * i] && name[6..14][2 * i + 1] == name[7 + 2 * i];
    }
  }

  /** Distinct subnets or fork digests give distinct names. */
  lemma NamesAreDistinct(st: SubnetTopic, subnet: nat, digest: Digest, subnet': nat, digest': Digest)
    requires OnePlaceholder(st.pattern) && subnet < st.maxSubnets && subnet' < st.maxSubnets
    requires TopicForSubnet(st, subnet, digest) == TopicForSubnet(st, subnet', digest')
    ensures subnet == subnet' && digest == digest'
  {
    var (base, base') := (Format(st.pattern, subnet), Format(st.pattern, subnet'));
    NameLayout(digest, base);
    NameLayout(digest', base');
    HexInjective(digest, digest');
    Middle(Prefix(st.pattern), Decimal(subnet), Suffix(st.pattern));
    Middle(Prefix(st.pattern), Decimal(subnet'), Suffix(st.pattern));
    DecimalInjective(subnet, subnet');
  }
}

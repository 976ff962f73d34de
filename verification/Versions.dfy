/** Splitting client version strings and recognising the parts of a version. */
module Versions {
  import opened Common
  import opened Text

  function Add(parts: seq<string>, piece: string): seq<string> {
    if piece == "" then parts else parts + [piece]
  }

  /** Collecting the non-empty pieces: the current one began at start, and no separator lies before i. */
  function Collect(s: string, sep: string, start: nat, i: nat, parts: seq<string>): seq<string>
    requires sep != "" && start <= i && start <= |s|
    decreases |s| - i
  {
    if i + |sep| > |s| then Add(parts, s[start..])
    else if MatchAt(s, sep, i) then Collect(s, sep, i + |sep|, i + |sep|, Add(parts, s[start..i]))
    else Collect(s, sep, start, i + 1, parts)
  }

  function Parts(s: string, sep: string): seq<string>
    requires s == "" || sep != ""
  {
    if s == "" then [] else Collect(s, sep, 0, 0, [])
  }

  function NonEmpty(pieces: seq<string>): seq<string> {
    if pieces == [] then [] else Add([], pieces[0]) + NonEmpty(pieces[1..])
  }

  // ----- The index loop -----

  lemma NonEmptyFirst(parts: seq<string>, piece: string, pieces: seq<string>)
    ensures parts + NonEmpty([piece] + pieces) == Add(parts, piece) + NonEmpty(pieces)
  {
    assert ([piece] + pieces)[1..] == pieces;
  }

  lemma {:induction false} CollectKeepsNonEmpty(s: string, sep: string, start: nat, i: nat, parts: seq<string>)
    requires sep != "" && start <= i && start <= |s| && Find(s, sep, start) == Find(s, sep, i)
    ensures Collect(s, sep, start, i, parts) == parts + NonEmpty(SplitFrom(s, sep, start))
    decreases |s| - i
  {
    if i + |sep| > |s| {
      NonEmptyFirst(parts, s[start..], []);
      assert [s[start..]] + [] == [s[start..]];
    } else if MatchAt(s, sep, i) {
      CollectKeepsNonEmpty(s, sep, i + |sep|, i + |sep|, Add(parts, s[start..i]));
      NonEmptyFirst(parts, s[start..i], SplitFrom(s, sep, i + |sep|));
    } else {
      CollectKeepsNonEmpty(s, sep, start, i + 1, parts);
    }
  }

  /** The parts are the pieces of the string without the empty ones. */
  lemma PartsAreNonEmptyPieces(s: string, sep: string)
    requires sep != ""
    ensures Parts(s, sep) == NonEmpty(Split(s, sep))
  {
    CollectKeepsNonEmpty(s, sep, 0, 0, []);
  }

  /** An empty separator would never advance over a non-empty string. */
  method SplitVersionString(s: string, sep: string) returns (parts: seq<string>)
    requires s == "" || sep != ""
    ensures parts == Parts(s, sep)
  {
    parts := [];
    if s == "" {
      return;
    }
    var start, i := 0, 0;
    while i <= |s| - |sep|
      invariant 0 <= start <= i && start <= |s|
      invariant Parts(s, sep) == Collect(s, sep, start, i, parts)
    {
      if s[i..i + |sep|] == sep {
        var part := s[start..i];
        if part != "" {
          parts := parts + [part];
        }
        start := i + |sep|;
        i := i + |sep| - 1;
      }
      i := i + 1;
    }
    var part := s[start..];
    if part != "" {
      parts := parts + [part];
    }
  }

  // ----- Client versions -----

  datatype Version = Version(implementation: string, version: string, major: string, minor: string, patch: string)

  predicate StartsSuffix(c: char) {
    c == '-' || c == '+'
  }

  /** Everything before the first dash or plus. */
  function Core(version: string): string {
    if version == "" || StartsSuffix(version[0]) then "" else [version[0]] + Core(version[1..])
  }

  function WithoutV(version: string): string {
    if version != "" && version[0] == 'v' then version[1..] else version
  }

  function Part(parts: seq<string>, i: nat): string {
    if i < |parts| then parts[i] else ""
  }

  function Recognised(clientVersion: string): Version {
    var parts := Parts(clientVersion, "/");
    if |parts| == 0 then Version(clientVersion, "", "", "", "")
    else if |parts| == 1 then Version(parts[0], "", "", "", "")
    else
      var version := WithoutV(parts[1]);
      var numbers := Parts(Core(version), ".");
      Version(parts[0], version, Part(numbers, 0), Part(numbers, 1), Part(numbers, 2))
  }

  lemma {:induction false} CoreIsPrefix(version: string, i: nat)
    requires i <= |version| && forall c <- version[..i] :: !StartsSuffix(c)
    requires i < |version| ==> StartsSuffix(version[i])
    ensures Core(version) == version[..i]
  {
    if i > 0 {
      assert version[..i][0] == version[0] && version[1..][..i - 1] == version[..i][1..];
      CoreIsPrefix(version[1..], i - 1);
      assert version[..i] == [version[0]] + version[1..][..i - 1];
    }
  }

  method ParseExecutionClientVersion(clientVersion: string)
    returns (implementation: string, version: string, major: string, minor: string, patch: string)
    ensures Version(implementation, version, major, minor, patch) == Recognised(clientVersion)
  {
    implementation, version, major, minor, patch := "", "", "", "", "";
    if clientVersion == "" {
      return;
    }
    var parts := SplitVersionString(clientVersion, "/");
    if |parts| == 0 {
      implementation := clientVersion;
      return;
    }
    implementation := parts[0];
    if |parts| < 2 {
      return;
    }
    var versionStr := parts[1];
    if versionStr != "" && versionStr[0] == 'v' {
      versionStr := versionStr[1..];
    }
    var coreVersion := versionStr;
    var i := 0;
    while i < |versionStr|
      invariant i <= |versionStr| && forall c <- versionStr[..i] :: !StartsSuffix(c)
      invariant coreVersion == versionStr
    {
      if versionStr[i] == '-' || versionStr[i] == '+' {
        coreVersion := versionStr[..i];
        break;
      }
      i := i + 1;
    }
    CoreIsPrefix(versionStr, i);
    assert coreVersion == versionStr[..i];
    var versionParts := SplitVersionString(coreVersion, ".");
    if |versionParts| > 0 {
      major := versionParts[0];
    }
    if |versionParts| > 1 {
      minor := versionParts[1];
    }
    if |versionParts| > 2 {
      patch := versionParts[2];
    }
    version := versionStr;
  }

  // ----- Round trip -----

  /** A tail that is absent or begins with the separator. */
  predicate Tail(rest: string, sep: char) {
    rest == "" || rest[0] == sep
  }

  lemma PartsFirst(a: string, sep: char, rest: string)
    requires a != "" && sep !in a && Tail(rest, sep)
    ensures Parts(a + rest, [sep]) == [a] + if rest == "" then [] else Parts(rest[1..], [sep])
  {
    PartsAreNonEmptyPieces(a + rest, [sep]);
    if rest == "" {
      assert a + rest == a;
      SplitNone(a, [sep]);
      NonEmptyFirst([], a, []);
      assert [a] + [] == [a];
    } else {
      assert a + rest == a + [sep] + rest[1..];
      SplitFirst(a, [sep], rest[1..]);
      NonEmptyFirst([], a, Split(rest[1..], [sep]));
      PartsAreNonEmptyPieces(rest[1..], [sep]);
    }
  }

  predicate Plain(s: string) {
    s != "" && forall c <- s :: c != '/' && c != '.' && c != '-' && c != '+'
  }

  /** Numbers put together with dots. */
  function Dotted(numbers: seq<string>): string {
    if numbers == [] then ""
    else numbers[0] + if |numbers| == 1 then "" else "." + Dotted(numbers[1..])
  }

  predicate AllPlain(numbers: seq<string>) {
    numbers != [] && forall i :: 0 <= i < |numbers| ==> Plain(numbers[i])
  }

  lemma {:induction false} DottedShape(numbers: seq<string>)
    requires AllPlain(numbers)
    ensures Dotted(numbers) != "" && Dotted(numbers)[0] == numbers[0][0]
    ensures forall c <- Dotted(numbers) :: c != '/' && c != '-' && c != '+'
  {
    if |numbers| > 1 {
      DottedShape(numbers[1..]);
    }
  }

  lemma {:induction false} DottedParts(numbers: seq<string>)
    requires AllPlain(numbers)
    ensures Parts(Dotted(numbers), ".") == numbers
  {
    if |numbers| == 1 {
      PartsFirst(numbers[0], '.', "");
    } else {
      var rest := Dotted(numbers[1..]);
      PartsFirst(numbers[0], '.', "." + rest);
      assert ("." + rest)[1..] == rest;
      DottedParts(numbers[1..]);
    }
  }

  lemma CoreOf(version: string, suffix: string)
    requires forall c <- version :: !StartsSuffix(c)
    requires suffix == "" || StartsSuffix(suffix[0])
    ensures Core(version + suffix) == version
  {
    assert (version + suffix)[..|version|] == version;
    CoreIsPrefix(version + suffix, |version|);
  }

  lemma NumbersOf(numbers: seq<string>, suffix: string)
    requires AllPlain(numbers)
    requires suffix == "" || suffix[0] == '-' || suffix[0] == '+'
    ensures Parts(Core(Dotted(numbers) + suffix), ".") == numbers
  {
    DottedShape(numbers);
    CoreOf(Dotted(numbers), suffix);
    DottedParts(numbers);
  }

  lemma FirstTwoParts(name: string, shown: string, rest: string)
    requires name != "" && '/' !in name && shown != "" && '/' !in shown && Tail(rest, '/')
    ensures var parts := Parts(name + ("/" + (shown + rest)), "/");
            |parts| >= 2 && parts[0] == name && parts[1] == shown
  {
    PartsFirst(shown, '/', rest);
    PartsFirst(name, '/', "/" + (shown + rest));
    assert ("/" + (shown + rest))[1..] == shown + rest;
  }

  function NumberAt(numbers: seq<string>, i: nat): string {
    if i < |numbers| then numbers[i] else ""
  }

  /**
   * A name, an optional v, one or more numbers, a suffix after a dash or a plus, and further parts
   * are recovered exactly, unless the v is left out and the major number itself begins with one.
   */
  lemma VersionRoundTrip(name: string, v: bool, numbers: seq<string>, suffix: string, rest: string)
    requires name != "" && '/' !in name
    requires AllPlain(numbers)
    requires (suffix == "" || suffix[0] == '-' || suffix[0] == '+') && '/' !in suffix
    requires Tail(rest, '/')
    ensures var version := Dotted(numbers) + suffix;
            var text := name + ("/" + (((if v then "v" else "") + version) + rest));
            Recognised(text)
            == Version(name, version, NumberAt(numbers, 0), NumberAt(numbers, 1), NumberAt(numbers, 2))
            <==> v || numbers[0][0] != 'v'
  {
    var version := Dotted(numbers) + suffix;
    var shown := (if v then "v" else "") + version;
    DottedShape(numbers);
    FirstTwoParts(name, shown, rest);
    if v {
      assert shown[1..] == version;
    } else {
      assert shown == version;
    }
    NumbersOf(numbers, suffix);
  }

  /** A string with no more than a name in it: no version, and the name, or the string itself if it is all slashes. */
  lemma NamesAlone(name: string, slashes: nat)
    requires name != "" && '/' !in name
    ensures Recognised(name) == Version(name, "", "", "", "")
    ensures Recognised(name + "/") == Version(name, "", "", "", "")
    ensures Recognised(seq(slashes, _ => '/')) == Version(seq(slashes, _ => '/'), "", "", "", "")
  {
    PartsFirst(name, '/', "");
    assert name + "" == name;
    PartsFirst(name, '/', "/");
    assert ("/")[1..] == "";
    SlashesHaveNoParts(slashes);
  }

  lemma {:induction false} SlashesHaveNoParts(n: nat)
    ensures Parts(seq(n, _ => '/'), "/") == []
  {
    if n > 0 {
      var (s, rest) := (seq(n, _ => '/'), seq(n - 1, _ => '/'));
      SlashesHaveNoParts(n - 1);
      assert s == "" + "/" + rest;
      PartsAreNonEmptyPieces(s, "/");
      SplitFirst("", "/", rest);
      NonEmptyFirst([], "", Split(rest, "/"));
      if n > 1 {
        PartsAreNonEmptyPieces(rest, "/");
      } else {
        PartsAreNonEmptyPieces("", "/");
      }
    }
  }
}

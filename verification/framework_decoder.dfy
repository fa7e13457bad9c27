/** Decoding of target-framework tokens (`net48`, `netstandard2.0`,
    `netcoreapp3.1`, `net6.0-windows`) into `Framework` records, as
    `ParseTargetFrameworks`, `ParseTargetFramework` and `ParseNetVersion` do. */
module FrameworkDecoder {
  import opened Wrappers
  import opened Text
  import opened Types

  const NetStandardPattern: string := "netstandard"
  const NetCorePattern: string := "netcoreapp"
  const NetFrameworkPattern: string := "net"

  // ---------------------------------------------------------------------------
  // Version numbers
  // ---------------------------------------------------------------------------

  /** `ParseNetVersion`: either two dot-separated integers ("6.0"), or one
      token of at least two characters read as a one-digit major followed by
      the minor ("48", "472"). Anything else fails. */
  function ParseNetVersion(text: string): (r: Option<(int, int)>)
    ensures r.Some? ==> 0 <= r.value.0 <= MaxInt32 && 0 <= r.value.1 <= MaxInt32
    ensures r.Some? ==> |text| >= 2 && IsDigit(text[0])
    ensures |text| < 2 ==> r.None?
    ensures Count(text, '.') >= 2 ==> r.None?
  {
    var versions := Split(text, '.');
    if |versions| == 2 then
      assert Join(versions[1..], '.') == versions[1];
      assert text == versions[0] + ['.'] + versions[1];
      match (ParseInt(versions[0]), ParseInt(versions[1]))
      case (Some(major), Some(minor)) => Some((major, minor))
      case _ => Option.None
    else if |versions| == 1 then
      var version := versions[0];
      if |version| > 1 then
        match (ParseInt(version[..1]), ParseInt(version[1..]))
        case (Some(major), Some(minor)) =>
          assert version[..1][0] == version[0];
          Some((major, minor))
        case _ => Option.None
      else Option.None
    else Option.None
  }

  /** The dotted form: both sides of the single '.' must be integers. */
  lemma {:induction false} DottedVersion(a: string, b: string)
    requires '.' !in a && '.' !in b
    ensures ParseNetVersion(a + "." + b) ==
      if ParseInt(a).Some? && ParseInt(b).Some? then Some((ParseInt(a).value, ParseInt(b).value))
      else Option.None
  {
    SplitAtFirst(a, '.', b);
    SplitNoSeparator(b, '.');
  }

  /** A one-character string parses exactly when it is a digit. */
  lemma {:induction false} ParseSingleDigit(c: char)
    ensures ParseInt([c]).Some? <==> IsDigit(c)
    ensures IsDigit(c) ==> ParseInt([c]).value == DigitValue(c)
  {
    assert [c][0] == c;
    if IsDigit(c) {
      assert [c][..0] == [];
      assert DecimalValue([c]) == DigitValue(c);
    } else {
      assert !AllDigits([c]);
    }
  }

  /** The compact form: the first character is the major version, the rest the minor. */
  lemma {:induction false} CompactVersion(t: string)
    requires '.' !in t && |t| >= 2
    ensures ParseNetVersion(t) ==
      if IsDigit(t[0]) && ParseInt(t[1..]).Some? then Some((DigitValue(t[0]), ParseInt(t[1..]).value))
      else Option.None
  {
    SplitNoSeparator(t, '.');
    assert t[..1] == [t[0]];
    ParseSingleDigit(t[0]);
  }

  /** Digit strings contain no '.'. */
  lemma {:induction false} DigitsHaveNoDot(s: string)
    requires AllDigits(s)
    ensures '.' !in s
  {
    forall i | 0 <= i < |s| ensures s[i] != '.' {
      assert IsDigit(s[i]);
    }
  }

  /** A version in its dotted form, "major.minor". */
  function VersionText(major: nat, minor: nat): string {
    ShowNat(major) + "." + ShowNat(minor)
  }

  /** Rendering a version in the dotted form and parsing it back gives the version. */
  lemma {:induction false} VersionRoundTrip(major: nat, minor: nat)
    requires major <= MaxInt32 && minor <= MaxInt32
    ensures ParseNetVersion(VersionText(major, minor)) == Some((major, minor))
  {
    DigitsHaveNoDot(ShowNat(major));
    DigitsHaveNoDot(ShowNat(minor));
    DottedVersion(ShowNat(major), ShowNat(minor));
  }

  /** Three or more dot-separated parts never make a version. */
  lemma {:induction false} ThreePartsRejected(a: string, b: string, c: string)
    requires '.' !in a && '.' !in b
    ensures ParseNetVersion(a + "." + b + "." + c).None?
  {
    SplitAtFirst(b, '.', c);
    assert a + "." + b + "." + c == a + "." + (b + "." + c);
    SplitAtFirst(a, '.', b + "." + c);
  }

  // ---------------------------------------------------------------------------
  // Operating-system monikers
  // ---------------------------------------------------------------------------

  /** `FrameworkMoniker.ToString()`. */
  function MonikerName(m: FrameworkMoniker): string {
    match m
    case none => "none"
    case android => "android"
    case ios => "ios"
    case macos => "macos"
    case tvos => "tvos"
    case watchos => "watchos"
    case windows => "windows"
  }

  /** `Enum.Parse` for monikers: the member with that name, `none` for any other text. */
  function MonikerFromName(name: string): FrameworkMoniker {
    if name == "android" then android
    else if name == "ios" then ios
    else if name == "macos" then macos
    else if name == "tvos" then tvos
    else if name == "watchos" then watchos
    else if name == "windows" then windows
    else none
  }

  /** Names identify monikers, and are made of lower-case letters only. */
  lemma {:induction false} MonikerNameFacts(m: FrameworkMoniker)
    ensures MonikerFromName(MonikerName(m)) == m
    ensures forall i :: 0 <= i < |MonikerName(m)| ==> 'a' <= MonikerName(m)[i] <= 'z'
  {
  }

  /** The text a token must end with to carry moniker `m`: "-" then its name. */
  function MonikerSuffix(m: FrameworkMoniker): string {
    "-" + MonikerName(m)
  }

  /** The moniker members other than `none`, in declaration order. */
  const MonikerScanOrder: seq<FrameworkMoniker> := [android, ios, macos, tvos, watchos, windows]

  /** No moniker suffix ends another one. */
  lemma {:induction false} MonikerSuffixesDistinct(m1: FrameworkMoniker, m2: FrameworkMoniker)
    requires m1 != m2
    requires |MonikerSuffix(m1)| <= |MonikerSuffix(m2)|
    ensures !EndsWith(MonikerSuffix(m2), MonikerSuffix(m1))
  {
    var a, b := MonikerSuffix(m1), MonikerSuffix(m2);
    var k := |b| - |a|;
    MonikerNameFacts(m1);
    MonikerNameFacts(m2);
    if k == 0 {
      assert a[1..] == MonikerName(m1) && b[1..] == MonikerName(m2);
      assert MonikerName(m1) != MonikerName(m2);
    } else {
      assert b[k] == MonikerName(m2)[k - 1];
      assert b[k] != '-';
      assert a[0] == '-';
      assert b[k..][0] == b[k];
    }
  }

  /** At most one moniker suffix ends a given token. */
  lemma {:induction false} MonikerSuffixUnique(token: string, m1: FrameworkMoniker, m2: FrameworkMoniker)
    requires EndsWith(token, MonikerSuffix(m1)) && EndsWith(token, MonikerSuffix(m2))
    ensures m1 == m2
  {
    if |MonikerSuffix(m1)| <= |MonikerSuffix(m2)| {
      EndsWithBoth(token, MonikerSuffix(m1), MonikerSuffix(m2));
      if m1 != m2 {
        MonikerSuffixesDistinct(m1, m2);
      }
    } else {
      EndsWithBoth(token, MonikerSuffix(m2), MonikerSuffix(m1));
      MonikerSuffixesDistinct(m2, m1);
    }
  }

  /** The first moniker of `ms` whose suffix ends `token`, with that suffix cut off. */
  function ScanMonikers(token: string, ms: seq<FrameworkMoniker>): (r: (FrameworkMoniker, string))
    requires none !in ms
    ensures r.0 == none ==> r.1 == token && forall i :: 0 <= i < |ms| ==> !EndsWith(token, MonikerSuffix(ms[i]))
    ensures r.0 != none ==> r.0 in ms && token == r.1 + MonikerSuffix(r.0)
  {
    if |ms| == 0 then (none, token)
    else if EndsWith(token, MonikerSuffix(ms[0])) then
      var rest := token[..|token| - |MonikerSuffix(ms[0])|];
      assert token == rest + MonikerSuffix(ms[0]);
      (ms[0], rest)
    else ScanMonikers(token, ms[1..])
  }

  /** Every moniker other than `none` is scanned. */
  lemma {:induction false} ScanOrderComplete()
    ensures forall m :: m != none ==> m in MonikerScanOrder
  {
    forall m | m != none ensures m in MonikerScanOrder {
      match m
      case android => assert MonikerScanOrder[0] == m;
      case ios => assert MonikerScanOrder[1] == m;
      case macos => assert MonikerScanOrder[2] == m;
      case tvos => assert MonikerScanOrder[3] == m;
      case watchos => assert MonikerScanOrder[4] == m;
      case windows => assert MonikerScanOrder[5] == m;
    }
  }

  /** When the scan finds nothing, no moniker suffix ends the token. */
  lemma {:induction false} ScanMissesAll(token: string)
    requires ScanMonikers(token, MonikerScanOrder).0 == none
    ensures forall m :: m != none ==> !EndsWith(token, MonikerSuffix(m))
  {
    forall m | m != none ensures !EndsWith(token, MonikerSuffix(m)) {
      match m
      case android => assert MonikerScanOrder[0] == m;
      case ios => assert MonikerScanOrder[1] == m;
      case macos => assert MonikerScanOrder[2] == m;
      case tvos => assert MonikerScanOrder[3] == m;
      case watchos => assert MonikerScanOrder[4] == m;
      case windows => assert MonikerScanOrder[5] == m;
    }
  }

  /** A token ending in one moniker's suffix ends in no other. */
  lemma {:induction false} OnlyMonikerSuffix(token: string, m0: FrameworkMoniker, rest: string)
    requires token == rest + MonikerSuffix(m0)
    ensures EndsWith(token, MonikerSuffix(m0))
    ensures forall m :: EndsWith(token, MonikerSuffix(m)) ==> m == m0
  {
    EndsWithConcat(rest, MonikerSuffix(m0));
    forall m | EndsWith(token, MonikerSuffix(m)) ensures m == m0 {
      MonikerSuffixUnique(token, m, m0);
    }
  }

  /** The moniker-suffix loop of `ParseTargetFramework`: the moniker whose
      "-name" ends the token, and the token without it; `none` and the token
      itself when no moniker name ends it. */
  function StripMoniker(token: string): (r: (FrameworkMoniker, string))
    ensures r.0 == none <==> forall m :: m != none ==> !EndsWith(token, MonikerSuffix(m))
    ensures forall m :: m != none && EndsWith(token, MonikerSuffix(m)) ==> r.0 == m
    ensures r.0 == none ==> r.1 == token
    ensures r.0 != none ==> token == r.1 + MonikerSuffix(r.0)
  {
    var r := ScanMonikers(token, MonikerScanOrder);
    if r.0 != none then
      OnlyMonikerSuffix(token, r.0, r.1);
      r
    else
      ScanMissesAll(token);
      r
  }

  /** A token ending in a digit carries no moniker. */
  lemma {:induction false} NoMonikerAfterDigit(token: string)
    requires |token| > 0 && IsDigit(token[|token| - 1])
    ensures StripMoniker(token) == (none, token)
  {
    forall m | m != none ensures !EndsWith(token, MonikerSuffix(m)) {
      var suffix := MonikerSuffix(m);
      MonikerNameFacts(m);
      assert suffix[|suffix| - 1] == MonikerName(m)[|suffix| - 2];
      assert !IsDigit(suffix[|suffix| - 1]);
      assert |suffix| <= |token| ==> token[|token| - |suffix|..][|suffix| - 1] == token[|token| - 1];
    }
  }

  /** A moniker suffix after a digit is recognised and removed. */
  lemma {:induction false} StripAppendedMoniker(base: string, m: FrameworkMoniker)
    requires m != none
    ensures StripMoniker(base + MonikerSuffix(m)) == (m, base)
  {
    var token := base + MonikerSuffix(m);
    OnlyMonikerSuffix(token, m, base);
    var r := StripMoniker(token);
    assert r.0 == m;
    assert token[..|base|] == base;
    assert r.1 == token[..|token| - |MonikerSuffix(m)|];
  }

  // ---------------------------------------------------------------------------
  // Target framework tokens
  // ---------------------------------------------------------------------------

  /** The prefix that introduces each framework family ("" for `None`). */
  function PatternOf(t: FrameworkType): string {
    match t
    case NetStandard => NetStandardPattern
    case NetCore => NetCorePattern
    case NetFramework => NetFrameworkPattern
    case None => ""
  }

  /** Family `t` accepts the moniker-free text `s`: its prefix starts `s` and the rest is a version. */
  predicate Accepts(s: string, t: FrameworkType) {
    t != FrameworkType.None && StartsWith(s, PatternOf(t)) && ParseNetVersion(s[|PatternOf(t)|..]).Some?
  }

  /** Text accepted under the bare `net` prefix has a digit after it, so it
      cannot start with either longer prefix. */
  lemma {:induction false} NetPrefixExcludesOthers(s: string)
    requires Accepts(s, NetFramework)
    ensures !StartsWith(s, NetStandardPattern) && !StartsWith(s, NetCorePattern)
  {
    assert s[3..][0] == s[3];
    assert IsDigit(s[3]);
  }

  /** The three prefix tests of `ParseTargetFramework`, in order, on the
      moniker-free text: the family, major and minor version, if any. */
  function DecodeStripped(s: string): (r: Option<(FrameworkType, int, int)>)
    ensures r.None? <==> !Accepts(s, NetStandard) && !Accepts(s, NetCore) && !Accepts(s, NetFramework)
    ensures r.Some? ==> Accepts(s, r.value.0)
    ensures r.Some? ==> ParseNetVersion(s[|PatternOf(r.value.0)|..]) == Some((r.value.1, r.value.2))
    ensures r.Some? && r.value.0 == NetFramework ==>
      !StartsWith(s, NetStandardPattern) && !StartsWith(s, NetCorePattern)
  {
    if StartsWith(s, NetStandardPattern) && ParseNetVersion(s[|NetStandardPattern|..]).Some? then
      var v := ParseNetVersion(s[|NetStandardPattern|..]).value;
      Some((NetStandard, v.0, v.1))
    else if StartsWith(s, NetCorePattern) && ParseNetVersion(s[|NetCorePattern|..]).Some? then
      var v := ParseNetVersion(s[|NetCorePattern|..]).value;
      Some((NetCore, v.0, v.1))
    else if StartsWith(s, NetFrameworkPattern) && ParseNetVersion(s[|NetFrameworkPattern|..]).Some? then
      var v := ParseNetVersion(s[|NetFrameworkPattern|..]).value;
      NetPrefixExcludesOthers(s);
      Some((NetFramework, v.0, v.1))
    else
      Option.None
  }

  /** `ParseTargetFramework`: strip a moniker suffix, then try the prefixes
      `netstandard`, `netcoreapp` and `net` in that order; the first that
      matches and whose remainder is a version decides the family. A token no
      family accepts is dropped. The record keeps the token as written. */
  function ParseTargetFramework(frameworkName: string): (r: Option<Framework>)
    ensures r.None? <==> DecodeStripped(StripMoniker(frameworkName).1).None?
    ensures r.Some? ==> r.value.name == frameworkName && r.value.moniker == StripMoniker(frameworkName).0
    ensures r.Some? ==> r.value.frameworkType != FrameworkType.None
    ensures r.Some? ==> 0 <= r.value.major <= MaxInt32 && 0 <= r.value.minor <= MaxInt32
    ensures r.Some? ==> (r.value.frameworkType, r.value.major, r.value.minor) == DecodeStripped(StripMoniker(frameworkName).1).value
  {
    var stripped := StripMoniker(frameworkName);
    match DecodeStripped(stripped.1)
    case Some(v) => Some(Framework(frameworkName, v.0, v.1, v.2, stripped.0))
    case None => Option.None
  }

  /** The token naming family `t`, version `major.minor` and moniker `m`. */
  function FormatFramework(t: FrameworkType, major: nat, minor: nat, m: FrameworkMoniker): string
    requires t != FrameworkType.None
  {
    PatternOf(t) + VersionText(major, minor) + (if m == none then "" else MonikerSuffix(m))
  }

  /** A family prefix followed by text that parses as a version is decoded
      as that family, provided that under the bare `net` prefix the text
      starts with a digit and under `netcoreapp` it is not read as `netstandard`. */
  lemma {:induction false} DecodeStrippedFamily(t: FrameworkType, version: string, major: int, minor: int)
    requires t != FrameworkType.None
    requires ParseNetVersion(version) == Some((major, minor))
    ensures DecodeStripped(PatternOf(t) + version) == Some((t, major, minor))
  {
    var base := PatternOf(t) + version;
    assert base[|PatternOf(t)|..] == version;
    assert StartsWith(base, PatternOf(t));
    match t
    case NetStandard => {}
    case NetCore => {
      assert !StartsWith(base, NetStandardPattern) by { assert base[3] == 'c'; }
    }
    case NetFramework => {
      assert Accepts(base, NetFramework);
      NetPrefixExcludesOthers(base);
    }
  }

  /** A family prefix followed by a dotted version is decoded as that family and version. */
  lemma {:induction false} DecodeStrippedFormatted(t: FrameworkType, major: nat, minor: nat)
    requires t != FrameworkType.None && major <= MaxInt32 && minor <= MaxInt32
    ensures DecodeStripped(PatternOf(t) + VersionText(major, minor)) == Some((t, major, minor))
  {
    VersionRoundTrip(major, minor);
    DecodeStrippedFamily(t, VersionText(major, minor), major, minor);
  }

  /** Every family, version and moniker survives formatting and decoding. */
  lemma {:induction false} DecodeFormat(t: FrameworkType, major: nat, minor: nat, m: FrameworkMoniker)
    requires t != FrameworkType.None && major <= MaxInt32 && minor <= MaxInt32
    ensures var token := FormatFramework(t, major, minor, m);
      ParseTargetFramework(token) == Some(Framework(token, t, major, minor, m))
  {
    var base := PatternOf(t) + VersionText(major, minor);
    var token := FormatFramework(t, major, minor, m);
    if m == none {
      assert token == base;
      assert base[|base| - 1] == ShowNat(minor)[|ShowNat(minor)| - 1];
      NoMonikerAfterDigit(base);
    } else {
      assert token == base + MonikerSuffix(m);
      StripAppendedMoniker(base, m);
    }
    DecodeStrippedFormatted(t, major, minor);
  }

  /** `DecodeFormat` for a token given as text. */
  lemma {:induction false} DecodeToken(token: string, t: FrameworkType, major: nat, minor: nat, m: FrameworkMoniker)
    requires t != FrameworkType.None && major <= MaxInt32 && minor <= MaxInt32
    requires token == FormatFramework(t, major, minor, m)
    ensures ParseTargetFramework(token) == Some(Framework(token, t, major, minor, m))
  {
    DecodeFormat(t, major, minor, m);
  }

  /** The dotted forms of the three families, with and without a moniker. */
  lemma {:induction false} NetStandardExample()
    ensures ParseTargetFramework("netstandard2.0") == Some(Framework("netstandard2.0", NetStandard, 2, 0, none))
  {
    DecodeToken("netstandard2.0", NetStandard, 2, 0, none);
  }

  lemma {:induction false} NetCoreExample()
    ensures ParseTargetFramework("netcoreapp3.1") == Some(Framework("netcoreapp3.1", NetCore, 3, 1, none))
  {
    DecodeToken("netcoreapp3.1", NetCore, 3, 1, none);
  }

  lemma {:induction false} NetDottedExample()
    ensures ParseTargetFramework("net6.0") == Some(Framework("net6.0", NetFramework, 6, 0, none))
  {
    DecodeToken("net6.0", NetFramework, 6, 0, none);
  }

  lemma {:induction false} MonikerExample()
    ensures ParseTargetFramework("net6.0-windows") == Some(Framework("net6.0-windows", NetFramework, 6, 0, windows))
  {
    DecodeToken("net6.0-windows", NetFramework, 6, 0, windows);
  }

  /** The compact form under the `net` prefix: one digit of major, the rest minor. */
  lemma {:induction false} CompactFramework(token: string, version: string)
    requires token == NetFrameworkPattern + version
    requires '.' !in version && |version| >= 2 && AllDigits(version)
    requires ParseInt(version[1..]).Some?
    ensures ParseTargetFramework(token) ==
      Some(Framework(token, NetFramework, DigitValue(version[0]), ParseInt(version[1..]).value, none))
  {
    assert token[|token| - 1] == version[|version| - 1];
    NoMonikerAfterDigit(token);
    CompactVersion(version);
    DecodeStrippedFamily(NetFramework, version, DigitValue(version[0]), ParseInt(version[1..]).value);
  }

  /** A compact version whose minor part is a single digit. */
  lemma {:induction false} CompactTwoDigits(token: string, d0: char, d1: char)
    requires token == NetFrameworkPattern + [d0, d1]
    requires IsDigit(d0) && IsDigit(d1)
    ensures ParseTargetFramework(token) == Some(Framework(token, NetFramework, DigitValue(d0), DigitValue(d1), none))
  {
    ParseSingleDigit(d1);
    assert [d0, d1][1..] == [d1];
    CompactFramework(token, [d0, d1]);
  }

  /** A compact version whose minor part has two digits. */
  lemma {:induction false} CompactThreeDigits(token: string, d0: char, d1: char, d2: char)
    requires token == NetFrameworkPattern + [d0, d1, d2]
    requires IsDigit(d0) && IsDigit(d1) && IsDigit(d2)
    ensures ParseTargetFramework(token) ==
      Some(Framework(token, NetFramework, DigitValue(d0), 10 * DigitValue(d1) + DigitValue(d2), none))
  {
    var minor := [d1, d2];
    assert minor[..1] == [d1];
    assert [d1][..0] == [];
    assert DecimalValue([d1]) == DigitValue(d1);
    assert DecimalValue(minor) == 10 * DigitValue(d1) + DigitValue(d2);
    assert [d0, d1, d2][1..] == minor;
    CompactFramework(token, [d0, d1, d2]);
  }

  lemma {:induction false} Net48Example()
    ensures ParseTargetFramework("net48") == Some(Framework("net48", NetFramework, 4, 8, none))
  {
    CompactTwoDigits("net48", '4', '8');
  }

  lemma {:induction false} Net472Example()
    ensures ParseTargetFramework("net472") == Some(Framework("net472", NetFramework, 4, 72, none))
  {
    CompactThreeDigits("net472", '4', '7', '2');
  }

  lemma {:induction false} Net481Example()
    ensures ParseTargetFramework("net481") == Some(Framework("net481", NetFramework, 4, 81, none))
  {
    CompactThreeDigits("net481", '4', '8', '1');
  }

  /** Text with a digit right after `net` and no version after it is rejected by all three families. */
  lemma {:induction false} NotAcceptedUnderNet(s: string)
    requires |s| > 3 && IsDigit(s[3]) && ParseNetVersion(s[3..]).None?
    ensures DecodeStripped(s).None?
  {
    assert NetStandardPattern[3] == 's';
    assert NetCorePattern[3] == 'c';
  }

  /** Text under the `net` prefix that has two dots is dropped, whatever follows. */
  lemma {:induction false} ExtraDotDropped(token: string, rest: string, a: string, b: string, c: string)
    requires token == NetFrameworkPattern + rest && rest == a + "." + b + "." + c
    requires '.' !in a && '.' !in b && |a| > 0 && IsDigit(a[0])
    requires |c| > 0 && IsDigit(c[|c| - 1])
    ensures ParseTargetFramework(token).None?
  {
    assert token[3..] == rest;
    assert token[3] == rest[0] == a[0];
    ThreePartsRejected(a, b, c);
    NotAcceptedUnderNet(token);
    assert token[|token| - 1] == rest[|rest| - 1] == c[|c| - 1];
    NoMonikerAfterDigit(token);
  }

  /** A moniker followed by a version of its own is not recognised by the
      suffix test, and the dotted text left over has three parts: dropped. */
  lemma {:induction false} MonikerVersionDropped()
    ensures ParseTargetFramework("net8.0-windows7.0").None?
  {
    ExtraDotDropped("net8.0-windows7.0", "8.0-windows7.0", "8", "0-windows7", "0");
  }

  // ---------------------------------------------------------------------------
  // Framework lists
  // ---------------------------------------------------------------------------

  /** The accepted tokens, decoded, in order; the rejected ones dropped. */
  function DecodeTokens(tokens: seq<string>): (r: seq<Framework>)
    ensures |r| <= |tokens|
    ensures forall f :: f in r ==> f.name in tokens && ParseTargetFramework(f.name) == Some(f)
    ensures forall i :: 0 <= i < |tokens| && ParseTargetFramework(tokens[i]).Some? ==>
              ParseTargetFramework(tokens[i]).value in r
  {
    if |tokens| == 0 then []
    else
      var rest := DecodeTokens(tokens[1..]);
      var r := match ParseTargetFramework(tokens[0]) case Some(f) => [f] + rest case None => rest;
      DecodeTokensStep(ParseTargetFramework, tokens, rest, r);
      r
  }

  /** Decoding the first token in front of the decoded rest keeps the three
      properties of `DecodeTokens`, for any decoder that records the token it
      decoded. */
  lemma DecodeTokensStep(dec: string -> Option<Framework>, tokens: seq<string>, rest: seq<Framework>, r: seq<Framework>)
    requires |tokens| > 0
    requires dec(tokens[0]).Some? ==> dec(tokens[0]).value.name == tokens[0]
    requires r == match dec(tokens[0]) case Some(f) => [f] + rest case None => rest
    requires |rest| <= |tokens| - 1
    requires forall f :: f in rest ==> f.name in tokens[1..] && dec(f.name) == Some(f)
    requires forall i :: 0 <= i < |tokens[1..]| && dec(tokens[1..][i]).Some? ==> dec(tokens[1..][i]).value in rest
    ensures |r| <= |tokens|
    ensures forall f :: f in r ==> f.name in tokens && dec(f.name) == Some(f)
    ensures forall i :: 0 <= i < |tokens| && dec(tokens[i]).Some? ==> dec(tokens[i]).value in r
  {
    forall i | 0 <= i < |tokens| && dec(tokens[i]).Some? ensures dec(tokens[i]).value in r {
      if i > 0 { assert tokens[i] == tokens[1..][i - 1]; }
    }
  }

  /** Decoding a list is decoding its parts one after the other: order is kept. */
  lemma {:induction false} DecodeTokensConcat(a: seq<string>, b: seq<string>)
    ensures DecodeTokens(a + b) == DecodeTokens(a) + DecodeTokens(b)
  {
    if |a| == 0 {
      assert a + b == b;
    } else {
      assert (a + b)[1..] == a[1..] + b;
      DecodeTokensConcat(a[1..], b);
    }
  }

  /** `ParseTargetFrameworks`: the `;`-separated tokens of the framework text, decoded. */
  function ParseTargetFrameworks(targetFrameworks: string): (r: seq<Framework>)
    ensures |r| <= Count(targetFrameworks, ';') + 1
    ensures forall f :: f in r ==> ';' !in f.name && ParseTargetFramework(f.name) == Some(f)
    ensures ';' !in targetFrameworks ==> r == DecodeTokens([targetFrameworks])
  {
    DecodeTokens(Split(targetFrameworks, ';'))
  }

  /** Tokens joined with `;` are decoded one after the other, in order, an
      undecodable token contributing nothing. */
  lemma {:induction false} TokensDecodedInOrder(tokens: seq<string>)
    requires |tokens| >= 1 && forall i :: 0 <= i < |tokens| ==> ';' !in tokens[i]
    ensures ParseTargetFrameworks(Join(tokens, ';')) == DecodeTokens(tokens)
  {
    SplitJoin(tokens, ';');
  }

  /** Two `;`-separated tokens are decoded one after the other. */
  lemma {:induction false} TwoTokens(text: string, a: string, b: string)
    requires text == a + [';'] + b && ';' !in a && ';' !in b
    ensures ParseTargetFrameworks(text) == DecodeTokens([a]) + DecodeTokens([b])
  {
    SplitAtFirst(a, ';', b);
    SplitNoSeparator(b, ';');
    assert [a] + [b] == [a, b];
    DecodeTokensConcat([a], [b]);
  }

  lemma {:induction false} Net481Kept()
    ensures DecodeTokens(["net481"]) == [Framework("net481", NetFramework, 4, 81, none)]
  {
    Net481Example();
  }

  lemma {:induction false} MonikerVersionTokenDropped()
    ensures DecodeTokens(["net8.0-windows7.0"]) == []
  {
    MonikerVersionDropped();
  }

  /** Two tokens, the second a moniker with a version of its own: only the first is kept. */
  lemma {:induction false} TwoTokenExample(text: string)
    requires text == "net481;net8.0-windows7.0"
    ensures ParseTargetFrameworks(text) == [Framework("net481", NetFramework, 4, 81, none)]
  {
    assert text == "net481" + [';'] + "net8.0-windows7.0";
    TwoTokens(text, "net481", "net8.0-windows7.0");
    Net481Kept();
    MonikerVersionTokenDropped();
  }
}

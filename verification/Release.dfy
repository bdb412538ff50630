/** The release-line parser: which version strings are read, and as what. */
module Releases {
  import opened Basics

  type Byte = n: nat | n < 256

  const DASH: Byte := 45
  const DOT: Byte := 46
  const PLUS: Byte := 43
  const ZERO: Byte := 48
  const MAX_RELEASE_BYTES: nat := 64
  const U64_LIMIT: nat := 0x1_0000_0000_0000_0000

  datatype ReleaseLine = ReleaseLine(major: nat, minor: nat)

  // ------------------------------------------------------------------
  // The parser
  // ------------------------------------------------------------------

  /** Everything before the first `-` or `+`. */
  function Core(version: seq<Byte>): seq<Byte> {
    if version == [] || version[0] == DASH || version[0] == PLUS then []
    else [version[0]] + Core(version[1..])
  }

  function SplitDots(core: seq<Byte>): (parts: seq<seq<Byte>>)
    ensures |parts| >= 1
  {
    if core == [] then [[]]
    else
      var rest := SplitDots(core[1..]);
      if core[0] == DOT then [[]] + rest else [[core[0]] + rest[0]] + rest[1..]
  }

  predicate IsDigit(b: Byte) {
    ZERO <= b < ZERO + 10
  }

  predicate IsCanonical(component: seq<Byte>) {
    && component != []
    && (forall i | 0 <= i < |component| :: IsDigit(component[i]))
    && (component == [ZERO] || component[0] != ZERO)
  }

  function Value(digits: seq<Byte>): nat
    requires forall i | 0 <= i < |digits| :: IsDigit(digits[i])
  {
    if digits == [] then 0
    else
      assert IsDigit(digits[|digits| - 1]);
      Value(digits[..|digits| - 1]) * 10 + (digits[|digits| - 1] - ZERO)
  }

  /** A canonical decimal number that fits 64 bits. */
  function ParseComponent(component: seq<Byte>): Option<nat> {
    if IsCanonical(component) && Value(component) < U64_LIMIT then Some(Value(component)) else None
  }

  function Parse(version: seq<Byte>): Option<ReleaseLine> {
    if version == [] || |version| > MAX_RELEASE_BYTES then None
    else
      var parts := SplitDots(Core(version));
      if |parts| != 3 then None
      else
        match (ParseComponent(parts[0]), ParseComponent(parts[1]), ParseComponent(parts[2]))
        case (Some(major), Some(minor), Some(_)) => Some(ReleaseLine(major, minor))
        case _ => None
  }

  predicate IsCompatible(current: seq<Byte>, version: seq<Byte>) {
    Parse(current).Some? && Parse(version) == Parse(current)
  }

  // ------------------------------------------------------------------
  // The printer it is measured against
  // ------------------------------------------------------------------

  /** The decimal digits of `n`, without leading zeros. */
  function Print(n: nat): seq<Byte> {
    if n < 10 then [ZERO + n] else Print(n / 10) + [ZERO + n % 10]
  }

  /** `MAJOR.MINOR.PATCH`, the version core of section 2 of Semantic Versioning 2.0.0. */
  function PrintRelease(major: nat, minor: nat, patch: nat): seq<Byte> {
    Print(major) + [DOT] + Print(minor) + [DOT] + Print(patch)
  }

  /** Nothing, or a pre-release or build-metadata suffix (sections 9 and 10). */
  predicate IsSuffix(suffix: seq<Byte>) {
    suffix == [] || suffix[0] == DASH || suffix[0] == PLUS
  }

  // ------------------------------------------------------------------
  // Numbers
  // ------------------------------------------------------------------

  lemma {:induction false} PrintIsCanonical(n: nat)
    ensures IsCanonical(Print(n)) && Value(Print(n)) == n
    ensures n > 0 ==> Print(n)[0] != ZERO
  {
    if n < 10 {
      assert Print(n)[..0] == [];
    } else {
      PrintIsCanonical(n / 10);
      assert Print(n)[..|Print(n)| - 1] == Print(n / 10);
    }
  }

  lemma {:induction false} CanonicalIsPrinted(digits: seq<Byte>)
    requires IsCanonical(digits)
    ensures digits == Print(Value(digits))
    ensures digits != [ZERO] ==> Value(digits) > 0
  {
    var front, last := digits[..|digits| - 1], digits[|digits| - 1];
    if front == [] {
      assert Value(front) == 0 && digits == [last];
    } else {
      assert front[0] == digits[0] && digits != [ZERO];
      CanonicalIsPrinted(front);
      assert Value(digits) / 10 == Value(front) && Value(digits) % 10 == last - ZERO;
      assert digits == front + [last];
    }
  }

  function Pow10(k: nat): nat {
    if k == 0 then 1 else 10 * Pow10(k - 1)
  }

  lemma {:induction false} PrintIsShort(n: nat, k: nat)
    requires k > 0 && n < Pow10(k)
    ensures |Print(n)| <= k
  {
    if n >= 10 {
      assert k > 1;
      PrintIsShort(n / 10, k - 1);
    }
  }

  lemma TwentyDigits(n: nat)
    requires n < U64_LIMIT
    ensures |Print(n)| <= 20
  {
    assert Pow10(4) == 10_000;
    assert Pow10(8) == 100_000_000;
    assert Pow10(12) == 1_000_000_000_000;
    assert Pow10(16) == 10_000_000_000_000_000;
    assert Pow10(20) == 100_000_000_000_000_000_000;
    PrintIsShort(n, 20);
  }

  // ------------------------------------------------------------------
  // Strings
  // ------------------------------------------------------------------

  predicate Plain(text: seq<Byte>) {
    forall i | 0 <= i < |text| :: text[i] != DASH && text[i] != PLUS
  }

  predicate Dotless(text: seq<Byte>) {
    forall i | 0 <= i < |text| :: text[i] != DOT
  }

  lemma {:induction false} CoreOfPlain(text: seq<Byte>, suffix: seq<Byte>)
    requires Plain(text) && IsSuffix(suffix)
    ensures Core(text + suffix) == text
  {
    if text == [] {
      assert text + suffix == suffix;
    } else {
      assert (text + suffix)[1..] == text[1..] + suffix;
      CoreOfPlain(text[1..], suffix);
    }
  }

  lemma {:induction false} CoreSplitsOff(version: seq<Byte>) returns (suffix: seq<Byte>)
    ensures version == Core(version) + suffix && IsSuffix(suffix) && Plain(Core(version))
  {
    if version == [] || version[0] == DASH || version[0] == PLUS {
      suffix := version;
    } else {
      suffix := CoreSplitsOff(version[1..]);
    }
  }

  lemma {:induction false} SplitAtDot(part: seq<Byte>, rest: seq<Byte>)
    requires Dotless(part)
    ensures SplitDots(part + [DOT] + rest) == [part] + SplitDots(rest)
    ensures SplitDots(part) == [part]
  {
    if part == [] {
      assert part + [DOT] + rest == [DOT] + rest && ([DOT] + rest)[1..] == rest;
    } else {
      SplitAtDot(part[1..], rest);
      assert (part + [DOT] + rest)[1..] == part[1..] + [DOT] + rest;
      assert ([part[1..]] + SplitDots(rest))[1..] == SplitDots(rest);
      assert [part[0]] + part[1..] == part;
    }
  }

  function JoinDots(parts: seq<seq<Byte>>): seq<Byte>
    requires parts != []
  {
    if |parts| == 1 then parts[0] else parts[0] + [DOT] + JoinDots(parts[1..])
  }

  lemma {:induction false} SplitRejoins(core: seq<Byte>)
    ensures JoinDots(SplitDots(core)) == core
  {
    if core != [] {
      SplitRejoins(core[1..]);
      var rest := SplitDots(core[1..]);
      if core[0] == DOT {
        assert SplitDots(core)[1..] == rest;
        assert [] + [DOT] + core[1..] == core;
      } else {
        var parts := SplitDots(core);
        assert parts[1..] == rest[1..] && parts[0] == [core[0]] + rest[0];
        if |rest| > 1 {
          assert parts[0] + [DOT] + JoinDots(rest[1..]) == [core[0]] + (rest[0] + [DOT] + JoinDots(rest[1..]));
        }
        assert [core[0]] + core[1..] == core;
      }
    }
  }

  lemma PrintIsPlain(n: nat)
    ensures Plain(Print(n)) && Dotless(Print(n))
  {
    PrintIsCanonical(n);
  }

  lemma ReleaseParts(major: nat, minor: nat, patch: nat)
    ensures Plain(PrintRelease(major, minor, patch))
    ensures SplitDots(PrintRelease(major, minor, patch)) == [Print(major), Print(minor), Print(patch)]
  {
    PrintIsPlain(major);
    PrintIsPlain(minor);
    PrintIsPlain(patch);
    ThreeParts(Print(major), Print(minor), Print(patch));
  }

  lemma ThreeParts(a: seq<Byte>, b: seq<Byte>, c: seq<Byte>)
    requires Dotless(a) && Dotless(b) && Dotless(c)
    ensures SplitDots(a + [DOT] + b + [DOT] + c) == [a, b, c]
  {
    SplitAtDot(c, []);
    SplitAtDot(b, c);
    SplitAtDot(a, b + [DOT] + c);
    assert a + [DOT] + b + [DOT] + c == a + [DOT] + (b + [DOT] + c);
  }

  // ------------------------------------------------------------------
  // Round trip and exact language
  // ------------------------------------------------------------------

  /** Every release prints within the byte limit and reads back as its line, whatever suffix still fits. */
  lemma PrintedReleasesParse(major: nat, minor: nat, patch: nat, suffix: seq<Byte>)
    requires major < U64_LIMIT && minor < U64_LIMIT && patch < U64_LIMIT && IsSuffix(suffix)
    ensures |PrintRelease(major, minor, patch)| <= 62
    ensures |PrintRelease(major, minor, patch) + suffix| <= MAX_RELEASE_BYTES
        ==> Parse(PrintRelease(major, minor, patch) + suffix) == Some(ReleaseLine(major, minor))
    ensures Parse(PrintRelease(major, minor, patch)) == Some(ReleaseLine(major, minor))
  {
    var printed := PrintRelease(major, minor, patch);
    TwentyDigits(major);
    TwentyDigits(minor);
    TwentyDigits(patch);
    ReleaseParts(major, minor, patch);
    CoreOfPlain(printed, suffix);
    CoreOfPlain(printed, []);
    assert printed + [] == printed;
    PrintIsCanonical(major);
    PrintIsCanonical(minor);
    PrintIsCanonical(patch);
  }

  lemma ComponentIsPrinted(component: seq<Byte>)
    requires ParseComponent(component).Some?
    ensures component == Print(ParseComponent(component).value) && ParseComponent(component).value < U64_LIMIT
  {
    CanonicalIsPrinted(component);
  }

  /** The accepted language, exactly: up to 64 bytes, of a printed release of 64-bit numbers and then any suffix. */
  lemma ParsesExactly(version: seq<Byte>, line: ReleaseLine)
    ensures Parse(version) == Some(line)
        <==> && 0 < |version| <= MAX_RELEASE_BYTES
             && line.major < U64_LIMIT && line.minor < U64_LIMIT
             && exists patch: nat :: patch < U64_LIMIT && Core(version) == PrintRelease(line.major, line.minor, patch)
  {
    if Parse(version) == Some(line) {
      var patch := ParsedIsPrinted(version);
    } else if 0 < |version| <= MAX_RELEASE_BYTES && line.major < U64_LIMIT && line.minor < U64_LIMIT {
      forall patch: nat | patch < U64_LIMIT
        ensures Core(version) != PrintRelease(line.major, line.minor, patch)
      {
        if Core(version) == PrintRelease(line.major, line.minor, patch) {
          var suffix := CoreSplitsOff(version);
          PrintedReleasesParse(line.major, line.minor, patch, suffix);
        }
      }
    }
  }

  lemma ParsedIsPrinted(version: seq<Byte>) returns (patch: nat)
    requires Parse(version).Some?
    ensures var line := Parse(version).value;
            && patch < U64_LIMIT && line.major < U64_LIMIT && line.minor < U64_LIMIT
            && Core(version) == PrintRelease(line.major, line.minor, patch)
  {
    var parts := SplitDots(Core(version));
    ComponentIsPrinted(parts[0]);
    ComponentIsPrinted(parts[1]);
    ComponentIsPrinted(parts[2]);
    patch := ParseComponent(parts[2]).value;
    SplitRejoins(Core(version));
    JoinThree(parts);
  }

  lemma JoinThree(parts: seq<seq<Byte>>)
    requires |parts| == 3
    ensures JoinDots(parts) == parts[0] + [DOT] + parts[1] + [DOT] + parts[2]
  {
    assert parts[1..][1..] == [parts[2]];
    assert JoinDots(parts[1..]) == parts[1] + [DOT] + JoinDots([parts[2]]);
    assert parts[0] + [DOT] + (parts[1] + [DOT] + parts[2]) == parts[0] + [DOT] + parts[1] + [DOT] + parts[2];
  }

  /** Two computers accept each other's header exactly alike: same major and minor, any patch, any suffix. */
  lemma CompatibilityIsMutual(here: seq<Byte>, there: seq<Byte>)
    ensures IsCompatible(here, there) <==> IsCompatible(there, here)
    ensures IsCompatible(here, there)
        <==> exists major: nat, minor: nat ::
               Parse(here) == Some(ReleaseLine(major, minor)) && Parse(there) == Some(ReleaseLine(major, minor))
  {
    if IsCompatible(here, there) {
      var line := Parse(here).value;
      assert Parse(there) == Some(ReleaseLine(line.major, line.minor));
    }
  }

  // ------------------------------------------------------------------
  // Examples
  // ------------------------------------------------------------------

  /** The bytes of a text of ASCII characters. */
  function Bytes(text: string): seq<Byte>
    requires forall i | 0 <= i < |text| :: text[i] < '\U{80}'
  {
    seq(|text|, i requires 0 <= i < |text| => text[i] as int)
  }

  /** `10.2.7` and `10.2.7-rc.1` are read alike, as the bytes a person would type. */
  lemma ReadInFull()
    ensures Parse(Bytes("10.2.7")) == Some(ReleaseLine(10, 2))
    ensures Parse(Bytes("10.2.7-rc.1")) == Some(ReleaseLine(10, 2))
  {
    var core := Bytes("10.2.7");
    assert Print(10) == [49, 48] && Print(2) == [50] && Print(7) == [55];
    assert core == PrintRelease(10, 2, 7);
    var suffix := Bytes("-rc.1");
    assert Bytes("10.2.7-rc.1") == core + suffix;
    PrintedReleasesParse(10, 2, 7, suffix);
  }
}

/** Version comparison of the SonarQubeInstance admission webhook
    (api/v1alpha1/sonarqubeinstance_webhook.go). */
module Versions {
  import opened Outcomes
  import Text

  const MAX_INT: int := 0x7fff_ffff_ffff_ffff
  const MIN_INT: int := -0x8000_0000_0000_0000

  datatype Version = Version(major: int, minor: int)

  predicate IsDigit(c: char) {
    '0' <= c <= '9'
  }

  predicate AllDigits(s: string) {
    forall i :: 0 <= i < |s| ==> IsDigit(s[i])
  }

  function DigitsValue(s: string): nat
    requires AllDigits(s)
  {
    if s == "" then 0 else 10 * DigitsValue(s[..|s| - 1]) + (s[|s| - 1] as int - '0' as int)
  }

  /** strconv.Atoi on a 64-bit platform: optional sign, decimal digits, range check. */
  function Atoi(s: string): Option<int> {
    var signed := s != "" && (s[0] == '-' || s[0] == '+');
    var digits := if signed then s[1..] else s;
    if digits == "" || !AllDigits(digits) then None
    else
      var n: int := if signed && s[0] == '-' then 0 - DigitsValue(digits) else DigitsValue(digits);
      if MIN_INT <= n <= MAX_INT then Some(n) else None
  }

  /** parseMajorMinor: the first two of at most three dot-separated pieces, both integers. */
  function ParseMajorMinor(version: string): Option<Version> {
    var parts := Text.SplitN(version, '.', 3);
    if |parts| < 2 then None
    else
      match (Atoi(parts[0]), Atoi(parts[1]))
      case (Some(major), Some(minor)) => Some(Version(major, minor))
      case _ => None
  }

  predicate Below(a: Version, b: Version) {
    a.major < b.major || (a.major == b.major && a.minor < b.minor)
  }

  /** validateVersionNotDowngraded: true when the update is let through. */
  predicate Admitted(oldVersion: string, newVersion: string) {
    if oldVersion == "" || newVersion == "" || oldVersion == newVersion then true
    else
      match (ParseMajorMinor(oldVersion), ParseMajorMinor(newVersion))
      case (Some(old_), Some(new_)) => !Below(new_, old_)
      case _ => true
  }

  // ----- decimal text -----

  function Digit(d: nat): char
    requires d < 10
  {
    ('0' as int + d) as char
  }

  function Decimal(n: nat): string {
    if n < 10 then [Digit(n)] else Decimal(n / 10) + [Digit(n % 10)]
  }

  function Itoa(n: int): string {
    if n < 0 then "-" + Decimal(-n) else Decimal(n)
  }

  lemma {:induction false} DecimalDigits(n: nat)
    ensures Decimal(n) != "" && AllDigits(Decimal(n)) && DigitsValue(Decimal(n)) == n
  {
    if n >= 10 {
      DecimalDigits(n / 10);
      var s := Decimal(n);
      assert s[..|s| - 1] == Decimal(n / 10);
    } else {
      assert Decimal(n)[..0] == "";
    }
  }

  lemma AtoiDigits(s: string)
    requires s != "" && AllDigits(s) && DigitsValue(s) <= MAX_INT
    ensures Atoi(s) == Some(DigitsValue(s))
  {
    assert IsDigit(s[0]);
  }

  lemma AtoiNegative(s: string)
    requires s != "" && AllDigits(s) && 0 - DigitsValue(s) >= MIN_INT
    ensures Atoi("-" + s) == Some(0 - DigitsValue(s))
  {
    assert ("-" + s)[1..] == s;
  }

  lemma AtoiItoa(n: int)
    requires MIN_INT <= n <= MAX_INT
    ensures Atoi(Itoa(n)) == Some(n) && '.' !in Itoa(n)
  {
    if n < 0 {
      DecimalDigits(-n);
      AtoiNegative(Decimal(-n));
    } else {
      DecimalDigits(n);
      AtoiDigits(Decimal(n));
    }
  }

  lemma SplitTwo(a: string, b: string)
    requires '.' !in a && '.' !in b
    ensures Text.SplitN(a + "." + b, '.', 3) == [a, b]
  {
    Text.SplitNMiddle(a, '.', b, 3);
    Text.SplitNWhole(b, '.', 2);
  }

  lemma SplitThree(a: string, b: string, suffix: string)
    requires '.' !in a && '.' !in b
    ensures Text.SplitN(a + "." + b + "." + suffix, '.', 3) == [a, b, suffix]
  {
    var tail := b + "." + suffix;
    assert Text.SplitN(tail, '.', 2) == [b, suffix] by {
      Text.SplitNMiddle(b, '.', suffix, 2);
      Text.SplitNOne(suffix, '.');
    }
    assert a + "." + b + "." + suffix == a + "." + tail;
    Text.SplitNMiddle(a, '.', tail, 3);
  }

  /** Round trip: "major.minor", alone or followed by "." and any text, parses to its two numbers. */
  lemma ParseRoundTrip(v: Version, suffix: string)
    requires MIN_INT <= v.major <= MAX_INT && MIN_INT <= v.minor <= MAX_INT
    ensures ParseMajorMinor(Itoa(v.major) + "." + Itoa(v.minor)) == Some(v)
    ensures ParseMajorMinor(Itoa(v.major) + "." + Itoa(v.minor) + "." + suffix) == Some(v)
  {
    AtoiItoa(v.major);
    AtoiItoa(v.minor);
    SplitTwo(Itoa(v.major), Itoa(v.minor));
    SplitThree(Itoa(v.major), Itoa(v.minor), suffix);
  }

  /** An update is refused exactly when both versions parse and the new pair is below the old. */
  lemma RefusedExactlyOnDowngrade(oldVersion: string, newVersion: string)
    ensures !Admitted(oldVersion, newVersion) <==>
            (var o, n := ParseMajorMinor(oldVersion), ParseMajorMinor(newVersion);
             o.Some? && n.Some? && Below(n.value, o.value))
  {
    assert Text.SplitN("", '.', 3) == [""];
  }

  /** The spec.version values an instance went through, each update admitted by the webhook. */
  ghost predicate AdmittedChain(versions: seq<string>) {
    forall i :: 0 < i < |versions| ==> Admitted(versions[i - 1], versions[i])
  }

  /** Pairs that never step down never end lower than they were. */
  lemma {:induction false} StepsUp(pairs: seq<Version>, i: nat, j: nat)
    requires forall k :: 0 < k < |pairs| ==> !Below(pairs[k], pairs[k - 1])
    requires i <= j < |pairs|
    ensures !Below(pairs[j], pairs[i])
    decreases j - i
  {
    if i < j {
      StepsUp(pairs, i, j - 1);
      assert !Below(pairs[j], pairs[j - 1]);
    }
  }

  /** Along every admitted chain whose versions all parse, no later version is below an earlier one. */
  lemma ChainNeverDowngrades(versions: seq<string>, pairs: seq<Version>, i: nat, j: nat)
    requires AdmittedChain(versions) && |pairs| == |versions|
    requires forall k :: 0 <= k < |versions| ==> ParseMajorMinor(versions[k]) == Some(pairs[k])
    requires i <= j < |versions|
    ensures !Below(pairs[j], pairs[i])
  {
    forall k | 0 < k < |pairs| ensures !Below(pairs[k], pairs[k - 1]) {
      RefusedExactlyOnDowngrade(versions[k - 1], versions[k]);
    }
    StepsUp(pairs, i, j);
  }

  /** The parse condition is needed: through a version that does not parse, every version can be
      reached from every other one in two admitted updates, downgrades included. */
  lemma UnparseableStepAdmitsAnything(first: string, middle: string, last: string)
    requires ParseMajorMinor(middle).None?
    ensures AdmittedChain([first, middle, last])
  {
    RefusedExactlyOnDowngrade(first, middle);
    RefusedExactlyOnDowngrade(middle, last);
    var chain := [first, middle, last];
    assert chain[0] == first && chain[1] == middle && chain[2] == last;
  }

  /** Such versions exist: a name without a dot never parses. */
  lemma NameWithoutDotDoesNotParse(name: string)
    requires '.' !in name
    ensures ParseMajorMinor(name).None?
  {
    Text.SplitNWhole(name, '.', 3);
  }

  /** Parsed versions: an update is admitted exactly when the new pair is not lexicographically lower. */
  lemma AdmittedWhenParsed(oldVersion: string, newVersion: string, a: int, b: int, c: int, d: int)
    ensures ParseMajorMinor(oldVersion) == Some(Version(a, b)) && ParseMajorMinor(newVersion) == Some(Version(c, d)) ==>
              (Admitted(oldVersion, newVersion) <==> c > a || (c == a && d >= b))
  {
    RefusedExactlyOnDowngrade(oldVersion, newVersion);
  }

  /** In numbers: from a.b to c.d, with or without further pieces, an update is admitted exactly when c is
      above a, or c is a and d is at least b. */
  lemma AdmittedByNumbers(a: int, b: int, c: int, d: int, oldSuffix: string, newSuffix: string)
    requires MIN_INT <= a <= MAX_INT && MIN_INT <= b <= MAX_INT && MIN_INT <= c <= MAX_INT && MIN_INT <= d <= MAX_INT
    ensures Admitted(Itoa(a) + "." + Itoa(b), Itoa(c) + "." + Itoa(d)) <==> c > a || (c == a && d >= b)
    ensures Admitted(Itoa(a) + "." + Itoa(b) + "." + oldSuffix, Itoa(c) + "." + Itoa(d) + "." + newSuffix) <==>
            c > a || (c == a && d >= b)
  {
    ParseRoundTrip(Version(a, b), oldSuffix);
    ParseRoundTrip(Version(c, d), newSuffix);
    AdmittedWhenParsed(Itoa(a) + "." + Itoa(b), Itoa(c) + "." + Itoa(d), a, b, c, d);
    AdmittedWhenParsed(
      Itoa(a) + "." + Itoa(b) + "." + oldSuffix, Itoa(c) + "." + Itoa(d) + "." + newSuffix, a, b, c, d);
  }

  /** A number outside the range of a 64-bit int does not parse. */
  lemma AtoiRefusesLargeNumbers(n: int)
    requires n < MIN_INT || n > MAX_INT
    ensures Atoi(Itoa(n)) == None
  {
    DecimalDigits(if n < 0 then -n else n);
    if n < 0 {
      assert ("-" + Decimal(-n))[1..] == Decimal(-n);
    } else {
      assert IsDigit(Decimal(n)[0]);
    }
  }

  /** Neither does a text with anything but digits after an optional sign. */
  lemma AtoiRefusesOtherText(s: string, i: nat)
    requires i < |s| && !('0' <= s[i] <= '9') && !(i == 0 && (s[0] == '-' || s[0] == '+'))
    ensures Atoi(s) == None
  {
    if s[0] == '-' || s[0] == '+' {
      assert s[1..][i - 1] == s[i];
    }
  }

  /** A leading "+" is allowed. */
  lemma AtoiPlus(n: int)
    requires 0 <= n <= MAX_INT
    ensures Atoi("+" + Decimal(n)) == Some(n)
  {
    DecimalDigits(n);
    assert ("+" + Decimal(n))[1..] == Decimal(n);
  }
}

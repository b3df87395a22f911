/**
 What the versions of connector manifests mean (app/connectors/manifest.py, app/connector_lifecycle.py): the
 texts that parse are decimal numerals joined by dots, and they are compared as numbers.
 */
module VersionText {
  import opened Common
  import opened Connectors

  /******* Decimal numerals *******/

  function Digit(d: nat): char
    requires d < 10
  {
    "0123456789"[d]
  }

  /** The decimal numeral of a number, without leading zeros. */
  function Decimal(n: nat): string {
    if n < 10 then [Digit(n)] else Decimal(n / 10) + [Digit(n % 10)]
  }

  function Zeros(k: nat): string {
    if k == 0 then "" else Zeros(k - 1) + "0"
  }

  /** The numeral of a number, after some leading zeros. */
  function Padded(zeros: nat, n: nat): string {
    Zeros(zeros) + Decimal(n)
  }

  lemma DigitReads(d: nat)
    requires d < 10
    ensures '0' <= Digit(d) <= '9' && (Digit(d) - '0') as nat == d
  {
  }

  lemma DigitWritten(c: char)
    requires '0' <= c <= '9'
    ensures Digit((c - '0') as nat) == c
  {
    var d := (c - '0') as nat;
    DigitReads(d);
  }

  lemma {:induction false} ReadAppend(s: string, d: nat)
    requires AllDigits(s) && d < 10
    ensures AllDigits(s + [Digit(d)]) && ToNat(s + [Digit(d)]) == ToNat(s) * 10 + d
  {
    DigitReads(d);
    assert (s + [Digit(d)])[..|s|] == s;
  }

  lemma {:induction false} DecimalReads(n: nat)
    ensures IsNumber(Decimal(n)) && ToNat(Decimal(n)) == n
  {
    if n < 10 {
      ReadAppend("", n);
      assert "" + [Digit(n)] == [Digit(n)];
    } else {
      DecimalReads(n / 10);
      ReadAppend(Decimal(n / 10), n % 10);
    }
  }

  lemma {:induction false} ZerosRead(k: nat)
    ensures AllDigits(Zeros(k)) && ToNat(Zeros(k)) == 0
  {
    if k > 0 {
      ZerosRead(k - 1);
      ReadAppend(Zeros(k - 1), 0);
    }
  }

  lemma {:induction false} LeadingZeros(k: nat, s: string)
    requires AllDigits(s)
    ensures AllDigits(Zeros(k) + s) && ToNat(Zeros(k) + s) == ToNat(s)
  {
    if s == "" {
      ZerosRead(k);
      assert Zeros(k) + s == Zeros(k);
    } else {
      var front := s[..|s| - 1];
      LeadingZeros(k, front);
      assert (Zeros(k) + s)[..|Zeros(k) + s| - 1] == Zeros(k) + front;
    }
  }

  lemma DecimalAppend(m: nat, d: nat)
    requires m > 0 && d < 10
    ensures Decimal(10 * m + d) == Decimal(m) + [Digit(d)]
  {
    assert (10 * m + d) / 10 == m && (10 * m + d) % 10 == d;
  }

  /** Digits are leading zeros and the numeral of the number they give. */
  lemma {:induction false} NumberIsDecimal(s: string) returns (k: nat)
    requires IsNumber(s)
    ensures s == Padded(k, ToNat(s))
  {
    var n := |s| - 1;
    var front, d := s[..n], (s[n] - '0') as nat;
    DigitWritten(s[n]);
    assert s == front + [Digit(d)];
    if front == "" {
      k := 0;
    } else {
      var zeros := NumberIsDecimal(front);
      k := OneMoreDigit(zeros, ToNat(front), d);
      assert ToNat(s) == 10 * ToNat(front) + d;
    }
  }

  lemma OneMoreDigit(zeros: nat, m: nat, d: nat) returns (k: nat)
    requires d < 10
    ensures Padded(zeros, m) + [Digit(d)] == Padded(k, 10 * m + d)
  {
    if m == 0 {
      k := zeros + 1;
    } else {
      k := zeros;
      DecimalAppend(m, d);
    }
  }

  /******* Parts *******/

  function Dotted(a: string, b: string, c: string): string {
    a + "." + b + "." + c
  }

  lemma {:induction false} SplitPlain(s: string)
    requires '.' !in s
    ensures Split(s) == [s]
  {
    if s != "" {
      SplitPlain(s[1..]);
      assert [s[0]] + s[1..] == s;
    }
  }

  lemma {:induction false} SplitFirst(a: string, rest: string)
    requires '.' !in a
    ensures Split(a + "." + rest) == [a] + Split(rest)
  {
    var s := a + "." + rest;
    if a == "" {
      assert s[1..] == rest;
    } else {
      SplitFirst(a[1..], rest);
      assert s[1..] == a[1..] + "." + rest;
      assert [a[0]] + a[1..] == a;
    }
  }

  function Joined(parts: seq<string>): string
    requires parts != []
  {
    if |parts| == 1 then parts[0] else parts[0] + "." + Joined(parts[1..])
  }

  /** Joining undoes splitting. */
  lemma {:induction false} SplitJoined(s: string)
    ensures Joined(Split(s)) == s
  {
    if s != "" {
      SplitJoined(s[1..]);
      var rest := Split(s[1..]);
      if s[0] == '.' {
        assert ([""] + rest)[1..] == rest;
        assert "" + "." + s[1..] == s;
      } else {
        var parts := [[s[0]] + rest[0]] + rest[1..];
        assert |rest| > 1 ==> parts[1..] == rest[1..];
        assert Joined(parts) == [s[0]] + Joined(rest);
      }
    }
  }

  lemma {:induction false} DigitsNoDot(s: string)
    requires AllDigits(s)
    ensures '.' !in s && '\n' !in s
  {
    if s != "" {
      DigitsNoDot(s[..|s| - 1]);
      assert s == s[..|s| - 1] + [s[|s| - 1]];
    }
  }

  lemma SplitThree(a: string, b: string, c: string)
    requires AllDigits(a) && AllDigits(b) && AllDigits(c)
    ensures Split(Dotted(a, b, c)) == [a, b, c]
  {
    DigitsNoDot(a);
    DigitsNoDot(b);
    DigitsNoDot(c);
    assert a + "." + b + "." + c == a + "." + (b + "." + c);
    SplitFirst(a, b + "." + c);
    SplitFirst(b, c);
    SplitPlain(c);
  }

  lemma JoinedThree(parts: seq<string>)
    requires |parts| == 3
    ensures Joined(parts) == Dotted(parts[0], parts[1], parts[2])
  {
    assert Joined(parts[1..]) == parts[1] + "." + Joined(parts[1..][1..]);
    assert parts[1..][1..] == [parts[2]];
    assert parts[0] + "." + (parts[1] + "." + parts[2]) == parts[0] + "." + parts[1] + "." + parts[2];
  }

  /******* Versions *******/

  /** The numerals of the three numbers, with some leading zeros, joined by dots, perhaps with a final newline. */
  ghost predicate Spells(text: string, v: Semver, i: nat, j: nat, k: nat, newline: bool) {
    text == Dotted(Padded(i, v.major), Padded(j, v.minor), Padded(k, v.patch)) + (if newline then "\n" else "")
  }

  lemma PartReads(n: nat, zeros: nat)
    ensures IsNumber(Padded(zeros, n)) && ToNat(Padded(zeros, n)) == n
  {
    DecimalReads(n);
    LeadingZeros(zeros, Decimal(n));
  }

  /** Every spelling of three numbers parses as these numbers. */
  lemma SpellingParses(text: string, v: Semver, i: nat, j: nat, k: nat, newline: bool)
    requires Spells(text, v, i, j, k, newline)
    ensures Parse(text) == Some(v)
  {
    var a, b, c := Padded(i, v.major), Padded(j, v.minor), Padded(k, v.patch);
    PartReads(v.major, i);
    PartReads(v.minor, j);
    PartReads(v.patch, k);
    DigitsNoDot(c);
    var plain := Dotted(a, b, c);
    assert plain[|plain| - 1] == c[|c| - 1] && plain[|plain| - 1] in c;
    assert (plain + "\n")[..|plain|] == plain;
    assert plain + "" == plain;
    assert Chomp(text) == plain;
    SplitThree(a, b, c);
  }

  /** Whatever parses is a spelling. */
  lemma ParsedIsSpelling(text: string) returns (i: nat, j: nat, k: nat, newline: bool)
    requires Parse(text).Some?
    ensures Spells(text, Parse(text).value, i, j, k, newline)
  {
    var plain := Chomp(text);
    var parts := Split(plain);
    SplitJoined(plain);
    JoinedThree(parts);
    i := NumberIsDecimal(parts[0]);
    j := NumberIsDecimal(parts[1]);
    k := NumberIsDecimal(parts[2]);
    newline := text != plain;
    assert newline ==> text == plain + "\n";
    assert plain + "" == plain;
  }

  /** The texts of a version, exactly: its three decimal numerals, up to leading zeros and a final newline. */
  lemma ParseIff(text: string, v: Semver)
    ensures Parse(text) == Some(v) <==> exists i, j, k, newline :: Spells(text, v, i, j, k, newline)
  {
    if Parse(text) == Some(v) {
      var i, j, k, newline := ParsedIsSpelling(text);
    }
    if i, j, k, newline :| Spells(text, v, i, j, k, newline) {
      SpellingParses(text, v, i, j, k, newline);
    }
  }

  /** The numerals of any three numbers, joined by dots, parse as these numbers. */
  lemma NumeralsParse(a: nat, b: nat, c: nat)
    ensures Parse(Decimal(a) + "." + Decimal(b) + "." + Decimal(c)) == Some(Semver(a, b, c))
  {
    var text := Decimal(a) + "." + Decimal(b) + "." + Decimal(c);
    assert Padded(0, a) == Decimal(a) && Padded(0, b) == Decimal(b) && Padded(0, c) == Decimal(c);
    assert text + "" == text;
    assert Spells(text, Semver(a, b, c), 0, 0, 0, false);
    SpellingParses(text, Semver(a, b, c), 0, 0, 0, false);
  }

  /******* Order *******/

  function Place(high: nat, low: nat, base: nat): nat {
    high * base + low
  }

  /** The three numbers as one, in any base that is larger than each of them. */
  function Weight(v: Semver, base: nat): nat {
    Place(Place(v.major, v.minor, base), v.patch, base)
  }

  lemma PlaceRises(x: nat, y: nat, x': nat, y': nat, base: nat)
    requires y < base && x < x'
    ensures Place(x, y, base) < Place(x', y', base)
  {
    var d := x' - x;
    assert x' * base == x * base + d * base;
    assert d * base >= base by {
      assert (d - 1) * base >= 0;
    }
  }

  lemma PlaceOrder(x: nat, y: nat, x': nat, y': nat, base: nat)
    requires y < base && y' < base
    ensures Place(x, y, base) < Place(x', y', base) <==> x < x' || (x == x' && y < y')
    ensures Place(x, y, base) == Place(x', y', base) <==> x == x' && y == y'
  {
    if x < x' {
      PlaceRises(x, y, x', y', base);
    } else if x' < x {
      PlaceRises(x', y', x, y, base);
    }
  }

  /** Versions are ordered as the numbers that they are in any large enough base. */
  lemma LessIffLighter(a: Semver, b: Semver, base: nat)
    requires a.major < base && a.minor < base && a.patch < base && b.major < base && b.minor < base && b.patch < base
    ensures Less(a, b) <==> Weight(a, base) < Weight(b, base)
  {
    var x, x' := Place(a.major, a.minor, base), Place(b.major, b.minor, base);
    PlaceOrder(a.major, a.minor, b.major, b.minor, base);
    PlaceOrder(x, a.patch, x', b.patch, base);
  }

  /******* Plans *******/

  function Unless(x: string, ys: seq<string>): seq<string> {
    if x in ys then [] else [x]
  }

  lemma WithoutFirst(x: string, xs: seq<string>, ys: seq<string>)
    ensures Without([x] + xs, ys) == Unless(x, ys) + Without(xs, ys)
  {
    assert ([x] + xs)[1..] == xs;
  }

  lemma Regrouped(a: seq<string>, b: seq<string>, c: seq<string>)
    ensures a + (b + c) == (a + b) + c
  {
  }

  /** What is new is listed in the manifest's order. */
  lemma {:induction false} WithoutAppend(xs: seq<string>, x: string, ys: seq<string>)
    ensures Without(xs + [x], ys) == Without(xs, ys) + Unless(x, ys)
  {
    if xs == [] {
      WithoutFirst(x, [], ys);
      assert xs + [x] == [x] + [];
    } else {
      var first, rest := xs[0], xs[1..];
      WithoutAppend(rest, x, ys);
      WithoutFirst(first, rest, ys);
      WithoutFirst(first, rest + [x], ys);
      Regrouped(Unless(first, ys), Without(rest, ys), Unless(x, ys));
      Regrouped([first], rest, [x]);
      assert xs == [first] + rest;
    }
  }

  /** The text spells some version. */
  ghost predicate Spelled(text: string) {
    exists v, i, j, k, newline :: Spells(text, v, i, j, k, newline)
  }

  lemma SpelledIff(text: string)
    ensures Parse(text).Some? <==> Spelled(text)
  {
    if Parse(text).Some? {
      var i, j, k, newline := ParsedIsSpelling(text);
      assert Spells(text, Parse(text).value, i, j, k, newline);
    }
    if v, i, j, k, newline :| Spells(text, v, i, j, k, newline) {
      SpellingParses(text, v, i, j, k, newline);
    }
  }

  /** The capabilities that a manifest may name. */
  ghost predicate Known(capability: string) {
    capability in ["file.capture", "evidence.collect", "configuration.snapshot", "identity.population",
                   "identity.groups", "asset.inventory", "vulnerability.findings", "notification.send"]
  }

  lemma KnownIff(capability: string)
    ensures capability in CAPABILITIES <==> Known(capability)
  {
  }

  lemma ConfigIff(config: seq<Field>)
    ensures ValidConfig(config) <==>
      && (forall k, l :: 0 <= k < l < |config| ==> config[k].name != config[l].name)
      && (forall k :: 0 <= k < |config| ==> config[k].kind in ["str", "int", "bool"])
  {
  }

  lemma ManifestIff(m: Manifest)
    ensures ValidManifest(m) <==>
      && m.connector != "" && Spelled(m.version)
      && |m.capabilities| > 0 && (forall k :: 0 <= k < |m.capabilities| ==> Known(m.capabilities[k]))
      && ValidConfig(m.config)
  {
    SpelledIff(m.version);
    forall c ensures c in CAPABILITIES <==> Known(c) {
      KnownIff(c);
    }
  }

  /**
   When a move can be planned: to a manifest of the instance's connector whose version is spelled out, which
   names capabilities, all of them known, whose configuration fields have different names and known types, and
   whose range of contract versions includes 1.
   */
  lemma PlanMadeIff(i: Instance, from: Manifest, to: Manifest)
    ensures MakePlan(i, from, to).Success? <==>
      && to.connector == i.connector && to.connector != "" && Spelled(from.version) && Spelled(to.version)
      && |to.capabilities| > 0 && (forall k :: 0 <= k < |to.capabilities| ==> Known(to.capabilities[k]))
      && (forall k, l :: 0 <= k < l < |to.config| ==> to.config[k].name != to.config[l].name)
      && (forall k :: 0 <= k < |to.config| ==> to.config[k].kind in ["str", "int", "bool"])
      && to.minCore <= 1 && (to.maxCore.None? || to.maxCore.value >= 1)
  {
    SpelledIff(from.version);
    ManifestIff(to);
    ConfigIff(to.config);
    assert Compatible(to) <==> to.minCore <= 1 && (to.maxCore.None? || to.maxCore.value >= 1);
    assert MakePlan(i, from, to).Success? <==>
      to.connector == i.connector && ValidManifest(to) && Compatible(to) && Parse(from.version).Some?;
  }

  /**
   What a plan says: where it leads, in which direction as numbers, and what is new. The numbers are those that
   the two versions spell, weighed in any large enough base.
   */
  lemma PlanSays(i: Instance, from: Manifest, to: Manifest, a: Semver, b: Semver, base: nat)
    requires MakePlan(i, from, to).Success?
    requires exists x, y, z, newline :: Spells(from.version, a, x, y, z, newline)
    requires exists x, y, z, newline :: Spells(to.version, b, x, y, z, newline)
    requires a.major < base && a.minor < base && a.patch < base && b.major < base && b.minor < base && b.patch < base
    ensures var p := MakePlan(i, from, to).value;
      && p.connector == i.connector && p.fromVersion == from.version && p.toVersion == to.version
      && (p.direction == Upgrade <==> Weight(a, base) < Weight(b, base))
      && (p.direction == Downgrade <==> Weight(b, base) < Weight(a, base))
      && p.toCapabilities == to.capabilities && p.toPermissions == to.permissions
      && (forall c :: c in p.newCapabilities <==> c in to.capabilities && c !in from.capabilities)
      && (forall c :: c in p.newPermissions <==> c in to.permissions && c !in from.permissions)
  {
    ParseIff(from.version, a);
    ParseIff(to.version, b);
    LessIffLighter(a, b, base);
    LessIffLighter(b, a, base);
  }

  /** Without allowed downgrades the version never falls, as a number, over any series of plans and applies. */
  lemma NumberNeverFalls(start: Instance, steps: seq<Step>, n: nat, a: Semver, b: Semver, base: nat)
    requires Spelled(start.version) && n <= |steps|
    requires forall i :: n <= i < |steps| && steps[i].Use? ==> !steps[i].allowDowngrade
    requires exists i, j, k, newline :: Spells(Run(start, steps[..n]).instance.version, a, i, j, k, newline)
    requires exists i, j, k, newline :: Spells(Run(start, steps).instance.version, b, i, j, k, newline)
    requires a.major < base && a.minor < base && a.patch < base && b.major < base && b.minor < base && b.patch < base
    ensures Weight(a, base) <= Weight(b, base)
  {
    SpelledIff(start.version);
    NeverDecreases(start, steps, n);
    ParseIff(Run(start, steps[..n]).instance.version, a);
    ParseIff(Run(start, steps).instance.version, b);
    LessIffLighter(b, a, base);
  }
}

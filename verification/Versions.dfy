/**
 Versions and the update channels that accept them (app/src-tauri/src/updates.rs): precedence as
 section 11 of Semantic Versioning 2.0.0 has it, and the order the app's version library compares
 by, which puts build metadata after it.
 */
module Versions {
  datatype Identifier = Numeric(number: nat) | Text(text: string)

  datatype Version = Version(major: nat, minor: nat, patch: nat, pre: seq<Identifier>, build: string)

  datatype Channel = Alpha | Stable

  /** What `Channel::accepts` lets in: no build metadata, and a pre-release only of the alpha line. */
  predicate Accepts(channel: Channel, v: Version) {
    v.build == "" && (v.pre == [] || (channel.Alpha? && v.pre[0] == Text("alpha")))
  }

  function DefaultFor(v: Version): Channel {
    if v.pre != [] then Alpha else Stable
  }

  /** Text in the order of its characters. */
  predicate TextLess(a: string, b: string) {
    b != [] && (a == [] || a[0] < b[0] || (a[0] == b[0] && TextLess(a[1..], b[1..])))
  }

  predicate IdentifierLess(a: Identifier, b: Identifier) {
    match (a, b)
    case (Numeric(m), Numeric(n)) => m < n
    case (Numeric(_), Text(_)) => true
    case (Text(_), Numeric(_)) => false
    case (Text(s), Text(t)) => TextLess(s, t)
  }

  /** Identifiers compared one by one; of two alike as far as they go, the longer comes later. */
  predicate FieldsLess(a: seq<Identifier>, b: seq<Identifier>) {
    b != [] &&
    (a == [] || IdentifierLess(a[0], b[0]) || (a[0] == b[0] && FieldsLess(a[1..], b[1..])))
  }

  /** A version with a pre-release comes before the same version without. */
  predicate PreLess(a: seq<Identifier>, b: seq<Identifier>) {
    if a == [] then false else b == [] || FieldsLess(a, b)
  }

  /** Whether `a` has lower precedence than `b`. */
  predicate Precedes(a: Version, b: Version) {
    || a.major < b.major
    || (a.major == b.major && a.minor < b.minor)
    || (a.major == b.major && a.minor == b.minor && a.patch < b.patch)
    || (a.major == b.major && a.minor == b.minor && a.patch == b.patch && PreLess(a.pre, b.pre))
  }

  /** Whether the two differ in build metadata alone. */
  predicate SamePrecedence(a: Version, b: Version) {
    a.(build := b.build) == b
  }

  lemma {:induction false} TextTransitive(a: string, b: string, c: string)
    requires TextLess(a, b) && TextLess(b, c)
    ensures TextLess(a, c)
  {
    if a != [] && a[0] == b[0] == c[0] {
      TextTransitive(a[1..], b[1..], c[1..]);
    }
  }

  lemma {:induction false} TextTotal(a: string, b: string)
    ensures !TextLess(a, a)
    ensures a == b || TextLess(a, b) || TextLess(b, a)
    ensures !(TextLess(a, b) && TextLess(b, a))
  {
    if a != [] && b != [] {
      TextTotal(a[1..], b[1..]);
      assert a == [a[0]] + a[1..] && b == [b[0]] + b[1..];
    } else if a != [] {
      TextTotal(a[1..], []);
    }
  }

  lemma IdentifierTransitive(a: Identifier, b: Identifier, c: Identifier)
    requires IdentifierLess(a, b) && IdentifierLess(b, c)
    ensures IdentifierLess(a, c)
  {
    if a.Text? && b.Text? && c.Text? {
      TextTransitive(a.text, b.text, c.text);
    }
  }

  lemma IdentifierTotal(a: Identifier, b: Identifier)
    ensures !IdentifierLess(a, a)
    ensures a == b || IdentifierLess(a, b) || IdentifierLess(b, a)
    ensures !(IdentifierLess(a, b) && IdentifierLess(b, a))
  {
    if a.Text? {
      TextTotal(a.text, if b.Text? then b.text else []);
    }
  }

  lemma {:induction false} FieldsTransitive(a: seq<Identifier>, b: seq<Identifier>, c: seq<Identifier>)
    requires FieldsLess(a, b) && FieldsLess(b, c)
    ensures FieldsLess(a, c)
  {
    if a != [] {
      if IdentifierLess(a[0], b[0]) && IdentifierLess(b[0], c[0]) {
        IdentifierTransitive(a[0], b[0], c[0]);
      } else if a[0] == b[0] == c[0] && !IdentifierLess(a[0], c[0]) {
        IdentifierTotal(a[0], a[0]);
        FieldsTransitive(a[1..], b[1..], c[1..]);
      }
    }
  }

  lemma {:induction false} FieldsTotal(a: seq<Identifier>, b: seq<Identifier>)
    ensures a == b || FieldsLess(a, b) || FieldsLess(b, a)
    ensures !(FieldsLess(a, b) && FieldsLess(b, a))
  {
    if a != [] && b != [] {
      IdentifierTotal(a[0], b[0]);
      FieldsTotal(a[1..], b[1..]);
      assert a == [a[0]] + a[1..] && b == [b[0]] + b[1..];
    }
  }

  /** Precedence is a strict order: of any two versions exactly one of three holds, and it chains. */
  lemma PrecedenceIsAnOrder(a: Version, b: Version, c: Version)
    ensures SamePrecedence(a, b) || Precedes(a, b) || Precedes(b, a)
    ensures !(Precedes(a, b) && Precedes(b, a)) && (SamePrecedence(a, b) ==> !Precedes(a, b))
    ensures Precedes(a, b) && Precedes(b, c) ==> Precedes(a, c)
  {
    FieldsTotal(a.pre, b.pre);
    if PreLess(a.pre, b.pre) && PreLess(b.pre, c.pre) && c.pre != [] {
      FieldsTransitive(a.pre, b.pre, c.pre);
    }
  }

  // ---------------------------------------------------------------------------------------
  // The clauses of section 11
  // ---------------------------------------------------------------------------------------

  /** Clause 2: major, minor and patch are compared in this order, as numbers. */
  lemma NumbersDecide(a: Version, b: Version)
    ensures a.major < b.major ==> Precedes(a, b)
    ensures a.major == b.major && a.minor < b.minor ==> Precedes(a, b)
    ensures a.major == b.major && a.minor == b.minor && a.patch < b.patch ==> Precedes(a, b)
  {
  }

  /** Clause 3: a pre-release comes before the release it is of. */
  lemma PreReleaseComesBefore(numbers: Version, pre: seq<Identifier>, build: string, other: string)
    requires pre != []
    ensures Precedes(numbers.(pre := pre, build := build), numbers.(pre := [], build := other))
  {
  }

  lemma {:induction false} AlikeSoFar(p: seq<Identifier>, a: seq<Identifier>, b: seq<Identifier>)
    ensures FieldsLess(p + a, p + b) <==> FieldsLess(a, b)
  {
    if p == [] {
      assert p + a == a && p + b == b;
    } else {
      AlikeSoFar(p[1..], a, b);
      IdentifierTotal(p[0], p[0]);
      assert (p + a)[1..] == p[1..] + a && (p + b)[1..] == p[1..] + b;
    }
  }

  /** Clause 4: where two pre-releases first differ decides. */
  lemma FirstDifferenceDecides(
    a: Version, b: Version, p: seq<Identifier>, x: Identifier, q: seq<Identifier>, y: Identifier, r: seq<Identifier>)
    requires a.(pre := [], build := "") == b.(pre := [], build := "") && x != y
    requires a.pre == p + [x] + q && b.pre == p + [y] + r
    ensures Precedes(a, b) <==> IdentifierLess(x, y)
  {
    assert p + [x] + q == p + ([x] + q) && p + [y] + r == p + ([y] + r);
    AlikeSoFar(p, [x] + q, [y] + r);
  }

  /** Clause 4.1: numbers are compared as numbers. */
  lemma NumbersAreComparedAsNumbers(
    a: Version, b: Version, p: seq<Identifier>, m: nat, q: seq<Identifier>, n: nat, r: seq<Identifier>)
    requires a.(pre := [], build := "") == b.(pre := [], build := "") && m != n
    requires a.pre == p + [Numeric(m)] + q && b.pre == p + [Numeric(n)] + r
    ensures Precedes(a, b) <==> m < n
  {
    FirstDifferenceDecides(a, b, p, Numeric(m), q, Numeric(n), r);
  }

  lemma {:induction false} TextAlikeSoFar(s: string, a: string, b: string)
    ensures TextLess(s + a, s + b) <==> TextLess(a, b)
  {
    if s == [] {
      assert s + a == a && s + b == b;
    } else {
      TextAlikeSoFar(s[1..], a, b);
      assert (s + a)[1..] == s[1..] + a && (s + b)[1..] == s[1..] + b;
    }
  }

  /** Clause 4.2: texts are compared by the first character they differ in, and a text it begins comes before one. */
  lemma TextsAreComparedByCharacters(
    a: Version, b: Version, p: seq<Identifier>, s: string, t: string, q: seq<Identifier>, u: string,
    r: seq<Identifier>)
    requires a.(pre := [], build := "") == b.(pre := [], build := "")
    requires a.pre == p + [Text(s + t)] + q && b.pre == p + [Text(s + u)] + r
    requires t != u && (t != "" && u != "" ==> t[0] != u[0])
    ensures Precedes(a, b) <==> t == "" || (u != "" && t[0] < u[0])
  {
    assert s + t != s + u by {
      assert (s + t)[|s|..] == t && (s + u)[|s|..] == u;
    }
    FirstDifferenceDecides(a, b, p, Text(s + t), q, Text(s + u), r);
    TextAlikeSoFar(s, t, u);
  }

  /** Clause 4.3: a number comes before a text. */
  lemma NumbersComeBeforeTexts(
    a: Version, b: Version, p: seq<Identifier>, n: nat, q: seq<Identifier>, t: string, r: seq<Identifier>)
    requires a.(pre := [], build := "") == b.(pre := [], build := "")
    requires a.pre == p + [Numeric(n)] + q && b.pre == p + [Text(t)] + r
    ensures Precedes(a, b)
  {
    FirstDifferenceDecides(a, b, p, Numeric(n), q, Text(t), r);
  }

  /** Clause 4.4: of two pre-releases alike as far as one goes, the longer comes later. */
  lemma LongerComesLater(a: Version, b: Version, more: seq<Identifier>)
    requires a.(pre := [], build := "") == b.(pre := [], build := "")
    requires a.pre != [] && more != [] && b.pre == a.pre + more
    ensures Precedes(a, b)
  {
    AlikeSoFar(a.pre, [], more);
    assert a.pre + [] == a.pre;
  }

  /**
   The library's order, where builds are compared by `buildAfter` once precedence says nothing: of
   builds only that none comes after itself or before none is used.
   */
  ghost predicate After(buildAfter: (string, string) -> bool, a: Version, b: Version) {
    Precedes(b, a) || (SamePrecedence(a, b) && buildAfter(a.build, b.build))
  }

  /** `validate_release`'s test of a release's version: newer than the app's, and of its channel. */
  ghost predicate Passes(
    buildAfter: (string, string) -> bool, current: Version, channel: Channel, release: Version)
  {
    After(buildAfter, release, current) && Accepts(channel, release)
  }

  /** What an app on `channel` may move to: of strictly higher precedence, and accepted. */
  predicate Upgrade(current: Version, channel: Channel, release: Version) {
    Precedes(current, release) && Accepts(channel, release)
  }

  /**
   Build metadata never decides an update, whatever the app's own: what passes is exactly what has
   strictly higher precedence and belongs to the channel, as no accepted release has a build.
   */
  lemma BuildsDecideNothing(
    buildAfter: (string, string) -> bool, current: Version, channel: Channel, release: Version)
    requires forall build :: !buildAfter("", build)
    ensures Passes(buildAfter, current, channel, release) <==> Upgrade(current, channel, release)
    ensures Passes(buildAfter, current, channel, release) <==>
              && Precedes(current, release) && release.build == ""
              && (release.pre == [] || (channel.Alpha? && release.pre[0] == Text("alpha")))
  {
  }

  /** An alpha is taken on the alpha channel exactly where its number is greater than the app's own. */
  lemma AlphasRiseByNumber(
    buildAfter: (string, string) -> bool, current: Version, release: Version, m: nat, n: nat)
    requires forall build :: !buildAfter("", build)
    requires current.(pre := [], build := "") == release.(pre := [])
    requires current.pre == [Text("alpha"), Numeric(m)] && release.pre == [Text("alpha"), Numeric(n)]
    ensures Passes(buildAfter, current, Alpha, release) <==> m < n
    ensures !Passes(buildAfter, current, Stable, release)
  {
    var alpha := [Text("alpha")];
    assert current.pre == alpha + [Numeric(m)] + [] && release.pre == alpha + [Numeric(n)] + [];
    if m == n {
      PrecedenceIsAnOrder(current, release, release);
    } else {
      NumbersAreComparedAsNumbers(current, release, alpha, m, [], n, []);
    }
  }

  /** Updates never go back or round: a chain of upgrades, on any channels, only ever rises. */
  lemma {:induction false} UpgradesOnlyRise(versions: seq<Version>, channels: seq<Channel>, i: nat, j: nat)
    requires |channels| + 1 == |versions| && i < j < |versions|
    requires forall k :: 0 <= k < |channels| ==> Upgrade(versions[k], channels[k], versions[k + 1])
    ensures Precedes(versions[i], versions[j]) && !Precedes(versions[j], versions[i])
    decreases j - i
  {
    assert Upgrade(versions[j - 1], channels[j - 1], versions[j - 1 + 1]);
    if i < j - 1 {
      UpgradesOnlyRise(versions, channels, i, j - 1);
      PrecedenceIsAnOrder(versions[i], versions[j - 1], versions[j]);
    }
    PrecedenceIsAnOrder(versions[i], versions[j], versions[i]);
  }

  /** A stable app is never moved to a pre-release, an alpha app to none but alpha ones. */
  lemma ChannelsKeepTheirLine(current: Version, channel: Channel, release: Version)
    requires Upgrade(current, channel, release)
    ensures channel.Stable? ==> release.pre == []
    ensures release.pre != [] ==> release.pre[0] == Text("alpha")
    ensures Accepts(Stable, release) ==> Upgrade(current, Alpha, release)
  {
  }
}

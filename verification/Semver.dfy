/**
 Versions and their precedence, section 11 of Semantic Versioning 2.0.0.
 */
module Semver {
  datatype Identifier = Numeric(n: nat) | AlphaNumeric(s: string)

  /** Build metadata is kept and takes no part in precedence. */
  datatype Version = Version(major: nat, minor: nat, patch: nat, pre: seq<Identifier>, build: seq<Identifier>)

  /** The outcome of comparing the left value with the right one. */
  datatype Order = Less | Equal | Greater

  function Opposite(o: Order): Order {
    match o case Less => Greater case Equal => Equal case Greater => Less
  }

  function CompareInts(a: int, b: int): Order {
    if a < b then Less else if a == b then Equal else Greater
  }

  /** ASCII order, character by character, a proper prefix first. */
  function CompareStrings(a: string, b: string): Order {
    if a == "" || b == "" then CompareInts(|a|, |b|)
    else if a[0] == b[0] then CompareStrings(a[1..], b[1..])
    else CompareInts(a[0] as int, b[0] as int)
  }

  /** Numeric identifiers compare as numbers and come before alphanumeric ones. */
  function CompareIdentifiers(a: Identifier, b: Identifier): Order {
    match (a, b)
    case (Numeric(m), Numeric(n)) => CompareInts(m, n)
    case (Numeric(_), AlphaNumeric(_)) => Less
    case (AlphaNumeric(_), Numeric(_)) => Greater
    case (AlphaNumeric(s), AlphaNumeric(t)) => CompareStrings(s, t)
  }

  /** The first difference decides; otherwise the longer list of identifiers is the greater. */
  function ComparePre(a: seq<Identifier>, b: seq<Identifier>): Order {
    if a == [] || b == [] then CompareInts(|a|, |b|)
    else if a[0] == b[0] then ComparePre(a[1..], b[1..])
    else CompareIdentifiers(a[0], b[0])
  }

  function Then(first: Order, second: Order): Order {
    if first == Equal then second else first
  }

  /** A pre-release comes before its release. */
  function Compare(v: Version, w: Version): Order {
    Then(CompareInts(v.major, w.major),
    Then(CompareInts(v.minor, w.minor),
    Then(CompareInts(v.patch, w.patch),
    if v.pre == [] && w.pre == [] then Equal
    else if v.pre == [] then Greater
    else if w.pre == [] then Less
    else ComparePre(v.pre, w.pre))))
  }

  predicate Before(v: Version, w: Version) {
    Compare(v, w) == Less
  }

  predicate SamePrecedence(v: Version, w: Version) {
    v.(build := []) == w.(build := [])
  }

  lemma {:induction false} StringsOrdered(a: string, b: string, c: string)
    ensures CompareStrings(a, b) == Opposite(CompareStrings(b, a))
    ensures CompareStrings(a, b) == Equal <==> a == b
    ensures CompareStrings(a, b) == Less && CompareStrings(b, c) == Less ==> CompareStrings(a, c) == Less
  {
    if a != "" && b != "" {
      StringsOrdered(a[1..], b[1..], if c == "" then "" else c[1..]);
      assert a == [a[0]] + a[1..] && b == [b[0]] + b[1..];
    }
  }

  lemma IdentifiersOrdered(a: Identifier, b: Identifier, c: Identifier)
    ensures CompareIdentifiers(a, b) == Opposite(CompareIdentifiers(b, a))
    ensures CompareIdentifiers(a, b) == Equal <==> a == b
    ensures CompareIdentifiers(a, b) == Less && CompareIdentifiers(b, c) == Less ==> CompareIdentifiers(a, c) == Less
  {
    if a.AlphaNumeric? && b.AlphaNumeric? {
      StringsOrdered(a.s, b.s, if c.AlphaNumeric? then c.s else "");
    }
  }

  lemma {:induction false} PreOrdered(a: seq<Identifier>, b: seq<Identifier>, c: seq<Identifier>)
    ensures ComparePre(a, b) == Opposite(ComparePre(b, a))
    ensures ComparePre(a, b) == Equal <==> a == b
    ensures ComparePre(a, b) == Less && ComparePre(b, c) == Less ==> ComparePre(a, c) == Less
  {
    if a != [] && b != [] {
      PreOrdered(a[1..], b[1..], if c == [] then [] else c[1..]);
      assert a == [a[0]] + a[1..] && b == [b[0]] + b[1..];
      IdentifiersOrdered(a[0], b[0], if c == [] then a[0] else c[0]);
      if c != [] {
        IdentifiersOrdered(b[0], c[0], a[0]);
      }
    }
  }

  /** Precedence is a strict total order on versions taken up to build metadata. */
  lemma TotalOrder(u: Version, v: Version, w: Version)
    ensures Before(u, v) || SamePrecedence(u, v) || Before(v, u)
    ensures !(Before(u, v) && Before(v, u)) && !(Before(u, v) && SamePrecedence(u, v))
    ensures Before(u, v) && Before(v, w) ==> Before(u, w)
    ensures SamePrecedence(u, v) ==> (Before(u, w) <==> Before(v, w)) && (Before(w, u) <==> Before(w, v))
  {
    PreOrdered(u.pre, v.pre, w.pre);
    PreOrdered(v.pre, w.pre, u.pre);
    PreOrdered(u.pre, w.pre, v.pre);
  }

  // ----- Section 11, said directly -----

  predicate SameUpTo<T(==)>(a: seq<T>, b: seq<T>, n: nat) {
    n <= |a| && n <= |b| && a[..n] == b[..n]
  }

  lemma SameHead<T>(a: seq<T>, b: seq<T>, n: nat)
    requires a != [] && b != []
    ensures SameUpTo(a, b, n) ==> n == 0 || a[0] == b[0]
  {
    if SameUpTo(a, b, n) && n > 0 {
      assert a[0] == a[..n][0] && b[0] == b[..n][0];
    }
  }

  lemma SameTails<T>(a: seq<T>, b: seq<T>, n: nat)
    requires a != [] && b != [] && a[0] == b[0]
    ensures SameUpTo(a[1..], b[1..], n) <==> SameUpTo(a, b, n + 1)
  {
    if n < |a| && n < |b| {
      assert a[..n + 1] == [a[0]] + a[1..][..n] && b[..n + 1] == [b[0]] + b[1..][..n];
      assert a[1..][..n] == a[..n + 1][1..] && b[1..][..n] == b[..n + 1][1..];
    }
  }

  ghost predicate TextBeforeAt(s: string, t: string, n: nat) {
    SameUpTo(s, t, n) && if n < |s| then n < |t| && s[n] < t[n] else n < |t|
  }

  /** ASCII order: the first character that differs decides, and a proper prefix comes first. */
  ghost predicate TextBefore(s: string, t: string) {
    exists n: nat :: TextBeforeAt(s, t, n)
  }

  /** Numbers by value, numbers before texts, texts in ASCII order. */
  ghost predicate Lower(x: Identifier, y: Identifier) {
    match (x, y)
    case (Numeric(m), Numeric(n)) => m < n
    case (Numeric(_), AlphaNumeric(_)) => true
    case (AlphaNumeric(_), Numeric(_)) => false
    case (AlphaNumeric(s), AlphaNumeric(t)) => TextBefore(s, t)
  }

  ghost predicate PreBeforeAt(a: seq<Identifier>, b: seq<Identifier>, n: nat) {
    SameUpTo(a, b, n) && if n < |a| then n < |b| && Lower(a[n], b[n]) else n < |b|
  }

  /** The first identifier that differs decides, and a proper prefix comes first. */
  ghost predicate PreBefore(a: seq<Identifier>, b: seq<Identifier>) {
    exists n: nat :: PreBeforeAt(a, b, n)
  }

  /** Major, then minor, then patch version; then a pre-release before the release; then the pre-releases. */
  ghost predicate Precedes(v: Version, w: Version) {
    || v.major < w.major
    || (v.major == w.major && v.minor < w.minor)
    || (v.major == w.major && v.minor == w.minor && v.patch < w.patch)
    || (v.major == w.major && v.minor == w.minor && v.patch == w.patch
        && v.pre != [] && (w.pre == [] || PreBefore(v.pre, w.pre)))
  }

  lemma {:induction false} TextOrder(s: string, t: string)
    ensures CompareStrings(s, t) == Less <==> TextBefore(s, t)
  {
    if s == "" || t == "" || s[0] != t[0] {
      assert TextBeforeAt(s, t, 0) <==> CompareStrings(s, t) == Less;
      forall n: nat | TextBeforeAt(s, t, n) ensures n == 0 {
        if s != "" && t != "" {
          SameHead(s, t, n);
        }
      }
    } else {
      TextOrder(s[1..], t[1..]);
      assert !TextBeforeAt(s, t, 0);
      forall n: nat ensures TextBeforeAt(s[1..], t[1..], n) <==> TextBeforeAt(s, t, n + 1) {
        SameTails(s, t, n);
      }
      if n: nat :| TextBeforeAt(s, t, n) {
        assert TextBeforeAt(s[1..], t[1..], n - 1);
      }
    }
  }

  lemma IdentifierOrder(x: Identifier, y: Identifier)
    ensures CompareIdentifiers(x, y) == Less <==> Lower(x, y)
  {
    if x.AlphaNumeric? && y.AlphaNumeric? {
      TextOrder(x.s, y.s);
    }
  }

  lemma {:induction false} PreOrder(a: seq<Identifier>, b: seq<Identifier>)
    ensures ComparePre(a, b) == Less <==> PreBefore(a, b)
  {
    if a == [] || b == [] || a[0] != b[0] {
      if a != [] && b != [] {
        IdentifierOrder(a[0], b[0]);
      }
      assert PreBeforeAt(a, b, 0) <==> ComparePre(a, b) == Less;
      forall n: nat | PreBeforeAt(a, b, n) ensures n == 0 {
        if a != [] && b != [] {
          SameHead(a, b, n);
        }
      }
    } else {
      PreOrder(a[1..], b[1..]);
      IdentifierOrder(a[0], a[0]);
      IdentifiersOrdered(a[0], a[0], a[0]);
      assert !PreBeforeAt(a, b, 0);
      forall n: nat ensures PreBeforeAt(a[1..], b[1..], n) <==> PreBeforeAt(a, b, n + 1) {
        SameTails(a, b, n);
      }
      if n: nat :| PreBeforeAt(a, b, n) {
        assert PreBeforeAt(a[1..], b[1..], n - 1);
      }
    }
  }

  /** The order used is the precedence of section 11. */
  lemma PrecedenceIs(v: Version, w: Version)
    ensures Before(v, w) <==> Precedes(v, w)
  {
    PreOrder(v.pre, w.pre);
  }

  /** The first identifier that differs decides between two pre-releases. */
  lemma {:induction false} FirstDifferenceDecides(common: seq<Identifier>, x: Identifier, y: Identifier,
                                                  p: seq<Identifier>, q: seq<Identifier>)
    requires x != y
    ensures ComparePre(common + [x] + p, common + [y] + q) == CompareIdentifiers(x, y)
  {
    if common != [] {
      FirstDifferenceDecides(common[1..], x, y, p, q);
      assert (common + [x] + p)[1..] == common[1..] + [x] + p;
      assert (common + [y] + q)[1..] == common[1..] + [y] + q;
    }
  }

  /** A release comes after its pre-releases, and more pre-release identifiers come after fewer. */
  lemma PreReleaseRules(v: Version, more: seq<Identifier>)
    requires v.pre != [] && more != []
    ensures Before(v, v.(pre := [])) && Before(v, v.(pre := v.pre + more))
  {
    PrefixBefore(v.pre, more);
  }

  lemma {:induction false} PrefixBefore(pre: seq<Identifier>, more: seq<Identifier>)
    requires more != []
    ensures ComparePre(pre, pre + more) == Less
  {
    if pre != [] {
      PrefixBefore(pre[1..], more);
      assert (pre + more)[1..] == pre[1..] + more;
    }
  }
}

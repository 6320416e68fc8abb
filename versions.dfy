/** The `Version` dataclass of v-and-r.py: a `major.minor.patch` triple with a
    textual prefix, its rendering (`__str__`) and its hand-written ordering
    (`__lt__`, `__eq__` and the three operators derived from them). */
module Versions {
  import opened Wrappers
  import opened Decimal
  import opened Lexicographic

  /** The fields are Python ints: unbounded and possibly negative. The prefix
      defaults to "v". */
  datatype Version = Version(major: int, minor: int, patch: int, prefix: string := "v")

  /** The numeric part of a version, the only part `__lt__` and `__eq__` read. */
  function Triple(v: Version): (t: seq<int>)
    ensures |t| == 3
  {
    [v.major, v.minor, v.patch]
  }

  // ---------------------------------------------------------------------------
  // Rendering

  /** `str(v)`: the prefix followed by the decimal fields joined by dots. */
  function Render(v: Version): (s: string)
    ensures |v.prefix| < |s| && s[..|v.prefix|] == v.prefix
  {
    v.prefix + Join(IntText(v.major), IntText(v.minor), IntText(v.patch))
  }

  function Join(major: string, minor: string, patch: string): string {
    major + "." + minor + "." + patch
  }

  /** `str()` loses nothing: the version can be read back from its rendering
      once the prefix is known. */
  lemma RenderRoundTrip(v: Version)
    ensures Unrender(v.prefix, Render(v)) == Some(v)
  {
    var s := Render(v);
    assert s[..|v.prefix|] == v.prefix;
    assert s[|v.prefix|..] == Join(IntText(v.major), IntText(v.minor), IntText(v.patch));
    SplitJoin(IntText(v.major), IntText(v.minor), IntText(v.patch));
  }

  /** Index of the first '.' in `s`, or `|s|` when there is none. */
  function FirstDot(s: string): (i: nat)
    ensures i <= |s|
    ensures i < |s| ==> s[i] == '.'
    ensures forall k :: 0 <= k < i ==> s[k] != '.'
    decreases |s|
  {
    if s == [] then 0
    else if s[0] == '.' then 0
    else 1 + FirstDot(s[1..])
  }

  lemma FirstDotAfter(a: string, b: string)
    requires forall k :: 0 <= k < |a| ==> IsDigit(a[k]) || a[k] == '-'
    ensures FirstDot(a + "." + b) == |a|
  {
    var s := a + "." + b;
    assert s[|a|] == '.';
  }

  /** Cuts a string at its first two dots; `None` when it has fewer than two. */
  function SplitTwoDots(s: string): (r: Option<(string, string, string)>)
    ensures r.Some? ==> s == Join(r.value.0, r.value.1, r.value.2)
  {
    var i := FirstDot(s);
    if i == |s| then None
    else
      var rest := s[i + 1..];
      var j := FirstDot(rest);
      if j == |rest| then None
      else
        assert rest == rest[..j] + "." + rest[j + 1..];
        assert s == s[..i] + "." + rest;
        Some((s[..i], rest[..j], rest[j + 1..]))
  }

  lemma SplitJoin(major: string, minor: string, patch: string)
    requires forall k :: 0 <= k < |major| ==> IsDigit(major[k]) || major[k] == '-'
    requires forall k :: 0 <= k < |minor| ==> IsDigit(minor[k]) || minor[k] == '-'
    ensures SplitTwoDots(Join(major, minor, patch)) == Some((major, minor, patch))
  {
    var body := Join(major, minor, patch);
    var tail := minor + "." + patch;
    assert body == major + "." + tail;
    FirstDotAfter(major, tail);
    assert body[..|major|] == major;
    assert body[|major| + 1..] == tail;
    FirstDotAfter(minor, patch);
    assert tail[..|minor|] == minor;
    assert tail[|minor| + 1..] == patch;
  }

  /** Reads a version back out of its rendering, given the prefix: the prefix,
      then three ints in `str()` form separated by single dots, and nothing
      else. `None` for any other string. */
  function Unrender(prefix: string, s: string): (r: Option<Version>)
    ensures r.Some? ==> r.value.prefix == prefix
  {
    if |s| < |prefix| || s[..|prefix|] != prefix then None
    else
      match SplitTwoDots(s[|prefix|..])
      case None => None
      case Some((major, minor, patch)) =>
        match (ParseIntText(major), ParseIntText(minor), ParseIntText(patch))
        case (Some(x), Some(y), Some(z)) => Some(Version(x, y, z, prefix))
        case _ => None
  }

  /** Every string `Unrender` accepts is the rendering of the version it reads:
      with `RenderRoundTrip`, rendering with a fixed prefix is a bijection
      between triples and the strings `Unrender` accepts. */
  lemma UnrenderIsRender(prefix: string, s: string, v: Version)
    requires Unrender(prefix, s) == Some(v)
    ensures Render(v) == s
  {
    var (major, minor, patch) := SplitTwoDots(s[|prefix|..]).value;
    IntTextOfParsed(major, v.major);
    IntTextOfParsed(minor, v.minor);
    IntTextOfParsed(patch, v.patch);
    assert s == prefix + s[|prefix|..];
  }

  /** Two versions with one prefix render alike exactly when they are the same
      version: no two triples share a rendering. */
  lemma RenderInjective(a: Version, b: Version)
    requires a.prefix == b.prefix
    ensures Render(a) == Render(b) <==> a == b
  {
    if Render(a) == Render(b) {
      RenderRoundTrip(a);
      RenderRoundTrip(b);
    }
  }

  /** The default prefix, and renderings with other prefixes. */
  lemma RenderExamples()
    ensures Version(1, 2, 3).prefix == "v"
    ensures Render(Version(1, 2, 3)) == "v1.2.3"
    ensures Render(Version(10, 0, 7, "")) == "10.0.7"
    ensures Render(Version(0, -1, 2, "release-")) == "release-0.-1.2"
  {
    assert IntText(1) == "1" && IntText(2) == "2" && IntText(3) == "3";
    assert IntText(0) == "0" && IntText(7) == "7";
    assert IntText(10) == "10" by {
      assert NatText(10) == NatText(1) + [DigitChar(0)];
    }
    assert IntText(-1) == "-1";
  }

  // ---------------------------------------------------------------------------
  // Ordering

  /** `a < b`: decided by the first field that differs, compared as integers. */
  function Less(a: Version, b: Version): (r: bool)
    ensures r <==> LexLess(Triple(a), Triple(b))
  {
    LexLessTriple(Triple(a), Triple(b));
    if a.major != b.major then a.major < b.major
    else if a.minor != b.minor then a.minor < b.minor
    else a.patch < b.patch
  }

  /** The lexicographic order on triples, unfolded to its three positions. */
  lemma LexLessTriple(s: seq<int>, t: seq<int>)
    requires |s| == 3 && |t| == 3
    ensures LexLess(s, t) <==> s[0] < t[0] || (s[0] == t[0] && (s[1] < t[1] || (s[1] == t[1] && s[2] < t[2])))
  {
    assert LexLess(s[1..], t[1..]) <==> s[1] < t[1] || (s[1] == t[1] && LexLess(s[2..], t[2..]));
    assert LexLess(s[2..], t[2..]) <==> s[2] < t[2] || (s[2] == t[2] && LexLess(s[3..], t[3..]));
    assert s[3..] == [] && t[3..] == [];
  }

  /** `a == b`: the three fields agree; the prefix is not compared. */
  function Equal(a: Version, b: Version): (r: bool)
    ensures r <==> Triple(a) == Triple(b)
    ensures r <==> a.(prefix := b.prefix) == b
  {
    a.major == b.major && a.minor == b.minor && a.patch == b.patch
  }

  /** `a <= b`, defined as `a < b or a == b`. */
  function LessOrEqual(a: Version, b: Version): (r: bool)
    ensures r <==> !Less(b, a)
  {
    LexTrichotomy(Triple(a), Triple(b));
    Less(a, b) || Equal(a, b)
  }

  /** `a > b`, defined as `not a <= b`. */
  function Greater(a: Version, b: Version): (r: bool)
    ensures r <==> Less(b, a)
  {
    !LessOrEqual(a, b)
  }

  /** `a >= b`, defined as `not a < b`. */
  function GreaterOrEqual(a: Version, b: Version): (r: bool)
    ensures r <==> Greater(a, b) || Equal(a, b)
    ensures r <==> LessOrEqual(b, a)
  {
    LexTrichotomy(Triple(a), Triple(b));
    !Less(a, b)
  }

  /** `<` is a strict order: irreflexive, asymmetric and transitive. */
  lemma LessIrreflexive(a: Version)
    ensures !Less(a, a)
  {
    LexIrreflexive(Triple(a));
  }

  lemma LessAsymmetric(a: Version, b: Version)
    ensures !(Less(a, b) && Less(b, a))
  {
    LexTrichotomy(Triple(a), Triple(b));
  }

  lemma LessTransitive(a: Version, b: Version, c: Version)
    requires Less(a, b) && Less(b, c)
    ensures Less(a, c)
  {
    LexTransitive(Triple(a), Triple(b), Triple(c));
  }

  /** Exactly one of `a < b`, `a == b`, `a > b` holds. */
  lemma Trichotomy(a: Version, b: Version)
    ensures Less(a, b) || Equal(a, b) || Greater(a, b)
    ensures !(Less(a, b) && Equal(a, b))
    ensures !(Less(a, b) && Greater(a, b))
    ensures !(Equal(a, b) && Greater(a, b))
  {
    LexTrichotomy(Triple(a), Triple(b));
  }

  /** `==` is an equivalence relation. */
  lemma EqualIsEquivalence(a: Version, b: Version, c: Version)
    ensures Equal(a, a)
    ensures Equal(a, b) ==> Equal(b, a)
    ensures Equal(a, b) && Equal(b, c) ==> Equal(a, c)
  {
  }

  /** Versions that differ only in their prefix are `==`, and `<` cannot tell
      them apart either. */
  lemma PrefixIgnored(a: Version, b: Version, p: string)
    ensures Equal(a, a.(prefix := p))
    ensures Less(a, b) <==> Less(a.(prefix := p), b)
    ensures Less(b, a) <==> Less(b, a.(prefix := p))
  {
  }

  /** `<` respects `==`: replacing either side by an equal version keeps the answer. */
  lemma LessRespectsEqual(a: Version, a': Version, b: Version, b': Version)
    requires Equal(a, a') && Equal(b, b')
    ensures Less(a, b) <==> Less(a', b')
  {
    assert Triple(a) == Triple(a') && Triple(b) == Triple(b');
  }

  /** `<=` is a total preorder whose symmetric part is `==`. */
  lemma LessOrEqualIsTotalPreorder(a: Version, b: Version, c: Version)
    ensures LessOrEqual(a, a)
    ensures LessOrEqual(a, b) || LessOrEqual(b, a)
    ensures LessOrEqual(a, b) && LessOrEqual(b, c) ==> LessOrEqual(a, c)
    ensures LessOrEqual(a, b) && LessOrEqual(b, a) <==> Equal(a, b)
  {
    LexIrreflexive(Triple(a));
    LexTrichotomy(Triple(a), Triple(b));
    LexTrichotomy(Triple(b), Triple(c));
    LexTrichotomy(Triple(a), Triple(c));
    if Less(a, b) && Less(b, c) {
      LexTransitive(Triple(a), Triple(b), Triple(c));
    }
  }

  /** Fields are compared as numbers, not as text: 1.9.0 comes before 1.10.0
      although the renderings, compared character by character, first differ at
      index 3 where '1' comes before '9'. */
  lemma NumericNotTextual()
    ensures Less(Version(1, 9, 0), Version(1, 10, 0))
    ensures Less(Version(1, 9, 9), Version(2, 0, 0))
    ensures Greater(Version(2, 0, 0, ""), Version(1, 99, 99))
    ensures Render(Version(1, 10, 0)) == "v1.10.0" && Render(Version(1, 9, 0)) == "v1.9.0"
    ensures "v1.10.0"[..3] == "v1.9.0"[..3] && "v1.10.0"[3] < "v1.9.0"[3]
  {
    assert IntText(10) == "10" by {
      assert NatText(10) == NatText(1) + [DigitChar(0)];
    }
  }

  /** `==` ignores the prefix but `str()` does not: equal versions may render
      differently. */
  lemma EqualButRenderedDifferently()
    ensures Equal(Version(1, 2, 3, "v"), Version(1, 2, 3, ""))
    ensures Render(Version(1, 2, 3, "v")) != Render(Version(1, 2, 3, ""))
  {
    assert Render(Version(1, 2, 3, "v"))[0] == 'v';
  }
}

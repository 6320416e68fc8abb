/** The lexicographic order on integer sequences, defined independently of
    `Version.__lt__`; the `Versions` module proves that `__lt__` is this order
    on the `(major, minor, patch)` triple. */
module Lexicographic {

  /** `s` comes strictly before `t`: a proper prefix, or smaller at the first
      position where the two differ. */
  predicate LexLess(s: seq<int>, t: seq<int>)
    decreases |s|
  {
    if s == [] then t != []
    else t != [] && (s[0] < t[0] || (s[0] == t[0] && LexLess(s[1..], t[1..])))
  }

  lemma {:induction false} LexIrreflexive(s: seq<int>)
    ensures !LexLess(s, s)
    decreases |s|
  {
    if s != [] {
      LexIrreflexive(s[1..]);
    }
  }

  lemma {:induction false} LexTransitive(s: seq<int>, t: seq<int>, u: seq<int>)
    requires LexLess(s, t) && LexLess(t, u)
    ensures LexLess(s, u)
    decreases |s|
  {
    if s != [] && s[0] == t[0] && t[0] == u[0] {
      LexTransitive(s[1..], t[1..], u[1..]);
    }
  }

  /** For sequences of one length, exactly one of `s < t`, `s == t`, `t < s`. */
  lemma {:induction false} LexTrichotomy(s: seq<int>, t: seq<int>)
    requires |s| == |t|
    ensures LexLess(s, t) || s == t || LexLess(t, s)
    ensures !(LexLess(s, t) && LexLess(t, s))
    ensures s == t ==> !LexLess(s, t)
    decreases |s|
  {
    if s != [] {
      LexTrichotomy(s[1..], t[1..]);
      if s[0] == t[0] && s[1..] == t[1..] {
        assert s == [s[0]] + s[1..] && t == [t[0]] + t[1..];
      }
    }
  }
}

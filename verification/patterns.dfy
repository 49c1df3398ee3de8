/**
 * The Token rules of the parser are JavaScript regular expressions that it
 * anchors at the start of the remaining text (`new RegExp('^(' + source + ')')`).
 * The regular-expression engine is not modelled; in its place stands a small
 * pattern language that covers the expressions the grammars use: a literal
 * (`/hello/`, `/\+/`), one character of a class (`/[\+]/`, `/./`) and a greedy
 * run of class characters with a minimum count (`[0-9]+`, `[ \t\r\n]` starred).
 */
module Patterns {
  import opened Wrappers

  /** A character class: an explicit set, or `.` (anything but a line terminator). */
  datatype CharClass = Among(chars: set<char>) | Dot

  predicate InClass(c: char, cls: CharClass) {
    match cls
    case Among(cs) => c in cs
    case Dot => c != '\n' && c != '\r' && c != '\U{2028}' && c != '\U{2029}'
  }

  datatype Pattern =
    | Lit(word: string)                  // the characters themselves
    | One(cls: CharClass)                // exactly one character of the class
    | Many(cls: CharClass, least: nat)   // greedy run, `*` is least 0, `+` is least 1

  /** The language of a pattern: does `w` match `p` as a whole? */
  predicate Matches(p: Pattern, w: string) {
    match p
    case Lit(word) => w == word
    case One(cls) => |w| == 1 && InClass(w[0], cls)
    case Many(cls, least) => |w| >= least && forall i :: 0 <= i < |w| ==> InClass(w[i], cls)
  }

  /** Number of leading characters of `s` that belong to `cls`. */
  function LeadingRun(cls: CharClass, s: string): nat {
    if s == [] || !InClass(s[0], cls) then 0 else 1 + LeadingRun(cls, s[1..])
  }

  lemma {:induction false} LeadingRunSpec(cls: CharClass, s: string)
    ensures LeadingRun(cls, s) <= |s|
    ensures forall i :: 0 <= i < LeadingRun(cls, s) ==> InClass(s[i], cls)
    ensures LeadingRun(cls, s) < |s| ==> !InClass(s[LeadingRun(cls, s)], cls)
  {
    if s != [] && InClass(s[0], cls) {
      LeadingRunSpec(cls, s[1..]);
      forall i | 0 <= i < LeadingRun(cls, s) ensures InClass(s[i], cls) {
        if i > 0 { assert s[i] == s[1..][i - 1]; }
      }
    }
  }

  /**
   * Length of the match of `^(p)` against `s`, as the anchored match of a
   * backtracking engine finds it: quantifiers are greedy and nothing follows
   * them, so a run takes every class character it can.
   */
  function MatchLen(p: Pattern, s: string): (r: Option<nat>)
    ensures r.Some? ==> r.value <= |s|
  {
    match p
    case Lit(word) => if |word| <= |s| && s[..|word|] == word then Some(|word|) else None
    case One(cls) => if |s| > 0 && InClass(s[0], cls) then Some(1) else None
    case Many(cls, least) =>
      LeadingRunSpec(cls, s);
      var n := LeadingRun(cls, s);
      if n >= least then Some(n) else None
  }

  /** A successful match is the longest prefix of `s` in the pattern's language. */
  lemma MatchLenLongest(p: Pattern, s: string)
    requires MatchLen(p, s).Some?
    ensures Matches(p, s[..MatchLen(p, s).value])
    ensures forall m :: MatchLen(p, s).value < m <= |s| ==> !Matches(p, s[..m])
  {
    if p.Many? {
      LeadingRunSpec(p.cls, s);
      var n := LeadingRun(p.cls, s);
      forall m | n < m <= |s| ensures !Matches(p, s[..m]) {
        assert s[..m][n] == s[n];
      }
    }
  }

  /** A failed match means that no prefix of `s` is in the pattern's language. */
  lemma MatchLenNone(p: Pattern, s: string)
    requires MatchLen(p, s).None?
    ensures forall m :: 0 <= m <= |s| ==> !Matches(p, s[..m])
  {
    if p.Many? {
      LeadingRunSpec(p.cls, s);
      var n := LeadingRun(p.cls, s);
      forall m | 0 <= m <= |s| ensures !Matches(p, s[..m]) {
        if m > n { assert s[..m][n] == s[n]; }
      }
    }
  }
}

/**
 * The automatic whitespace skip with the default `$space` rule.
 */
module Spacing {
  import opened Patterns
  import opened Values
  import opened Rules
  import opened Semantics

  /** Grammars that use the default `$space` rule, with or without a `$space` action. */
  predicate DefaultSpacing(g: Grammar) {
    SpaceName in g.rules && g.rules[SpaceName] == DefaultSpace
  }

  /** The match `$space` leaves after skipping `ws`: its action's result on the
      one-element list, or that list itself when there is no action. */
  function SkipMatch(g: Grammar, ws: string): Value {
    if SpaceName in g.acts then g.acts[SpaceName](ActionInput(List([Str(ws)]), map[])) else List([Str(ws)])
  }

  /**
   * With trimming off, the default `$space` always matches: it consumes the
   * leading run of spaces, tabs, carriage returns and line feeds, keeps the
   * tags and the switch, and its match is the one-element list holding that
   * run, passed through the `$space` action when there is one.
   */
  lemma DefaultSpaceSkips(g: Grammar, st: State, fuel: nat)
    requires DefaultSpacing(g) && !st.trim && fuel >= 3
    ensures var k := LeadingRun(SpaceChars, st.text);
      k <= |st.text| &&
      (forall i :: 0 <= i < k ==> st.text[i] in {' ', '\t', '\r', '\n'}) &&
      (k < |st.text| ==> st.text[k] !in {' ', '\t', '\r', '\n'}) &&
      Eval(g, Ref(SpaceName), st, fuel) == Step(Matched, st.(text := st.text[k..], lastMatch := SkipMatch(g, st.text[..k])))
    ensures SpaceName !in g.acts ==>
      Eval(g, Ref(SpaceName), st, fuel).state.lastMatch == List([Str(st.text[..LeadingRun(SpaceChars, st.text)])])
  {
    LeadingRunSpec(SpaceChars, st.text);
    var k := LeadingRun(SpaceChars, st.text);
    var inner := st.(tags := map[]);
    var tok := Eval(g, Token(Many(SpaceChars, 0)), inner, fuel - 2);
    assert tok == Step(Matched, inner.(lastMatch := Str(st.text[..k]), text := st.text[k..]));
    assert EvalSeq(g, [], tok.state, fuel - 2, [Str(st.text[..k])]).state.lastMatch == List([Str(st.text[..k])]);
    assert EvalSeq(g, [Token(Many(SpaceChars, 0))], inner, fuel - 2, []) == Step(Matched, tok.state.(lastMatch := List([Str(st.text[..k])])));
  }

  /**
   * With trimming on and the default `$space`, a Token skips the leading
   * whitespace and then matches its pattern on what is left. On failure the
   * skipped whitespace stays consumed and the match is what the skip left.
   * A `$space` action changes only the match of a failing Token.
   */
  lemma TokenAfterDefaultSpace(g: Grammar, p: Pattern, st: State, fuel: nat)
    requires DefaultSpacing(g) && st.trim && fuel >= 4
    ensures var k := LeadingRun(SpaceChars, st.text);
      k <= |st.text| &&
      var rest := st.text[k..];
      var m := MatchLen(p, rest);
      var after := Eval(g, Token(p), st, fuel);
      (m.None? ==> after == Step(Failed, st.(text := rest, lastMatch := SkipMatch(g, st.text[..k])))) &&
      (m.None? && SpaceName !in g.acts ==> after.state.lastMatch == List([Str(st.text[..k])])) &&
      (m.Some? ==> after == Step(Matched, st.(text := rest[m.value..], lastMatch := Str(rest[..m.value]))))
  {
    DefaultSpaceSkips(g, st.(trim := false), fuel - 1);
  }
}

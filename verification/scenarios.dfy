/**
 * Whole runs of small grammars from the repository's test suite, evaluated
 * by the model. Where a test expects something else, the lemma states what
 * the parser code produces.
 */
module Scenarios {
  import opened Wrappers
  import opened Patterns
  import opened Values
  import opened Rules
  import opened Semantics
  import opened Spacing

  const Digits: CharClass := Among({'0', '1', '2', '3', '4', '5', '6', '7', '8', '9'})

  /** `new Parser(rules, acts)` as a grammar. */
  function Build(rules: map<string, Rule>, acts: map<string, Value -> Value>): (g: Grammar)
    ensures SpaceName !in rules ==> DefaultSpacing(g)
  {
    Grammar(WithDefaultSpace(rules), acts)
  }

  /** A run evaluates `$begin` from the fresh state, with that rule's body starting from empty tags. */
  lemma RunUnfolds(g: Grammar, text: string, fuel: nat)
    requires fuel >= 1 && BeginName !in g.acts
    requires Eval(g, Lookup(g.rules, BeginName), InitState(text), fuel - 1).status != OutOfFuel
    ensures RunSpec(g, text, fuel) == Some(Eval(g, Lookup(g.rules, BeginName), InitState(text), fuel - 1).state.lastMatch)
  {
  }

  /**
   * Leading whitespace is skipped before `$begin`'s Token, with a `$space`
   * action that returns its input: `' \t\r\n123'` gives `'123'`.
   */
  lemma SpaceSkippedRun()
    ensures RunSpec(Build(map[BeginName := Token(Many(Digits, 1))], map[SpaceName := (v: Value) => v]), " \t\r\n123", 5)
         == Some(Str("123"))
  {
    var g := Build(map[BeginName := Token(Many(Digits, 1))], map[SpaceName := (v: Value) => v]);
    assert BeginName != SpaceName;
    DigitsAfterSpace(g);
  }

  /** The same run for any `$space` action, or none. */
  lemma DigitsAfterSpace(g: Grammar)
    requires DefaultSpacing(g) && BeginName !in g.acts
    requires BeginName in g.rules && g.rules[BeginName] == Token(Many(Digits, 1))
    ensures RunSpec(g, " \t\r\n123", 5) == Some(Str("123"))
  {
    var text := " \t\r\n123";
    var st := InitState(text);
    LeadingWhitespace();
    assert text[4..] == "123";
    assert LeadingRun(Digits, "123") == 3 by {
      assert "123"[1..][1..][1..] == [];
    }
    TokenAfterDefaultSpace(g, Many(Digits, 1), st, 4);
    assert "123"[..3] == "123";
    assert Eval(g, Token(Many(Digits, 1)), st, 4).state.lastMatch == Str("123");
    RunUnfolds(g, text, 5);
  }

  lemma LeadingWhitespace()
    ensures LeadingRun(SpaceChars, " \t\r\n123") == 4
  {
    var text := " \t\r\n123";
    assert text[1..] == "\t\r\n123";
    assert text[1..][1..] == "\r\n123";
    assert text[1..][1..][1..] == "\n123";
    assert text[1..][1..][1..][1..] == "123";
    assert LeadingRun(SpaceChars, "123") == 0;
  }

  /**
   * `run` ignores failure: when `$begin` does not match, it returns the last
   * match left in the state, here the list the whitespace skip produced, and
   * not `null`.
   */
  lemma FailedRunReturnsLastMatch()
    ensures RunSpec(Build(map[BeginName := Token(Lit("hello"))], map[]), "bye", 5) == Some(List([Str("")]))
  {
    var g := Build(map[BeginName := Token(Lit("hello"))], map[]);
    assert LeadingRun(SpaceChars, "bye") == 0;
    assert "bye"[0..] == "bye";
    TokenAfterDefaultSpace(g, Lit("hello"), InitState("bye"), 4);
  }

  /**
   * Nested tags without an action: the tags go into `$begin`'s own
   * accumulator, which is discarded, so the result is the matched string
   * itself and has no property `a`.
   */
  lemma NestedTagsRun()
    ensures RunSpec(Build(map[BeginName := Tagged("a", Tagged("b", Tagged("c", Token(Lit("100")))))], map[]), "100", 8)
         == Some(Str("100"))
  {
    var g := Build(map[BeginName := Tagged("a", Tagged("b", Tagged("c", Token(Lit("100")))))], map[]);
    var st := InitState("100");
    assert LeadingRun(SpaceChars, "100") == 0;
    assert "100"[0..] == "100";
    TokenAfterDefaultSpace(g, Lit("100"), st, 4);
    assert Eval(g, Token(Lit("100")), st, 4).state.lastMatch == Str("100");
  }

  /**
   * An action on `$begin` receives the merged object, not the raw string:
   * for the match `'100'` its key `0` holds `'1'`.
   */
  lemma ActionReceivesMergedObject()
    ensures var r := RunSpec(Build(map[BeginName := Token(Many(Digits, 1))], map[BeginName := (v: Value) => v]), "100", 5);
      r.Some? && r.value.Obj? && IndexKey(0) in r.value.fields && r.value.fields[IndexKey(0)] == Str("1")
  {
    var g := Build(map[BeginName := Token(Many(Digits, 1))], map[BeginName := (v: Value) => v]);
    var st := InitState("100");
    assert LeadingRun(SpaceChars, "100") == 0;
    assert "100"[0..] == "100";
    assert LeadingRun(Digits, "100") == 3 by {
      assert "100"[1..][1..][1..] == [];
    }
    TokenAfterDefaultSpace(g, Many(Digits, 1), st, 4);
    var tok := Eval(g, Token(Many(Digits, 1)), st, 4);
    assert tok.status == Matched && tok.state.lastMatch == Str("100");
    assert Lookup(g.rules, BeginName) == Token(Many(Digits, 1));
    assert st.(tags := map[]) == st;
    assert BeginName in g.acts && g.acts[BeginName] == (v: Value) => v;
    assert Eval(g, Ref(BeginName), st, 5).state.lastMatch == ActionInput(Str("100"), tok.state.tags);
    ActionInputStringChar("100", map[], 0);
  }
}

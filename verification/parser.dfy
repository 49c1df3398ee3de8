/**
 * The `Parser` class of src/parser.ts. `parse` threads one mutable state
 * object through its recursion, updating it field by field; here that object
 * is a `ParserState` and `Parse` is proved to compute what `Semantics.Eval`
 * says.
 */
module Engine {
  import opened Wrappers
  import Patterns
  import opened Values
  import opened Rules
  import opened Semantics

  /** The mutable `IParserState` of one run. */
  class ParserState {
    var text: string
    var lastMatch: Value
    var enableTrimSpace: bool
    var taggedMatch: map<string, Value>

    function View(): State
      reads this
    {
      State(text, lastMatch, enableTrimSpace, taggedMatch)
    }

    /** The fresh state of `run`: the whole text, no match, trimming on, no tags. */
    constructor (input: string)
      ensures View() == InitState(input)
    {
      text := input;
      lastMatch := Null;
      enableTrimSpace := true;
      taggedMatch := map[];
    }
  }

  class Parser {
    /** Private copies of the caller's rule and action sets; never reassigned. */
    const ruleSet: map<string, Rule>
    const actSet: map<string, Value -> Value>

    /** The grammar this parser evaluates. */
    function AsGrammar(): Grammar
    {
      Grammar(ruleSet, actSet)
    }

    /**
     * Copies both sets (maps are values, so the caller's own map cannot be
     * affected) and adds the default `$space` rule when none is given.
     */
    constructor (rules: map<string, Rule>, acts: map<string, Value -> Value>)
      ensures ruleSet == WithDefaultSpace(rules) && actSet == acts
    {
      ruleSet := WithDefaultSpace(rules);
      actSet := acts;
    }

    /** Parses `text` from a fresh state with `$begin`, and returns the final match whatever the outcome. */
    method Run(text: string, fuel: nat) returns (r: Option<Value>)
      ensures r == RunSpec(AsGrammar(), text, fuel)
    {
      var state := new ParserState(text);
      var status := Parse(Ref(BeginName), state, fuel);
      r := if status == OutOfFuel then None else Some(state.lastMatch);
    }

    method Parse(rule: Rule, state: ParserState, fuel: nat) returns (status: Status)
      modifies state
      ensures Step(status, state.View()) == Eval(AsGrammar(), rule, old(state.View()), fuel)
      decreases fuel
    {
      if fuel == 0 {
        return OutOfFuel;
      }
      match rule {
        case Token(p) =>
          if state.enableTrimSpace {
            state.enableTrimSpace := false;
            var skipped := Parse(Ref(SpaceName), state, fuel - 1);
            if skipped == OutOfFuel {
              return OutOfFuel;
            }
            state.enableTrimSpace := true;
          }
          var m := Patterns.MatchLen(p, state.text);
          if m.None? {
            return Failed;
          }
          state.lastMatch := Str(state.text[..m.value]);
          state.text := state.text[m.value..];
          return Matched;

        case Ref(name) =>
          var backup := state.taggedMatch;
          state.taggedMatch := map[];
          status := Parse(Lookup(ruleSet, name), state, fuel - 1);
          if status == OutOfFuel {
            return;
          }
          if status == Matched && name in actSet {
            state.lastMatch := actSet[name](ActionInput(state.lastMatch, state.taggedMatch));
          }
          state.taggedMatch := backup;

        case Seq(items) =>
          ghost var start := state.View();
          var results: seq<Value> := [];
          var i := 0;
          while i < |items|
            invariant 0 <= i <= |items|
            invariant EvalSeq(AsGrammar(), items[i..], state.View(), fuel - 1, results)
                   == EvalSeq(AsGrammar(), items, start, fuel - 1, [])
          {
            assert items[i..][0] == items[i] && items[i..][1..] == items[i + 1..];
            var s := Parse(items[i], state, fuel - 1);
            if s == OutOfFuel {
              return OutOfFuel;
            }
            if s == Matched {
              results := results + [state.lastMatch];
            }
            i := i + 1;
          }
          state.lastMatch := List(results);
          return Matched;

        case Tagged(tag, inner) =>
          status := Parse(inner, state, fuel - 1);
          if status != Matched {
            return;
          }
          state.taggedMatch := state.taggedMatch[tag := state.lastMatch];

        case Unknown(_) =>
          return Failed;
      }
    }
  }
}

# GEL parser engine in Dafny

This project models the rule interpreter of the GEL parser (`src/parser.ts`):
the `Parser` class, its constructor, `run`, and the recursive `parse` that
evaluates a grammar rule against one mutable parse state.

A grammar is a rule set (name to rule) and an action set (name to
transform). A rule is one of four shapes, told apart at run time in the
source and by a closed datatype here (`Rules.Rule`):

- **Token**: a regular expression matched anchored at the remaining text,
  after an automatic `$space` skip when trimming is on;
- **Reference** (`Ref`): a rule name, looked up in the rule set; it gets a
  fresh tag accumulator, runs the name's action on success, and then
  restores the caller's accumulator;
- **rule list** (`Seq`): items evaluated left to right; a failing item is
  skipped and the list always matches, with the list of the successful
  items' matches;
- **Tagged**: a one-key object; on success the inner match is written under
  the key into the current accumulator;
- anything else (`Unknown`) fails.

Layout:

- `patterns.dfy` (`Patterns`): a small pattern language standing in for the
  regular expressions, with `MatchLen`, the anchored greedy match.
- `values.dfy` (`Values`): match values, and `ActionInput`, the object
  `Object.assign({}, match, tags)` builds for an action.
- `rules.dfy` (`Rules`): the rule algebra, the grammar, rule lookup and the
  constructor's `$space` default.
- `semantics.dfy` (`Semantics`): `Eval`/`EvalSeq`, the meaning of one call of
  `parse` as a function from the state before to the outcome and the state
  after, and `RunSpec` for `run`.
- `parser.dfy` (`Engine`): the imperative model, a `ParserState` class with
  the four mutable fields of `IParserState` and a `Parser` class whose
  `Parse` method updates that state field by field, with a loop for rule
  lists; `Parse` is proved to compute exactly `Eval`, and `Run` exactly
  `RunSpec`.
- `properties.dfy` (`Properties`), `spacing.dfy` (`Spacing`): what `parse`
  guarantees, proved on `Eval`.
- `termination.dfy` (`Termination`): runs of grammars without Reference
  cycles terminate.
- `scenarios.dfy` (`Scenarios`): whole runs of small grammars from the test
  suite.

The source recurses without bound; a Reference cycle that consumes nothing
overflows the JavaScript stack, and the exception leaves `run`. The model
gives every call of `parse` one unit of fuel; running out is a third
outcome, `OutOfFuel`, that aborts every enclosing call, and `Run` then
returns `None`. `EvalFuelMonotone` shows that fuel only bounds the
recursion: a call that completes gives the same outcome with more fuel.
`Termination.RunCompletes` shows that a grammar without Reference cycles
never runs out: some fuel is enough for every run.

The model follows `src/parser.ts` where the test suite expects otherwise:
nested tags are written flat into one accumulator, so the run of
test/index.spec.ts:149-156 has no `a.b.c`; an action receives the merged
object rather than the raw match (test/index.spec.ts:65, 86); and `run`
returns the last match even when `$begin` fails, never `null` for that
reason (test/index.spec.ts:174). Two further behaviours of the code that no
test checks are modelled as written: a failing rule list item does not make
the list fail, and a failing Token keeps the whitespace `$space` consumed.

## Model

| member | source | states |
|---|---|---|
| `Engine.Parser.Parse` | src/parser.ts:66-130 | the imperative parse (field updates, the rule-list loop, the tag backup and restore) ends in exactly the outcome and state `Eval` gives |
| `Engine.Parser.Run` | src/parser.ts:48-64 | `run` starts from a fresh state, parses `$begin` and returns the final match whatever the outcome; `None` only when the recursion ran out |
| `Engine.Parser.constructor` | src/parser.ts:38-46 | the parser holds the caller's action set and the caller's rule set with the default `$space` added |
| `Engine.ParserState.constructor` | src/parser.ts:49-54 | a fresh state: the whole text, match `null`, trimming on, no tags |
| `Rules.WithDefaultSpace` | src/parser.ts:39-45 | `$space` is added, as `[/[ \t\r\n]*/]`, only when the given one is missing or falsy; every other name maps as given |
| `Patterns.MatchLenLongest` | src/parser.ts:77-83 | a Token match is the longest prefix of the text in the pattern's language (anchored, greedy) |
| `Patterns.MatchLenNone` | src/parser.ts:77-80 | a failed Token match means no prefix of the text is in the pattern's language |
| `Patterns.LeadingRunSpec` | src/parser.ts:77 | a greedy class run takes exactly the leading characters of the class |
| `Values.IndexKeyRoundTrip` | src/parser.ts:95 | the decimal key of an index reads back as that index, so positional keys are distinct |
| `Values.IndexKeyInjective` | src/parser.ts:95 | distinct indices have distinct property keys |
| `Values.ActionInput` | src/parser.ts:95 | the action input is an object holding every tag, and every positional entry of the match that no tag overrides, and nothing else |
| `Values.ActionInputListElement` | src/parser.ts:95 | element `i` of a list match is the action input's field `i` unless a tag of that name overrides it |
| `Values.ActionInputStringChar` | src/parser.ts:95 | character `i` of a string match is the action input's field `i` unless a tag overrides it |
| `Values.ActionInputListKeys` | src/parser.ts:95 | the action input of a list match has exactly the index keys and the tags |
| `Properties.EvalTextSuffix` | src/parser.ts:77-83 | after any call the remaining text is a suffix of the text before it |
| `Properties.EvalSeqTextSuffix` | src/parser.ts:104-110 | a rule list's remaining text is a suffix of the text before it |
| `Properties.EvalKeepsTrim` | src/parser.ts:71-75 | every completed call leaves the `$space` switch as it found it |
| `Properties.EvalSeqKeepsTrim` | src/parser.ts:104-110 | a completed rule list leaves the `$space` switch as it found it |
| `Properties.EvalSeqNeverFails` | src/parser.ts:104-112 | the rest of a rule list never fails and appends at most one match per item, keeping those already collected |
| `Properties.EvalSeqCollects` | src/parser.ts:104-111 | a matching rule list runs every item, a failing one included, each from the state the previous item left; its match is the matches of exactly the items that matched, in order, and its state is otherwise the last item's |
| `Properties.RuleListNeverFails` | src/parser.ts:102-113 | a rule list never fails; its match is the list of the matches of the items that matched, in order, so no longer than the list of items |
| `Properties.EvalTagsOutside` | src/parser.ts:115-125 | a call changes no tag that its rule's own body (outside References) does not name |
| `Properties.EvalSeqTagsOutside` | src/parser.ts:104-110 | a rule list changes no tag that none of its items names |
| `Properties.RefScopesTags` | src/parser.ts:87-100 | a Reference restores the caller's accumulator; its action sees only tags named in the referenced rule's own body |
| `Properties.RefAction` | src/parser.ts:91-96 | the action runs exactly when the rule matched and an action exists, on the match merged with the body's tags, and its result becomes the match |
| `Properties.MissingRefFails` | src/parser.ts:91-99 | a Reference to an undefined name (`this.ruleSet[rule]` is `undefined`) fails, runs no action and leaves the state unchanged |
| `Properties.UnknownFails` | src/parser.ts:128-129 | a rule of no known shape fails and changes nothing |
| `Properties.TokenAnchoredPrefix` | src/parser.ts:68-85 | a matching Token's match is the longest accepted prefix of the text the `$space` skip left (the whole text with trimming off) and exactly that prefix is removed |
| `Properties.TokenFailureKeepsSkip` | src/parser.ts:71-80 | a failing Token matches no prefix, keeps what `$space` consumed, and with trimming off changes nothing |
| `Properties.UntrimmedTokenNoRecursion` | src/parser.ts:71-75 | with trimming off a Token evaluates no `$space`, so it needs no recursive call |
| `Properties.TaggedWrites` | src/parser.ts:115-126 | a matching Tagged rule writes the match under its tag, overwriting, leaving the match and other tags alone; a failing one writes nothing |
| `Properties.NestedTagsFlat` | src/parser.ts:120-124 | nested tags land in the same accumulator with the same value |
| `Properties.EvalFuelMonotone` | src/parser.ts:66-130 | a call that completes gives the same outcome and state with any larger fuel |
| `Properties.EvalSeqFuelMonotone` | src/parser.ts:104-112 | the same for the rest of a rule list |
| `Termination.EvalCompletes` | src/parser.ts:66-130 | when the rule names can be ranked so that every Reference inside a rule names a lower-ranked rule, every call completes from every state with enough fuel |
| `Termination.EvalSeqCompletes` | src/parser.ts:104-110 | the same for the rest of a rule list |
| `Termination.RunCompletes` | src/parser.ts:48-64 | a run of a grammar without Reference cycles terminates with a value |
| `Spacing.DefaultSpaceSkips` | src/parser.ts:42-45 | with trimming off the default `$space` always matches, with or without a `$space` action, consuming exactly the leading run of space, tab, CR and LF and keeping tags and switch; its match is that run as a one-element list, passed through the action if any |
| `Spacing.TokenAfterDefaultSpace` | src/parser.ts:71-83 | with the default `$space`, with or without a `$space` action, a Token skips leading whitespace, then matches on the rest; on failure the whitespace stays consumed and the match is what the skip left |
| `Scenarios.RunUnfolds` | src/parser.ts:48-64 | without a `$begin` action, `run` returns the match `$begin`'s body leaves |
| `Scenarios.SpaceSkippedRun` | test/index.spec.ts:79-96 | `$begin = /[0-9]+/` with the test's identity `$space` action on `' \t\r\n123'` returns `'123'` |
| `Scenarios.DigitsAfterSpace` | src/parser.ts:71-83 | the same run returns `'123'` for any `$space` action, or none |
| `Scenarios.FailedRunReturnsLastMatch` | src/parser.ts:62-63 | a failing `$begin` still returns the last match (the skip's `['']`), not `null` |
| `Scenarios.NestedTagsRun` | src/parser.ts:89-98 | nested tags without an action: the run returns the matched string, the tags are discarded with `$begin`'s accumulator |
| `Scenarios.ActionReceivesMergedObject` | src/parser.ts:94-95 | an action on `$begin` receives an object whose key `0` holds `'1'` for the match `'100'` |

## Left out

- Alternation (`or`) and repetition (`time`): they come from `src/logicalRule`, which is not part of this model; the calculator, alternation and repetition scenarios of the test suite depend on them.
- Logging: `log`, `IParserOption`, `verbose`, `logFunc` and the `option` field that `run` sets only produce diagnostic output and never affect the state.
- The JavaScript regular-expression engine: a Token's pattern is a small pattern language (a literal, one character of a class, a greedy run of class characters with a minimum count) that covers the expressions the tests use; general regular expressions are not modelled. The source rebuilds each Token from its `.source`, which drops the flags (`/hello/i` is matched case-sensitively); the flag-free pattern language agrees with that.
- Patterns.InClass, Values.Positional: strings are sequences of Unicode characters here, whereas JavaScript strings are UTF-16 code units, so on text outside the Basic Multilingual Plane `/./` matches one code unit (half a surrogate pair) in the source but a whole character in the model, and `Object.assign` makes one key per code unit where `Positional` makes one per character. The action input is a map, so the key order an action could observe (integer keys first, then tags in insertion order) is not modelled.
- Action bodies are arbitrary callbacks: they are total functions from value to value; their side effects and exceptions are not modelled.
- Stack depth: the source recurses until the JavaScript stack overflows; the model bounds the recursion by fuel and reports running out as `OutOfFuel` instead of an exception.
- JavaScript values: booleans, `undefined` and functions as match values are not modelled (`Null` and `Num` stand for values without own enumerable properties); objects are values, so aliasing between match objects is not modelled.
- Names inherited from `Object.prototype` (`toString`, `constructor`, ...): the source finds them in any rule or action set; the model treats them as absent unless given.
- The caller's rule set cannot be changed by the constructor because maps are values here; the in-place copy of the source is modelled only by that value semantics.

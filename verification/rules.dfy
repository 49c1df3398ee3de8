/**
 * The rule algebra of the parser. In the source a rule is any JavaScript value
 * and `parse` tells the shapes apart at run time: a RegExp is a Token, a string
 * is a Reference, an array is a rule list, an object with exactly one key is a
 * Tagged rule, and anything else is unknown.
 */
module Rules {
  import opened Patterns
  import opened Values

  datatype Rule =
    | Token(pattern: Pattern)
    | Ref(name: string)
    | Seq(items: seq<Rule>)
    | Tagged(tag: string, inner: Rule)
      /** Any other value (null, a number, an object without exactly one key,
          a missing rule-set entry); `truthy` is its JavaScript truthiness. */
    | Unknown(truthy: bool)

  /** The rule set and the action set of one parser. */
  datatype Grammar = Grammar(rules: map<string, Rule>, acts: map<string, Value -> Value>)

  const BeginName: string := "$begin"
  const SpaceName: string := "$space"

  /** The whitespace rule used when none is given: a list of one Token, whitespace starred. */
  const SpaceChars: CharClass := Among({' ', '\t', '\r', '\n'})
  const DefaultSpace: Rule := Seq([Token(Many(SpaceChars, 0))])

  /** JavaScript truthiness of a rule value: only `""` and the falsy unknowns are false. */
  predicate Truthy(r: Rule) {
    match r
    case Ref(name) => name != ""
    case Unknown(t) => t
    case _ => true
  }

  /** `this.ruleSet[name]`: a name absent from the rule set yields `undefined`, an unknown rule. */
  function Lookup(rules: map<string, Rule>, name: string): Rule {
    if name in rules then rules[name] else Unknown(false)
  }

  /**
   * The constructor's private copy of the rule set: the default `$space` is
   * added when the given one is missing or falsy, and nothing else differs.
   */
  function WithDefaultSpace(rules: map<string, Rule>): (r: map<string, Rule>)
    ensures SpaceName in r && Truthy(r[SpaceName])
    ensures SpaceName in rules && Truthy(rules[SpaceName]) ==> r[SpaceName] == rules[SpaceName]
    ensures !(SpaceName in rules && Truthy(rules[SpaceName])) ==> r[SpaceName] == DefaultSpace
    ensures forall k :: k != SpaceName ==> (k in r <==> k in rules)
    ensures forall k :: k != SpaceName && k in rules ==> r[k] == rules[k]
  {
    if SpaceName in rules && Truthy(rules[SpaceName]) then rules else rules[SpaceName := DefaultSpace]
  }

  /** The tags a rule writes into the accumulator of its enclosing Reference:
      those of Tagged rules reachable without passing through a Reference. */
  function TopTags(r: Rule): set<string> {
    match r
    case Token(_) => {}
    case Ref(_) => {}
    case Unknown(_) => {}
    case Tagged(t, inner) => {t} + TopTags(inner)
    case Seq(items) => set i, t | 0 <= i < |items| && t in TopTags(items[i]) :: t
  }
}

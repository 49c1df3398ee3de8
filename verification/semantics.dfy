/**
 * The meaning of `Parser.parse` as functions on values. `Eval` mirrors one
 * call of `parse(rule, state)`: it takes the state before the call and yields
 * the outcome together with the state after it. The imperative parser in
 * module Engine is proved to compute exactly this.
 *
 * The source recurses without bound (a Reference cycle overflows the stack,
 * which throws out of `run`). Here every call of `parse` spends one unit of
 * fuel, and running out is a third outcome that aborts every enclosing call.
 */
module Semantics {
  import opened Wrappers
  import opened Patterns
  import opened Values
  import opened Rules

  /** `IParserState`: remaining text, last match, the `$space` switch and the tag accumulator. */
  datatype State = State(text: string, lastMatch: Value, trim: bool, tags: map<string, Value>)

  datatype Status = Matched | Failed | OutOfFuel

  datatype Step = Step(status: Status, state: State)

  /** The state `run` starts from. */
  function InitState(text: string): State {
    State(text, Null, true, map[])
  }

  function Eval(g: Grammar, r: Rule, st: State, fuel: nat): Step
    decreases fuel, 0
  {
    if fuel == 0 then Step(OutOfFuel, st)
    else match r
      case Token(p) =>
        var skip := if st.trim then Eval(g, Ref(SpaceName), st.(trim := false), fuel - 1) else Step(Matched, st);
        if skip.status == OutOfFuel then skip
        else
          var st1 := if st.trim then skip.state.(trim := true) else st;
          var m := MatchLen(p, st1.text);
          if m.None? then Step(Failed, st1)
          else Step(Matched, st1.(lastMatch := Str(st1.text[..m.value]), text := st1.text[m.value..]))
      case Ref(name) =>
        var inner := Eval(g, Lookup(g.rules, name), st.(tags := map[]), fuel - 1);
        if inner.status == OutOfFuel then inner
        else
          var st1 := inner.state;
          var st2 :=
            if inner.status == Matched && name in g.acts
            then st1.(lastMatch := g.acts[name](ActionInput(st1.lastMatch, st1.tags)))
            else st1;
          Step(inner.status, st2.(tags := st.tags))
      case Seq(items) =>
        EvalSeq(g, items, st, fuel - 1, [])
      case Tagged(t, inner) =>
        var h := Eval(g, inner, st, fuel - 1);
        if h.status == Matched then Step(Matched, h.state.(tags := h.state.tags[t := h.state.lastMatch]))
        else h
      case Unknown(_) =>
        Step(Failed, st)
  }

  /**
   * The `forEach` over a rule list: `acc` holds the matches of the items that
   * succeeded so far; a failing item is skipped, and the list always matches.
   */
  function EvalSeq(g: Grammar, items: seq<Rule>, st: State, fuel: nat, acc: seq<Value>): Step
    decreases fuel, 1, |items|
  {
    if items == [] then Step(Matched, st.(lastMatch := List(acc)))
    else
      var h := Eval(g, items[0], st, fuel);
      if h.status == OutOfFuel then h
      else EvalSeq(g, items[1..], h.state, fuel, if h.status == Matched then acc + [h.state.lastMatch] else acc)
  }

  /** `run`: the final match whether or not `$begin` matched; None when the recursion ran out. */
  function RunSpec(g: Grammar, text: string, fuel: nat): Option<Value> {
    var h := Eval(g, Ref(BeginName), InitState(text), fuel);
    if h.status == OutOfFuel then None else Some(h.state.lastMatch)
  }
}

/**
 * Grammars without Reference cycles terminate. A rank on rule names under
 * which every Reference inside a rule names a rule of lower rank rules out
 * cycles; then every call of `parse` completes with enough fuel, whatever
 * the state. The Token's call of `$space` is not a rule-to-rule edge: it
 * runs with trimming off, where a Token calls nothing.
 */
module Termination {
  import opened Wrappers
  import opened Values
  import opened Rules
  import opened Semantics
  import opened Properties

  /** The names a rule refers to directly, without passing through a Reference. */
  function RefsIn(r: Rule): set<string> {
    match r
    case Token(_) => {}
    case Ref(name) => {name}
    case Unknown(_) => {}
    case Tagged(_, inner) => RefsIn(inner)
    case Seq(items) => set i, m | 0 <= i < |items| && m in RefsIn(items[i]) :: m
  }

  /** Every defined name that `r` refers to has a rank below `level`. */
  predicate RefsBelow(g: Grammar, rank: map<string, nat>, r: Rule, level: nat) {
    forall m :: m in RefsIn(r) && m in g.rules ==> m in rank && rank[m] < level
  }

  /** `rank` orders the rule set: each rule refers only to rules of lower rank. */
  predicate Acyclic(g: Grammar, rank: map<string, nat>) {
    forall n :: n in g.rules ==> n in rank && RefsBelow(g, rank, g.rules[n], rank[n])
  }

  /** The level from which a Reference to `name` may be evaluated. */
  function LevelOf(g: Grammar, rank: map<string, nat>, name: string): nat
    requires Acyclic(g, rank)
  {
    if name in g.rules then rank[name] + 1 else 0
  }

  lemma {:induction false} EvalCompletes(g: Grammar, rank: map<string, nat>, r: Rule, st: State, level: nat)
    requires Acyclic(g, rank) && RefsBelow(g, rank, r, level)
    ensures exists fuel: nat :: Eval(g, r, st, fuel).status != OutOfFuel
    decreases if st.trim then 1 else 0, level, r, 1
  {
    match r
    case Token(p) =>
      if st.trim {
        var sp := st.(trim := false);
        EvalCompletes(g, rank, Ref(SpaceName), sp, LevelOf(g, rank, SpaceName));
        var f: nat :| Eval(g, Ref(SpaceName), sp, f).status != OutOfFuel;
        assert Eval(g, r, st, f + 1).status != OutOfFuel;
      } else {
        assert Eval(g, r, st, 1).status != OutOfFuel;
      }
    case Ref(name) =>
      var body := Lookup(g.rules, name);
      var inner := st.(tags := map[]);
      if name in g.rules {
        assert name in RefsIn(r);
        EvalCompletes(g, rank, body, inner, rank[name]);
      } else {
        assert Eval(g, body, inner, 1).status != OutOfFuel;
      }
      var f: nat :| Eval(g, body, inner, f).status != OutOfFuel;
      assert Eval(g, r, st, f + 1).status != OutOfFuel;
    case Seq(items) =>
      EvalSeqCompletes(g, rank, r, items, st, level, []);
      var f: nat :| EvalSeq(g, items, st, f, []).status != OutOfFuel;
      assert Eval(g, r, st, f + 1).status != OutOfFuel;
    case Tagged(t, inner) =>
      assert RefsIn(inner) == RefsIn(r);
      EvalCompletes(g, rank, inner, st, level);
      var f: nat :| Eval(g, inner, st, f).status != OutOfFuel;
      assert Eval(g, r, st, f + 1).status != OutOfFuel;
    case Unknown(_) =>
      assert Eval(g, r, st, 1).status != OutOfFuel;
  }

  /** The rest `items` of the rule list `parent` completes with enough fuel. */
  lemma {:induction false} EvalSeqCompletes(g: Grammar, rank: map<string, nat>, parent: Rule, items: seq<Rule>,
                                            st: State, level: nat, acc: seq<Value>)
    requires Acyclic(g, rank) && RefsBelow(g, rank, parent, level)
    requires parent.Seq? && |items| <= |parent.items| && items == parent.items[|parent.items| - |items|..]
    ensures exists fuel: nat :: EvalSeq(g, items, st, fuel, acc).status != OutOfFuel
    decreases if st.trim then 1 else 0, level, parent, 0, |items|
  {
    if items == [] {
      assert EvalSeq(g, items, st, 0, acc).status != OutOfFuel;
    } else {
      var j := |parent.items| - |items|;
      assert items[0] == parent.items[j];
      assert RefsIn(items[0]) <= RefsIn(parent);
      EvalCompletes(g, rank, items[0], st, level);
      var f1: nat :| Eval(g, items[0], st, f1).status != OutOfFuel;
      var h := Eval(g, items[0], st, f1);
      EvalKeepsTrim(g, items[0], st, f1);
      var acc' := if h.status == Matched then acc + [h.state.lastMatch] else acc;
      assert items[1..] == parent.items[|parent.items| - |items[1..]|..];
      EvalSeqCompletes(g, rank, parent, items[1..], h.state, level, acc');
      var f2: nat :| EvalSeq(g, items[1..], h.state, f2, acc').status != OutOfFuel;
      var f := if f1 < f2 then f2 else f1;
      EvalFuelMonotone(g, items[0], st, f1, f);
      EvalSeqFuelMonotone(g, items[1..], h.state, f2, f, acc');
      assert EvalSeq(g, items, st, f, acc).status != OutOfFuel;
    }
  }

  /**
   * A run of an acyclic grammar terminates: some fuel is enough for it to
   * return a value, and by `EvalFuelMonotone` every larger fuel gives the same.
   */
  lemma RunCompletes(g: Grammar, rank: map<string, nat>, text: string)
    requires Acyclic(g, rank)
    ensures exists fuel: nat :: RunSpec(g, text, fuel).Some?
  {
    EvalCompletes(g, rank, Ref(BeginName), InitState(text), LevelOf(g, rank, BeginName));
    var f: nat :| Eval(g, Ref(BeginName), InitState(text), f).status != OutOfFuel;
    assert RunSpec(g, text, f).Some?;
  }
}

/**
 * What a call of `parse` guarantees, proved on `Semantics.Eval`.
 */
module Properties {
  import opened Patterns
  import opened Values
  import opened Rules
  import opened Semantics

  predicate IsSuffix(a: string, b: string) {
    |a| <= |b| && a == b[|b| - |a|..]
  }

  lemma SuffixTrans(a: string, b: string, c: string)
    requires IsSuffix(a, b) && IsSuffix(b, c)
    ensures IsSuffix(a, c)
  {
    assert c[|c| - |b|..][|b| - |a|..] == c[|c| - |a|..];
  }

  /** The last step of a Token, after the skip, consumes a prefix of what the skip left. */
  lemma TokenStepSuffix(p: Pattern, st: State, skip: Step)
    requires IsSuffix(skip.state.text, st.text)
    ensures var st1 := if st.trim then skip.state.(trim := true) else skip.state;
      var m := MatchLen(p, st1.text);
      m.Some? ==> IsSuffix(st1.text[m.value..], st.text)
  {
    var t1 := skip.state.text;
    var m := MatchLen(p, t1);
    if m.Some? { SuffixTrans(t1[m.value..], t1, st.text); }
  }

  /** `text` is only ever replaced by a suffix of itself: after any call the remaining text is a suffix of the text before it. */
  lemma {:induction false} EvalTextSuffix(g: Grammar, r: Rule, st: State, fuel: nat)
    ensures IsSuffix(Eval(g, r, st, fuel).state.text, st.text)
    decreases fuel, 0
  {
    if fuel == 0 { return; }
    match r
    case Token(p) =>
      var skip := if st.trim then Eval(g, Ref(SpaceName), st.(trim := false), fuel - 1) else Step(Matched, st);
      if st.trim {
        EvalTextSuffix(g, Ref(SpaceName), st.(trim := false), fuel - 1);
      }
      TokenStepSuffix(p, st, skip);
    case Ref(name) =>
      EvalTextSuffix(g, Lookup(g.rules, name), st.(tags := map[]), fuel - 1);
    case Seq(items) =>
      EvalSeqTextSuffix(g, items, st, fuel - 1, []);
    case Tagged(t, inner) =>
      EvalTextSuffix(g, inner, st, fuel - 1);
    case Unknown(_) =>
  }

  lemma {:induction false} EvalSeqTextSuffix(g: Grammar, items: seq<Rule>, st: State, fuel: nat, acc: seq<Value>)
    ensures IsSuffix(EvalSeq(g, items, st, fuel, acc).state.text, st.text)
    decreases fuel, 1, |items|
  {
    if items != [] {
      var h := Eval(g, items[0], st, fuel);
      EvalTextSuffix(g, items[0], st, fuel);
      if h.status != OutOfFuel {
        var acc' := if h.status == Matched then acc + [h.state.lastMatch] else acc;
        EvalSeqTextSuffix(g, items[1..], h.state, fuel, acc');
        SuffixTrans(EvalSeq(g, items[1..], h.state, fuel, acc').state.text, h.state.text, st.text);
      }
    }
  }

  /** The `$space` switch is restored by every call that completes: a Token turns it off only around `$space`. */
  lemma {:induction false} EvalKeepsTrim(g: Grammar, r: Rule, st: State, fuel: nat)
    requires Eval(g, r, st, fuel).status != OutOfFuel
    ensures Eval(g, r, st, fuel).state.trim == st.trim
    decreases fuel, 0
  {
    match r
    case Token(p) =>
    case Ref(name) =>
      EvalKeepsTrim(g, Lookup(g.rules, name), st.(tags := map[]), fuel - 1);
    case Seq(items) =>
      EvalSeqKeepsTrim(g, items, st, fuel - 1, []);
    case Tagged(t, inner) =>
      EvalKeepsTrim(g, inner, st, fuel - 1);
    case Unknown(_) =>
  }

  lemma {:induction false} EvalSeqKeepsTrim(g: Grammar, items: seq<Rule>, st: State, fuel: nat, acc: seq<Value>)
    requires EvalSeq(g, items, st, fuel, acc).status != OutOfFuel
    ensures EvalSeq(g, items, st, fuel, acc).state.trim == st.trim
    decreases fuel, 1, |items|
  {
    if items != [] {
      var h := Eval(g, items[0], st, fuel);
      EvalKeepsTrim(g, items[0], st, fuel);
      var acc' := if h.status == Matched then acc + [h.state.lastMatch] else acc;
      EvalSeqKeepsTrim(g, items[1..], h.state, fuel, acc');
    }
  }

  /** The rest of a rule list never fails; its match extends `acc` by at most one value per item. */
  lemma {:induction false} EvalSeqNeverFails(g: Grammar, items: seq<Rule>, st: State, fuel: nat, acc: seq<Value>)
    ensures EvalSeq(g, items, st, fuel, acc).status != Failed
    ensures EvalSeq(g, items, st, fuel, acc).status == Matched ==>
      var m := EvalSeq(g, items, st, fuel, acc).state.lastMatch;
      m.List? && |acc| <= |m.elems| <= |acc| + |items| && m.elems[..|acc|] == acc
    decreases |items|
  {
    if items != [] {
      var h := Eval(g, items[0], st, fuel);
      if h.status != OutOfFuel {
        var acc' := if h.status == Matched then acc + [h.state.lastMatch] else acc;
        EvalSeqNeverFails(g, items[1..], h.state, fuel, acc');
        var m := EvalSeq(g, items[1..], h.state, fuel, acc').state.lastMatch;
        if m.List? && |acc'| <= |m.elems| {
          assert m.elems[..|acc|] == m.elems[..|acc'|][..|acc|];
        }
      }
    }
  }

  /**
   * The steps of the items of a rule list, each started from the state the
   * previous one left (the first from `st`), up to the first that runs out
   * of fuel.
   */
  function SeqSteps(g: Grammar, items: seq<Rule>, st: State, fuel: nat): seq<Step>
    decreases |items|
  {
    if items == [] then []
    else
      var h := Eval(g, items[0], st, fuel);
      if h.status == OutOfFuel then [h] else [h] + SeqSteps(g, items[1..], h.state, fuel)
  }

  /** The matches of the steps that matched, in order. */
  function MatchedValues(steps: seq<Step>): seq<Value> {
    if steps == [] then []
    else (if steps[0].status == Matched then [steps[0].state.lastMatch] else []) + MatchedValues(steps[1..])
  }

  /** The state after the last step, or `st` when there is none. */
  function LastState(st: State, steps: seq<Step>): State {
    if steps == [] then st else steps[|steps| - 1].state
  }

  /**
   * A rule list that matches has run every item, a failing one included,
   * each from the state its predecessor left; its match appends to `acc`
   * the matches of exactly the items that matched, in order, and its state is
   * otherwise the last item's.
   */
  lemma {:induction false} EvalSeqCollects(g: Grammar, items: seq<Rule>, st: State, fuel: nat, acc: seq<Value>)
    requires EvalSeq(g, items, st, fuel, acc).status == Matched
    ensures var steps := SeqSteps(g, items, st, fuel);
      |steps| == |items| &&
      (forall i :: 0 <= i < |steps| ==> steps[i].status != OutOfFuel) &&
      (forall i :: 0 <= i < |steps| ==> steps[i] == Eval(g, items[i], if i == 0 then st else steps[i - 1].state, fuel)) &&
      EvalSeq(g, items, st, fuel, acc).state == LastState(st, steps).(lastMatch := List(acc + MatchedValues(steps)))
    decreases |items|
  {
    var steps := SeqSteps(g, items, st, fuel);
    if items == [] {
      assert acc + [] == acc;
    } else {
      var h := Eval(g, items[0], st, fuel);
      var acc' := if h.status == Matched then acc + [h.state.lastMatch] else acc;
      EvalSeqCollects(g, items[1..], h.state, fuel, acc');
      var rest := SeqSteps(g, items[1..], h.state, fuel);
      assert steps == [h] + rest;
      assert MatchedValues([h] + rest) == (if h.status == Matched then [h.state.lastMatch] else []) + MatchedValues(rest) by {
        assert ([h] + rest)[1..] == rest;
      }
      assert LastState(st, [h] + rest) == LastState(h.state, rest);
      assert acc + MatchedValues(steps) == acc' + MatchedValues(rest);
      forall i | 0 <= i < |steps|
        ensures steps[i] == Eval(g, items[i], if i == 0 then st else steps[i - 1].state, fuel)
      {
        if i > 0 {
          assert items[i] == items[1..][i - 1];
          if i > 1 { assert steps[i - 1] == rest[i - 2]; }
        }
      }
    }
  }

  /**
   * A rule list always matches unless the recursion runs out. Its match is
   * the list of the matches of the items that matched, in order, so it is
   * no longer than the list of items.
   */
  lemma RuleListNeverFails(g: Grammar, items: seq<Rule>, st: State, fuel: nat)
    ensures Eval(g, Seq(items), st, fuel).status != Failed
    ensures Eval(g, Seq(items), st, fuel).status == Matched ==>
      Eval(g, Seq(items), st, fuel).state.lastMatch == List(MatchedValues(SeqSteps(g, items, st, fuel - 1))) &&
      |Eval(g, Seq(items), st, fuel).state.lastMatch.elems| <= |items|
  {
    if fuel > 0 {
      EvalSeqNeverFails(g, items, st, fuel - 1, []);
      if Eval(g, Seq(items), st, fuel).status == Matched {
        EvalSeqCollects(g, items, st, fuel - 1, []);
        assert [] + MatchedValues(SeqSteps(g, items, st, fuel - 1)) == MatchedValues(SeqSteps(g, items, st, fuel - 1));
      }
    }
  }

  /** The tag `k` means the same in `a` and in `b`. */
  predicate AgreeOn(a: map<string, Value>, b: map<string, Value>, k: string) {
    (k in a <==> k in b) && (k in a ==> a[k] == b[k])
  }

  /** A call leaves every tag that the rule's own body does not name as it found it. */
  lemma {:induction false} EvalTagsOutside(g: Grammar, r: Rule, st: State, fuel: nat, k: string)
    requires Eval(g, r, st, fuel).status != OutOfFuel
    requires k !in TopTags(r)
    ensures AgreeOn(Eval(g, r, st, fuel).state.tags, st.tags, k)
    decreases fuel, 0
  {
    match r
    case Token(p) =>
    case Ref(name) =>
    case Seq(items) =>
      forall i | 0 <= i < |items| ensures k !in TopTags(items[i]) {
        assert TopTags(items[i]) <= TopTags(r);
      }
      EvalSeqTagsOutside(g, items, st, fuel - 1, [], k);
    case Tagged(t, inner) =>
      EvalTagsOutside(g, inner, st, fuel - 1, k);
    case Unknown(_) =>
  }

  lemma {:induction false} EvalSeqTagsOutside(g: Grammar, items: seq<Rule>, st: State, fuel: nat, acc: seq<Value>, k: string)
    requires EvalSeq(g, items, st, fuel, acc).status != OutOfFuel
    requires forall i :: 0 <= i < |items| ==> k !in TopTags(items[i])
    ensures AgreeOn(EvalSeq(g, items, st, fuel, acc).state.tags, st.tags, k)
    decreases fuel, 1, |items|
  {
    if items != [] {
      var h := Eval(g, items[0], st, fuel);
      EvalTagsOutside(g, items[0], st, fuel, k);
      var acc' := if h.status == Matched then acc + [h.state.lastMatch] else acc;
      EvalSeqTagsOutside(g, items[1..], h.state, fuel, acc', k);
    }
  }

  /**
   * A Reference restores the caller's accumulator, and the accumulator its
   * action sees holds only tags named in the referenced rule's own body.
   */
  lemma RefScopesTags(g: Grammar, name: string, st: State, fuel: nat)
    requires Eval(g, Ref(name), st, fuel).status != OutOfFuel
    ensures Eval(g, Ref(name), st, fuel).state.tags == st.tags
    ensures Eval(g, Lookup(g.rules, name), st.(tags := map[]), fuel - 1).state.tags.Keys <= TopTags(Lookup(g.rules, name))
  {
    var body := Lookup(g.rules, name);
    var inner := Eval(g, body, st.(tags := map[]), fuel - 1);
    forall k | k in inner.state.tags ensures k in TopTags(body) {
      if k !in TopTags(body) {
        EvalTagsOutside(g, body, st.(tags := map[]), fuel - 1, k);
      }
    }
  }

  /**
   * The action of a name runs exactly when its rule matched and an action
   * exists; its input is the match merged with the body's tags, and its result
   * becomes the match. Otherwise the match is the body's own.
   */
  lemma RefAction(g: Grammar, name: string, st: State, fuel: nat)
    requires fuel > 0
    requires Eval(g, Lookup(g.rules, name), st.(tags := map[]), fuel - 1).status != OutOfFuel
    ensures var inner := Eval(g, Lookup(g.rules, name), st.(tags := map[]), fuel - 1).state;
      var outer := Eval(g, Ref(name), st, fuel);
      outer.status == Eval(g, Lookup(g.rules, name), st.(tags := map[]), fuel - 1).status &&
      outer.state.text == inner.text &&
      outer.state.lastMatch ==
        (if outer.status == Matched && name in g.acts
         then g.acts[name](ActionInput(inner.lastMatch, inner.tags))
         else inner.lastMatch)
  {
  }

  /** A Reference to a name absent from the rule set fails, runs no action and changes nothing. */
  lemma MissingRefFails(g: Grammar, name: string, st: State, fuel: nat)
    requires name !in g.rules && fuel >= 2
    ensures Eval(g, Ref(name), st, fuel) == Step(Failed, st)
  {
    assert Eval(g, Unknown(false), st.(tags := map[]), fuel - 1) == Step(Failed, st.(tags := map[]));
  }

  /** An unknown rule value fails and leaves the state alone. */
  lemma UnknownFails(g: Grammar, truthy: bool, st: State, fuel: nat)
    requires fuel >= 1
    ensures Eval(g, Unknown(truthy), st, fuel) == Step(Failed, st)
  {
  }

  /**
   * A matching Token consumes an anchored prefix: the match is the longest
   * prefix of the text left after the whitespace skip that the pattern
   * accepts, and exactly that prefix is removed.
   */
  lemma TokenAnchoredPrefix(g: Grammar, p: Pattern, st: State, fuel: nat)
    requires Eval(g, Token(p), st, fuel).status == Matched
    ensures var after := Eval(g, Token(p), st, fuel).state;
      after.lastMatch.Str? &&
      var w := after.lastMatch.s;
      Matches(p, w) &&
      IsSuffix(w + after.text, st.text) &&
      (!st.trim ==> st.text == w + after.text) &&
      (st.trim ==> w + after.text == Eval(g, Ref(SpaceName), st.(trim := false), fuel - 1).state.text) &&
      forall m :: |w| < m <= |w + after.text| ==> !Matches(p, (w + after.text)[..m])
  {
    var st1 := if st.trim then Eval(g, Ref(SpaceName), st.(trim := false), fuel - 1).state.(trim := true) else st;
    if st.trim {
      EvalTextSuffix(g, Ref(SpaceName), st.(trim := false), fuel - 1);
    }
    var n := MatchLen(p, st1.text).value;
    MatchLenLongest(p, st1.text);
    assert st1.text[..n] + st1.text[n..] == st1.text;
  }

  /**
   * A failing Token matches no prefix of the text after the skip, keeps
   * what `$space` consumed, and with trimming off consumes nothing at all.
   */
  lemma TokenFailureKeepsSkip(g: Grammar, p: Pattern, st: State, fuel: nat)
    requires Eval(g, Token(p), st, fuel).status == Failed
    ensures var after := Eval(g, Token(p), st, fuel).state;
      IsSuffix(after.text, st.text) &&
      (forall m :: 0 <= m <= |after.text| ==> !Matches(p, after.text[..m])) &&
      (st.trim ==> after == Eval(g, Ref(SpaceName), st.(trim := false), fuel - 1).state.(trim := true)) &&
      (!st.trim ==> after == st)
  {
    EvalTextSuffix(g, Token(p), st, fuel);
    MatchLenNone(p, Eval(g, Token(p), st, fuel).state.text);
  }

  /** With trimming off a Token makes no recursive call, so one unit of fuel is enough. */
  lemma UntrimmedTokenNoRecursion(g: Grammar, p: Pattern, st: State, fuel: nat)
    requires !st.trim && fuel >= 1
    ensures Eval(g, Token(p), st, fuel) == Eval(g, Token(p), st, 1)
    ensures Eval(g, Token(p), st, fuel).status != OutOfFuel
  {
  }

  /**
   * A Tagged rule that matches writes the match under its tag into the
   * current accumulator, overwriting any earlier entry, and leaves the match
   * and every other tag as its inner rule left them; one that fails writes nothing.
   */
  lemma TaggedWrites(g: Grammar, t: string, inner: Rule, st: State, fuel: nat)
    requires fuel >= 1
    ensures var h := Eval(g, inner, st, fuel - 1);
      var after := Eval(g, Tagged(t, inner), st, fuel);
      after.status == h.status &&
      after.state.text == h.state.text &&
      after.state.lastMatch == h.state.lastMatch &&
      (after.status == Matched ==> t in after.state.tags && after.state.tags[t] == after.state.lastMatch) &&
      (forall k :: k != t ==> AgreeOn(after.state.tags, h.state.tags, k)) &&
      (after.status != Matched ==> after.state == h.state)
  {
  }

  /** Nested tags are written flat: both tags land in the same accumulator with the same value. */
  lemma NestedTagsFlat(g: Grammar, a: string, b: string, r: Rule, st: State, fuel: nat)
    requires Eval(g, Tagged(a, Tagged(b, r)), st, fuel).status == Matched
    ensures var after := Eval(g, Tagged(a, Tagged(b, r)), st, fuel).state;
      a in after.tags && b in after.tags &&
      after.tags[a] == after.tags[b] == after.lastMatch
  {
    TaggedWrites(g, a, Tagged(b, r), st, fuel);
    TaggedWrites(g, b, r, st, fuel - 1);
  }

  /** Fuel only bounds the recursion: a call that completes gives the same outcome with any larger budget. */
  lemma {:induction false} EvalFuelMonotone(g: Grammar, r: Rule, st: State, fuel: nat, more: nat)
    requires Eval(g, r, st, fuel).status != OutOfFuel && fuel <= more
    ensures Eval(g, r, st, more) == Eval(g, r, st, fuel)
    decreases fuel, 0
  {
    match r
    case Token(p) =>
      if st.trim {
        EvalFuelMonotone(g, Ref(SpaceName), st.(trim := false), fuel - 1, more - 1);
      }
    case Ref(name) =>
      EvalFuelMonotone(g, Lookup(g.rules, name), st.(tags := map[]), fuel - 1, more - 1);
    case Seq(items) =>
      EvalSeqFuelMonotone(g, items, st, fuel - 1, more - 1, []);
    case Tagged(t, inner) =>
      EvalFuelMonotone(g, inner, st, fuel - 1, more - 1);
    case Unknown(_) =>
  }

  lemma {:induction false} EvalSeqFuelMonotone(g: Grammar, items: seq<Rule>, st: State, fuel: nat, more: nat, acc: seq<Value>)
    requires EvalSeq(g, items, st, fuel, acc).status != OutOfFuel && fuel <= more
    ensures EvalSeq(g, items, st, more, acc) == EvalSeq(g, items, st, fuel, acc)
    decreases fuel, 1, |items|
  {
    if items != [] {
      var h := Eval(g, items[0], st, fuel);
      EvalFuelMonotone(g, items[0], st, fuel, more);
      var acc' := if h.status == Matched then acc + [h.state.lastMatch] else acc;
      EvalSeqFuelMonotone(g, items[1..], h.state, fuel, more, acc');
    }
  }
}

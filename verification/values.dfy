/**
 * Match values as the parser produces and passes them around: `null` before
 * anything matched, the substring a Token matched, the list a rule list
 * builds, and whatever an action returns (numbers, objects, ...).
 */
module Values {

  datatype Value =
    | Null
    | Num(n: int)
    | Str(s: string)
    | List(elems: seq<Value>)
    | Obj(fields: map<string, Value>)

  function Digit(d: nat): char
    requires d < 10
  {
    "0123456789"[d]
  }

  function DigitValue(c: char): nat {
    if '0' <= c <= '9' then (c as int - '0' as int) as nat else 0
  }

  /** The property key JavaScript uses for array or string index `i`: its decimal numeral. */
  function IndexKey(i: nat): (k: string)
    ensures |k| >= 1
    decreases i
  {
    if i < 10 then [Digit(i)] else IndexKey(i / 10) + [Digit(i % 10)]
  }

  /** Reads a decimal numeral back. */
  function ParseIndex(k: string): nat {
    if k == [] then 0 else ParseIndex(k[..|k| - 1]) * 10 + DigitValue(k[|k| - 1])
  }

  lemma {:induction false} IndexKeyRoundTrip(i: nat)
    ensures ParseIndex(IndexKey(i)) == i
    decreases i
  {
    var k := IndexKey(i);
    if i < 10 {
      assert k[..|k| - 1] == [];
    } else {
      IndexKeyRoundTrip(i / 10);
      assert k[..|k| - 1] == IndexKey(i / 10);
    }
  }

  /** Distinct indices have distinct keys. */
  lemma IndexKeyInjective(i: nat, j: nat)
    requires IndexKey(i) == IndexKey(j)
    ensures i == j
  {
    IndexKeyRoundTrip(i);
    IndexKeyRoundTrip(j);
  }

  function IndexKeys(n: nat): set<string> {
    set i | 0 <= i < n :: IndexKey(i)
  }

  /**
   * The own enumerable properties that `Object.assign` copies out of a match
   * value: one entry per character of a string, one per element of an array,
   * the fields of an object, and nothing from `null` or a number.
   */
  function Positional(v: Value): map<string, Value> {
    match v
    case Null => map[]
    case Num(_) => map[]
    case Str(s) => map k | k in IndexKeys(|s|) && ParseIndex(k) < |s| :: Str([s[ParseIndex(k)]])
    case List(xs) => map k | k in IndexKeys(|xs|) && ParseIndex(k) < |xs| :: xs[ParseIndex(k)]
    case Obj(fs) => fs
  }

  /**
   * The argument an action receives: `Object.assign({}, match, tags)`, a fresh
   * object with the positional contents of the match, then the tags, so that a
   * tag overrides a positional entry of the same name.
   */
  function ActionInput(lastMatch: Value, tags: map<string, Value>): (r: Value)
    ensures r.Obj?
    ensures forall k :: k in tags ==> k in r.fields && r.fields[k] == tags[k]
    ensures forall k :: k in r.fields && k !in tags ==> k in Positional(lastMatch) && r.fields[k] == Positional(lastMatch)[k]
    ensures forall k :: k in Positional(lastMatch) && k !in tags ==> k in r.fields && r.fields[k] == Positional(lastMatch)[k]
  {
    Obj(Positional(lastMatch) + tags)
  }

  /** Element `i` of a list match is reachable under key `i` unless a tag of that name overrides it. */
  lemma ActionInputListElement(xs: seq<Value>, tags: map<string, Value>, i: nat)
    requires i < |xs| && IndexKey(i) !in tags
    ensures IndexKey(i) in ActionInput(List(xs), tags).fields
    ensures ActionInput(List(xs), tags).fields[IndexKey(i)] == xs[i]
  {
    IndexKeyRoundTrip(i);
    assert IndexKey(i) in IndexKeys(|xs|);
  }

  /** Character `i` of a string match is reachable under key `i` unless a tag of that name overrides it. */
  lemma ActionInputStringChar(s: string, tags: map<string, Value>, i: nat)
    requires i < |s| && IndexKey(i) !in tags
    ensures IndexKey(i) in ActionInput(Str(s), tags).fields
    ensures ActionInput(Str(s), tags).fields[IndexKey(i)] == Str([s[i]])
  {
    IndexKeyRoundTrip(i);
    assert IndexKey(i) in IndexKeys(|s|);
  }

  /** A list match contributes exactly its index keys; nothing else comes from it. */
  lemma ActionInputListKeys(xs: seq<Value>, tags: map<string, Value>)
    ensures ActionInput(List(xs), tags).fields.Keys == IndexKeys(|xs|) + tags.Keys
  {
    forall k | k in IndexKeys(|xs|) ensures k in Positional(List(xs)) {
      var i :| 0 <= i < |xs| && k == IndexKey(i);
      IndexKeyRoundTrip(i);
    }
  }
}

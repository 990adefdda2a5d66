/**
  The case engine: the equality rule chosen by the kind of the test value, case
  records built by a case creator, and the first-match scan over a case list.
*/
module Utils {
  import opened JsValues

  /**
    What a case's `test` returns: the case's match result, or the internal
    NO_MATCH_FOUND marker. The marker is its own constructor, so it can never be
    mistaken for a legitimate (even falsy) match result.
  */
  datatype CaseResult = Matched(value: Value) | NoMatchFound

  /** The comparison a case creator is built from: the built-in `isEqual`, or a caller's function. */
  datatype Comparator = BuiltinIsEqual | UserMethod(fn: FnId)

  /**
    A case record `{key, test}`. The key is the test value the case was created
    with; `test` is `Test` below, closed over the comparator, the negation flag and
    the match result kept here.
  */
  datatype Case = Case(key: Value, comparator: Comparator, isNot: bool, matchResult: Value)

  /** The `{key, value}` pair the scan returns. */
  datatype KeyValue = KeyValue(key: Value, value: Value)

  /** The key reported when no case matched. */
  const DefaultKey: Value := Str("default")

  /**
    `isEqual`: a function test value is called with the subject and its raw result
    is returned (not coerced to a boolean); a RegExp is run on the subject; any other
    test value is compared with SameValueZero.
  */
  function IsEqual(h: Host, testValue: Value, matchValue: Value): (r: Value)
    ensures testValue.Fn? ==> r == h.call(testValue.fn, [matchValue])
    ensures testValue.RegExp? ==> r == Bool(h.regExpTest(testValue.re, matchValue))
    ensures !testValue.Fn? && !testValue.RegExp? ==>
              r.Bool? && (r.b <==> testValue == matchValue || (IsZero(testValue) && IsZero(matchValue)))
  {
    if testValue.Fn? then h.call(testValue.fn, [matchValue])
    else if testValue.RegExp? then Bool(h.regExpTest(testValue.re, matchValue))
    else Bool(SameValueZero(testValue, matchValue))
  }

  /** Runs a comparator as `method(testValue, matchValue)`. */
  function Compare(h: Host, comparator: Comparator, testValue: Value, matchValue: Value): (r: Value)
    ensures comparator.BuiltinIsEqual? ==> r == IsEqual(h, testValue, matchValue)
    ensures comparator.UserMethod? ==> r == h.call(comparator.fn, [testValue, matchValue])
  {
    match comparator
    case BuiltinIsEqual => IsEqual(h, testValue, matchValue)
    case UserMethod(f) => h.call(f, [testValue, matchValue])
  }

  /**
    `createCaseCreator(method, isNot)(testValue, matchResult)`. A match result that
    is omitted or `undefined` takes its default, `true`.
  */
  function CreateCase(comparator: Comparator, isNot: bool, testValue: Value, matchResult: Value): (c: Case)
    ensures c.key == testValue
    ensures c.comparator == comparator && c.isNot == isNot
    ensures !c.matchResult.Undefined?
    ensures matchResult.Undefined? ==> c.matchResult == Bool(true)
    ensures !matchResult.Undefined? ==> c.matchResult == matchResult
  {
    Case(testValue, comparator, isNot, if matchResult.Undefined? then Bool(true) else matchResult)
  }

  /**
    A case's `test(matchValue)`: a non-negated case matches when the comparison is
    truthy, a negated one when it is falsy; a match yields the case's match result.
  */
  function Test(h: Host, c: Case, matchValue: Value): (r: CaseResult)
    ensures r.Matched? <==> Truthy(Compare(h, c.comparator, c.key, matchValue)) != c.isNot
    ensures r.Matched? ==> r.value == c.matchResult
  {
    var passed := Truthy(Compare(h, c.comparator, c.key, matchValue));
    if c.isNot then (if !passed then Matched(c.matchResult) else NoMatchFound)
    else (if passed then Matched(c.matchResult) else NoMatchFound)
  }

  /** The `is` case creator: `createCaseCreator(isEqual, false)`. */
  function Is(testValue: Value, matchResult: Value): (c: Case)
    ensures c.key == testValue && c.comparator == BuiltinIsEqual && !c.isNot
    ensures c.matchResult == if matchResult.Undefined? then Bool(true) else matchResult
  {
    CreateCase(BuiltinIsEqual, false, testValue, matchResult)
  }

  /** The `not` case creator: `createCaseCreator(isEqual, true)`. */
  function Not(testValue: Value, matchResult: Value): (c: Case)
    ensures c.key == testValue && c.comparator == BuiltinIsEqual && c.isNot
    ensures c.matchResult == if matchResult.Undefined? then Bool(true) else matchResult
  {
    CreateCase(BuiltinIsEqual, true, testValue, matchResult)
  }

  /** A created case keeps its test value as key and answers as its creator's flags say. */
  lemma CreatedCaseTest(h: Host, comparator: Comparator, isNot: bool, testValue: Value, matchResult: Value, matchValue: Value)
    ensures CreateCase(comparator, isNot, testValue, matchResult).key == testValue
    ensures var passed := Truthy(Compare(h, comparator, testValue, matchValue));
            var expected := if matchResult.Undefined? then Bool(true) else matchResult;
            Test(h, CreateCase(comparator, isNot, testValue, matchResult), matchValue)
              == (if passed != isNot then Matched(expected) else NoMatchFound)
  {
  }

  /**
    For a test value that is neither a function nor a RegExp, an `is` case matches
    exactly the SameValueZero-equal subjects (so NaN matches NaN) and a `not` case
    exactly the others.
  */
  lemma LiteralCases(h: Host, testValue: Value, matchResult: Value, matchValue: Value)
    requires !testValue.Fn? && !testValue.RegExp?
    ensures Test(h, Is(testValue, matchResult), matchValue).Matched? <==> SameValueZero(testValue, matchValue)
    ensures Test(h, Not(testValue, matchResult), matchValue).Matched? <==> !SameValueZero(testValue, matchValue)
  {
  }

  /**
    For one test value and match result, exactly one of the `is` case and the `not`
    case matches a given subject, and both carry the same result.
  */
  lemma IsNotComplementary(h: Host, testValue: Value, matchResult: Value, matchValue: Value)
    ensures Test(h, Is(testValue, matchResult), matchValue).Matched?
            != Test(h, Not(testValue, matchResult), matchValue).Matched?
    ensures Is(testValue, matchResult).matchResult == Not(testValue, matchResult).matchResult
  {
  }

  /** The first `n` cases all return NO_MATCH_FOUND for `matchValue`. */
  predicate Misses(h: Host, cases: seq<Case>, matchValue: Value, n: nat)
    requires n <= |cases|
  {
    forall j :: 0 <= j < n ==> Test(h, cases[j], matchValue).NoMatchFound?
  }

  /** Case `i` is the first case that matches `matchValue`. */
  predicate IsFirstMatch(h: Host, cases: seq<Case>, matchValue: Value, i: nat) {
    i < |cases| && Test(h, cases[i], matchValue).Matched? && Misses(h, cases, matchValue, i)
  }

  /**
    The index of the first matching case, or `|cases|` when none matches: every
    earlier case missed, and the one at the index (if any) matched.
  */
  function FirstMatchIndex(h: Host, cases: seq<Case>, matchValue: Value): (i: nat)
    ensures i <= |cases|
    ensures Misses(h, cases, matchValue, i)
    ensures i < |cases| ==> Test(h, cases[i], matchValue).Matched?
    decreases |cases|
  {
    if cases == [] then 0
    else if Test(h, cases[0], matchValue).Matched? then 0
    else 1 + FirstMatchIndex(h, cases[1..], matchValue)
  }

  /** The conditions in FirstMatchIndex's contract pin its result down. */
  lemma FirstMatchIndexUnique(h: Host, cases: seq<Case>, matchValue: Value, i: nat)
    requires i <= |cases| && Misses(h, cases, matchValue, i)
    requires i < |cases| ==> Test(h, cases[i], matchValue).Matched?
    ensures FirstMatchIndex(h, cases, matchValue) == i
  {
  }

  /**
    What `getMatchingKeyValuePair` returns: for the first matching case, its key and
    its test's result; when no case matches (an empty list included), the key
    `'default'` and the default value.
  */
  function FirstMatch(h: Host, cases: seq<Case>, matchValue: Value, defaultValue: Value): (kv: KeyValue)
    ensures forall i: nat :: IsFirstMatch(h, cases, matchValue, i) ==>
              kv == KeyValue(cases[i].key, Test(h, cases[i], matchValue).value)
    ensures Misses(h, cases, matchValue, |cases|) ==> kv == KeyValue(DefaultKey, defaultValue)
  {
    var i := FirstMatchIndex(h, cases, matchValue);
    if i < |cases| then KeyValue(cases[i].key, Test(h, cases[i], matchValue).value)
    else KeyValue(DefaultKey, defaultValue)
  }

  /**
    The indexed scan of `getMatchingKeyValuePair`, returning at the first case whose
    test does not give NO_MATCH_FOUND. The ghost `tested` counts the tests run: up to
    and including the first match, so no later case is evaluated.
  */
  method GetMatchingKeyValuePair(h: Host, cases: seq<Case>, matchValue: Value, defaultValue: Value)
    returns (kv: KeyValue, ghost tested: nat)
    ensures kv == FirstMatch(h, cases, matchValue, defaultValue)
    ensures var i := FirstMatchIndex(h, cases, matchValue);
            tested == if i < |cases| then i + 1 else |cases|
  {
    var index := 0;
    tested := 0;
    while index < |cases|
      invariant 0 <= index <= |cases|
      invariant Misses(h, cases, matchValue, index)
      invariant tested == index
    {
      var iterationValue := Test(h, cases[index], matchValue);
      tested := tested + 1;
      if iterationValue != NoMatchFound {
        FirstMatchIndexUnique(h, cases, matchValue, index);
        return KeyValue(cases[index].key, iterationValue.value), tested;
      }
      index := index + 1;
    }
    FirstMatchIndexUnique(h, cases, matchValue, |cases|);
    kv := KeyValue(DefaultKey, defaultValue);
  }

  /**
    Scanning `a + b`: the first match of `a` wins when `a` has one; otherwise the
    scan's answer is that of `b` alone. Cases appended later never override earlier ones.
  */
  lemma FirstMatchAppend(h: Host, a: seq<Case>, b: seq<Case>, matchValue: Value, defaultValue: Value)
    ensures FirstMatchIndex(h, a, matchValue) < |a| ==>
              FirstMatchIndex(h, a + b, matchValue) == FirstMatchIndex(h, a, matchValue) &&
              FirstMatch(h, a + b, matchValue, defaultValue) == FirstMatch(h, a, matchValue, defaultValue)
    ensures FirstMatchIndex(h, a, matchValue) == |a| ==>
              FirstMatchIndex(h, a + b, matchValue) == |a| + FirstMatchIndex(h, b, matchValue) &&
              FirstMatch(h, a + b, matchValue, defaultValue) == FirstMatch(h, b, matchValue, defaultValue)
  {
    var ab := a + b;
    var k := FirstMatchIndex(h, a, matchValue);
    if k < |a| {
      assert ab[k] == a[k];
      assert Misses(h, ab, matchValue, k) by {
        forall j | 0 <= j < k ensures Test(h, ab[j], matchValue).NoMatchFound? {
          assert ab[j] == a[j];
        }
      }
      FirstMatchIndexUnique(h, ab, matchValue, k);
    } else {
      var m := FirstMatchIndex(h, b, matchValue);
      assert Misses(h, ab, matchValue, |a| + m) by {
        forall j | 0 <= j < |a| + m ensures Test(h, ab[j], matchValue).NoMatchFound? {
          if j < |a| {
            assert ab[j] == a[j];
          } else {
            assert ab[j] == b[j - |a|];
          }
        }
      }
      if m < |b| {
        assert ab[|a| + m] == b[m];
      }
      FirstMatchIndexUnique(h, ab, matchValue, |a| + m);
      if m < |b| {
        assert ab[|a| + m] == b[m];
      }
    }
  }
}

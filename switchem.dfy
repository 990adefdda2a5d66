/**
  The immutable Switchem builder: options, an ordered case list and a default
  value. Every operation builds a fresh value through the constructor `New`; none
  changes its receiver.
*/
module Switchem {
  import opened JsValues
  import opened Utils
  import opened Wrappers

  /** An options object: property name to value. */
  type Options = map<string, Value>

  /** The one option the engine reads. */
  const RunMatchCallback: string := "runMatchCallback"

  /** `DEFAULT_OPTIONS`. */
  const DefaultOptions: Options := map[RunMatchCallback := Bool(true)]

  /** `options.runMatchCallback` is truthy; a missing property reads as `undefined`, which is falsy. */
  predicate CallbackEnabled(options: Options)
    ensures RunMatchCallback !in options ==> !CallbackEnabled(options)
    ensures RunMatchCallback in options ==> (CallbackEnabled(options) <==> Truthy(options[RunMatchCallback]))
  {
    RunMatchCallback in options && Truthy(options[RunMatchCallback])
  }

  /**
    Callbacks are on by default: options built over `DEFAULT_OPTIONS` enable them
    unless the given options set `runMatchCallback` to a falsy value.
  */
  lemma DefaultOptionsEnableCallback(options: Options)
    ensures CallbackEnabled(DefaultOptions)
    ensures CallbackEnabled(DefaultOptions + options) <==>
              RunMatchCallback !in options || Truthy(options[RunMatchCallback])
  {
  }

  /**
    The value `match` returns for a matched pair: a function value is called as
    `value(key, matchValue)` when callbacks are enabled; otherwise the value itself.
  */
  function Resolve(h: Host, options: Options, key: Value, value: Value, matchValue: Value): (r: Value)
    ensures CallbackEnabled(options) && value.Fn? ==> r == h.call(value.fn, [key, matchValue])
    ensures !CallbackEnabled(options) || !value.Fn? ==> r == value
  {
    if CallbackEnabled(options) && value.Fn? then h.call(value.fn, [key, matchValue]) else value
  }

  /** A Switchem instance. */
  datatype Switchem = Switchem(options: Options, cases: seq<Case>, defaultValue: Value) {

    /** Every instance built by the constructor carries all default option names. */
    predicate Valid() {
      DefaultOptions.Keys <= options.Keys
    }

    /** `default(value)`: the same options and cases, with a new default value. */
    function Default(value: Value): (r: Switchem)
      ensures r.Valid()
      ensures r.defaultValue == value
      ensures r.cases == cases
      ensures Valid() ==> r.options == options
    {
      New(options, Some(cases), value)
    }

    /** `is(testValue, matchResult)`: one `is` case appended; options and default carried over. */
    function Is(testValue: Value, matchResult: Value): (r: Switchem)
      ensures r.Valid()
      ensures r.cases == cases + [Utils.Is(testValue, matchResult)]
      ensures r.defaultValue == defaultValue
      ensures Valid() ==> r.options == options
    {
      New(options, Some(cases + [Utils.Is(testValue, matchResult)]), defaultValue)
    }

    /** `not(testValue, matchResult)`: one `not` case appended; options and default carried over. */
    function Not(testValue: Value, matchResult: Value): (r: Switchem)
      ensures r.Valid()
      ensures r.cases == cases + [Utils.Not(testValue, matchResult)]
      ensures r.defaultValue == defaultValue
      ensures Valid() ==> r.options == options
    {
      New(options, Some(cases + [Utils.Not(testValue, matchResult)]), defaultValue)
    }

    /**
      `match(matchValue)`: the first matching case decides, with its key and result;
      with no matching case, the key `'default'` and the default value decide. A
      function result is called back when the options say so.
    */
    function Match(h: Host, matchValue: Value): (r: Value)
      ensures forall i: nat :: IsFirstMatch(h, cases, matchValue, i) ==>
                r == Resolve(h, options, cases[i].key, cases[i].matchResult, matchValue)
      ensures Misses(h, cases, matchValue, |cases|) ==>
                r == Resolve(h, options, DefaultKey, defaultValue, matchValue)
    {
      var kv := FirstMatch(h, cases, matchValue, defaultValue);
      Resolve(h, options, kv.key, kv.value, matchValue)
    }

    /**
      `merge(...others)`: a left-to-right fold seeded with this instance. Cases are
      concatenated in argument order, options overlaid with later instances winning,
      and the default is that of the last argument whose default is not `undefined`,
      or this instance's own. With no arguments the result is this instance.
    */
    function Merge(others: seq<Switchem>): (r: Switchem)
      ensures r.cases == cases + AllCases(others)
      ensures Valid() ==> r.Valid() && r.options == options + OverlayAll(others)
      ensures forall i: nat :: LastDefinedDefault(others, i) ==> r.defaultValue == others[i].defaultValue
      ensures NoDefinedDefault(others) ==> r.defaultValue == defaultValue
      ensures others == [] ==> r == this
    {
      MergeFoldCases(this, others);
      MergeFoldDefault(this, others);
      MergeFoldOptions(this, others);
      MergeFold(this, others)
    }
  }

  /**
    `new Switchem(options, cases, defaultValue)`: `cases` is kept when it is an array
    (`Some`) and replaced by `[]` otherwise; options are the defaults shallow-overlaid
    by the given ones; the default value is stored as given.
  */
  function New(options: Options, cases: Option<seq<Case>>, defaultValue: Value): (s: Switchem)
    ensures s.Valid()
    ensures cases.Some? ==> s.cases == cases.value
    ensures cases.None? ==> s.cases == []
    ensures s.defaultValue == defaultValue
    ensures s.options.Keys == DefaultOptions.Keys + options.Keys
    ensures forall k :: k in options ==> s.options[k] == options[k]
    ensures forall k :: k in DefaultOptions && k !in options ==> s.options[k] == DefaultOptions[k]
  {
    Switchem(DefaultOptions + options, if cases.Some? then cases.value else [], defaultValue)
  }

  /**
    One step of the `merge` fold: the accumulated cases followed by the next
    instance's, the next instance's options overlaid on the accumulated ones, and
    the next default unless it is `undefined`.
  */
  function MergeStep(merged: Switchem, next: Switchem): (r: Switchem)
    ensures r.Valid()
    ensures r.cases == merged.cases + next.cases
    ensures merged.Valid() ==> r.options == merged.options + next.options
    ensures next.defaultValue.Undefined? ==> r.defaultValue == merged.defaultValue
    ensures !next.defaultValue.Undefined? ==> r.defaultValue == next.defaultValue
  {
    New(merged.options + next.options,
        Some(merged.cases + next.cases),
        if next.defaultValue.Undefined? then merged.defaultValue else next.defaultValue)
  }

  /**
    `others.reduce(MergeStep, merged)`: an empty list gives the seed itself, and any
    other list gives an instance built by the constructor.
  */
  function MergeFold(merged: Switchem, others: seq<Switchem>): (r: Switchem)
    ensures others == [] ==> r == merged
    ensures others != [] ==> r.Valid()
    decreases |others|
  {
    if others == [] then merged else MergeFold(MergeStep(merged, others[0]), others[1..])
  }

  /** The cases of `others`, in order. */
  function AllCases(others: seq<Switchem>): seq<Case>
    decreases |others|
  {
    if others == [] then [] else others[0].cases + AllCases(others[1..])
  }

  /** The options of `others` overlaid left to right: a later instance wins on a shared name. */
  function OverlayAll(others: seq<Switchem>): (r: Options)
    ensures forall k :: k in r <==> exists j :: 0 <= j < |others| && k in others[j].options
    decreases |others|
  {
    if others == [] then map[] else others[0].options + OverlayAll(others[1..])
  }

  /** `others[i]` is the last of `others` whose default is not `undefined`. */
  predicate LastDefinedDefault(others: seq<Switchem>, i: nat) {
    i < |others| && !others[i].defaultValue.Undefined? &&
    forall j :: i < j < |others| ==> others[j].defaultValue.Undefined?
  }

  /** Every default in `others` is `undefined`. */
  predicate NoDefinedDefault(others: seq<Switchem>) {
    forall j :: 0 <= j < |others| ==> others[j].defaultValue.Undefined?
  }

  /** The fold's cases are the seed's followed by every argument's cases, in order. */
  lemma {:induction false} MergeFoldCases(merged: Switchem, others: seq<Switchem>)
    ensures MergeFold(merged, others).cases == merged.cases + AllCases(others)
    decreases |others|
  {
    if others != [] {
      MergeFoldCases(MergeStep(merged, others[0]), others[1..]);
    }
  }

  /** When every argument's default is `undefined`, the fold keeps the seed's default. */
  lemma {:induction false} MergeFoldDefaultNone(merged: Switchem, others: seq<Switchem>)
    requires NoDefinedDefault(others)
    ensures MergeFold(merged, others).defaultValue == merged.defaultValue
    decreases |others|
  {
    if others != [] {
      assert others[0].defaultValue.Undefined?;
      MergeFoldDefaultNone(MergeStep(merged, others[0]), others[1..]);
    }
  }

  /** The fold's default is that of the last argument whose default is not `undefined`. */
  lemma {:induction false} MergeFoldDefaultLast(merged: Switchem, others: seq<Switchem>, i: nat)
    requires LastDefinedDefault(others, i)
    ensures MergeFold(merged, others).defaultValue == others[i].defaultValue
    decreases |others|
  {
    var rest := others[1..];
    if i == 0 {
      assert NoDefinedDefault(rest) by {
        forall j | 0 <= j < |rest| ensures rest[j].defaultValue.Undefined? {
          assert rest[j] == others[j + 1];
        }
      }
      MergeFoldDefaultNone(MergeStep(merged, others[0]), rest);
    } else {
      assert LastDefinedDefault(rest, i - 1) by {
        assert rest[i - 1] == others[i];
        forall j | i - 1 < j < |rest| ensures rest[j].defaultValue.Undefined? {
          assert rest[j] == others[j + 1];
        }
      }
      MergeFoldDefaultLast(MergeStep(merged, others[0]), rest, i - 1);
    }
  }

  /** Both default-precedence cases of the fold, for every index. */
  lemma MergeFoldDefault(merged: Switchem, others: seq<Switchem>)
    ensures forall i: nat :: LastDefinedDefault(others, i) ==>
              MergeFold(merged, others).defaultValue == others[i].defaultValue
    ensures NoDefinedDefault(others) ==> MergeFold(merged, others).defaultValue == merged.defaultValue
  {
    forall i: nat | LastDefinedDefault(others, i)
      ensures MergeFold(merged, others).defaultValue == others[i].defaultValue
    {
      MergeFoldDefaultLast(merged, others, i);
    }
    if NoDefinedDefault(others) {
      MergeFoldDefaultNone(merged, others);
    }
  }

  /**
    For a seed built by the constructor, the fold's options are the seed's overlaid
    by each argument's options in order, and keep the default option names.
  */
  lemma {:induction false} MergeFoldOptions(merged: Switchem, others: seq<Switchem>)
    ensures merged.Valid() ==> MergeFold(merged, others).Valid()
    ensures merged.Valid() ==> MergeFold(merged, others).options == merged.options + OverlayAll(others)
    decreases |others|
  {
    if !merged.Valid() {
    } else if others == [] {
      assert merged.options + map[] == merged.options;
    } else {
      var step := MergeStep(merged, others[0]);
      assert step.options == merged.options + others[0].options;
      MergeFoldOptions(step, others[1..]);
      UnionAssociative(merged.options, others[0].options, OverlayAll(others[1..]));
    }
  }

  /** Overlaying options is associative. */
  lemma UnionAssociative(a: Options, b: Options, c: Options)
    ensures (a + b) + c == a + (b + c)
  {
  }
  /**
    Appending a case never overrides an earlier one: when the old cases match,
    the new instance answers as the old one; otherwise the appended case decides
    if it matches, and the default if it does not.
  */
  lemma {:induction false} MatchAfterAppend(h: Host, s: Switchem, c: Case, matchValue: Value)
    requires s.Valid()
    ensures var t := New(s.options, Some(s.cases + [c]), s.defaultValue);
            && (FirstMatchIndex(h, s.cases, matchValue) < |s.cases| ==> t.Match(h, matchValue) == s.Match(h, matchValue))
            && (Misses(h, s.cases, matchValue, |s.cases|) && Test(h, c, matchValue).Matched? ==>
                  t.Match(h, matchValue) == Resolve(h, s.options, c.key, c.matchResult, matchValue))
            && (Misses(h, s.cases, matchValue, |s.cases|) && Test(h, c, matchValue).NoMatchFound? ==>
                  t.Match(h, matchValue) == s.Match(h, matchValue))
  {
    var t := New(s.options, Some(s.cases + [c]), s.defaultValue);
    assert t.cases == s.cases + [c] && t.options == s.options && t.defaultValue == s.defaultValue;
    var k := FirstMatchIndex(h, s.cases, matchValue);
    FirstMatchAppend(h, s.cases, [c], matchValue, s.defaultValue);
    if k < |s.cases| {
      assert FirstMatch(h, t.cases, matchValue, t.defaultValue) == FirstMatch(h, s.cases, matchValue, s.defaultValue);
    } else if Misses(h, s.cases, matchValue, |s.cases|) {
      assert IsFirstMatch(h, t.cases, matchValue, |s.cases|) <==> Test(h, c, matchValue).Matched?;
      if Test(h, c, matchValue).NoMatchFound? {
        assert Misses(h, t.cases, matchValue, |t.cases|);
      }
    }
  }

  /**
    An `is` case on a plain test value, added to an instance none of whose cases
    matches, answers the test value itself (NaN included) with its match result
    (`true` when omitted); a `not` case answers every subject that is not
    SameValueZero-equal to the test value.
  */
  lemma LiteralCaseMatch(h: Host, s: Switchem, testValue: Value, matchResult: Value, matchValue: Value)
    requires s.Valid() && Misses(h, s.cases, matchValue, |s.cases|)
    requires !testValue.Fn? && !testValue.RegExp? && !matchResult.Fn?
    ensures var expected := if matchResult.Undefined? then Bool(true) else matchResult;
            && (SameValueZero(testValue, matchValue) ==> s.Is(testValue, matchResult).Match(h, matchValue) == expected)
            && (!SameValueZero(testValue, matchValue) ==> s.Not(testValue, matchResult).Match(h, matchValue) == expected)
  {
    MatchAfterAppend(h, s, Utils.Is(testValue, matchResult), matchValue);
    MatchAfterAppend(h, s, Utils.Not(testValue, matchResult), matchValue);
  }

  /**
    In a merge the receiver's cases come first: when one of them matches, the
    merged instance answers with that case's key and result, whatever the other
    instances hold (only the merged options decide about the callback).
  */
  lemma MergeMatchPrecedence(h: Host, s: Switchem, others: seq<Switchem>, matchValue: Value)
    requires s.Valid()
    ensures var i := FirstMatchIndex(h, s.cases, matchValue);
            var m := s.Merge(others);
            i < |s.cases| ==> m.Match(h, matchValue) == Resolve(h, m.options, s.cases[i].key, s.cases[i].matchResult, matchValue)
  {
    var i := FirstMatchIndex(h, s.cases, matchValue);
    var m := s.Merge(others);
    if i < |s.cases| {
      FirstMatchAppend(h, s.cases, AllCases(others), matchValue, m.defaultValue);
      assert m.cases[i] == s.cases[i];
      assert IsFirstMatch(h, m.cases, matchValue, i);
    }
  }

  /** With no cases every subject gets the default, called back with key `'default'` when it is a function. */
  lemma EmptyMatch(h: Host, s: Switchem, matchValue: Value)
    requires s.cases == []
    ensures !CallbackEnabled(s.options) || !s.defaultValue.Fn? ==> s.Match(h, matchValue) == s.defaultValue
    ensures CallbackEnabled(s.options) && s.defaultValue.Fn? ==>
              s.Match(h, matchValue) == h.call(s.defaultValue.fn, [Str("default"), matchValue])
  {
  }
}

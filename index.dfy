/**
  The package entry point: the factory that builds an empty Switchem, and the
  registry of custom case kinds that `addCustomCase` extends.
*/
module Index {
  import opened JsValues
  import opened Utils
  import opened Wrappers
  import Switchem

  /** The two errors `addCustomCase` throws. */
  datatype RegistrationError = TypeError | ReferenceError

  /** An installed custom case kind: the caller's comparison function and its negation flag. */
  datatype CustomCase = CustomCase(comparison: FnId, isNot: bool)

  /** The method names every Switchem instance has before any registration. */
  const BuiltinNames: set<string> := {"constructor", "default", "is", "match", "merge", "not"}

  /**
    The shared prototype's case-adding methods: the built-in ones and those that
    `addCustomCase` installed. Names are only ever added.
  */
  class CaseRegistry {
    var custom: map<string, CustomCase>

    /** Custom kinds never shadow a built-in method. */
    ghost predicate Valid()
      reads this
    {
      custom.Keys !! BuiltinNames
    }

    /** `Switchem.prototype[name]` is set: a built-in method or an installed custom kind. */
    predicate InUse(name: string)
      reads this
      ensures name in BuiltinNames ==> InUse(name)
      ensures name in custom ==> InUse(name)
      ensures InUse(name) ==> name in BuiltinNames || name in custom
    {
      name in BuiltinNames || name in custom
    }

    /** The prototype as the package loads it: no custom kinds. */
    constructor ()
      ensures Valid()
      ensures custom == map[]
    {
      custom := map[];
    }

    /**
      `addCustomCase(name, method, isNot)`: a TypeError when `method` (here `comparison`) is not a
      function (checked first), a ReferenceError when `name` is already in use, and
      otherwise a new method `name` built from `createCaseCreator(method, isNot)`.
      A failing call installs nothing.
    */
    method AddCustomCase(name: string, comparison: Value, isNot: Value) returns (r: Outcome<RegistrationError>)
      requires Valid()
      modifies this
      ensures Valid()
      ensures !comparison.Fn? ==> r == Fail(TypeError) && custom == old(custom)
      ensures comparison.Fn? && old(InUse(name)) ==> r == Fail(ReferenceError) && custom == old(custom)
      ensures comparison.Fn? && !old(InUse(name)) ==>
                r == Pass && custom == old(custom)[name := CustomCase(comparison.fn, Truthy(isNot))]
      ensures r == Pass ==> InUse(name)
      ensures old(custom).Keys <= custom.Keys
    {
      if !comparison.Fn? {
        return Fail(TypeError);
      }
      if InUse(name) {
        return Fail(ReferenceError);
      }
      custom := custom[name := CustomCase(comparison.fn, Truthy(isNot))];
      r := Pass;
    }

    /**
      Calling the installed method `name` on `s`: a new instance whose cases are
      those of `s` plus one case from the kind's case creator; options and default
      carry over. `None` when no custom kind of that name is installed. Any
      instance can call it, including one built before the registration.
    */
    function CaseMethod(name: string, s: Switchem.Switchem, testValue: Value, matchResult: Value)
      : (r: Option<Switchem.Switchem>)
      reads this
      ensures r.Some? <==> name in custom
      ensures name in custom ==>
                var kind := custom[name];
                && r.value.cases == s.cases + [CreateCase(UserMethod(kind.comparison), kind.isNot, testValue, matchResult)]
                && r.value.defaultValue == s.defaultValue
                && r.value.Valid()
                && (s.Valid() ==> r.value.options == s.options)
    {
      if name in custom then
        var kind := custom[name];
        Some(Switchem.New(s.options, Some(s.cases + [CreateCase(UserMethod(kind.comparison), kind.isNot, testValue, matchResult)]),
                          s.defaultValue))
      else None
    }
  }

  /**
    The default export: an instance with no cases, an `undefined` default and the
    default options overlaid by the given ones.
  */
  function Create(options: Switchem.Options): (s: Switchem.Switchem)
    ensures s.Valid()
    ensures s.cases == [] && s.defaultValue == Undefined
    ensures s.options.Keys == Switchem.DefaultOptions.Keys + options.Keys
    ensures forall k :: k in options ==> s.options[k] == options[k]
    ensures Switchem.RunMatchCallback !in options ==> s.options[Switchem.RunMatchCallback] == Bool(true)
  {
    Switchem.New(options, None, Undefined)
  }

  /**
    Registering `divisibleBy` succeeds once and then fails with a ReferenceError;
    a non-function is refused with a TypeError even under a taken name; and the
    installed kind drives matching: `divisibleBy(7, 'yes').default('no')` gives
    `'yes'` for 49 and `'no'` for 50.
  */
  method DivisibleByScenario(h: Host, divisibleBy: FnId)
    returns (first: Outcome<RegistrationError>, second: Outcome<RegistrationError>,
             notAFunction: Outcome<RegistrationError>, on49: Value, on50: Value)
    requires h.call(divisibleBy, [Num(7), Num(49)]) == Bool(true)
    requires h.call(divisibleBy, [Num(7), Num(50)]) == Bool(false)
    ensures first == Pass
    ensures second == Fail(ReferenceError)
    ensures notAFunction == Fail(TypeError)
    ensures on49 == Str("yes") && on50 == Str("no")
  {
    var registry := new CaseRegistry();
    first := registry.AddCustomCase("divisibleBy", Fn(divisibleBy), Undefined);
    second := registry.AddCustomCase("divisibleBy", Fn(divisibleBy), Undefined);
    notAFunction := registry.AddCustomCase("is", Str("method"), Undefined);
    var withCase := registry.CaseMethod("divisibleBy", Create(map[]), Num(7), Str("yes"));
    var s := withCase.value.Default(Str("no"));
    on49 := s.Match(h, Num(49));
    on50 := s.Match(h, Num(50));
  }
  /** Registering under a built-in name such as `is` fails with a ReferenceError. */
  method BuiltinNameScenario(comparison: FnId) returns (r: Outcome<RegistrationError>)
    ensures r == Fail(ReferenceError)
  {
    var registry := new CaseRegistry();
    r := registry.AddCustomCase("is", Fn(comparison), Undefined);
  }

  /**
    `default('nope').is(5, 'five').is(v => v % 2 === 0, 'even')` answers `'five'`
    for 5 (the predicate is never asked), `'even'` for 4 and `'nope'` for 3.
  */
  lemma EvenExample(h: Host, even: FnId)
    requires h.call(even, [Num(4)]) == Bool(true)
    requires h.call(even, [Num(3)]) == Bool(false)
    ensures var m := Create(map[]).Default(Str("nope")).Is(Num(5), Str("five")).Is(Fn(even), Str("even"));
            && m.Match(h, Num(5)) == Str("five")
            && m.Match(h, Num(4)) == Str("even")
            && m.Match(h, Num(3)) == Str("nope")
  {
    var m := Create(map[]).Default(Str("nope")).Is(Num(5), Str("five")).Is(Fn(even), Str("even"));
    assert IsFirstMatch(h, m.cases, Num(5), 0);
    assert IsFirstMatch(h, m.cases, Num(4), 1);
    assert Misses(h, m.cases, Num(3), 2);
  }

  /** `is(/^a/, 'starts-with-a').default('no')` answers `'starts-with-a'` for "apple" and `'no'` for "banana". */
  lemma PatternExample(h: Host, startsWithA: RegExpId)
    requires h.regExpTest(startsWithA, Str("apple"))
    requires !h.regExpTest(startsWithA, Str("banana"))
    ensures var m := Create(map[]).Is(RegExp(startsWithA), Str("starts-with-a")).Default(Str("no"));
            && m.Match(h, Str("apple")) == Str("starts-with-a")
            && m.Match(h, Str("banana")) == Str("no")
  {
    var m := Create(map[]).Is(RegExp(startsWithA), Str("starts-with-a")).Default(Str("no"));
    assert IsFirstMatch(h, m.cases, Str("apple"), 0);
    assert Misses(h, m.cases, Str("banana"), 1);
  }

  /**
    With `runMatchCallback: false` a function result is returned as it is; with the
    default options it is called as `value(key, matchValue)`.
  */
  lemma CallbackExample(h: Host, callback: FnId, subject: Value)
    ensures Create(map[]).Default(Fn(callback)).Match(h, subject) == h.call(callback, [Str("default"), subject])
    ensures Create(map[Switchem.RunMatchCallback := Bool(false)]).Default(Fn(callback)).Match(h, subject) == Fn(callback)
  {
    Switchem.EmptyMatch(h, Create(map[]).Default(Fn(callback)), subject);
    Switchem.EmptyMatch(h, Create(map[Switchem.RunMatchCallback := Bool(false)]).Default(Fn(callback)), subject);
  }
}

# Switchem, modelled in Dafny

Switchem is a small "functional switch" library for JavaScript. A Switchem
instance holds an ordered list of cases, a default value and options. `match`
scans the cases in order and returns the result of the first case whose test
succeeds, or the default when none does. Every case-adding operation
(`default`, `is`, `not`, `merge`, and custom kinds added with `addCustomCase`)
returns a new instance. The exception is `merge()` with no arguments, which
returns the receiver.

This project models the three core files:

- `jsvalues.dfy` (module `JsValues`): the JavaScript values the engine looks
  at, and the two value rules it uses. Truthiness is ToBoolean (section 7.1.2
  of ECMA-262, 7th edition). SameValueZero is section 7.2.10 of the same
  edition. Functions and regular expressions are values with an identity.
  Their behaviour comes from a `Host` parameter: `call` runs a function and
  `regExpTest` runs `RegExp.prototype.test`.
- `utils.dfy` (module `Utils`, from `src/utils.js`):
  - `isEqual`, the case creator and the `is`/`not` creators;
  - case records and their `test`;
  - the first-match scan `getMatchingKeyValuePair`, written as an imperative
    method and proved against the specification function `FirstMatch`.
  - NO_MATCH_FOUND is the constructor `NoMatchFound` of `CaseResult`. It is
    not a `Value`, so the scan can never return it as a value. This matches
    engines that have `Symbol`; the string fallback is listed under
    "Left out".
- `switchem.dfy` (module `Switchem`, from `src/Switchem.js`): the immutable
  builder, modelled as a datatype with member functions. `New` is the class
  constructor and `MergeFold` is the `reduce` behind `merge`.
- `index.dfy` (module `Index`, from `src/index.js`):
  - the class `CaseRegistry`. Its `custom` map holds the case-adding methods
    that `addCustomCase` has installed on the shared prototype. The built-in
    method names are the constant `BuiltinNames`;
  - the factory `Create` (the default export);
  - end-to-end examples.
- `wrappers.dfy`: `Option` and `Outcome`.

Points of the code the model keeps:

- `isEqual` returns the raw result of a function test value and does not
  coerce it to a boolean. Truthiness is applied later, by the case's `test`.
- The option is named `runMatchCallback`, and it is on by default.
- A callable result is called with exactly `(key, matchValue)`.
- `merge` treats a default that is `undefined` as unset, whether or not it was
  set explicitly. This is the code's `=== undefined` test, and the model keeps
  it: `LastDefinedDefault` and `NoDefinedDefault` test `Undefined?`.

## Model

| member | source | states |
|---|---|---|
| JsValues.SameValueZero | src/utils.js:17 | true exactly when `a === b` or both are NaN; equivalently, the values are identical or both are zeros |
| JsValues.SameValueZeroIsEquivalence | src/utils.js:17 | SameValueZero is reflexive (NaN included), symmetric and transitive, while `NaN === NaN` is false |
| JsValues.SameValueZeroExamples | src/utils.js:17 | 'foo'/'foo' equal, 'foo'/'bar' not, NaN/NaN equal, NaN/12 not, +0/-0 equal |
| Utils.IsEqual | src/utils.js:29-34 | a function test value is called once with the subject and its raw result returned; a RegExp gives its test's boolean; any other value gives the SameValueZero boolean, so NaN matches NaN |
| Utils.CreateCase | src/utils.js:46-62 | the case's key is the test value; an omitted/undefined match result becomes `true`, any other is kept |
| Utils.Test | src/utils.js:59-61 | a case matches iff the comparison's truthiness differs from the negation flag, and then yields its match result; otherwise NO_MATCH_FOUND |
| Utils.Compare | src/utils.js:60-61 | the case's comparison is `method(testValue, matchValue)`: `isEqual` for the built-in creators, the caller's function for a custom kind |
| Utils.Is | src/utils.js:95 | the `is` creator builds an un-negated `isEqual` case keyed by the test value, with the match result defaulting to `true` |
| Utils.Not | src/utils.js:96 | the `not` creator builds a negated `isEqual` case keyed by the test value, with the match result defaulting to `true` |
| Utils.CreatedCaseTest | src/utils.js:57-61 | non-negated: match result when the method is truthy, NO_MATCH_FOUND otherwise; negated: the reverse; default result `true` |
| Utils.LiteralCases | src/utils.js:95-96 | for a plain test value an `is` case matches exactly the SameValueZero-equal subjects and a `not` case exactly the others |
| Utils.IsNotComplementary | src/utils.js:95-96 | for the same arguments exactly one of the `is` and `not` cases matches any subject, with the same result |
| Utils.FirstMatchIndex | src/utils.js:78-87 | the index found is at most the list length, every earlier case returned NO_MATCH_FOUND, and the case at the index (if any) matched |
| Utils.FirstMatchIndexUnique | src/utils.js:78-87 | those three conditions determine the first-match index uniquely |
| Utils.FirstMatch | src/utils.js:75-93 | the first matching case gives `{key: case key, value: its result}`; if no case matches (the empty list included) the result is `{key: 'default', value: defaultValue}` |
| Utils.GetMatchingKeyValuePair | src/utils.js:75-93 | the indexed scan with early return computes `FirstMatch`; it runs the tests up to and including the first match and no further |
| Utils.FirstMatchAppend | src/utils.js:78-86 | scanning `a + b`: a match in `a` wins over anything in `b`; otherwise the answer is `b`'s |
| Switchem.Resolve | src/Switchem.js:68-70 | the matched value is called with exactly `(key, matchValue)` when `runMatchCallback` is truthy and the value is a function; otherwise it is returned unchanged |
| Switchem.CallbackEnabled | src/Switchem.js:68 | `options.runMatchCallback` is truthy; a missing property reads as `undefined`, which is falsy |
| Switchem.DefaultOptionsEnableCallback | src/Switchem.js:7-9 | `DEFAULT_OPTIONS` turns callbacks on, and options overlaid on it keep them on unless they set `runMatchCallback` to a falsy value |
| Switchem.MergeStep | src/Switchem.js:85-90 | one reducer step: accumulated cases then the next instance's; the next options overlaid on the accumulated ones; the next default unless it is `undefined` |
| Switchem.MergeFold | src/Switchem.js:84-91 | the `reduce` seeded with the receiver: an empty argument list gives the seed itself, any other gives a constructed instance |
| Switchem.New | src/Switchem.js:18-24 | cases kept when an array, else `[]`; options are `DEFAULT_OPTIONS` shallow-overlaid by the given ones (given names win, missing ones default); default stored as given |
| Switchem.Switchem.Default | src/Switchem.js:36-38 | new instance with the given default and the same cases and options |
| Switchem.Switchem.Is | src/Switchem.js:51-53 | new instance whose cases are the old ones plus exactly one `is` case at the end; options and default carried over |
| Switchem.Switchem.Not | src/Switchem.js:106-108 | new instance whose cases are the old ones plus exactly one `not` case at the end; options and default carried over |
| Switchem.Switchem.Match | src/Switchem.js:65-71 | the first matching case's key and result decide; with no match the key `'default'` and the default decide; function results are called back as the options say |
| Switchem.Switchem.Merge | src/Switchem.js:83-92 | cases are the receiver's followed by each argument's in order; options are a left-to-right overlay where later instances win; the default is the last argument's default that is not undefined, else the receiver's; no arguments give the receiver itself |
| Switchem.OverlayAll | src/Switchem.js:87 | an option name is in the overlay exactly when some argument has it |
| Switchem.MergeFoldCases | src/Switchem.js:84-91 | the fold's cases are the seed's followed by all arguments' cases in order |
| Switchem.MergeFoldDefaultNone | src/Switchem.js:89 | when every argument's default is undefined the fold keeps the seed's default |
| Switchem.MergeFoldDefaultLast | src/Switchem.js:89 | the fold's default is the last argument default that is not undefined |
| Switchem.MergeFoldDefault | src/Switchem.js:84-91 | both default-precedence cases of the fold, for every index |
| Switchem.MergeFoldOptions | src/Switchem.js:87 | the fold's options are the seed's overlaid by each argument's options in order, and still carry the default option names |
| Switchem.MatchAfterAppend | src/Switchem.js:51-71 | an appended case never overrides an earlier match; it decides only when no earlier case matches |
| Switchem.LiteralCaseMatch | src/Switchem.js:51-71 | `is(v, r).match(v)` is `r` (or `true`) after non-matching cases (NaN included), and `not(v, r).match(w)` is `r` for every `w` not SameValueZero-equal to `v` |
| Switchem.MergeMatchPrecedence | src/Switchem.js:83-92 | after a merge, a matching case of the receiver still decides the match |
| Switchem.EmptyMatch | src/Switchem.js:65-71 | with no cases, match gives the default, or calls it with key `'default'` when it is a function and callbacks are on |
| Index.CaseRegistry.constructor | src/Switchem.js:17-109 | the prototype starts with the built-in methods only: no custom kinds |
| Index.CaseRegistry.InUse | src/index.js:22 | a name is taken exactly when it is a built-in method or an installed custom kind |
| Index.CaseRegistry.AddCustomCase | src/index.js:17-31 | TypeError when the method is not a function (checked first); ReferenceError when the name is in use; a failure installs nothing; on success exactly `name` is added, built-ins are never shadowed, and the registry only grows |
| Index.CaseRegistry.CaseMethod | src/index.js:26-30 | an installed method returns a new instance with the receiver's cases plus `createCaseCreator(method, isNot)(testValue, matchResult)`, keeping options and default; any instance can call it |
| Index.Create | src/index.js:42-44 | an instance with no cases, an undefined default and the default options overlaid by the given ones |
| Index.DivisibleByScenario | src/index.js:17-31 | a first registration passes and a second of the same name fails with ReferenceError; a non-function fails with TypeError even under a taken name; `divisibleBy(7,'yes').default('no')` gives 'yes' for 49 and 'no' for 50 |
| Index.BuiltinNameScenario | src/index.js:22-24 | registering the built-in name `is` fails with ReferenceError |
| Index.EvenExample | src/Switchem.js:51-71 | `default('nope').is(5,'five').is(even,'even')` gives 'five' for 5, 'even' for 4 and 'nope' for 3 |
| Index.PatternExample | src/utils.js:32-33 | a RegExp case matches the subjects its test accepts and falls back to the default otherwise |
| Index.CallbackExample | src/Switchem.js:68-70 | a function default is called with `('default', subject)` under the default options and returned as it is with `runMatchCallback: false` |

## Left out

- Hand-built case records: the constructor accepts any array of `{key, test}` objects. The model's cases are only those built by a case creator. A case's `test` is the function `Utils.Test` over the stored comparator, flag and result.
- Object identity: instances are values, so "a distinct instance" and "the receiver itself" (`merge()` with no arguments) are stated as value equalities. No aliasing is modelled.
- Caller functions, such as predicate test values, custom comparison methods and callable results, are total functions of the `Host`. Their side effects, exceptions and call counts are not modelled. The ghost `tested` count of `GetMatchingKeyValuePair` is how the model says that later cases are not evaluated.
- Regular expressions: `RegExp.prototype.test` is the opaque `Host.regExpTest`. The `lastIndex` state of `/g` expressions and the string coercion of the subject are not modelled.
- Numbers: only integral finite values, -0 and NaN are modelled. Non-integral numbers, infinities and floating-point arithmetic are not, because the engine only compares numbers and tests their truthiness.
- Options arguments are maps from names to values. An absent options argument is the empty map. Spreading a primitive (for example a string) as options is not modelled. Property order is not modelled.
- Prototype mechanics: names inherited from `Object.prototype` (such as `toString`) are not treated as taken. The taken names are the built-in methods plus the registered ones. Calling a method name that does not exist is `None` in `CaseMethod`.
- NO_MATCH_FOUND without `Symbol`: in an engine without `Symbol` the marker is the string `'__SWITCHEM_NO_MATCH_FOUND__'`. A case whose match result is that string then counts as no match, so `is(1, '__SWITCHEM_NO_MATCH_FOUND__').match(1)` gives the default. The model keeps the marker out of `Value`, so there it answers the string.
- Custom kinds named `cases`, `options` or `defaultValue`: the prototype check lets these names through, but every instance's own field of that name hides the installed method, so calling it throws. `CaseRegistry.CaseMethod` returns `Some` for them, because the model does not distinguish own fields from prototype methods.
- Concurrency: registration is synchronous. The model's method calls run one at a time.
- The demo application and the bundler configuration are outside the core.

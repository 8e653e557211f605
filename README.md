# jpi-hapi-json-schema, modelled in Dafny

This project models the core of `jpi-hapi-json-schema`, a hapi plugin that
turns a JSON Hyper-Schema API document into hapi routes. Each route validates
its request against JSON Schema. The model covers three parts:

- **Request-validation helper** (`lib/validator.js`). Before validation, the
  helper rewrites a request value in place to match its schema:
  - strings become numbers or booleans where the schema asks for them;
  - with forced array conversion, a lone string becomes a one-element array;
  - query keys written `name[3]` are collapsed into arrays.

  It then runs the compiled validator and reports `{valid, errors}`. The
  builders for path parameters, query, payload and headers are methods of
  the class `Validator.RequestValue`. That class holds the value by
  reference, as the JavaScript caller does. Each method is proved equal to a
  pure function (`Coercion.Coerce`, `Coercion.InPlace`,
  `QueryArrays.CollapseQuery`), and the properties the helper promises are
  proved about those functions: idempotence, the object branch, the array
  branch, forced wrapping, and where every `p[m]` value ends up after the
  collapse.
- **Route assembly** (`index.js`, lines 24-135). For each link of the
  document, the URI template's matches are grouped by kind into a
  path-parameter schema and a query schema. A hook is attached for each
  non-empty group and for a body schema, and the hook turns the helper's
  report into `next(null, value)` or a bad-request error.
- **Swagger route registration** (`lib/index.js`, lines 56-131), modelled by
  the class `Swagger.HapiConfig`. It covers:
  - the `pre` steps and the final handler taken from a handler array;
  - the `ratifyValidators` hooks, with `path` renamed to `params` and
    `formData` to `payload`;
  - the API-key security strategies.

  The security assertions become an explicit failure result.

Some things are parameters of the model:
- JavaScript's numeric conversion `1 * s` is a parameter
  (`Values.NumberParser`), which only says whether the result is `NaN`, `0`
  or another number.
- The compiled validator is a parameter too: any function from a value to a
  verdict.
- The template parser, the handler factory and `ajv.compile` are parameters as well.

Values are JSON-like (`Values.Value`). An object is an ordered list of
entries, so the order of `for...in` is part of the model. The type itself
allows a key to appear twice; the lemmas require distinct keys through the
predicates `Values.DistinctKeys` and `Values.WellFormedValue`, as a
JavaScript object has them.

The collapse lemmas (`RunStepsInvariant`, `RunPlacement`, `RunHoles` and the
others) are stated for any step with the effect of one collapse step
(`StepEffect`). The whole-object lemmas apply them to `CollapseStep`, which
`StepEffectHolds` proves has that effect.

## Model

| member | source | states |
|---|---|---|
| Text.NatToString | lib/index.js:71 | the decimal numeral written for a step index is non-empty, all digits, with no leading zero |
| Text.DecimalOfNatToString | lib/index.js:71 | reading back the numeral of n gives n |
| Text.ToLower | lib/validator.js:14 | `toLowerCase` (ASCII) keeps the length and lowers each character independently |
| Text.ToLowerIsLower | lib/validator.js:14 | lower-casing yields a string without upper-case letters and is idempotent |
| Text.LastIndexOf | lib/validator.js:79 | `lastIndexOf` returns -1 or an index holding the character, with no later occurrence |
| Text.TrailingDigits | lib/validator.js:75 | the length of the maximal run of digits at the end of a string |
| Values.Keys | lib/validator.js:76 | the own keys of an object, in enumeration order |
| Values.FindKey | lib/validator.js:54 | the position of the first entry with the key, or None exactly when no entry has it |
| Values.Get | lib/validator.js:54-55 | reading a property gives None exactly when the object does not own the key |
| Values.Set | lib/validator.js:80 | assigning keeps the keys when the key exists and appends it at the end otherwise |
| Values.Delete | lib/validator.js:83 | deleting an absent key changes nothing |
| Values.DeleteFacts | lib/validator.js:83 | after `delete`, keys stay distinct, the key is gone, every other key keeps its value |
| Values.GetSet | lib/validator.js:80-82 | after an assignment, the key reads the new value and every other key reads its old value |
| Values.SetTwice | lib/validator.js:80-82 | assigning the same key twice equals assigning the second value once |
| Values.SetKeepsDistinct | lib/validator.js:80 | assignment keeps the keys distinct |
| Values.SetIndex | lib/validator.js:82 | `array[n] = x` extends the array to n+1 when needed, with holes as undefined, and changes only index n |
| Schemas.OwnKeyCount | lib/validator.js:60-61 | a schema with `type`, `properties` or `items` has at least one own key |
| Schemas.FindProp | lib/validator.js:53-54 | the first declaration of a property name at or after i, or None when there is none |
| Schemas.SetProp | index.js:41 | assigning a property keeps the declared names or appends the new name |
| Schemas.PropSchema | index.js:41 | a property lookup gives None exactly when the name is not declared |
| Schemas.PropSchemaSetProp | index.js:41 | after an assignment, the name reads the new schema and every other name its old schema |
| HeaderSchema.LowerHeaders | lib/validator.js:3-21 | the copy keeps every keyword other than `properties`, and keeps `properties` present or absent |
| HeaderSchema.LowerFoldNames | lib/validator.js:12-16 | the names that `LowerFold` (the loop of lines 12-16, as a fold over the declarations) declares are exactly the lower-cased names of the original |
| HeaderSchema.LowerFoldLowered | lib/validator.js:12-16 | the copy's names are distinct and lower-case, and its property schemas are recursively lowered |
| HeaderSchema.LowerHeadersLowered | lib/validator.js:3-21 | the result is lowered at every depth |
| HeaderSchema.LowerHeadersOfLowered | lib/validator.js:3-21 | a schema that is already lowered is copied unchanged |
| HeaderSchema.LowerHeadersIdempotent | lib/validator.js:3-21 | normalising twice equals normalising once |
| HeaderSchema.LowerFoldLastWins | lib/validator.js:14 | when two names lower to the same name, the later declaration wins |
| HeaderSchema.LowerHeadersProperties | lib/validator.js:12-16 | the lower-cased name maps to the normalised schema of its last declaration, and the declared names are exactly the lower-cased names |
| Coercion.ConvertValueFromStringToType | lib/validator.js:23-42 | non-strings and `string` types are returned as they are. Booleans come only from "true"/"false". A numeric type yields the number iff it is non-zero, or zero with type `number` or no '.'; otherwise the string comes back |
| Coercion.Wrapped | lib/validator.js:47-50 | the value is either unchanged or a string wrapped in a one-element array |
| Coercion.Coerce | lib/validator.js:44-71 | objects keep their keys, arrays their length, and undefined, numbers and booleans are returned unchanged |
| Coercion.CoerceProps | lib/validator.js:53-57 | the object loop never adds or removes a key |
| Coercion.Passes | lib/validator.js:60-66 | repeated element passes keep the array's length |
| Coercion.CoerceAll | lib/validator.js:62-64 | one element pass keeps the array's length |
| Coercion.InPlace | lib/validator.js:44-71 | a caller that discards the result sees objects and arrays rewritten and primitives unchanged |
| Coercion.CoerceProp | lib/validator.js:54-55 | one turn of the object loop, for one declaration, keeps the object's keys (its effect on each entry: CoercePropAt) |
| Coercion.CoercePropAt | lib/validator.js:54-55 | one turn of the object loop rewrites exactly the entry of the declared key, to the coercion of its value |
| Coercion.CoercePropsAt | lib/validator.js:53-57 | from declaration i on, an entry is rewritten iff its key is declared at or after i, under that declaration |
| Coercion.CoerceObject | lib/validator.js:52-58 | object branch: same keys, declared keys coerced under their declaration, any other key unchanged |
| Coercion.PassesOfFixedPoint | lib/validator.js:60-66 | element passes over fixed points change nothing |
| Coercion.CoerceIdempotent | lib/validator.js:44-71 | coercing a coerced value again changes nothing |
| Coercion.CoerceAllIdempotent | lib/validator.js:62-64 | a second element pass changes nothing |
| Coercion.ArrayBranch | lib/validator.js:59-67 | the element pass repeated once per own key of `items` is no pass when `items` has no key and one pass otherwise |
| Coercion.ForcedWrap | lib/validator.js:47-50 | with the flag, a string under an array-of-scalars schema becomes the one-element array of its converted value |
| Coercion.NoWrapWithoutForce | lib/validator.js:47-50 | without the flag, a string under an `array` schema comes back unchanged |
| QueryArrays.ParseArraySyntax | lib/validator.js:75-81 | a key is parsed iff it ends in `[digits]` (the predicate `MatchesArraySyntax`, the regex test of line 78), and the prefix, digits and brackets account for the whole key |
| QueryArrays.ParseArraySyntaxSpec | lib/validator.js:78-81 | a recognised key is exactly prefix + "[" + digits + "]", the digits are non-empty and the index is their decimal value |
| QueryArrays.ParseArraySyntaxOfBuilt | lib/validator.js:78-81 | every key built as prefix[digits] parses back to that prefix and that index |
| QueryArrays.Target | lib/validator.js:80 | the fallback of line 80 (the old value, or else an empty array) is always truthy, is either `[]` or the old value, and is the old value whenever that value is truthy (truthiness as `Values.Truthy`) |
| QueryArrays.StoreIndex | lib/validator.js:82 | storing into an array target sets exactly that index, extending the array as needed |
| QueryArrays.StatementsAreStep | lib/validator.js:79-83 | the statements of one turn, in their own order, equal one collapse step |
| QueryArrays.CollapseQuery | lib/validator.js:73-87 | a non-object is left alone; an object becomes `Collapse` of its entries, the loop over a snapshot of its original keys |
| QueryArrays.StepEffectHolds | lib/validator.js:78-83 | one turn of the loop (`CollapseStep`) has the effect `StepEffect`: it deletes a present array-syntax key, leaves (old prefix value or []) with the value stored at the index under the prefix, and changes no other key |
| QueryArrays.CollapseKeepsDistinct | lib/validator.js:76-86 | the collapsed object (`Collapse`) still has distinct keys |
| QueryArrays.PlainKeyUntouched | lib/validator.js:76-86 | a key without array syntax that is no key's prefix keeps its value |
| QueryArrays.NoArraySyntaxLeft | lib/validator.js:76-86 | when no prefix itself has array syntax, no array-syntax key is left after the loop |
| QueryArrays.CollapsePlaces | lib/validator.js:78-83 | the value of the last key p[m] is at index m of the array under p |
| QueryArrays.CollapsePlacesValues | lib/validator.js:76-86 | when p held nothing truthy, the last key p[m] supplies index m of the array under p, every index no key supplied is a hole, and the array's last index is one some key supplied, so its length is one more than the largest index supplied |
| QueryArrays.CollapseTwoIndices | lib/validator.js:76-86 | the query `p[0]=x&p[1]=y` collapses to exactly `p = [x, y]` |
| Validator.ReportOf | lib/validator.js:93-99 | `valid` is the validator's result; `errors` is present, with the validator's errors, exactly when invalid |
| Validator.RequestValue.ConvertPropertyTypes | lib/validator.js:44-71 | the in-place loops leave the value that InPlace computes |
| Validator.RequestValue.ConvertArraysInQueryString | lib/validator.js:73-87 | the loop over a snapshot of the keys leaves CollapseQuery of the old value |
| Validator.RequestValue.VisitKey | lib/validator.js:77-84 | one turn of the loop is one collapse step |
| Validator.RequestValue.ValidateParams | lib/validator.js:89-102 | coercion without forced wrapping, then the report of the coerced value |
| Validator.RequestValue.ValidateQuery | lib/validator.js:104-117 | collapse, then coercion with forced wrapping, then the report of the result |
| Validator.RequestValue.ValidatePayload | lib/validator.js:119-142 | a form payload (`IsFormPayload`, the content-type test of line 129) is coerced without wrapping, any other payload is untouched; then the report |
| Validator.RequestValue.ValidateHeaders | lib/validator.js:144-157 | coercion with forced wrapping, then the report; names are not lower-cased |
| Validator.NonFormPayloadsUncoerced | lib/validator.js:129 | a JSON body or a request without content type fails `IsFormPayload` |
| Validator.FormPayloadWithParameters | lib/validator.js:129 | a form content type followed by parameters is still a form payload |
| Routes.GroupSchema | index.js:35-38 | the group schema is `{type: 'object', properties}` with no other keyword |
| Routes.GroupPropsNames | index.js:33-42 | the names `GroupProps` declares (the `filter` and `forEach` of lines 33-42 and 59-67 as one fold) are exactly the keys of the matches of that kind |
| Routes.GroupPropsLastWins | index.js:40-42 | a key given by several matches takes the definition of the last one |
| Routes.GroupPropsDistinct | index.js:40-42 | the declared names are distinct |
| Routes.DeriveValidate | index.js:28-100 | a params (query) hook exists iff some match has kind param (query), with the group schema; the payload hook exists iff the link has a schema |
| Routes.DerivedSchemaKeys | index.js:31-67 | the keys of each derived schema are exactly the keys of the matches of its kind |
| Routes.NoMatchesNoHooks | index.js:28-100 | a link without template variables or body schema gets no hook |
| Routes.BuildRoute | index.js:102-113 | path from the template, method and description from the link, the handler, and the derived hooks |
| Routes.BuildRoutes | index.js:24 | one route per link, in link order, each built from its own link |
| Routes.HookMessage | index.js:51-95 | the params hook fails with "Validation Error - Path Params" (line 51), the query hook with "Validation Error - Query Params" (line 76), the payload hook with "Validation Error - Payload" (line 95) |
| Routes.HookMessagesDiffer | index.js:51-95 | the three hooks' messages are pairwise different |
| Routes.OutcomeOf | index.js:48-53 | a hook continues with the value iff the report is valid, and otherwise fails with its kind's message and the report's errors |
| Routes.RunHook | index.js:45-99 | a hook leaves the value its builder computes, and its outcome is the report of that value |
| Swagger.AssignName | lib/index.js:71 | a step's name is the function's name, or "p" and its 1-based position when the name is empty |
| Swagger.PreSteps | lib/index.js:67-75 | a handler array of n > 1 functions gives n-1 steps, each named and holding the function at that position; anything else gives none |
| Swagger.FinalHandler | lib/index.js:76-78 | the handler is the array's last function, or the handler itself when it is not an array |
| Swagger.HandlersInOrder | lib/index.js:67-78 | the steps followed by the handler are the array's functions in order |
| Swagger.UnnamedStepNames | lib/index.js:71 | an unnamed step at position i is named "p" + (i+1), and that name reads back as i+1 |
| Swagger.RenameKind | lib/index.js:92-93 | `path` becomes `params`, `formData` becomes `payload`, every other kind stays |
| Swagger.RenameKindCollisions | lib/index.js:92-93 | two different kinds rename to the same key only for path/params or formData/payload |
| Swagger.Assignments | lib/index.js:88-94 | each validator contributes its renamed kind and its schema |
| Swagger.AssignAllNames | lib/index.js:94 | the hook keys after `AssignAll` (the assignments of line 94, in order) are exactly the names assigned |
| Swagger.AssignAllLastWins | lib/index.js:94 | a name assigned several times keeps the last assignment |
| Swagger.RenamedValidatorsNames | lib/index.js:88-94 | the hook keys of `RenamedValidators` (the `validate` object lines 88-105 build) are exactly the renamed kinds |
| Swagger.RenamedValidatorsLastWins | lib/index.js:88-94 | a renamed kind given by several validators keeps the schema of the last |
| Swagger.RenamedValidatorsNeverRaw | lib/index.js:92-94 | no hook is ever keyed `path` or `formData` |
| Swagger.ResolveHelper | lib/index.js:95 | the helper function is found exactly when "validate" + kind is one of the helper's function names |
| Swagger.LowerKindsResolveNothing | lib/index.js:95 | a kind without upper-case letters names no helper function |
| Swagger.StandardKindsResolveNothing | lib/index.js:92-95 | none of the Swagger kinds path, query, header, formData or body resolves to a helper function |
| Swagger.KeyFailure | lib/index.js:113-116 | a scheme is accepted iff it is defined and has type apiKey |
| Swagger.FirstFailure | lib/index.js:112-116 | the first scheme whose assertion fails, with all earlier ones accepted, or None when all are accepted |
| Swagger.Accumulate | lib/index.js:118-120 | the strategies are the earlier ones followed by the accepted scheme names; nothing changes without schemes |
| Swagger.AccumulatePush | lib/index.js:118-120 | adding one scheme appends its name to the strategies |
| Swagger.FirstFailureIs | lib/index.js:112-116 | the first failing position is the one reported |
| Swagger.FirstFailureNone | lib/index.js:112-116 | when every scheme is accepted, no failure is reported |
| Swagger.SecuritySucceeds | lib/index.js:109-122 | the security block succeeds iff every scheme is a defined apiKey scheme, and then every name becomes a strategy |
| Swagger.HapiConfig.constructor | lib/index.js:60-64 | a config with no steps, no handler, no hooks and no auth |
| Swagger.HapiConfig.SetHandlers | lib/index.js:66-79 | the steps are appended and the handler set; hooks and auth untouched |
| Swagger.HapiConfig.AddValidators | lib/index.js:86-106 | with `ratifyValidators`, the hooks are the renamed validators; otherwise unchanged; nothing else changes |
| Swagger.HapiConfig.AddSecurity | lib/index.js:109-122 | the loop stops at the first failing scheme and otherwise records every scheme as a strategy |
| Swagger.RouteResult | lib/index.js:56-130 | the route registered with method, path joined to the base path, and config; or the failure of its security |
| Swagger.RegisterRoute | lib/index.js:56-130 | the method builds exactly the route or failure RouteResult describes |
| Swagger.RegisterAll | lib/index.js:56-131 | routes are registered in order until the first failing one, and each registered route is its RouteResult |

## Left out

- The JSON-Schema validator (ajv) is not modelled. It is a parameter, any function from a value to a verdict, and `ajv.compile` is another parameter.
- Parsing the URI template (`parseHref`), dereferencing the API document, the handler factory (`makeHandler`) and Boom's error objects are parameters or plain data.
- File globbing, the documentation route, and the `cors`, `vhost` and base-path options are left out. They are plugin configuration, not validation logic.
- Numbers: `1 * s` is abstracted to NaN / zero / another number, and floating-point values are not modelled.
- `1 * s` applied to the index digits at line 81 is their decimal value, so indices of 2^32-1 and above are treated like any others. JavaScript would make a property of them, not an array index.
- Text.ToLower: lower-cases ASCII letters only. JavaScript's `toLowerCase` also handles the rest of Unicode.
- `null` values and the tuple form of `items` (an array of schemas) are not modelled.
- Coercion.Coerce: an array under a schema with `properties` is returned unchanged. Its own keys (`"0"`, `"length"`) are never matched against declared property names.
- QueryArrays.CollapseQuery: nested keys such as `a[1][2]` are only collapsed once. A key added during the loop is never visited (`for...in` order over added keys is not modelled).
- QueryArrays.StoreIndex: storing an index into a truthy non-array prefix value is modelled, but no lemma is stated about that case.
- The enumeration order of integer-like keys, which JavaScript moves first, is not modelled: keys enumerate in insertion order.
- Aliasing below the top level is not modelled. Nested objects are values, and only the top-level request value is a reference (`Validator.RequestValue`).
- Holes versus `undefined`: a hole is modelled as `undefined`. JavaScript tells the two apart with `in`, `hasOwnProperty`, `Object.keys` and the array iterators, but nothing in the modelled code looks: the index loop of lib/validator.js lines 62-64 reads a hole as `undefined` and writes it back as an own `undefined`, and the validator reads by index.
- `validateResponse` and the commented-out response validation in `index.js` are left out. Neither is reached by the routes built here.
- Swagger.ResolveHelper: the `'validate' + v` dispatch of lib/index.js line 95 is modelled only as a lookup of the helper's function names. Swagger.HapiConfig.AddValidators records each hook's schema under its renamed kind, and stops there. The call itself and the hook's reply are left out: the message `'Validation Error'` and the details taken from the compiled validator.
- `route.security` given as an array: its keys would be the indices; the model takes the list of scheme names.
- The asynchronous flow (promises, `next`, logging) is left out.
- `modifyHeadersSchema` (lib/validator.js:3-21) is defined but never called. `validateHeaders` coerces header values under the schema as given, and `Validator.RequestValue.ValidateHeaders` models that. `HeaderSchema` models the normalisation on its own.

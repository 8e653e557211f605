/** The route registration loop of lib/index.js (lines 56-131) for routes
    built from a Swagger document: each route record gets a hapi route
    configuration whose `pre` steps and `handler` come from the record's
    handler (a function or an array of functions), whose `validate` hooks
    come from its validators under renamed kinds, and whose `auth`
    strategies come from its security requirements, each checked against
    the document's security definitions. The route records themselves, the
    base path and the document are inputs. */
module Swagger {
  import opened Text
  import opened Values
  import opened Schemas

  /** A JavaScript function, as far as this code looks at it: its `name`
      (possibly empty) and an identity. */
  datatype Fn = Fn(name: string, id: nat)

  /** `route.handler`: an array of functions, or anything else (a function,
      or nothing). */
  datatype HandlerSpec = Many(fns: seq<Fn>) | One(fn: Option<Fn>)

  /** `{ assign, method }`: a prerequisite step. */
  datatype PreStep = PreStep(assign: string, step: Fn)

  /** A security definition of the document; only its `type` is read. */
  datatype SecurityScheme = SecurityScheme(typ: Option<string>)

  /** Why registration stops at a security requirement: the document has no
      `securityDefinitions` (reading a property of undefined throws), the
      requirement names no definition (`'Security scheme not defined.'`), or
      the definition is not an API key (`'Security schemes other than api_key
      are not supported.'`). */
  datatype SecurityFailure = NoDefinitions | NotDefined(name: string) | NotApiKey(name: string)

  /** A route record as the route builder delivers it. */
  datatype SwaggerRoute = SwaggerRoute(verb: string, path: string, handler: HandlerSpec,
                                       validators: Option<seq<Prop>>, security: Option<seq<string>>)

  /** What `server.route` receives. */
  datatype Registered = Registered(verb: string, path: string, pre: seq<PreStep>, handler: Option<Fn>,
                                   validate: Option<seq<Prop>>, auth: Option<seq<string>>)

  // ---------------------------------------------------------------------------
  // Handlers (lines 67-79)

  /** `handler[i].name || 'p' + (i + 1)`. */
  function AssignName(f: Fn, i: nat): (a: string)
    ensures f.name != "" ==> a == f.name
    ensures f.name == "" ==> a == "p" + NatToString(i + 1)
  {
    if f.name != "" then f.name else "p" + NatToString(i + 1)
  }

  /** The steps the loop of lines 69-74 pushes: every element but the last. */
  function PreSteps(h: HandlerSpec): (r: seq<PreStep>)
    ensures h.One? || |h.fns| <= 1 ==> r == []
    ensures h.Many? && |h.fns| > 1 ==> |r| == |h.fns| - 1
    ensures h.Many? ==> forall i :: 0 <= i < |r| ==> r[i] == PreStep(AssignName(h.fns[i], i), h.fns[i])
  {
    if h.Many? && |h.fns| > 1 then
      seq(|h.fns| - 1, i requires 0 <= i < |h.fns| - 1 => PreStep(AssignName(h.fns[i], i), h.fns[i]))
    else []
  }

  /** Lines 76 and 78: the last element of an array (undefined for an empty
      one), or the handler itself. */
  function FinalHandler(h: HandlerSpec): (r: Option<Fn>)
    ensures h.Many? && |h.fns| > 0 ==> r == Some(h.fns[|h.fns| - 1])
    ensures h.Many? && |h.fns| == 0 ==> r.None?
    ensures h.One? ==> r == h.fn
  {
    match h
    case Many(fns) => if |fns| > 0 then Some(fns[|fns| - 1]) else None
    case One(f) => f
  }

  /** Together, the steps and the final handler are the array's functions, in order. */
  lemma HandlersInOrder(fns: seq<Fn>)
    requires |fns| > 0
    ensures var h := Many(fns);
      FinalHandler(h).Some? &&
      Steps(PreSteps(h)) + [FinalHandler(h).value] == fns
  {
    var h := Many(fns);
    var r := Steps(PreSteps(h));
    assert |r| == |fns| - 1;
    assert forall i :: 0 <= i < |r| ==> r[i] == fns[i];
    assert r + [fns[|fns| - 1]] == fns;
  }

  function Steps(pre: seq<PreStep>): (fs: seq<Fn>)
    ensures |fs| == |pre| && forall i :: 0 <= i < |pre| ==> fs[i] == pre[i].step
  {
    seq(|pre|, i requires 0 <= i < |pre| => pre[i].step)
  }

  /** Unnamed steps are named after their position: `p1`, `p2`, ... */
  lemma UnnamedStepNames(fns: seq<Fn>, i: nat)
    requires |fns| > 1 && i < |fns| - 1 && fns[i].name == ""
    ensures PreSteps(Many(fns))[i].assign == "p" + NatToString(i + 1)
    ensures Decimal(PreSteps(Many(fns))[i].assign[1..]) == i + 1
  {
    var a := PreSteps(Many(fns))[i].assign;
    assert a[1..] == NatToString(i + 1);
    DecimalOfNatToString(i + 1);
  }

  // ---------------------------------------------------------------------------
  // Validators (lines 86-106)

  /** Lines 92-93. */
  function RenameKind(v: string): (r: string)
    ensures v == "path" ==> r == "params"
    ensures v == "formData" ==> r == "payload"
    ensures v != "path" && v != "formData" ==> r == v
  {
    var v1 := if v == "path" then "params" else v;
    if v1 == "formData" then "payload" else v1
  }

  /** Two kinds meet under the same name only as `path`/`params` or `formData`/`payload`. */
  lemma RenameKindCollisions(a: string, b: string)
    requires a != b && RenameKind(a) == RenameKind(b)
    ensures {a, b} == {"path", "params"} || {a, b} == {"formData", "payload"}
  {
  }

  /** Each validator as the assignment `config.validate[kind] = ...` it makes,
      its kind renamed. */
  function Assignments(vs: seq<Prop>): (ps: seq<Prop>)
    ensures |ps| == |vs|
    ensures forall i :: 0 <= i < |vs| ==> ps[i] == Prop(RenameKind(vs[i].name), vs[i].schema)
  {
    seq(|vs|, i requires 0 <= i < |vs| => Prop(RenameKind(vs[i].name), vs[i].schema))
  }

  /** An object after the assignments `obj[ps[i].name] = ps[i].schema` of the first n props, in order. */
  function AssignAll(ps: seq<Prop>, n: nat): seq<Prop>
    requires n <= |ps|
  {
    if n == 0 then [] else SetProp(AssignAll(ps, n - 1), ps[n - 1].name, ps[n - 1].schema)
  }

  lemma {:induction false} AssignAllNames(ps: seq<Prop>, n: nat, k: string)
    requires n <= |ps|
    ensures k in Names(AssignAll(ps, n)) <==> exists i :: 0 <= i < n && ps[i].name == k
  {
    if n > 0 {
      AssignAllNames(ps, n - 1, k);
      if ps[n - 1].name == k {
        assert k in Names(AssignAll(ps, n));
      }
    }
  }

  lemma {:induction false} AssignAllLastWins(ps: seq<Prop>, n: nat, j: nat)
    requires j < n <= |ps|
    requires forall i :: j < i < n ==> ps[i].name != ps[j].name
    ensures PropSchema(AssignAll(ps, n), ps[j].name) == Some(ps[j].schema)
  {
    PropSchemaSetProp(AssignAll(ps, n - 1), ps[n - 1].name, ps[n - 1].schema, ps[j].name);
    if j < n - 1 {
      AssignAllLastWins(ps, n - 1, j);
    }
  }

  /** `config.validate` after the `forEach` of lines 88-105 has visited the
      first n validators: one hook per renamed kind, a later kind replacing
      an earlier one of the same name, in first-assignment order. */
  function RenamedValidators(vs: seq<Prop>, n: nat): seq<Prop>
    requires n <= |vs|
  {
    AssignAll(Assignments(vs), n)
  }

  /** The hooks are registered exactly under the renamed kinds of the validators. */
  lemma RenamedValidatorsNames(vs: seq<Prop>, n: nat, k: string)
    requires n <= |vs|
    ensures k in Names(RenamedValidators(vs, n)) <==> exists i :: 0 <= i < n && RenameKind(vs[i].name) == k
  {
    var ps := Assignments(vs);
    AssignAllNames(ps, n, k);
    if exists i :: 0 <= i < n && ps[i].name == k {
      var i :| 0 <= i < n && ps[i].name == k;
      assert RenameKind(vs[i].name) == k;
    }
    if exists i :: 0 <= i < n && RenameKind(vs[i].name) == k {
      var i :| 0 <= i < n && RenameKind(vs[i].name) == k;
      assert ps[i].name == k;
    }
  }

  /** The hook under a renamed kind validates with the schema of the last validator of that kind. */
  lemma RenamedValidatorsLastWins(vs: seq<Prop>, n: nat, j: nat)
    requires j < n <= |vs|
    requires forall i :: j < i < n ==> RenameKind(vs[i].name) != RenameKind(vs[j].name)
    ensures PropSchema(RenamedValidators(vs, n), RenameKind(vs[j].name)) == Some(vs[j].schema)
  {
    var ps := Assignments(vs);
    assert forall i :: j < i < n ==> ps[i].name != ps[j].name;
    AssignAllLastWins(ps, n, j);
  }

  /** No hook is registered under `path` or `formData`. */
  lemma RenamedValidatorsNeverRaw(vs: seq<Prop>, n: nat)
    requires n <= |vs|
    ensures "path" !in Names(RenamedValidators(vs, n)) && "formData" !in Names(RenamedValidators(vs, n))
  {
    RenamedValidatorsNames(vs, n, "path");
    RenamedValidatorsNames(vs, n, "formData");
  }

  /** The helper's functions that line 95 can reach by name. */
  const HelperNames: seq<string> := ["validateParams", "validateQuery", "validatePayload", "validateHeaders", "validateResponse"]

  /** Line 95: `validationHelper['validate' + v]` — the helper function a hook
      of kind v calls, or None when there is no such function and calling it
      throws a TypeError. */
  function ResolveHelper(v: string): (r: Option<string>)
    ensures r.Some? ==> r.value in HelperNames && r.value == "validate" + v
    ensures r.None? ==> "validate" + v !in HelperNames
  {
    if "validate" + v in HelperNames then Some("validate" + v) else None
  }

  /** A kind without upper-case letters names no helper function: each of
      them has an upper-case letter right after `validate`. */
  lemma LowerKindsResolveNothing(v: string)
    requires IsLower(v)
    ensures ResolveHelper(v).None?
  {
    var name := "validate" + v;
    forall i | 0 <= i < |HelperNames| ensures HelperNames[i] != name {
      assert |HelperNames[i]| > 8 && 'A' <= HelperNames[i][8] <= 'Z';
      if |v| > 0 {
        assert name[8] == v[0];
      }
    }
  }

  /** So every hook for the kinds a Swagger document declares — `path`,
      `query`, `header`, `formData`, `body` — fails when it runs. */
  lemma StandardKindsResolveNothing(v: string)
    requires v in ["path", "query", "header", "formData", "body"]
    ensures ResolveHelper(RenameKind(v)).None?
  {
    var r := RenameKind(v);
    assert r in ["params", "query", "header", "payload", "body"];
    LowerKindsResolveNothing(r);
  }

  // ---------------------------------------------------------------------------
  // Security (lines 109-122)

  /** The checks of lines 113-116 for one security requirement. */
  function KeyFailure(name: string, definitions: Option<map<string, SecurityScheme>>): (r: Option<SecurityFailure>)
    ensures r.None? <==> definitions.Some? && name in definitions.value && definitions.value[name].typ == Some("apiKey")
  {
    if definitions.None? then Some(NoDefinitions)
    else if name !in definitions.value then Some(NotDefined(name))
    else if definitions.value[name].typ != Some("apiKey") then Some(NotApiKey(name))
    else None
  }

  /** The position of the first requirement from i on that fails its checks. */
  function FirstFailure(keys: seq<string>, definitions: Option<map<string, SecurityScheme>>, i: nat): (r: Option<nat>)
    requires i <= |keys|
    ensures r.Some? ==> i <= r.value < |keys| && KeyFailure(keys[r.value], definitions).Some?
    ensures r.Some? ==> forall q :: i <= q < r.value ==> KeyFailure(keys[q], definitions).None?
    ensures r.None? ==> forall q :: i <= q < |keys| ==> KeyFailure(keys[q], definitions).None?
    decreases |keys| - i
  {
    if i == |keys| then None
    else if KeyFailure(keys[i], definitions).Some? then Some(i)
    else FirstFailure(keys, definitions, i + 1)
  }

  /** `config.auth` after the strategies `ks` were pushed (it is created
      with the first push). */
  function Accumulate(auth: Option<seq<string>>, ks: seq<string>): (r: Option<seq<string>>)
    ensures ks == [] ==> r == auth
    ensures ks != [] ==> r.Some? && r.value == (if auth.Some? then auth.value else []) + ks
  {
    if ks == [] then auth else Some((if auth.Some? then auth.value else []) + ks)
  }

  // ---------------------------------------------------------------------------
  // The configuration record

  /** The `config` object of one route, filled in step by step. */
  class HapiConfig {
    var pre: seq<PreStep>
    var handler: Option<Fn>
    var validate: Option<seq<Prop>>
    var auth: Option<seq<string>>

    /** Lines 60-64. */
    constructor()
      ensures pre == [] && handler.None? && validate.None? && auth.None?
    {
      pre := [];
      handler := None;
      validate := None;
      auth := None;
    }

    /** Lines 67-79. */
    method SetHandlers(h: HandlerSpec)
      modifies this
      ensures pre == old(pre) + PreSteps(h) && handler == FinalHandler(h)
      ensures validate == old(validate) && auth == old(auth)
    {
      match h {
        case Many(fns) =>
          if |fns| > 1 {
            var i := 0;
            while i < |fns| - 1
              invariant 0 <= i <= |fns| - 1
              invariant pre == old(pre) + PreSteps(h)[..i]
              invariant validate == old(validate) && auth == old(auth)
            {
              pre := pre + [PreStep(AssignName(fns[i], i), fns[i])];
              i := i + 1;
            }
            assert PreSteps(h)[..i] == PreSteps(h);
          }
          handler := if |fns| > 0 then Some(fns[|fns| - 1]) else None;
        case One(f) =>
          handler := f;
      }
    }

    /** Lines 86-106. */
    method AddValidators(validators: Option<seq<Prop>>)
      modifies this
      ensures validators.Some? ==> validate == Some(RenamedValidators(validators.value, |validators.value|))
      ensures validators.None? ==> validate == old(validate)
      ensures pre == old(pre) && handler == old(handler) && auth == old(auth)
    {
      if validators.Some? {
        var vs := validators.value;
        validate := Some([]);
        var i := 0;
        while i < |vs|
          invariant 0 <= i <= |vs| && validate == Some(RenamedValidators(vs, i))
          invariant pre == old(pre) && handler == old(handler) && auth == old(auth)
        {
          var v := vs[i].name;
          v := if v == "path" then "params" else v;
          v := if v == "formData" then "payload" else v;
          assert v == RenameKind(vs[i].name);
          assert RenamedValidators(vs, i + 1) == SetProp(RenamedValidators(vs, i), v, vs[i].schema);
          validate := Some(SetProp(validate.value, v, vs[i].schema));
          i := i + 1;
        }
      }
    }

    /** Lines 109-122: the strategies are pushed one by one until a requirement
        fails its checks, which aborts the registration. */
    method AddSecurity(security: Option<seq<string>>, definitions: Option<map<string, SecurityScheme>>)
      returns (failure: Option<SecurityFailure>)
      modifies this
      ensures security.None? ==> failure.None? && auth == old(auth)
      ensures security.Some? ==>
        var keys := security.value;
        var f := FirstFailure(keys, definitions, 0);
        && failure == (if f.Some? then KeyFailure(keys[f.value], definitions) else None)
        && auth == Accumulate(old(auth), keys[..if f.Some? then f.value else |keys|])
      ensures pre == old(pre) && handler == old(handler) && validate == old(validate)
    {
      failure := None;
      if security.Some? {
        var keys := security.value;
        var i := 0;
        while i < |keys|
          invariant 0 <= i <= |keys|
          invariant forall q :: 0 <= q < i ==> KeyFailure(keys[q], definitions).None?
          invariant failure.None?
          invariant auth == Accumulate(old(auth), keys[..i])
          invariant pre == old(pre) && handler == old(handler) && validate == old(validate)
        {
          var name := keys[i];
          failure := KeyFailure(name, definitions);
          if failure.Some? {
            FirstFailureIs(keys, definitions, 0, i);
            return;
          }
          var strategies := if auth.Some? then auth.value else [];
          auth := Some(strategies + [name]);
          assert keys[..i + 1] == keys[..i] + [name];
          AccumulatePush(old(auth), keys[..i], name);
          i := i + 1;
        }
        assert keys[..i] == keys;
        FirstFailureNone(keys, definitions, 0);
      }
    }
  }

  lemma AccumulatePush(auth: Option<seq<string>>, ks: seq<string>, name: string)
    ensures var a := Accumulate(auth, ks);
      Accumulate(auth, ks + [name]) == Some((if a.Some? then a.value else []) + [name])
  {
    var base := if auth.Some? then auth.value else [];
    if ks != [] {
      assert Accumulate(auth, ks) == Some(base + ks);
      assert Accumulate(auth, ks + [name]) == Some(base + (ks + [name]));
      assert base + (ks + [name]) == (base + ks) + [name];
    } else {
      assert ks + [name] == [name];
    }
  }

  lemma {:induction false} FirstFailureIs(keys: seq<string>, definitions: Option<map<string, SecurityScheme>>, i: nat, j: nat)
    requires i <= j < |keys| && KeyFailure(keys[j], definitions).Some?
    requires forall q :: i <= q < j ==> KeyFailure(keys[q], definitions).None?
    ensures FirstFailure(keys, definitions, i) == Some(j)
    decreases j - i
  {
    if i < j {
      FirstFailureIs(keys, definitions, i + 1, j);
    }
  }

  lemma {:induction false} FirstFailureNone(keys: seq<string>, definitions: Option<map<string, SecurityScheme>>, i: nat)
    requires i <= |keys|
    requires forall q :: i <= q < |keys| ==> KeyFailure(keys[q], definitions).None?
    ensures FirstFailure(keys, definitions, i).None?
    decreases |keys| - i
  {
    if i < |keys| {
      FirstFailureNone(keys, definitions, i + 1);
    }
  }

  /** Security succeeds iff every requirement names an `apiKey` definition,
      and then a fresh configuration's strategies are the requirements, in order
      (none at all when there are none). */
  lemma SecuritySucceeds(keys: seq<string>, definitions: Option<map<string, SecurityScheme>>)
    ensures FirstFailure(keys, definitions, 0).None? <==>
      forall q :: 0 <= q < |keys| ==>
        definitions.Some? && keys[q] in definitions.value && definitions.value[keys[q]].typ == Some("apiKey")
    ensures FirstFailure(keys, definitions, 0).None? ==>
      Accumulate(None, keys) == if keys == [] then None else Some(keys)
  {
    if FirstFailure(keys, definitions, 0).Some? {
      var j := FirstFailure(keys, definitions, 0).value;
      assert KeyFailure(keys[j], definitions).Some?;
    } else {
      assert forall q :: 0 <= q < |keys| ==> KeyFailure(keys[q], definitions).None?;
    }
    assert [] + keys == keys;
  }

  // ---------------------------------------------------------------------------
  // One route, and all of them

  /** The body of `routes.forEach` for one route: the configuration, then
      `server.route` with `basePath + route.path`, unless a security
      requirement fails. */
  method RegisterRoute(route: SwaggerRoute, basePath: string, definitions: Option<map<string, SecurityScheme>>)
    returns (r: Result)
    ensures r == RouteResult(route, basePath, definitions)
  {
    var config := new HapiConfig();
    config.SetHandlers(route.handler);
    config.AddValidators(route.validators);
    var failure := config.AddSecurity(route.security, definitions);
    if failure.Some? {
      r := Failed(failure.value);
    } else {
      r := Ok(Registered(route.verb, basePath + route.path, config.pre, config.handler, config.validate, config.auth));
    }
  }

  datatype Result = Ok(route: Registered) | Failed(failure: SecurityFailure)

  /** The registration of one route, as a value. */
  function RouteResult(route: SwaggerRoute, basePath: string, definitions: Option<map<string, SecurityScheme>>): (r: Result)
    ensures r.Ok? ==> && r.route.verb == route.verb && r.route.path == basePath + route.path
                      && r.route.pre == PreSteps(route.handler) && r.route.handler == FinalHandler(route.handler)
                      && r.route.validate == (if route.validators.Some?
                                              then Some(RenamedValidators(route.validators.value, |route.validators.value|))
                                              else None)
                      && r.route.auth == (if route.security.Some? then Accumulate(None, route.security.value) else None)
    ensures r.Failed? <==> route.security.Some? && FirstFailure(route.security.value, definitions, 0).Some?
  {
    var f := if route.security.Some? then FirstFailure(route.security.value, definitions, 0) else None;
    if f.Some? then Failed(KeyFailure(route.security.value[f.value], definitions).value)
    else
      var auth := if route.security.Some? then Accumulate(None, route.security.value[..|route.security.value|]) else None;
      assert route.security.Some? ==> route.security.value[..|route.security.value|] == route.security.value;
      Ok(Registered(route.verb, basePath + route.path, PreSteps(route.handler), FinalHandler(route.handler),
                    if route.validators.Some? then Some(RenamedValidators(route.validators.value, |route.validators.value|)) else None,
                    auth))
  }

  /** Lines 56-131: the routes registered before the first failing one, and
      that failure, if any (a failed assertion aborts the loop). */
  method RegisterAll(routes: seq<SwaggerRoute>, basePath: string, definitions: Option<map<string, SecurityScheme>>)
    returns (registered: seq<Registered>, failure: Option<SecurityFailure>)
    ensures |registered| <= |routes|
    ensures forall i :: 0 <= i < |registered| ==> RouteResult(routes[i], basePath, definitions) == Ok(registered[i])
    ensures failure.None? ==> |registered| == |routes|
    ensures failure.Some? ==> |registered| < |routes|
                              && RouteResult(routes[|registered|], basePath, definitions) == Failed(failure.value)
  {
    registered := [];
    failure := None;
    var i := 0;
    while i < |routes|
      invariant 0 <= i <= |routes| && |registered| == i
      invariant forall q :: 0 <= q < i ==> RouteResult(routes[q], basePath, definitions) == Ok(registered[q])
    {
      var r := RegisterRoute(routes[i], basePath, definitions);
      if r.Failed? {
        failure := Some(r.failure);
        return;
      }
      registered := registered + [r.route];
      i := i + 1;
    }
  }
}

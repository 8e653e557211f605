/** The per-link route assembly of index.js (lines 24-135): for each link of
    an API document, the URI template's matches are grouped by kind into an
    object schema for the path parameters and one for the query, a hook is
    attached for each non-empty group and for a link that declares a request
    body schema, and one route configuration is produced per link, in link
    order. Template parsing, schema compilation and the route handler factory
    belong to other libraries: they are parameters. */
module Routes {
  import opened Values
  import opened Schemas
  import opened Validator

  /** One variable of the parsed URI template: its name, `param` or `query`,
      and the schema it is declared with. */
  datatype Match = Match(key: string, kind: string, definition: Schema)

  /** What the template parser returns for a link's `href`. */
  datatype Href = Href(path: string, matches: seq<Match>)

  /** A link of the API document: `verb` is its `method`, `schema` the request
      body schema, if any. */
  datatype Link = Link(href: string, verb: string, description: Option<string>, schema: Option<Schema>)

  datatype ApiDocument = ApiDocument(links: seq<Link>)

  /** The hooks attached to a route, each given by the schema it validates against. */
  datatype Validate = Validate(params: Option<Schema>, query: Option<Schema>, payload: Option<Schema>)

  datatype RouteConfig<H> = RouteConfig(path: string, verb: string, description: Option<string>, handler: H, validate: Validate)

  datatype HookKind = ParamsHook | QueryHook | PayloadHook

  /** What a hook passes to `next`: the value (as coerced in place), or a
      bad-request error carrying the validator's errors as `details`. */
  datatype Outcome = Continue(value: Value) | BadRequest(message: string, details: Option<seq<ValidationError>>)

  predicate HasKind(ms: seq<Match>, kind: string) {
    exists i :: 0 <= i < |ms| && ms[i].kind == kind
  }

  /** `properties` after `forEach` has assigned `properties[m.key] = m.definition`
      for the matches of the given kind among the first n (lines 33 and 40-42,
      59 and 65-67: `filter` keeps the order, so filtering and assigning can
      be done in one pass). */
  function GroupProps(ms: seq<Match>, kind: string, n: nat): seq<Prop>
    requires n <= |ms|
  {
    if n == 0 then []
    else if ms[n - 1].kind == kind then SetProp(GroupProps(ms, kind, n - 1), ms[n - 1].key, ms[n - 1].definition)
    else GroupProps(ms, kind, n - 1)
  }

  /** `{ type: 'object', properties: {...} }` for one kind of match. */
  function GroupSchema(ms: seq<Match>, kind: string): (s: Schema)
    ensures s.typ == Some("object") && s.properties.Declared? && s.items.None? && s.others == []
  {
    Schema(Some("object"), Declared(GroupProps(ms, kind, |ms|)), None, [])
  }

  /** The declared names are exactly the keys of the matches of that kind. */
  lemma {:induction false} GroupPropsNames(ms: seq<Match>, kind: string, n: nat, k: string)
    requires n <= |ms|
    ensures k in Names(GroupProps(ms, kind, n)) <==> exists i :: 0 <= i < n && ms[i].kind == kind && ms[i].key == k
  {
    if n > 0 {
      GroupPropsNames(ms, kind, n - 1, k);
      if ms[n - 1].kind == kind && ms[n - 1].key == k {
        assert k in Names(GroupProps(ms, kind, n));
      }
    }
  }

  /** A key given by several matches of the kind takes the definition of the last one. */
  lemma {:induction false} GroupPropsLastWins(ms: seq<Match>, kind: string, n: nat, j: nat)
    requires j < n <= |ms| && ms[j].kind == kind
    requires forall i :: j < i < n && ms[i].kind == kind ==> ms[i].key != ms[j].key
    ensures PropSchema(GroupProps(ms, kind, n), ms[j].key) == Some(ms[j].definition)
  {
    var m := ms[n - 1];
    if m.kind == kind {
      PropSchemaSetProp(GroupProps(ms, kind, n - 1), m.key, m.definition, ms[j].key);
    }
    if j < n - 1 {
      GroupPropsLastWins(ms, kind, n - 1, j);
    }
  }

  lemma {:induction false} GroupPropsDistinct(ms: seq<Match>, kind: string, n: nat)
    requires n <= |ms|
    ensures DistinctNames(GroupProps(ms, kind, n))
  {
    if n > 0 {
      GroupPropsDistinct(ms, kind, n - 1);
      if ms[n - 1].kind == kind {
        SetPropKeepsDistinct(GroupProps(ms, kind, n - 1), ms[n - 1].key, ms[n - 1].definition);
      }
    }
  }

  /** Lines 28-100: the hooks of one link. */
  function DeriveValidate(href: Href, link: Link): (v: Validate)
    ensures v.params.Some? <==> HasKind(href.matches, "param")
    ensures v.query.Some? <==> HasKind(href.matches, "query")
    ensures v.params.Some? ==> v.params.value == GroupSchema(href.matches, "param")
    ensures v.query.Some? ==> v.query.value == GroupSchema(href.matches, "query")
    ensures v.payload == link.schema
  {
    var ms := href.matches;
    var params := if |ms| > 0 && HasKind(ms, "param") then Some(GroupSchema(ms, "param")) else None;
    var query := if |ms| > 0 && HasKind(ms, "query") then Some(GroupSchema(ms, "query")) else None;
    Validate(params, query, link.schema)
  }

  /** Every key declared by a derived group schema belongs to a match of that kind, and the other way round. */
  lemma DerivedSchemaKeys(href: Href, link: Link, k: string)
    ensures var v := DeriveValidate(href, link);
      v.params.Some? ==>
        (k in Names(v.params.value.properties.props) <==>
         exists i :: 0 <= i < |href.matches| && href.matches[i].kind == "param" && href.matches[i].key == k)
    ensures var v := DeriveValidate(href, link);
      v.query.Some? ==>
        (k in Names(v.query.value.properties.props) <==>
         exists i :: 0 <= i < |href.matches| && href.matches[i].kind == "query" && href.matches[i].key == k)
  {
    GroupPropsNames(href.matches, "param", |href.matches|, k);
    GroupPropsNames(href.matches, "query", |href.matches|, k);
  }

  /** A link without template variables and without a body schema gets no hook. */
  lemma NoMatchesNoHooks(href: Href, link: Link)
    requires href.matches == [] && link.schema.None?
    ensures DeriveValidate(href, link) == Validate(None, None, None)
  {
  }

  /** Lines 102-113: the route configuration of one link. */
  function BuildRoute<H>(link: Link, href: Href, handler: H): (r: RouteConfig<H>)
    ensures r.path == href.path && r.verb == link.verb && r.description == link.description
    ensures r.handler == handler && r.validate == DeriveValidate(href, link)
  {
    RouteConfig(href.path, link.verb, link.description, handler, DeriveValidate(href, link))
  }

  /** Line 24: `schema.links.map(...)` for the document read from `file`. */
  function BuildRoutes<H>(file: string, doc: ApiDocument, parseHref: (string, ApiDocument) -> Href,
                          makeHandler: (string, ApiDocument, Link) -> H): (rs: seq<RouteConfig<H>>)
    ensures |rs| == |doc.links|
    ensures forall i :: 0 <= i < |doc.links| ==>
      var href := parseHref(doc.links[i].href, doc);
      && rs[i].path == href.path
      && rs[i].verb == doc.links[i].verb
      && rs[i].description == doc.links[i].description
      && rs[i].handler == makeHandler(file, doc, doc.links[i])
      && rs[i].validate == DeriveValidate(href, doc.links[i])
  {
    seq(|doc.links|, i requires 0 <= i < |doc.links| =>
      BuildRoute(doc.links[i], parseHref(doc.links[i].href, doc), makeHandler(file, doc, doc.links[i])))
  }

  /** The Boom message of each hook (index.js lines 51, 76 and 95): all share
      the `Validation Error - ` prefix and name the part of the request. */
  function HookMessage(kind: HookKind): (m: string)
    ensures |m| > 19 && m[..19] == "Validation Error - "
    ensures kind.ParamsHook? ==> m == "Validation Error - Path Params"
    ensures kind.QueryHook? ==> m == "Validation Error - Query Params"
    ensures kind.PayloadHook? ==> m == "Validation Error - Payload"
  {
    match kind
    case ParamsHook => "Validation Error - Path Params"
    case QueryHook => "Validation Error - Query Params"
    case PayloadHook => "Validation Error - Payload"
  }

  /** Different hooks report different messages. */
  lemma HookMessagesDiffer(a: HookKind, b: HookKind)
    requires a != b
    ensures HookMessage(a) != HookMessage(b)
  {
    assert HookMessage(a)[19] != HookMessage(b)[19] || |HookMessage(a)| != |HookMessage(b)|;
  }

  /** Lines 48-53, 73-78, 92-97: what a hook does with its report. */
  function OutcomeOf(kind: HookKind, report: Report, value: Value): (o: Outcome)
    ensures o.Continue? <==> report.valid
    ensures o.Continue? ==> o.value == value
    ensures o.BadRequest? ==> o.message == HookMessage(kind) && o.details == report.errors
  {
    if report.valid then Continue(value) else BadRequest(HookMessage(kind), report.errors)
  }

  /** A hook run on a request value: the helper's builder for its kind, then
      `next`. `compile` stands for `ajv.compile`. */
  method RunHook(kind: HookKind, schema: Schema, compile: Schema -> SchemaValidator, rv: RequestValue,
                 headers: map<string, string>, num: NumberParser) returns (o: Outcome)
    modifies rv
    ensures kind.ParamsHook? ==> rv.value == Coercion.InPlace(old(rv.value), schema, false, num)
    ensures kind.QueryHook? ==>
      rv.value == Coercion.InPlace(QueryArrays.CollapseQuery(old(rv.value)), schema, true, num)
    ensures kind.PayloadHook? ==>
      rv.value == if IsFormPayload(headers) then Coercion.InPlace(old(rv.value), schema, false, num) else old(rv.value)
    ensures o == OutcomeOf(kind, ReportOf(compile(schema)(rv.value)), rv.value)
  {
    var report;
    match kind {
      case ParamsHook => report := rv.ValidateParams(schema, compile(schema), num);
      case QueryHook => report := rv.ValidateQuery(schema, compile(schema), num);
      case PayloadHook => report := rv.ValidatePayload(schema, compile(schema), headers, num);
    }
    o := OutcomeOf(kind, report, rv.value);
  }
}

/** The part of a JSON Schema that the coercion engine reads: `type`,
    `properties` (declared in key order), `items` (the single-schema form),
    and the names of every other keyword, which the engine never looks into
    but which count as own keys of the object (the array branch loops once
    per own key of `items`). */
module Schemas {
  import opened Values

  datatype Schema = Schema(typ: Option<string>, properties: Properties, items: Option<Schema>, others: seq<string>)

  /** `schema.properties`: absent, or an object (truthy even when empty). */
  datatype Properties = Absent | Declared(props: seq<Prop>)

  datatype Prop = Prop(name: string, schema: Schema)

  /** How many own keys a schema object has. */
  function OwnKeyCount(s: Schema): (n: nat)
    ensures s.typ.Some? || s.properties.Declared? || s.items.Some? ==> n > 0
  {
    (if s.typ.Some? then 1 else 0) + (if s.properties.Declared? then 1 else 0)
      + (if s.items.Some? then 1 else 0) + |s.others|
  }

  /** The item types for which a lone query value is wrapped into an array. */
  predicate IsScalarType(t: Option<string>) {
    t == Some("string") || t == Some("number") || t == Some("integer") || t == Some("boolean")
  }

  function Names(props: seq<Prop>): (ns: seq<string>)
    ensures |ns| == |props|
    ensures forall i :: 0 <= i < |props| ==> ns[i] == props[i].name
  {
    seq(|props|, i requires 0 <= i < |props| => props[i].name)
  }

  predicate DistinctNames(props: seq<Prop>) {
    forall i, j :: 0 <= i < j < |props| ==> props[i].name != props[j].name
  }

  /** A schema that JSON could express: no `properties` object declares the
      same name twice, and the other keywords are distinct names different
      from `type`, `properties` and `items`, at any depth. (Of the other
      keywords only their number reaches the engine, and only whether it is
      zero changes a result: see Coercion.ArrayBranch.) */
  predicate WellFormed(s: Schema)
    decreases s, 1
  {
    && (forall i, j :: 0 <= i < j < |s.others| ==> s.others[i] != s.others[j])
    && (forall i :: 0 <= i < |s.others| ==> s.others[i] != "type" && s.others[i] != "properties" && s.others[i] != "items")
    && (s.items.Some? ==> WellFormed(s.items.value))
    && (s.properties.Declared? ==> DistinctNames(s.properties.props) && PropsWellFormed(s, 0))
  }

  predicate PropsWellFormed(s: Schema, i: nat)
    requires s.properties.Declared?
    decreases s, 0, |s.properties.props| - i
  {
    i < |s.properties.props| ==> WellFormed(s.properties.props[i].schema) && PropsWellFormed(s, i + 1)
  }

  lemma {:induction false} PropsWellFormedAt(s: Schema, i: nat, j: nat)
    requires s.properties.Declared? && PropsWellFormed(s, i) && i <= j < |s.properties.props|
    ensures WellFormed(s.properties.props[j].schema)
    decreases j - i
  {
    if i < j {
      PropsWellFormedAt(s, i + 1, j);
    }
  }

  /** The position of the first declaration of `name` at or after position i. */
  function FindProp(props: seq<Prop>, i: nat, name: string): (r: Option<nat>)
    requires i <= |props|
    ensures r.Some? ==> i <= r.value < |props| && props[r.value].name == name
    ensures r.Some? ==> forall q :: i <= q < r.value ==> props[q].name != name
    ensures r.None? ==> forall q :: i <= q < |props| ==> props[q].name != name
    decreases |props| - i
  {
    if i == |props| then None
    else if props[i].name == name then Some(i)
    else FindProp(props, i + 1, name)
  }

  /** `properties[name] = schema` on a properties object under construction:
      a name already present keeps its position and takes the new schema. */
  function SetProp(props: seq<Prop>, name: string, schema: Schema): (r: seq<Prop>)
    ensures name in Names(props) ==> Names(r) == Names(props)
    ensures name !in Names(props) ==> Names(r) == Names(props) + [name]
  {
    match FindProp(props, 0, name)
    case Some(p) => props[p := Prop(name, schema)]
    case None => props + [Prop(name, schema)]
  }

  lemma SetPropKeepsDistinct(props: seq<Prop>, name: string, schema: Schema)
    requires DistinctNames(props)
    ensures DistinctNames(SetProp(props, name, schema))
  {
  }

  /** `properties[name]`: the schema declared for a name, if any. */
  function PropSchema(props: seq<Prop>, name: string): (r: Option<Schema>)
    ensures r.None? <==> name !in Names(props)
  {
    match FindProp(props, 0, name)
    case Some(p) => Some(props[p].schema)
    case None => None
  }

  lemma {:induction false} FindPropIs(props: seq<Prop>, start: nat, i: nat, name: string)
    requires start <= i < |props| && props[i].name == name
    requires forall q :: start <= q < i ==> props[q].name != name
    ensures FindProp(props, start, name) == Some(i)
    decreases i - start
  {
    if start < i {
      FindPropIs(props, start + 1, i, name);
    }
  }

  /** A read after `properties[name] = schema` sees the new schema at `name`
      and the old declarations elsewhere. */
  lemma PropSchemaSetProp(props: seq<Prop>, name: string, schema: Schema, k: string)
    ensures PropSchema(SetProp(props, name, schema), k) == if k == name then Some(schema) else PropSchema(props, k)
  {
    var r := SetProp(props, name, schema);
    if k != name {
      assert FindProp(r, 0, k) == FindProp(props, 0, k) by {
        match FindProp(props, 0, k)
        case Some(i) => assert r[i] == props[i];
        case None =>
      }
    } else {
      match FindProp(props, 0, k)
      case Some(i) => FindPropIs(r, 0, i, k);
      case None => FindPropIs(r, 0, |props|, k);
    }
  }
}

/** `modifyHeadersSchema` of lib/validator.js: a fresh copy of a schema in
    which every name declared under `properties`, at every depth reached
    through `properties`, is lower-cased. Every other keyword (`type`,
    `items`, and the rest) is copied as it is, without descending into it.
    When two declared names lower-case to the same name, the later
    declaration wins and keeps the position of the first. */
module HeaderSchema {
  import opened Text
  import opened Values
  import opened Schemas

  function LowerHeaders(s: Schema): (r: Schema)
    ensures r.typ == s.typ && r.items == s.items && r.others == s.others
    ensures r.properties.Declared? <==> s.properties.Declared?
    ensures OwnKeyCount(r) == OwnKeyCount(s)
    decreases s, 1
  {
    match s.properties
    case Absent => s
    case Declared(props) => Schema(s.typ, Declared(LowerFold(s, |props|)), s.items, s.others)
  }

  /** The new `properties` object after the loop of lines 12-16 has visited the
      first n declarations. */
  function LowerFold(s: Schema, n: nat): seq<Prop>
    requires s.properties.Declared? && n <= |s.properties.props|
    decreases s, 0, n
  {
    if n == 0 then []
    else
      var p := s.properties.props[n - 1];
      SetProp(LowerFold(s, n - 1), ToLower(p.name), LowerHeaders(p.schema))
  }

  /** A schema whose declared names are all lower-case and distinct, at every
      depth reached through `properties`. */
  predicate Lowered(s: Schema)
    decreases s, 1
  {
    s.properties.Declared? ==> DistinctNames(s.properties.props) && LoweredProps(s, 0)
  }

  predicate LoweredProps(s: Schema, i: nat)
    requires s.properties.Declared?
    decreases s, 0, |s.properties.props| - i
  {
    i < |s.properties.props| ==>
      IsLower(s.properties.props[i].name) && Lowered(s.properties.props[i].schema) && LoweredProps(s, i + 1)
  }

  lemma {:induction false} LoweredPropsAt(s: Schema, i: nat, j: nat)
    requires s.properties.Declared? && LoweredProps(s, i) && i <= j < |s.properties.props|
    ensures IsLower(s.properties.props[j].name) && Lowered(s.properties.props[j].schema)
    decreases j - i
  {
    if i < j {
      LoweredPropsAt(s, i + 1, j);
    }
  }

  lemma {:induction false} LoweredPropsFrom(s: Schema, i: nat)
    requires s.properties.Declared? && i <= |s.properties.props|
    requires forall j :: i <= j < |s.properties.props| ==>
      IsLower(s.properties.props[j].name) && Lowered(s.properties.props[j].schema)
    ensures LoweredProps(s, i)
    decreases |s.properties.props| - i
  {
    if i < |s.properties.props| {
      LoweredPropsFrom(s, i + 1);
    }
  }

  lemma ToLowerOfLower(s: string)
    requires IsLower(s)
    ensures ToLower(s) == s
  {
    assert forall i :: 0 <= i < |s| ==> ToLower(s)[i] == s[i];
  }

  /** The names the new `properties` object holds are exactly the lower-cased
      names of the visited declarations. */
  lemma {:induction false} LowerFoldNames(s: Schema, n: nat, k: string)
    requires s.properties.Declared? && n <= |s.properties.props|
    ensures k in Names(LowerFold(s, n)) <==> exists j :: 0 <= j < n && ToLower(s.properties.props[j].name) == k
  {
    if n > 0 {
      LowerFoldNames(s, n - 1, k);
      var p := s.properties.props[n - 1];
      var acc := LowerFold(s, n - 1);
      assert LowerFold(s, n) == SetProp(acc, ToLower(p.name), LowerHeaders(p.schema));
      if k == ToLower(p.name) {
        assert k in Names(LowerFold(s, n));
      }
    }
  }

  /** Every name of the new object is lower-case, none appears twice, and every
      declared sub-schema is itself lowered. */
  lemma {:induction false} LowerFoldLowered(s: Schema, n: nat)
    requires s.properties.Declared? && n <= |s.properties.props|
    ensures DistinctNames(LowerFold(s, n))
    ensures forall j :: 0 <= j < |LowerFold(s, n)| ==>
      IsLower(LowerFold(s, n)[j].name) && Lowered(LowerFold(s, n)[j].schema)
    decreases s, 0, n
  {
    if n > 0 {
      LowerFoldLowered(s, n - 1);
      var p := s.properties.props[n - 1];
      var acc := LowerFold(s, n - 1);
      var name := ToLower(p.name);
      assert LowerFold(s, n) == SetProp(acc, name, LowerHeaders(p.schema));
      ToLowerIsLower(p.name);
      LowerHeadersLowered(p.schema);
      SetPropKeepsDistinct(acc, name, LowerHeaders(p.schema));
    }
  }

  /** The copy is lowered at every depth reached through `properties`. */
  lemma LowerHeadersLowered(s: Schema)
    ensures Lowered(LowerHeaders(s))
    decreases s, 1
  {
    if s.properties.Declared? {
      LowerFoldLowered(s, |s.properties.props|);
      LoweredPropsFrom(LowerHeaders(s), 0);
    }
  }

  /** A schema that is already lowered is copied unchanged. */
  lemma LowerHeadersOfLowered(s: Schema)
    requires Lowered(s)
    ensures LowerHeaders(s) == s
    decreases s, 1
  {
    if s.properties.Declared? {
      LowerFoldOfLowered(s, |s.properties.props|);
    }
  }

  lemma {:induction false} LowerFoldOfLowered(s: Schema, n: nat)
    requires s.properties.Declared? && n <= |s.properties.props| && Lowered(s)
    ensures LowerFold(s, n) == s.properties.props[..n]
    decreases s, 0, n
  {
    if n > 0 {
      var props := s.properties.props;
      LowerFoldOfLowered(s, n - 1);
      LoweredPropsAt(s, 0, n - 1);
      var p := props[n - 1];
      ToLowerOfLower(p.name);
      LowerHeadersOfLowered(p.schema);
      assert p.name !in Names(props[..n - 1]);
      assert FindProp(props[..n - 1], 0, p.name).None?;
      assert props[..n] == props[..n - 1] + [p];
    }
  }

  /** Lower-casing the header names twice is the same as once. */
  lemma LowerHeadersIdempotent(s: Schema)
    ensures LowerHeaders(LowerHeaders(s)) == LowerHeaders(s)
  {
    LowerHeadersLowered(s);
    LowerHeadersOfLowered(LowerHeaders(s));
  }

  /** Of the declarations that lower-case to the same name, the last one
      supplies that name's (lowered) schema. */
  lemma {:induction false} LowerFoldLastWins(s: Schema, n: nat, j: nat)
    requires s.properties.Declared? && j < n <= |s.properties.props|
    requires forall j' :: j < j' < n ==>
      ToLower(s.properties.props[j'].name) != ToLower(s.properties.props[j].name)
    ensures PropSchema(LowerFold(s, n), ToLower(s.properties.props[j].name))
         == Some(LowerHeaders(s.properties.props[j].schema))
  {
    var p := s.properties.props[n - 1];
    var k := ToLower(s.properties.props[j].name);
    assert LowerFold(s, n) == SetProp(LowerFold(s, n - 1), ToLower(p.name), LowerHeaders(p.schema));
    PropSchemaSetProp(LowerFold(s, n - 1), ToLower(p.name), LowerHeaders(p.schema), k);
    if j < n - 1 {
      LowerFoldLastWins(s, n - 1, j);
    }
  }

  /** The whole copy: its `properties` hold exactly the lower-cased declared
      names, each with the lowered schema of the last declaration of that name. */
  lemma LowerHeadersProperties(s: Schema, j: nat)
    requires s.properties.Declared? && j < |s.properties.props|
    requires forall j' :: j < j' < |s.properties.props| ==>
      ToLower(s.properties.props[j'].name) != ToLower(s.properties.props[j].name)
    ensures PropSchema(LowerHeaders(s).properties.props, ToLower(s.properties.props[j].name))
         == Some(LowerHeaders(s.properties.props[j].schema))
    ensures forall k :: k in Names(LowerHeaders(s).properties.props) <==>
      exists i :: 0 <= i < |s.properties.props| && ToLower(s.properties.props[i].name) == k
  {
    LowerFoldLastWins(s, |s.properties.props|, j);
    forall k ensures k in Names(LowerHeaders(s).properties.props) <==>
      exists i :: 0 <= i < |s.properties.props| && ToLower(s.properties.props[i].name) == k
    {
      LowerFoldNames(s, |s.properties.props|, k);
    }
  }
}

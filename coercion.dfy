/** The type-coercion engine of lib/validator.js: the scalar converter
    `convertValueFromStringToType` and the schema-driven rewriter
    `convertPropertyTypesToMatchSchema`, as functions computing the value the
    rewriter returns. The rewriter's in-place loops are the methods of
    Validator.RequestValue, proved equal to these functions. */
module Coercion {
  import opened Values
  import opened Schemas

  predicate IsNumericType(typ: Option<string>) {
    typ == Some("integer") || typ == Some("number")
  }

  /** Whether the numeric conversion of `s` is kept: line 31 reads
      `convertedVal || convertedVal === 0 && (...)`, and `&&` binds tighter than
      `||`, so the "no decimal point" test only guards the zero case. */
  predicate NumberAccepted(n: Number, typ: Option<string>, s: string) {
    n.NonZero? || (n.Zero? && (typ == Some("number") || '.' !in s))
  }

  /** `convertValueFromStringToType(value, type)`. */
  function ConvertValueFromStringToType(v: Value, typ: Option<string>, num: NumberParser): (r: Value)
    ensures !v.Str? ==> r == v
    ensures typ == Some("string") ==> r == v
    ensures !IsNumericType(typ) && typ != Some("boolean") ==> r == v
    ensures v.Str? && typ == Some("boolean") ==>
      r == (if v.s == "true" then Bool(true) else if v.s == "false" then Bool(false) else v)
    ensures v.Str? && IsNumericType(typ) ==>
      (r.Num? <==> NumberAccepted(num(v.s), typ, v.s)) && (r.Num? ==> r == Num(num(v.s))) && (!r.Num? ==> r == v)
    ensures r == v || r.Num? || r.Bool?
  {
    if !v.Str? || typ == Some("string") then v
    else if typ == Some("integer") || typ == Some("number") then
      var converted := num(v.s);
      if Truthy(Num(converted)) || (converted == Zero && (typ == Some("number") || '.' !in v.s))
      then Num(converted)
      else v
    else if typ == Some("boolean") then
      if v.s == "true" then Bool(true) else if v.s == "false" then Bool(false) else v
    else v
  }

  /** Lines 47-50: with `forceArrayConversion`, a lone string whose schema
      expects an array of scalars is wrapped into a one-element array. */
  function Wrapped(v: Value, s: Schema, force: bool): (w: Value)
    ensures w == v || (w == Arr([v]) && v.Str?)
  {
    if force && s.typ == Some("array") && v.Str? && s.items.Some? && IsScalarType(s.items.value.typ)
    then Arr([v])
    else v
  }

  /** The value `convertPropertyTypesToMatchSchema(v, s, force)` returns. */
  function Coerce(v: Value, s: Schema, force: bool, num: NumberParser): (r: Value)
    ensures v.Obj? ==> r.Obj? && Keys(r.entries) == Keys(v.entries)
    ensures v.Arr? ==> r.Arr? && |r.elems| == |v.elems|
    ensures v.Undefined? || v.Num? || v.Bool? ==> r == v
    decreases s, 2
  {
    var w := Wrapped(v, s, force);
    if (w.Obj? || w.Arr?) && s.properties.Declared? then
      // typeof [] is 'object' too: an array under a schema with `properties`
      // goes through the object branch, which finds none of its keys declared
      if w.Obj? then Obj(CoerceProps(w.entries, s, 0, force, num)) else w
    else if s.typ == Some("array") && w.Arr? && s.items.Some? then
      Arr(Passes(w.elems, s, OwnKeyCount(s.items.value), force, num))
    else
      ConvertValueFromStringToType(w, s.typ, num)
  }

  /** Lines 53-57 from declaration i on: each declared property that the
      object already has is replaced by its own coercion. */
  function CoerceProps(entries: seq<Entry>, s: Schema, i: nat, force: bool, num: NumberParser): (r: seq<Entry>)
    requires s.properties.Declared?
    ensures Keys(r) == Keys(entries)
    decreases s, 1, |s.properties.props| - i
  {
    if i >= |s.properties.props| then entries
    else CoerceProps(CoerceProp(entries, s, i, force, num), s, i + 1, force, num)
  }

  /** One turn of the loop of lines 53-57, for declaration i. */
  function CoerceProp(entries: seq<Entry>, s: Schema, i: nat, force: bool, num: NumberParser): (r: seq<Entry>)
    requires s.properties.Declared? && i < |s.properties.props|
    ensures Keys(r) == Keys(entries)
    decreases s, 0
  {
    var p := s.properties.props[i];
    match Get(entries, p.name)
    case Some(x) => Set(entries, p.name, Coerce(x, p.schema, force, num))
    case None => entries
  }

  /** Lines 60-66: the element pass runs once per own key of `items` (k of them left). */
  function Passes(elems: seq<Value>, s: Schema, k: nat, force: bool, num: NumberParser): (r: seq<Value>)
    requires s.items.Some?
    ensures |r| == |elems|
    decreases s, 1, k
  {
    if k == 0 then elems else Passes(CoerceAll(elems, s, force, num), s, k - 1, force, num)
  }

  /** One element pass (lines 62-64): every element replaced by its coercion under `items`. */
  function CoerceAll(elems: seq<Value>, s: Schema, force: bool, num: NumberParser): (r: seq<Value>)
    requires s.items.Some?
    ensures |r| == |elems|
    decreases s, 0
  {
    seq(|elems|, i requires 0 <= i < |elems| => Coerce(elems[i], s.items.value, force, num))
  }

  /** What a caller that discards the returned value observes: objects and
      arrays are rewritten in place, a string (a primitive) is not, and the
      one-element array lines 47-50 build is a local that is dropped. */
  function InPlace(v: Value, s: Schema, force: bool, num: NumberParser): (r: Value)
    ensures !(v.Obj? || v.Arr?) ==> r == v
    ensures v.Obj? || v.Arr? ==> r == Coerce(v, s, force, num)
  {
    if v.Obj? || v.Arr? then Coerce(v, s, force, num) else v
  }

  // ---------------------------------------------------------------------------
  // The object branch

  /** The decl schema that CoerceProp uses for a key, from declaration i on. */
  function CoercedFrom(x: Value, props: seq<Prop>, i: nat, key: string, force: bool, num: NumberParser): Value
    requires i <= |props|
  {
    match FindProp(props, i, key)
    case Some(p) => Coerce(x, props[p].schema, force, num)
    case None => x
  }

  /** One turn of the object loop rewrites exactly the entry of the declared key. */
  lemma CoercePropAt(entries: seq<Entry>, s: Schema, i: nat, j: nat, force: bool, num: NumberParser)
    requires s.properties.Declared? && i < |s.properties.props|
    requires DistinctKeys(entries) && j < |entries|
    ensures DistinctKeys(CoerceProp(entries, s, i, force, num))
    ensures |CoerceProp(entries, s, i, force, num)| == |entries|
    ensures CoerceProp(entries, s, i, force, num)[j]
         == if entries[j].key == s.properties.props[i].name
            then Entry(entries[j].key, Coerce(entries[j].value, s.properties.props[i].schema, force, num))
            else entries[j]
  {
    var p := s.properties.props[i];
    match Get(entries, p.name)
    case Some(x) =>
      SetKeepsDistinct(entries, p.name, Coerce(x, p.schema, force, num));
      SetAt(entries, p.name, Coerce(x, p.schema, force, num), j);
      if entries[j].key == p.name {
        GetAt(entries, j);
      }
    case None =>
      assert entries[j].key in Keys(entries);
  }

  /** Position by position, the object branch from declaration i on rewrites an
      entry iff its key is declared at or after i, and then to the coercion of
      its old value under that declaration. */
  lemma {:induction false} CoercePropsAt(entries: seq<Entry>, s: Schema, i: nat, j: nat, force: bool, num: NumberParser)
    requires s.properties.Declared? && DistinctNames(s.properties.props) && i <= |s.properties.props|
    requires DistinctKeys(entries) && j < |entries|
    ensures |CoerceProps(entries, s, i, force, num)| == |entries|
    ensures CoerceProps(entries, s, i, force, num)[j]
         == Entry(entries[j].key, CoercedFrom(entries[j].value, s.properties.props, i, entries[j].key, force, num))
    decreases |s.properties.props| - i
  {
    var props := s.properties.props;
    assert |Keys(CoerceProps(entries, s, i, force, num))| == |entries|;
    if i < |props| {
      var e1 := CoerceProp(entries, s, i, force, num);
      CoercePropAt(entries, s, i, j, force, num);
      CoercePropsAt(e1, s, i + 1, j, force, num);
      var key := entries[j].key;
      if key == props[i].name {
        assert FindProp(props, i + 1, key).None?;
      } else {
        assert FindProp(props, i, key) == FindProp(props, i + 1, key);
      }
    }
  }

  /** Object branch (lines 52-58): no key is added, removed or moved; a key
      declared in `properties` gets the coercion of its value under its
      declaration; an undeclared key keeps its value. */
  lemma CoerceObject(entries: seq<Entry>, s: Schema, force: bool, num: NumberParser)
    requires s.properties.Declared? && DistinctNames(s.properties.props) && DistinctKeys(entries)
    ensures Coerce(Obj(entries), s, force, num).Obj?
    ensures Keys(Coerce(Obj(entries), s, force, num).entries) == Keys(entries)
    ensures forall j :: 0 <= j < |entries| ==>
      Coerce(Obj(entries), s, force, num).entries[j].value
        == CoercedFrom(entries[j].value, s.properties.props, 0, entries[j].key, force, num)
  {
    forall j | 0 <= j < |entries|
      ensures Coerce(Obj(entries), s, force, num).entries[j].value
        == CoercedFrom(entries[j].value, s.properties.props, 0, entries[j].key, force, num)
    {
      CoercePropsAt(entries, s, 0, j, force, num);
    }
  }

  // ---------------------------------------------------------------------------
  // Idempotence, and the repeated element pass

  /** A pass over elements that are already fixed points changes nothing. */
  lemma {:induction false} PassesOfFixedPoint(elems: seq<Value>, s: Schema, k: nat, force: bool, num: NumberParser)
    requires s.items.Some? && CoerceAll(elems, s, force, num) == elems
    ensures Passes(elems, s, k, force, num) == elems
  {
    if k > 0 {
      PassesOfFixedPoint(elems, s, k - 1, force, num);
    }
  }

  /** Coercing twice is coercing once. */
  lemma {:induction false} CoerceIdempotent(v: Value, s: Schema, force: bool, num: NumberParser)
    requires WellFormed(s) && WellFormedValue(v)
    ensures Coerce(Coerce(v, s, force, num), s, force, num) == Coerce(v, s, force, num)
    decreases s, 1
  {
    var w := Wrapped(v, s, force);
    var r := Coerce(v, s, force, num);
    if (w.Obj? || w.Arr?) && s.properties.Declared? {
      if w.Obj? {
        var es := v.entries;
        var props := s.properties.props;
        var es1 := CoerceProps(es, s, 0, force, num);
        assert Keys(es1) == Keys(es);
        assert DistinctKeys(es1) by {
          forall a, b | 0 <= a < b < |es1| ensures es1[a].key != es1[b].key {
            assert es1[a].key == Keys(es1)[a] && es1[b].key == Keys(es1)[b];
          }
        }
        var es2 := CoerceProps(es1, s, 0, force, num);
        assert |es2| == |es|;
        forall j | 0 <= j < |es| ensures es2[j] == es1[j] {
          CoercePropsAt(es, s, 0, j, force, num);
          CoercePropsAt(es1, s, 0, j, force, num);
          assert es1[j].key == es[j].key;
          match FindProp(props, 0, es[j].key)
          case Some(p) =>
            PropsWellFormedAt(s, 0, p);
            CoerceIdempotent(es[j].value, props[p].schema, force, num);
          case None =>
        }
      }
    } else if s.typ == Some("array") && w.Arr? && s.items.Some? {
      CoerceAllIdempotent(w.elems, s, force, num);
      var k := OwnKeyCount(s.items.value);
      var once := CoerceAll(w.elems, s, force, num);
      if k > 0 {
        PassesOfFixedPoint(once, s, k - 1, force, num);
        PassesOfFixedPoint(once, s, k, force, num);
      }
    }
  }

  lemma {:induction false} CoerceAllIdempotent(elems: seq<Value>, s: Schema, force: bool, num: NumberParser)
    requires s.items.Some? && WellFormed(s)
    requires forall i :: 0 <= i < |elems| ==> WellFormedValue(elems[i])
    ensures CoerceAll(CoerceAll(elems, s, force, num), s, force, num) == CoerceAll(elems, s, force, num)
    decreases s, 0
  {
    forall i | 0 <= i < |elems|
      ensures Coerce(Coerce(elems[i], s.items.value, force, num), s.items.value, force, num)
           == Coerce(elems[i], s.items.value, force, num)
    {
      CoerceIdempotent(elems[i], s.items.value, force, num);
    }
  }

  /** Array branch (lines 59-67): the pass is repeated once per own key of
      `items`; with no own key nothing changes, otherwise the repetition
      equals a single pass, because coercion is idempotent. */
  lemma ArrayBranch(elems: seq<Value>, s: Schema, force: bool, num: NumberParser)
    requires s.typ == Some("array") && s.items.Some? && s.properties.Absent? && WellFormed(s)
    requires forall i :: 0 <= i < |elems| ==> WellFormedValue(elems[i])
    ensures OwnKeyCount(s.items.value) == 0 ==> Coerce(Arr(elems), s, force, num) == Arr(elems)
    ensures OwnKeyCount(s.items.value) > 0 ==>
      Coerce(Arr(elems), s, force, num) == Arr(CoerceAll(elems, s, force, num))
  {
    var k := OwnKeyCount(s.items.value);
    if k > 0 {
      CoerceAllIdempotent(elems, s, force, num);
      PassesOfFixedPoint(CoerceAll(elems, s, force, num), s, k - 1, force, num);
    }
  }

  /** Lines 47-50: with the flag, a string under an array-of-scalars schema
      becomes the one-element array of its coercion under `items`. */
  lemma ForcedWrap(x: string, s: Schema, num: NumberParser)
    requires s.typ == Some("array") && s.items.Some? && IsScalarType(s.items.value.typ) && s.properties.Absent?
    ensures Coerce(Str(x), s, true, num) == Arr([ConvertValueFromStringToType(Str(x), s.items.value.typ, num)])
  {
    var items := s.items.value;
    var k := OwnKeyCount(items);
    var once := CoerceAll([Str(x)], s, true, num);
    assert once == [Coerce(Str(x), items, true, num)];
    assert Coerce(Str(x), items, true, num) == ConvertValueFromStringToType(Str(x), items.typ, num);
    assert CoerceAll(once, s, true, num) == once;
    PassesOfFixedPoint(once, s, k - 1, true, num);
  }

  /** Without the flag no wrapping happens: a string under an `array` schema
      comes back unchanged. */
  lemma NoWrapWithoutForce(x: string, s: Schema, num: NumberParser)
    requires s.typ == Some("array")
    ensures Coerce(Str(x), s, false, num) == Str(x)
  {
  }
}

/** The request-validation helper of lib/validator.js. A request value
    (path parameters, query object, payload or headers) is an object that
    the helper rewrites in place, then hands to a compiled JSON-Schema
    validator, and reports `{valid, errors}`. The compiled validator is not
    modelled: it is any function from a value to a verdict. */
module Validator {
  import opened Text
  import opened Values
  import opened Schemas
  import opened Coercion
  import opened QueryArrays

  /** One entry of a compiled validator's `errors` list. */
  datatype ValidationError = ValidationError(dataPath: string, message: string)

  /** What the compiled validator says about a value: its boolean result and
      the `errors` it leaves behind. */
  datatype Verdict = Verdict(valid: bool, errors: seq<ValidationError>)

  type SchemaValidator = Value -> Verdict

  /** `{valid}` and, only when invalid, `errors`. */
  datatype Report = Report(valid: bool, errors: Option<seq<ValidationError>>)

  /** Lines 93-99 (and the same lines of each builder): `valid` is the
      validator's result, and `errors` is set, to the validator's errors,
      exactly when the value is invalid. */
  function ReportOf(v: Verdict): (r: Report)
    ensures r.valid == v.valid
    ensures r.errors.Some? <==> !v.valid
    ensures r.errors.Some? ==> r.errors.value == v.errors
  {
    if v.valid then Report(true, None) else Report(false, Some(v.errors))
  }

  const FormUrlEncoded: string := "application/x-www-form-urlencoded"
  const MultipartFormData: string := "multipart/form-data"

  /** Line 129: a payload is coerced only when it came from a form. */
  predicate IsFormPayload(headers: map<string, string>) {
    "content-type" in headers && headers["content-type"] != ""
    && (StartsWith(headers["content-type"], FormUrlEncoded) || StartsWith(headers["content-type"], MultipartFormData))
  }

  /** A request value, held by reference: the helper's functions update it in place. */
  class RequestValue {
    var value: Value

    constructor(v: Value)
      ensures value == v
    {
      value := v;
    }

    /** `convertPropertyTypesToMatchSchema(value, s, force)` with its result
        discarded, as every caller does. Objects and arrays are rewritten in
        place; a primitive is passed by value, so the caller's value never
        changes (the one-element array built by lines 47-50 is a local). */
    method ConvertPropertyTypes(s: Schema, force: bool, num: NumberParser)
      modifies this
      ensures value == InPlace(old(value), s, force, num)
    {
      var v := value;
      if !(v.Obj? || v.Arr?) {
        return;
      }
      assert Wrapped(v, s, force) == v;
      if s.properties.Declared? {
        if v.Arr? {
          return;
        }
        // lines 53-57
        var props := s.properties.props;
        var i := 0;
        while i < |props|
          invariant 0 <= i <= |props| && value.Obj?
          invariant CoerceProps(value.entries, s, i, force, num) == CoerceProps(v.entries, s, 0, force, num)
        {
          var p := props[i];
          var entries := value.entries;
          match Get(entries, p.name) {
            case Some(x) =>
              value := Obj(Set(entries, p.name, Coerce(x, p.schema, force, num)));
            case None =>
          }
          i := i + 1;
        }
      } else if s.typ == Some("array") && v.Arr? && s.items.Some? {
        // lines 60-66: one element pass per own key of `items`
        var k := OwnKeyCount(s.items.value);
        var t := 0;
        while t < k
          invariant 0 <= t <= k && value.Arr?
          invariant Passes(value.elems, s, k - t, force, num) == Passes(v.elems, s, k, force, num)
        {
          var before := value.elems;
          var j := 0;
          while j < |before|
            invariant 0 <= j <= |before| && value.Arr? && |value.elems| == |before|
            invariant forall m :: 0 <= m < j ==> value.elems[m] == Coerce(before[m], s.items.value, force, num)
            invariant forall m :: j <= m < |before| ==> value.elems[m] == before[m]
          {
            value := Arr(value.elems[j := Coerce(value.elems[j], s.items.value, force, num)]);
            j := j + 1;
          }
          assert value.elems == CoerceAll(before, s, force, num);
          t := t + 1;
        }
      }
    }

    /** `convertArraysInQueryString(value)`: lines 76-86, over the keys the
        object has when the loop starts. */
    method ConvertArraysInQueryString()
      modifies this
      ensures value == CollapseQuery(old(value))
    {
      if !value.Obj? {
        return;
      }
      var orig := value.entries;
      var keys := Keys(orig);
      var i := 0;
      while i < |keys|
        invariant 0 <= i <= |keys| && value == Obj(CollapseFirst(orig, keys, i))
      {
        assert CollapseFirst(orig, keys, i + 1) == CollapseStep(CollapseFirst(orig, keys, i), keys[i]);
        VisitKey(keys[i]);
        i := i + 1;
      }
    }

    /** One turn of the loop of lines 76-86, for the key `prop`. */
    method VisitKey(prop: string)
      requires value.Obj?
      modifies this
      ensures value == Obj(CollapseStep(old(value).entries, prop))
    {
      var entries := value.entries;
      match ParseArraySyntax(prop) {
        case Some(ak) =>
          if prop in Keys(entries) {
            var target := Target(entries, ak.prefix);
            StatementsAreStep(entries, prop, ak);
            value := Obj(Set(entries, ak.prefix, target));
            var x := Get(value.entries, prop).value;
            value := Obj(Set(value.entries, ak.prefix, StoreIndex(target, ak.index, x)));
            value := Obj(Delete(value.entries, prop));
          }
        case None =>
      }
    }

    /** `validateParams`: coercion without forced array wrapping, then the report. */
    method ValidateParams(s: Schema, validator: SchemaValidator, num: NumberParser) returns (report: Report)
      modifies this
      ensures value == InPlace(old(value), s, false, num)
      ensures report == ReportOf(validator(value))
    {
      ConvertPropertyTypes(s, false, num);
      report := ReportOf(validator(value));
    }

    /** `validateQuery`: the array-syntax collapse, then coercion with forced
        array wrapping, then the report. */
    method ValidateQuery(s: Schema, validator: SchemaValidator, num: NumberParser) returns (report: Report)
      modifies this
      ensures value == InPlace(CollapseQuery(old(value)), s, true, num)
      ensures report == ReportOf(validator(value))
    {
      ConvertArraysInQueryString();
      ConvertPropertyTypes(s, true, num);
      report := ReportOf(validator(value));
    }

    /** `validatePayload`: coercion without forced array wrapping, and only
        for a form payload; then the report. */
    method ValidatePayload(s: Schema, validator: SchemaValidator, headers: map<string, string>, num: NumberParser)
      returns (report: Report)
      modifies this
      ensures IsFormPayload(headers) ==> value == InPlace(old(value), s, false, num)
      ensures !IsFormPayload(headers) ==> value == old(value)
      ensures report == ReportOf(validator(value))
    {
      if IsFormPayload(headers) {
        ConvertPropertyTypes(s, false, num);
      }
      report := ReportOf(validator(value));
    }

    /** `validateHeaders`: coercion with forced array wrapping, then the
        report. Header names are not lower-cased here. */
    method ValidateHeaders(s: Schema, validator: SchemaValidator, num: NumberParser) returns (report: Report)
      modifies this
      ensures value == InPlace(old(value), s, true, num)
      ensures report == ReportOf(validator(value))
    {
      ConvertPropertyTypes(s, true, num);
      report := ReportOf(validator(value));
    }
  }

  /** A JSON body, or a request without a content type, reaches the validator
      exactly as it arrived. */
  lemma NonFormPayloadsUncoerced(headers: map<string, string>)
    requires "content-type" !in headers || StartsWith(headers["content-type"], "application/json")
    ensures !IsFormPayload(headers)
  {
    if "content-type" in headers {
      var c := headers["content-type"];
      assert c[..16] == "application/json";
      assert c[12] == 'j' && c[0] == 'a';
      assert FormUrlEncoded[12] == 'x' && MultipartFormData[0] == 'm';
    }
  }

  /** A form content type with parameters (`; charset=...`, `; boundary=...`)
      still counts as a form. */
  lemma FormPayloadWithParameters(headers: map<string, string>, kind: string, params: string)
    requires kind == FormUrlEncoded || kind == MultipartFormData
    requires "content-type" in headers && headers["content-type"] == kind + params
    ensures IsFormPayload(headers)
  {
    assert headers["content-type"][..|kind|] == kind;
  }
}

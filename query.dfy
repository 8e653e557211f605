/** `convertArraysInQueryString` of lib/validator.js: query keys written with
    the array syntax `name[INDEX]` are folded into an array held under
    `name`, the value going to position INDEX. The loop visits the keys the
    object had when it started (a key added during the loop, such as the
    prefix of a nested `a[1][2]`, is not visited). */
module QueryArrays {
  import opened Text
  import opened Values

  /** A key that ends in `[digits]`: what comes before the last `[`, the digits,
      and the number they denote (`1 * digits`). */
  datatype ArrayKey = ArrayKey(prefix: string, digits: string, index: nat)

  /** `/\[\d+]$/.test(key)`. */
  predicate MatchesArraySyntax(key: string) {
    && |key| >= 1 && key[|key| - 1] == ']'
    && var d := TrailingDigits(key[..|key| - 1]);
       d >= 1 && d + 2 <= |key| && key[|key| - 2 - d] == '['
  }

  /** Lines 78-81: the regex test, then the prefix up to the last `[` and the
      index between it and the last `]`. */
  function ParseArraySyntax(key: string): (r: Option<ArrayKey>)
    ensures r.Some? <==> MatchesArraySyntax(key)
    ensures r.Some? ==> |r.value.prefix| + |r.value.digits| + 2 == |key|
  {
    if !MatchesArraySyntax(key) then None
    else
      var d := TrailingDigits(key[..|key| - 1]);
      var open := LastIndexOf(key, '[');
      var close := LastIndexOf(key, ']');
      assert close == |key| - 1;
      assert open == |key| - 2 - d by {
        assert key[|key| - 2 - d] == '[';
        forall q | |key| - 2 - d < q < |key| ensures key[q] != '[' {
          if q < |key| - 1 {
            assert key[..|key| - 1][|key| - 1 - d..][q - (|key| - 1 - d)] == key[q];
          }
        }
      }
      var digits := key[open + 1..close];
      assert digits == key[..|key| - 1][|key| - 1 - d..];
      assert key == key[..open] + "[" + digits + "]";
      Some(ArrayKey(key[..open], digits, Decimal(digits)))
  }

  /** What a recognised key consists of: the prefix, `[`, a non-empty run of
      digits denoting the index, and `]`. */
  lemma ParseArraySyntaxSpec(key: string)
    requires MatchesArraySyntax(key)
    ensures var ak := ParseArraySyntax(key).value;
      && ak.digits != [] && AllDigits(ak.digits) && ak.index == Decimal(ak.digits)
      && key == ak.prefix + "[" + ak.digits + "]"
      && |ak.digits| == TrailingDigits(key[..|key| - 1])
  {
    var d := TrailingDigits(key[..|key| - 1]);
    var open := LastIndexOf(key, '[');
    assert open == |key| - 2 - d by {
      assert key[|key| - 2 - d] == '[';
      forall q | |key| - 2 - d < q < |key| ensures key[q] != '[' {
        if q < |key| - 1 {
          assert key[..|key| - 1][|key| - 1 - d..][q - (|key| - 1 - d)] == key[q];
        }
      }
    }
    var digits := key[open + 1..|key| - 1];
    assert digits == key[..|key| - 1][|key| - 1 - d..];
    assert key == key[..open] + "[" + digits + "]";
  }

  lemma {:induction false} TrailingDigitsAfterNonDigit(a: string, ds: string)
    requires AllDigits(ds) && |a| > 0 && !IsDigit(a[|a| - 1])
    ensures TrailingDigits(a + ds) == |ds|
  {
    if ds == [] {
      assert a + ds == a;
    } else {
      var ds' := ds[..|ds| - 1];
      assert (a + ds)[..|a + ds| - 1] == a + ds';
      TrailingDigitsAfterNonDigit(a, ds');
    }
  }

  /** Every key built as `prefix[digits]` is recognised, with that prefix and index. */
  lemma ParseArraySyntaxOfBuilt(prefix: string, digits: string)
    requires digits != [] && AllDigits(digits)
    ensures ParseArraySyntax(prefix + "[" + digits + "]") == Some(ArrayKey(prefix, digits, Decimal(digits)))
  {
    var key := prefix + "[" + digits + "]";
    assert key[..|key| - 1] == (prefix + "[") + digits;
    TrailingDigitsAfterNonDigit(prefix + "[", digits);
    assert key[|key| - 2 - |digits|] == '[';
    assert MatchesArraySyntax(key);
    var r := ParseArraySyntax(key).value;
    ParseArraySyntaxSpec(key);
    assert |r.prefix| == |prefix|;
    assert r.prefix == key[..|prefix|] == prefix;
    assert r.digits == key[|prefix| + 1..|key| - 1] == digits;
  }

  /** `target[index] = value` where `target` is what `queryObj[prefix] || []`
      produced: an array is extended as needed, leaving holes; on an object the
      index becomes a key; assigning an index of a primitive is ignored (the file
      is not in strict mode). */
  function StoreIndex(target: Value, index: nat, x: Value): (r: Value)
    ensures target.Arr? ==> r == Arr(SetIndex(target.elems, index, x))
  {
    match target
    case Arr(es) => Arr(SetIndex(es, index, x))
    case Obj(es) => Obj(Set(es, NatToString(index), x))
    case _ => target
  }

  /** `queryObj[prefix] || []`: always truthy, and the old value whenever that
      value is truthy. */
  function Target(entries: seq<Entry>, prefix: string): (r: Value)
    ensures Truthy(r)
    ensures r == Arr([]) || Get(entries, prefix) == Some(r)
    ensures Get(entries, prefix).Some? && Truthy(Get(entries, prefix).value) ==> r == Get(entries, prefix).value
  {
    var current := Get(entries, prefix);
    if current.Some? && Truthy(current.value) then current.value else Arr([])
  }

  /** One turn of the loop of lines 76-86, for key `key`. */
  function CollapseStep(entries: seq<Entry>, key: string): seq<Entry> {
    match ParseArraySyntax(key)
    case None => entries
    case Some(ak) =>
      match Get(entries, key)
      case None => entries
      case Some(x) => Delete(Set(entries, ak.prefix, StoreIndex(Target(entries, ak.prefix), ak.index, x)), key)
  }

  /** Lines 80-83 in their own order: the prefix is first assigned
      `queryObj[prefix] || []` (which appends it when it is new), the value is
      read, stored at its index, and the key deleted; this is one CollapseStep. */
  lemma StatementsAreStep(entries: seq<Entry>, key: string, ak: ArrayKey)
    requires ParseArraySyntax(key) == Some(ak) && key in Keys(entries)
    ensures var target := Target(entries, ak.prefix);
      var e1 := Set(entries, ak.prefix, target);
      && Get(e1, key).Some?
      && Delete(Set(e1, ak.prefix, StoreIndex(target, ak.index, Get(e1, key).value)), key) == CollapseStep(entries, key)
  {
    var target := Target(entries, ak.prefix);
    assert key != ak.prefix by {
      assert |key| == |ak.prefix| + |ak.digits| + 2;
    }
    GetSet(entries, ak.prefix, target, key);
    var e1 := Set(entries, ak.prefix, target);
    SetTwice(entries, ak.prefix, target, StoreIndex(target, ak.index, Get(e1, key).value));
  }

  /** A loop over a snapshot of keys: `step` applied to each of the first n
      keys of `keys`, in order. */
  function RunSteps(step: (seq<Entry>, string) -> seq<Entry>, entries: seq<Entry>, keys: seq<string>, n: nat): seq<Entry>
    requires n <= |keys|
  {
    if n == 0 then entries else step(RunSteps(step, entries, keys, n - 1), keys[n - 1])
  }

  /** The object after the loop of lines 76-86 has visited the first n keys of the snapshot `keys`. */
  function CollapseFirst(entries: seq<Entry>, keys: seq<string>, n: nat): seq<Entry>
    requires n <= |keys|
  {
    RunSteps(CollapseStep, entries, keys, n)
  }

  /** The effect of `convertArraysInQueryString(queryObj)` on the object. */
  function Collapse(entries: seq<Entry>): seq<Entry> {
    CollapseFirst(entries, Keys(entries), |entries|)
  }

  /** The query value after the call: only an object has keys to visit. */
  function CollapseQuery(v: Value): (r: Value)
    ensures !v.Obj? ==> r == v
    ensures v.Obj? ==> r == Obj(Collapse(v.entries))
  {
    if v.Obj? then Obj(Collapse(v.entries)) else v
  }

  // ---------------------------------------------------------------------------
  // One turn, key by key

  /** What the visit of `key` does to an object, key by key: a present
      array-syntax key is removed, its prefix then holds `(old value || [])`
      with the key's value stored at the key's index, and every other key
      keeps its value; any other visit changes nothing. */
  ghost predicate StepEffect(e: seq<Entry>, key: string, r: seq<Entry>) {
    && DistinctKeys(r)
    && match ParseArraySyntax(key)
       case None => r == e
       case Some(ak) =>
         if key !in Keys(e) then r == e
         else
           && key != ak.prefix
           && (forall k :: k in Keys(r) <==> (k in Keys(e) || k == ak.prefix) && k != key)
           && Get(r, ak.prefix) == Some(StoreIndex(Target(e, ak.prefix), ak.index, Get(e, key).value))
           && (forall k :: k != key && k != ak.prefix ==> Get(r, k) == Get(e, k))
  }

  /** Assigning one key and then deleting another, in an object without repeated keys. */
  lemma SetThenDelete(e: seq<Entry>, prefix: string, stored: Value, key: string)
    requires DistinctKeys(e) && key != prefix
    ensures var r := Delete(Set(e, prefix, stored), key);
      && DistinctKeys(r)
      && (forall k :: k in Keys(r) <==> (k in Keys(e) || k == prefix) && k != key)
      && Get(r, prefix) == Some(stored)
      && (forall k :: k != key && k != prefix ==> Get(r, k) == Get(e, k))
  {
    var e1 := Set(e, prefix, stored);
    SetKeepsDistinct(e, prefix, stored);
    DeleteFacts(e1, key);
    forall k ensures Get(e1, k) == if k == prefix then Some(stored) else Get(e, k) {
      GetSet(e, prefix, stored, k);
    }
  }

  /** In an object without repeated keys, one CollapseStep has exactly that effect. */
  lemma StepEffectHolds(e: seq<Entry>, key: string)
    requires DistinctKeys(e)
    ensures StepEffect(e, key, CollapseStep(e, key))
  {
    match ParseArraySyntax(key)
    case None =>
    case Some(ak) =>
      if key in Keys(e) {
        var stored := StoreIndex(Target(e, ak.prefix), ak.index, Get(e, key).value);
        assert CollapseStep(e, key) == Delete(Set(e, ak.prefix, stored), key);
        assert key != ak.prefix by {
          assert |key| == |ak.prefix| + |ak.digits| + 2;
        }
        SetThenDelete(e, ak.prefix, stored, key);
      }
  }

  /** Every turn of `step`, on an object without repeated keys, has the effect of a CollapseStep. */
  ghost predicate StepsBehave(step: (seq<Entry>, string) -> seq<Entry>) {
    forall e, k :: DistinctKeys(e) ==> StepEffect(e, k, step(e, k))
  }

  lemma CollapseStepBehaves()
    ensures StepsBehave(CollapseStep)
  {
    forall e, k | DistinctKeys(e) ensures StepEffect(e, k, CollapseStep(e, k)) {
      StepEffectHolds(e, k);
    }
  }

  // ---------------------------------------------------------------------------
  // The loop. Its properties are proved for any `step` whose turns have the
  // effect of a CollapseStep (StepsBehave), from that effect alone; the
  // whole-object lemmas at the end instantiate them with CollapseStep.

  /** A property of the object that holds once the loop has visited the first
      a keys, and that every later visit keeps, holds after the first n. */
  lemma {:induction false} RunStepsInvariant(step: (seq<Entry>, string) -> seq<Entry>, inv: (seq<Entry>, nat) -> bool,
                                             entries: seq<Entry>, keys: seq<string>, a: nat, n: nat)
    requires a <= n <= |keys| && inv(RunSteps(step, entries, keys, a), a)
    requires forall e: seq<Entry>, i: nat :: a <= i < n && inv(e, i) ==> inv(step(e, keys[i]), i + 1)
    ensures inv(RunSteps(step, entries, keys, n), n)
  {
    if a < n {
      RunStepsInvariant(step, inv, entries, keys, a, n - 1);
    }
  }

  lemma RunKeepsDistinct(step: (seq<Entry>, string) -> seq<Entry>, entries: seq<Entry>, keys: seq<string>, n: nat)
    requires StepsBehave(step) && DistinctKeys(entries) && n <= |keys|
    ensures DistinctKeys(RunSteps(step, entries, keys, n))
  {
    var inv := (e: seq<Entry>, i: nat) => DistinctKeys(e);
    RunStepsInvariant(step, inv, entries, keys, 0, n);
  }

  /** A key that no visited array-syntax key is, and that is the prefix of none
      of them, keeps its value (or its absence). */
  lemma RunUntouched(step: (seq<Entry>, string) -> seq<Entry>, entries: seq<Entry>, keys: seq<string>, n: nat, k0: string)
    requires StepsBehave(step) && DistinctKeys(entries) && n <= |keys|
    requires forall q :: 0 <= q < n && ParseArraySyntax(keys[q]).Some? ==>
      keys[q] != k0 && ParseArraySyntax(keys[q]).value.prefix != k0
    ensures Get(RunSteps(step, entries, keys, n), k0) == Get(entries, k0)
  {
    var inv := (e: seq<Entry>, i: nat) => DistinctKeys(e) && Get(e, k0) == Get(entries, k0);
    RunStepsInvariant(step, inv, entries, keys, 0, n);
  }

  /** No prefix of one of the first n array-syntax keys is itself an
      array-syntax key (nested `a[1][2]` excluded). */
  predicate NotNested(keys: seq<string>, n: nat)
    requires n <= |keys|
  {
    forall q :: 0 <= q < n && ParseArraySyntax(keys[q]).Some? ==>
      !MatchesArraySyntax(ParseArraySyntax(keys[q]).value.prefix)
  }

  /** k was a key from the start and is none of the first n keys visited. */
  ghost predicate KeptSince(k: string, entries: seq<Entry>, keys: seq<string>, n: nat) {
    k in Keys(entries) && forall q :: 0 <= q < n && q < |keys| ==> keys[q] != k
  }

  /** A visit removes no array-syntax key other than its own and adds none. */
  lemma StepSyntaxKeys(e: seq<Entry>, key: string, r: seq<Entry>, k: string)
    requires StepEffect(e, key, r)
    requires ParseArraySyntax(key).Some? ==> !MatchesArraySyntax(ParseArraySyntax(key).value.prefix)
    requires k in Keys(r) && MatchesArraySyntax(k)
    ensures k in Keys(e) && k != key
  {
  }

  /** An array-syntax key present after the first n visits was present from
      the start and is none of the visited keys. */
  lemma RunSyntaxKeys(step: (seq<Entry>, string) -> seq<Entry>, entries: seq<Entry>, keys: seq<string>, n: nat, k: string)
    requires StepsBehave(step) && DistinctKeys(entries) && n <= |keys| && NotNested(keys, n)
    requires k in Keys(RunSteps(step, entries, keys, n)) && MatchesArraySyntax(k)
    ensures k in Keys(entries)
    ensures forall q :: 0 <= q < n ==> keys[q] != k
  {
    var inv := (e: seq<Entry>, i: nat) => DistinctKeys(e) && (k in Keys(e) ==> KeptSince(k, entries, keys, i));
    forall e: seq<Entry>, i: nat | 0 <= i < n && inv(e, i) ensures inv(step(e, keys[i]), i + 1) {
      var r := step(e, keys[i]);
      if k in Keys(r) {
        StepSyntaxKeys(e, keys[i], r, k);
        assert KeptSince(k, entries, keys, i + 1) by {
          assert KeptSince(k, entries, keys, i);
        }
      }
    }
    RunStepsInvariant(step, inv, entries, keys, 0, n);
  }

  // ---------------------------------------------------------------------------
  // Where the values go

  /** What `queryObj[prefix] || []` can index into: nothing yet, a falsy value
      (replaced by a fresh array), or an array. */
  predicate CollapsibleTarget(o: Option<Value>) {
    o.None? || !Truthy(o.value) || o.value.Arr?
  }

  /** The elements `queryObj[prefix] || []` starts from. */
  function BaseElems(o: Option<Value>): seq<Value> {
    if o.Some? && o.value.Arr? then o.value.elems else []
  }

  /** Key `key` supplies index m of the array under prefix p. */
  predicate Supplies(key: string, p: string, m: nat) {
    ParseArraySyntax(key).Some? && ParseArraySyntax(key).value.prefix == p && ParseArraySyntax(key).value.index == m
  }

  predicate DistinctSeq(keys: seq<string>) {
    forall a, b :: 0 <= a < b < |keys| ==> keys[a] != keys[b]
  }

  lemma DistinctKeysSeq(entries: seq<Entry>)
    requires DistinctKeys(entries)
    ensures DistinctSeq(Keys(entries))
  {
  }

  /** What one visit does to the value under a plain key p: when the visited
      key has prefix p and is present, p now holds `(old value || [])` with
      the key's value stored at its index; otherwise p is left alone. */
  lemma StepAtPlain(e: seq<Entry>, key: string, r: seq<Entry>, p: string)
    requires DistinctKeys(e) && StepEffect(e, key, r)
    requires !MatchesArraySyntax(p) && CollapsibleTarget(Get(e, p))
    ensures var a := ParseArraySyntax(key);
      if a.Some? && a.value.prefix == p && key in Keys(e) then
        Get(r, p) == Some(Arr(SetIndex(BaseElems(Get(e, p)), a.value.index, Get(e, key).value)))
      else
        Get(r, p) == Get(e, p)
  {
    var a := ParseArraySyntax(key);
    if a.Some? && a.value.prefix == p && key in Keys(e) {
      assert Target(e, p) == Arr(BaseElems(Get(e, p)));
    } else if a.Some? && key in Keys(e) {
      assert key != p;
    }
  }

  /** The object holds an array under p whose index m holds x. */
  predicate HoldsAt(entries: seq<Entry>, p: string, m: nat, x: Value) {
    var o := Get(entries, p);
    o.Some? && o.value.Arr? && m < |o.value.elems| && o.value.elems[m] == x
  }

  /** Under the stated conditions the prefix keeps a value that can be indexed. */
  lemma RunPrefixShape(step: (seq<Entry>, string) -> seq<Entry>, entries: seq<Entry>, keys: seq<string>, n: nat, p: string)
    requires StepsBehave(step) && DistinctKeys(entries) && n <= |keys| && !MatchesArraySyntax(p)
    requires CollapsibleTarget(Get(entries, p))
    ensures CollapsibleTarget(Get(RunSteps(step, entries, keys, n), p))
  {
    var inv := (e: seq<Entry>, i: nat) => DistinctKeys(e) && CollapsibleTarget(Get(e, p));
    forall e: seq<Entry>, i: nat | 0 <= i < n && inv(e, i) ensures inv(step(e, keys[i]), i + 1) {
      StepAtPlain(e, keys[i], step(e, keys[i]), p);
    }
    RunStepsInvariant(step, inv, entries, keys, 0, n);
  }

  /** Placement: the value of the last key `p[m]` visited ends up at index m of
      the array under p. */
  lemma RunPlacement(step: (seq<Entry>, string) -> seq<Entry>, entries: seq<Entry>, keys: seq<string>,
                     n: nat, q: nat, p: string, m: nat)
    requires StepsBehave(step) && DistinctKeys(entries) && q < n <= |keys| && DistinctSeq(keys) && NotNested(keys, n)
    requires Supplies(keys[q], p, m) && keys[q] in Keys(entries)
    requires CollapsibleTarget(Get(entries, p))
    requires forall q' :: q < q' < n ==> !Supplies(keys[q'], p, m)
    ensures Get(entries, keys[q]).Some?
    ensures HoldsAt(RunSteps(step, entries, keys, n), p, m, Get(entries, keys[q]).value)
  {
    var x := Get(entries, keys[q]).value;
    RunPlacementVisit(step, entries, keys, q, p, m);
    assert !MatchesArraySyntax(p);
    var inv := (e: seq<Entry>, i: nat) => DistinctKeys(e) && HoldsAt(e, p, m, x);
    forall e: seq<Entry>, i: nat | q + 1 <= i < n && inv(e, i) ensures inv(step(e, keys[i]), i + 1) {
      PlacedTurn(e, keys[i], step(e, keys[i]), p, m, x);
    }
    RunStepsInvariant(step, inv, entries, keys, q + 1, n);
  }

  /** A later visit of a key that does not supply index m under p keeps the value placed there. */
  lemma PlacedTurn(e: seq<Entry>, key: string, r: seq<Entry>, p: string, m: nat, x: Value)
    requires DistinctKeys(e) && StepEffect(e, key, r) && !MatchesArraySyntax(p) && !Supplies(key, p, m)
    requires HoldsAt(e, p, m, x)
    ensures DistinctKeys(r) && HoldsAt(r, p, m, x)
  {
    StepAtPlain(e, key, r, p);
  }

  /** The visit of `keys[q]` itself stores the key's original value under its prefix. */
  lemma RunPlacementVisit(step: (seq<Entry>, string) -> seq<Entry>, entries: seq<Entry>, keys: seq<string>,
                          q: nat, p: string, m: nat)
    requires StepsBehave(step) && DistinctKeys(entries) && q < |keys| && DistinctSeq(keys) && NotNested(keys, q + 1)
    requires Supplies(keys[q], p, m) && keys[q] in Keys(entries)
    requires CollapsibleTarget(Get(entries, p))
    ensures Get(entries, keys[q]).Some?
    ensures DistinctKeys(RunSteps(step, entries, keys, q + 1))
    ensures HoldsAt(RunSteps(step, entries, keys, q + 1), p, m, Get(entries, keys[q]).value)
  {
    var before := RunSteps(step, entries, keys, q);
    assert !MatchesArraySyntax(p);
    RunKeepsDistinct(step, entries, keys, q);
    RunPrefixShape(step, entries, keys, q, p);
    forall q' | 0 <= q' < q && ParseArraySyntax(keys[q']).Some?
      ensures keys[q'] != keys[q] && ParseArraySyntax(keys[q']).value.prefix != keys[q]
    {
      assert !MatchesArraySyntax(ParseArraySyntax(keys[q']).value.prefix);
    }
    RunUntouched(step, entries, keys, q, keys[q]);
    StepAtPlain(before, keys[q], step(before, keys[q]), p);
  }

  /** Some visited key among the first n supplies index m under p. */
  predicate Supplied(keys: seq<string>, n: nat, p: string, m: nat)
    requires n <= |keys|
  {
    exists q :: 0 <= q < n && Supplies(keys[q], p, m)
  }

  /** Every index of `elems` is a hole or was supplied by one of the first n keys. */
  predicate OnlySupplied(elems: seq<Value>, keys: seq<string>, n: nat, p: string)
    requires n <= |keys|
  {
    forall m :: 0 <= m < |elems| ==> elems[m] == Undefined || Supplied(keys, n, p, m)
  }

  /** The last index of `elems` was supplied by one of the first n keys: the
      array is no longer than the largest index supplied, plus one. */
  predicate EndsSupplied(elems: seq<Value>, keys: seq<string>, n: nat, p: string)
    requires n <= |keys|
  {
    |elems| > 0 && Supplied(keys, n, p, |elems| - 1)
  }

  /** The value under p is what it was at the start, or an array each of
      whose non-hole indices, and whose last index, was supplied by one of the
      first n keys. */
  predicate HolesSoFar(o: Option<Value>, orig: Option<Value>, keys: seq<string>, n: nat, p: string)
    requires n <= |keys|
  {
    o == orig || (o.Some? && o.value.Arr? && OnlySupplied(o.value.elems, keys, n, p) && EndsSupplied(o.value.elems, keys, n, p))
  }

  lemma StepHoles(elems: seq<Value>, keys: seq<string>, n: nat, p: string, ak: ArrayKey, x: Value)
    requires 0 < n <= |keys| && OnlySupplied(elems, keys, n - 1, p)
    requires elems == [] || EndsSupplied(elems, keys, n - 1, p)
    requires ParseArraySyntax(keys[n - 1]) == Some(ak) && ak.prefix == p
    ensures OnlySupplied(SetIndex(elems, ak.index, x), keys, n, p)
    ensures EndsSupplied(SetIndex(elems, ak.index, x), keys, n, p)
  {
    var r := SetIndex(elems, ak.index, x);
    if ak.index < |elems| {
      var q :| 0 <= q < n - 1 && Supplies(keys[q], p, |elems| - 1);
      assert Supplies(keys[q], p, |r| - 1);
    } else {
      assert Supplies(keys[n - 1], p, |r| - 1);
    }
    forall m | 0 <= m < |r| && r[m] != Undefined ensures Supplied(keys, n, p, m) {
      if m == ak.index {
        assert Supplies(keys[n - 1], p, m);
      } else {
        assert Supplied(keys, n - 1, p, m);
      }
    }
  }

  /** The visit of the n-th key keeps HolesSoFar, given what StepAtPlain says it does to p. */
  lemma HolesStep(o0: Option<Value>, o1: Option<Value>, orig: Option<Value>, keys: seq<string>, n: nat, p: string,
                  present: bool, x: Value)
    requires 0 < n <= |keys| && (orig.None? || !Truthy(orig.value))
    requires HolesSoFar(o0, orig, keys, n - 1, p)
    requires var a := ParseArraySyntax(keys[n - 1]);
      if a.Some? && a.value.prefix == p && present then o1 == Some(Arr(SetIndex(BaseElems(o0), a.value.index, x)))
      else o1 == o0
    ensures HolesSoFar(o1, orig, keys, n, p)
  {
    var a := ParseArraySyntax(keys[n - 1]);
    if a.Some? && a.value.prefix == p && present {
      StepHoles(BaseElems(o0), keys, n, p, a.value, x);
    } else if o1 != orig {
      forall m | 0 <= m < |o1.value.elems| && Supplied(keys, n - 1, p, m) ensures Supplied(keys, n, p, m) {
        var q :| 0 <= q < n - 1 && Supplies(keys[q], p, m);
      }
      assert Supplied(keys, n, p, |o1.value.elems| - 1);
    }
  }

  /** What RunHoles keeps from visit to visit. */
  ghost predicate HolesInv(e: seq<Entry>, orig: Option<Value>, keys: seq<string>, n: nat, p: string) {
    DistinctKeys(e) && n <= |keys| && HolesSoFar(Get(e, p), orig, keys, n, p)
  }

  lemma HolesTurn(e: seq<Entry>, r: seq<Entry>, orig: Option<Value>, keys: seq<string>, n: nat, p: string)
    requires 0 < n <= |keys| && StepEffect(e, keys[n - 1], r) && !MatchesArraySyntax(p)
    requires (orig.None? || !Truthy(orig.value)) && HolesInv(e, orig, keys, n - 1, p)
    ensures HolesInv(r, orig, keys, n, p)
  {
    var key := keys[n - 1];
    assert CollapsibleTarget(Get(e, p));
    StepAtPlain(e, key, r, p);
    var present := key in Keys(e);
    var x := if present then Get(e, key).value else Undefined;
    HolesStep(Get(e, p), Get(r, p), orig, keys, n, p, present, x);
  }

  /** Holes: when the prefix held nothing (or a falsy value) before, every
      index of the array under it that no visited key supplied is `undefined`. */
  lemma RunHoles(step: (seq<Entry>, string) -> seq<Entry>, entries: seq<Entry>, keys: seq<string>, n: nat, p: string)
    requires StepsBehave(step) && DistinctKeys(entries) && n <= |keys| && !MatchesArraySyntax(p)
    requires Get(entries, p).None? || !Truthy(Get(entries, p).value)
    ensures HolesSoFar(Get(RunSteps(step, entries, keys, n), p), Get(entries, p), keys, n, p)
  {
    var orig := Get(entries, p);
    var inv := (e: seq<Entry>, i: nat) => HolesInv(e, orig, keys, i, p);
    forall e: seq<Entry>, i: nat | 0 <= i < n && inv(e, i) ensures inv(step(e, keys[i]), i + 1) {
      HolesTurn(e, step(e, keys[i]), orig, keys, i + 1, p);
    }
    RunStepsInvariant(step, inv, entries, keys, 0, n);
  }

  // ---------------------------------------------------------------------------
  // The whole query object

  lemma CollapseKeepsDistinct(entries: seq<Entry>)
    requires DistinctKeys(entries)
    ensures DistinctKeys(Collapse(entries))
  {
    CollapseStepBehaves();
    RunKeepsDistinct(CollapseStep, entries, Keys(entries), |entries|);
  }

  /** Keys without the array syntax are untouched, unless they are the prefix
      of an array-syntax key. */
  lemma PlainKeyUntouched(entries: seq<Entry>, k0: string)
    requires DistinctKeys(entries) && !MatchesArraySyntax(k0)
    requires forall k :: k in Keys(entries) && ParseArraySyntax(k).Some? ==> ParseArraySyntax(k).value.prefix != k0
    ensures Get(Collapse(entries), k0) == Get(entries, k0)
  {
    var keys := Keys(entries);
    forall q | 0 <= q < |keys| && ParseArraySyntax(keys[q]).Some?
      ensures keys[q] != k0 && ParseArraySyntax(keys[q]).value.prefix != k0
    {
      assert keys[q] in keys;
    }
    CollapseStepBehaves();
    RunUntouched(CollapseStep, entries, keys, |keys|, k0);
  }

  /** Every array-syntax key is deleted: none is left after the loop. */
  lemma NoArraySyntaxLeft(entries: seq<Entry>)
    requires DistinctKeys(entries) && NotNested(Keys(entries), |entries|)
    ensures forall k :: k in Keys(Collapse(entries)) ==> !MatchesArraySyntax(k)
  {
    var keys := Keys(entries);
    CollapseStepBehaves();
    forall k | k in Keys(Collapse(entries)) ensures !MatchesArraySyntax(k) {
      if MatchesArraySyntax(k) {
        RunSyntaxKeys(CollapseStep, entries, keys, |keys|, k);
      }
    }
  }

  /** Placement for the whole object: the value of the last key `p[m]` ends
      up at index m of the array under p. */
  lemma CollapsePlaces(entries: seq<Entry>, q: nat, p: string, m: nat)
    requires DistinctKeys(entries) && NotNested(Keys(entries), |entries|)
    requires q < |entries| && Supplies(entries[q].key, p, m)
    requires forall q' :: q < q' < |entries| ==> !Supplies(entries[q'].key, p, m)
    requires CollapsibleTarget(Get(entries, p))
    ensures HoldsAt(Collapse(entries), p, m, entries[q].value)
  {
    var keys := Keys(entries);
    DistinctKeysSeq(entries);
    GetAt(entries, q);
    assert keys[q] in keys;
    CollapseStepBehaves();
    RunPlacement(CollapseStep, entries, keys, |entries|, q, p, m);
  }

  /** The collapse of a whole query object, as the source promises it: each
      key `p[m]` is deleted and its value stored at index m of an array under p
      (the last such key wins), and every other index is a hole. */
  lemma CollapsePlacesValues(entries: seq<Entry>, q: nat, p: string, m: nat)
    requires DistinctKeys(entries) && NotNested(Keys(entries), |entries|)
    requires q < |entries| && Supplies(entries[q].key, p, m)
    requires forall q' :: q < q' < |entries| ==> !Supplies(entries[q'].key, p, m)
    requires Get(entries, p).None? || !Truthy(Get(entries, p).value)
    ensures HoldsAt(Collapse(entries), p, m, entries[q].value)
    ensures OnlySupplied(Get(Collapse(entries), p).value.elems, Keys(entries), |entries|, p)
    ensures EndsSupplied(Get(Collapse(entries), p).value.elems, Keys(entries), |entries|, p)
  {
    CollapsePlaces(entries, q, p, m);
    assert !MatchesArraySyntax(p) by {
      assert Keys(entries)[q] == entries[q].key;
    }
    CollapseStepBehaves();
    RunHoles(CollapseStep, entries, Keys(entries), |entries|, p);
  }
  /** `p[0]=x&p[1]=y` becomes `p = [x, y]`: both indices are placed, and the
      array ends at the largest index supplied. */
  lemma CollapseTwoIndices(k0: string, k1: string, p: string, x: Value, y: Value)
    requires Supplies(k0, p, 0) && Supplies(k1, p, 1) && !MatchesArraySyntax(p)
    ensures Get(Collapse([Entry(k0, x), Entry(k1, y)]), p) == Some(Arr([x, y]))
  {
    var entries := [Entry(k0, x), Entry(k1, y)];
    assert Keys(entries) == [k0, k1];
    assert k0 != p && k1 != p && k0 != k1;
    assert Get(entries, p).None?;
    CollapsePlacesValues(entries, 0, p, 0);
    CollapsePlacesValues(entries, 1, p, 1);
    TwoIndicesArray(Collapse(entries), [k0, k1], p, x, y);
  }

  lemma TwoIndicesArray(r: seq<Entry>, keys: seq<string>, p: string, x: Value, y: Value)
    requires |keys| == 2 && Supplies(keys[0], p, 0) && Supplies(keys[1], p, 1)
    requires HoldsAt(r, p, 0, x) && HoldsAt(r, p, 1, y)
    requires EndsSupplied(Get(r, p).value.elems, keys, 2, p)
    ensures Get(r, p) == Some(Arr([x, y]))
  {
    TwoElems(Get(r, p).value.elems, keys, p, x, y);
  }

  /** An array whose indices 0 and 1 hold x and y, and whose last index is 0 or 1, is [x, y]. */
  lemma TwoElems(elems: seq<Value>, keys: seq<string>, p: string, x: Value, y: Value)
    requires |keys| == 2 && Supplies(keys[0], p, 0) && Supplies(keys[1], p, 1)
    requires 2 <= |elems| && elems[0] == x && elems[1] == y
    requires EndsSupplied(elems, keys, 2, p)
    ensures elems == [x, y]
  {
    var q :| 0 <= q < 2 && Supplies(keys[q], p, |elems| - 1);
    SuppliesOneIndex(keys[q], p, |elems| - 1, q);
  }

  lemma SuppliesOneIndex(key: string, p: string, m: nat, m': nat)
    requires Supplies(key, p, m) && Supplies(key, p, m')
    ensures m == m'
  {
  }



}

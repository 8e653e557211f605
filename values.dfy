/** JavaScript values as the request-validation code sees them: strings from
    the path and the query string, numbers and booleans produced by
    coercion, arrays and plain objects. Objects keep their keys in
    enumeration order, because the query-string collapse visits them in that
    order; a JavaScript object never holds the same key twice. */
module Values {

  datatype Option<T> = None | Some(value: T)

  /** The result of JavaScript's numeric conversion `1 * s`. The code only asks
      whether it is truthy and whether it is `=== 0`, so a number is
      classified: NaN, zero (`0` or `-0`), or any other double, identified by
      its IEEE-754 bit pattern. */
  datatype Number = NaN | Zero | NonZero(bits: bv64)

  /** The conversion `1 * s` itself is not modelled: it is a parameter. */
  type NumberParser = string -> Number

  datatype Value =
    | Undefined
    | Str(s: string)
    | Num(n: Number)
    | Bool(b: bool)
    | Arr(elems: seq<Value>)
    | Obj(entries: seq<Entry>)

  datatype Entry = Entry(key: string, value: Value)

  /** A value JSON or a query string could produce: no object holds a key twice. */
  predicate WellFormedValue(v: Value)
    decreases v
  {
    match v
    case Obj(es) => DistinctKeys(es) && forall i :: 0 <= i < |es| ==> WellFormedValue(es[i].value)
    case Arr(xs) => forall i :: 0 <= i < |xs| ==> WellFormedValue(xs[i])
    case _ => true
  }

  /** JavaScript truthiness (`x || y` picks `x` iff `Truthy(x)`). */
  predicate Truthy(v: Value) {
    match v
    case Undefined => false
    case Str(s) => s != ""
    case Num(n) => n.NonZero?
    case Bool(b) => b
    case Arr(_) => true
    case Obj(_) => true
  }

  function Keys(entries: seq<Entry>): (ks: seq<string>)
    ensures |ks| == |entries|
    ensures forall i :: 0 <= i < |entries| ==> ks[i] == entries[i].key
  {
    seq(|entries|, i requires 0 <= i < |entries| => entries[i].key)
  }

  predicate DistinctKeys(entries: seq<Entry>) {
    forall i, j :: 0 <= i < j < |entries| ==> entries[i].key != entries[j].key
  }

  /** The position of `key` in the entries, looked up from position i on. */
  function FindKey(entries: seq<Entry>, i: nat, key: string): (r: Option<nat>)
    requires i <= |entries|
    ensures r.Some? ==> i <= r.value < |entries| && entries[r.value].key == key
    ensures r.Some? ==> forall q :: i <= q < r.value ==> entries[q].key != key
    ensures r.None? ==> forall q :: i <= q < |entries| ==> entries[q].key != key
    decreases |entries| - i
  {
    if i == |entries| then None
    else if entries[i].key == key then Some(i)
    else FindKey(entries, i + 1, key)
  }

  /** `obj[key]` for an own property, or None when the object lacks it. */
  function Get(entries: seq<Entry>, key: string): (r: Option<Value>)
    ensures r.None? <==> key !in Keys(entries)
  {
    match FindKey(entries, 0, key)
    case Some(i) => Some(entries[i].value)
    case None => None
  }

  /** `obj[key] = value`: an existing key keeps its position, a new one is appended. */
  function Set(entries: seq<Entry>, key: string, value: Value): (r: seq<Entry>)
    ensures key in Keys(entries) ==> Keys(r) == Keys(entries)
    ensures key !in Keys(entries) ==> Keys(r) == Keys(entries) + [key]
  {
    match FindKey(entries, 0, key)
    case Some(i) => entries[i := Entry(key, value)]
    case None => entries + [Entry(key, value)]
  }

  /** `delete obj[key]`. */
  function Delete(entries: seq<Entry>, key: string): (r: seq<Entry>)
    ensures key !in Keys(entries) ==> r == entries
  {
    match FindKey(entries, 0, key)
    case Some(i) => entries[..i] + entries[i + 1..]
    case None => entries
  }

  /** The first position holding `key` is what FindKey finds. */
  lemma {:induction false} FindKeyIs(entries: seq<Entry>, start: nat, i: nat, key: string)
    requires start <= i < |entries| && entries[i].key == key
    requires forall q :: start <= q < i ==> entries[q].key != key
    ensures FindKey(entries, start, key) == Some(i)
    decreases i - start
  {
    if start < i {
      FindKeyIs(entries, start + 1, i, key);
    }
  }

  /** In an object without repeated keys, `delete` removes exactly its key and
      leaves every other key, its value and the order of the rest. */
  lemma DeleteFacts(entries: seq<Entry>, key: string)
    requires DistinctKeys(entries)
    ensures DistinctKeys(Delete(entries, key))
    ensures forall k :: k in Keys(Delete(entries, key)) <==> k in Keys(entries) && k != key
    ensures forall k :: k != key ==> Get(Delete(entries, key), k) == Get(entries, k)
  {
    match FindKey(entries, 0, key)
    case None =>
    case Some(i) =>
      DeleteKeys(entries, key, i);
      forall k | k != key ensures Get(Delete(entries, key), k) == Get(entries, k) {
        DeleteGet(entries, key, i, k);
      }
  }

  lemma DeleteKeys(entries: seq<Entry>, key: string, i: nat)
    requires DistinctKeys(entries) && FindKey(entries, 0, key) == Some(i)
    ensures DistinctKeys(Delete(entries, key))
    ensures forall k :: k in Keys(Delete(entries, key)) <==> k in Keys(entries) && k != key
  {
    var r := Delete(entries, key);
    DeleteShifts(entries, key, i);
    forall k | k in Keys(entries) && k != key ensures k in Keys(r) {
      var m :| 0 <= m < |entries| && entries[m].key == k;
      assert r[if m < i then m else m - 1].key == k;
    }
  }

  /** Deleting the entry at position i shifts the later entries down by one. */
  lemma DeleteShifts(entries: seq<Entry>, key: string, i: nat)
    requires FindKey(entries, 0, key) == Some(i)
    ensures |Delete(entries, key)| == |entries| - 1
    ensures forall q :: 0 <= q < |entries| - 1 ==>
      Delete(entries, key)[q] == if q < i then entries[q] else entries[q + 1]
  {
  }

  lemma DeleteGet(entries: seq<Entry>, key: string, i: nat, k: string)
    requires DistinctKeys(entries) && FindKey(entries, 0, key) == Some(i) && k != key
    ensures Get(Delete(entries, key), k) == Get(entries, k)
  {
    var r := Delete(entries, key);
    DeleteShifts(entries, key, i);
    match FindKey(entries, 0, k)
    case None =>
      assert k !in Keys(r);
    case Some(m) =>
      var m' := if m < i then m else m - 1;
      FindKeyIs(r, 0, m', k);
  }

  /** A read after `obj[key] = value` sees `value` at `key` and the old value elsewhere. */
  lemma GetSet(entries: seq<Entry>, key: string, value: Value, k: string)
    ensures Get(Set(entries, key, value), k) == if k == key then Some(value) else Get(entries, k)
  {
    var r := Set(entries, key, value);
    if k != key {
      assert FindKey(r, 0, k) == FindKey(entries, 0, k) by {
        match FindKey(entries, 0, k)
        case Some(i) => assert r[i] == entries[i];
        case None =>
      }
    } else {
      match FindKey(entries, 0, k)
      case Some(i) => FindKeyIs(r, 0, i, k);
      case None => FindKeyIs(r, 0, |entries|, k);
    }
  }

  /** Assigning a key twice leaves it as one assignment of the second value would. */
  lemma SetTwice(entries: seq<Entry>, key: string, a: Value, b: Value)
    ensures Set(Set(entries, key, a), key, b) == Set(entries, key, b)
  {
    var e1 := Set(entries, key, a);
    match FindKey(entries, 0, key)
    case Some(i) => FindKeyIs(e1, 0, i, key);
    case None => FindKeyIs(e1, 0, |entries|, key);
  }

  /** In an object without repeated keys, assigning an existing key rewrites exactly its entry. */
  lemma SetAt(entries: seq<Entry>, key: string, value: Value, j: nat)
    requires DistinctKeys(entries) && key in Keys(entries) && j < |entries|
    ensures |Set(entries, key, value)| == |entries|
    ensures Set(entries, key, value)[j] == if entries[j].key == key then Entry(key, value) else entries[j]
  {
  }

  /** Setting a key keeps the keys distinct. */
  lemma SetKeepsDistinct(entries: seq<Entry>, key: string, value: Value)
    requires DistinctKeys(entries)
    ensures DistinctKeys(Set(entries, key, value))
  {
  }

  /** In an object without repeated keys, the entry at position i is what `Get` finds. */
  lemma GetAt(entries: seq<Entry>, i: nat)
    requires DistinctKeys(entries) && i < |entries|
    ensures Get(entries, entries[i].key) == Some(entries[i].value)
  {
    assert FindKey(entries, 0, entries[i].key) == Some(i);
  }

  /** `arr[n] = x` on a JavaScript array: indices between the old length and n
      become holes, which read as `undefined`. */
  function SetIndex(elems: seq<Value>, n: nat, x: Value): (r: seq<Value>)
    ensures |r| == if n < |elems| then |elems| else n + 1
    ensures r[n] == x
    ensures forall m :: 0 <= m < |r| && m != n ==> r[m] == (if m < |elems| then elems[m] else Undefined)
  {
    if n < |elems| then elems[n := x]
    else elems + seq(n - |elems|, _ => Undefined) + [x]
  }
}

/** utilities.Pair: an immutable key/value pair that captures its key's hash
    and its text when it is built. The key's and the value's own hashCode,
    toString and equals are foreign calls, so they are parameters here.
    (The layout engine's stack elements, pairs of a node and a depth, are
    plain tuples in ConstituentLayout.) */
module Pairs {
  import opened Outcomes

  /** A built pair: the two fields and the two values cached by the constructor. */
  datatype Pair<K, V> = Pair(key: K, value: V, hashcode: int, stringRep: string)

  /** The constructor (lines 16-25): dereferencing a null key or value is a
      NullPointerException; otherwise the hash is the key's and the text is
      `(key, value)`. */
  function NewPair<K, V>(key: Option<K>, value: Option<V>, hash: K -> int, showKey: K -> string, showValue: V -> string): (r: Result<Pair<K, V>>)
    ensures r.Throw? <==> key.None? || value.None?
    ensures r.Throw? ==> r.exc == NullPointer
    ensures r.Ok? ==> Built(r.value, hash, showKey, showValue)
    ensures r.Ok? ==> r.value.key == key.value && r.value.value == value.value
  {
    if key.None? then Throw(NullPointer)
    else
      var h := hash(key.value);
      if value.None? then Throw(NullPointer)
      else Ok(Pair(key.value, value.value, h, "(" + showKey(key.value) + ", " + showValue(value.value) + ")"))
  }

  /** What the constructor promises of its cached fields. */
  ghost predicate Built<K, V>(p: Pair<K, V>, hash: K -> int, showKey: K -> string, showValue: V -> string)
  {
    p.hashcode == hash(p.key) && p.stringRep == "(" + showKey(p.key) + ", " + showValue(p.value) + ")"
  }

  function GetKey<K, V>(p: Pair<K, V>): K { p.key }

  function GetValue<K, V>(p: Pair<K, V>): V { p.value }

  function HashCode<K, V>(p: Pair<K, V>): int { p.hashcode }

  function ToString<K, V>(p: Pair<K, V>): string { p.stringRep }

  /** The argument of equals: null, an object of another class, or a pair. */
  datatype Arg<K, V> = Null | Other | APair(pair: Pair<K, V>)

  /** equals (lines 50-61): a pair whose key and then value are equal, by
      the keys' and values' own equals. */
  function Equals<K, V>(p: Pair<K, V>, obj: Arg<K, V>, keyEquals: (K, K) -> bool, valueEquals: (V, V) -> bool): bool
  {
    match obj
    case APair(q) => keyEquals(p.key, GetKey(q)) && valueEquals(p.value, GetValue(q))
    case _ => false
  }

  /** The accessors give back the constructor's arguments, and the hash and
      text are those computed from them. */
  lemma Accessors<K, V>(key: K, value: V, hash: K -> int, showKey: K -> string, showValue: V -> string)
    ensures var p := NewPair(Some(key), Some(value), hash, showKey, showValue).value;
      && GetKey(p) == key && GetValue(p) == value
      && HashCode(p) == hash(key)
      && ToString(p) == "(" + showKey(key) + ", " + showValue(value) + ")"
  {
  }

  /** equals holds exactly for a pair argument with equal key and equal
      value; null and other classes are never equal. */
  lemma EqualsIff<K, V>(p: Pair<K, V>, obj: Arg<K, V>, keyEquals: (K, K) -> bool, valueEquals: (V, V) -> bool)
    ensures Equals(p, obj, keyEquals, valueEquals) <==>
      obj.APair? && keyEquals(p.key, obj.pair.key) && valueEquals(p.value, obj.pair.value)
    ensures !Equals(p, Null, keyEquals, valueEquals) && !Equals(p, Other, keyEquals, valueEquals)
  {
  }

  /** With reflexive and symmetric equals on keys and values, pair equality
      is reflexive and symmetric. */
  lemma EqualsReflexiveSymmetric<K, V>(p: Pair<K, V>, q: Pair<K, V>, keyEquals: (K, K) -> bool, valueEquals: (V, V) -> bool)
    requires forall a: K :: keyEquals(a, a)
    requires forall a: V :: valueEquals(a, a)
    requires forall a: K, b: K :: keyEquals(a, b) == keyEquals(b, a)
    requires forall a: V, b: V :: valueEquals(a, b) == valueEquals(b, a)
    ensures Equals(p, APair(p), keyEquals, valueEquals)
    ensures Equals(p, APair(q), keyEquals, valueEquals) == Equals(q, APair(p), keyEquals, valueEquals)
  {
    assert keyEquals(p.key, q.key) == keyEquals(q.key, p.key);
    assert valueEquals(p.value, q.value) == valueEquals(q.value, p.value);
  }

  /** hashCode agrees with equals: two built pairs that are equal have the
      same hash whenever equal keys have equal hashes. */
  lemma HashAgreesWithEquals<K, V>(p: Pair<K, V>, q: Pair<K, V>, hash: K -> int, showKey: K -> string, showValue: V -> string,
                                   keyEquals: (K, K) -> bool, valueEquals: (V, V) -> bool)
    requires Built(p, hash, showKey, showValue) && Built(q, hash, showKey, showValue)
    requires forall a: K, b: K :: keyEquals(a, b) ==> hash(a) == hash(b)
    ensures Equals(p, APair(q), keyEquals, valueEquals) ==> HashCode(p) == HashCode(q)
  {
    if Equals(p, APair(q), keyEquals, valueEquals) {
      assert keyEquals(p.key, q.key);
    }
  }

  /** Two pairs built from the same key and value are equal whenever the
      keys' and values' equals are reflexive, and have the same hash and text. */
  lemma SameArguments<K, V>(key: K, value: V, hash: K -> int, showKey: K -> string, showValue: V -> string,
                            keyEquals: (K, K) -> bool, valueEquals: (V, V) -> bool)
    requires keyEquals(key, key) && valueEquals(value, value)
    ensures var p := NewPair(Some(key), Some(value), hash, showKey, showValue).value;
      var q := NewPair(Some(key), Some(value), hash, showKey, showValue).value;
      Equals(p, APair(q), keyEquals, valueEquals) && HashCode(p) == HashCode(q) && ToString(p) == ToString(q)
  {
  }
}

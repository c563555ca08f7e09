/** utilities.Holder: a mutable box whose hash is taken from the first item
    and never updated. The item's own hashCode is a foreign call and is a
    parameter here. */
module Holders {
  import opened Outcomes

  class Holder<T> {
    var item: T
    var hashcode: int

    /** The field assignments of the constructor (lines 9-13) for a non-null item. */
    constructor (item: T, hash: int)
      ensures this.item == item && hashcode == hash
    {
      this.item := item;
      hashcode := hash;
    }

    /** setItem (lines 15-18): the item is replaced, the hash is kept. */
    method SetItem(item: T)
      modifies this
      ensures this.item == item && hashcode == old(hashcode)
    {
      this.item := item;
    }

    /** getItem (lines 20-23). */
    method GetItem() returns (r: T)
      ensures r == item
    {
      return item;
    }

    /** hashCode (lines 30-33). */
    method HashCode() returns (h: int)
      ensures h == hashcode
    {
      return hashcode;
    }

    /** equals (lines 36-46): a Holder argument is compared by identity
      (Object.equals); any other argument is cast to Holder, which fails with
      a ClassCastException, except null, whose cast succeeds and whose item
      is then read through a null reference. */
    method Equals(obj: Arg<T>) returns (r: Result<bool>)
      ensures obj.AHolder? ==> r == Ok(obj.holder == this)
      ensures obj.Null? ==> r == Throw(NullPointer)
      ensures obj.Other? ==> r == Throw(ClassCast)
    {
      match obj
      case AHolder(h) =>
        return Ok(h == this);
      case Other =>
        return Throw(ClassCast);
      case Null =>
        return Throw(NullPointer);
    }
  }

  /** The argument of equals: null, an object of another class, or a Holder. */
  datatype Arg<T> = Null | Other | AHolder(holder: Holder<T>)

  /** new Holder(item) (lines 9-13): a null item is dereferenced for its
      hash; otherwise a fresh Holder with that item and the item's hash. */
  method NewHolder<T>(item: Option<T>, hash: T -> int) returns (r: Result<Holder<T>>)
    ensures r.Throw? <==> item.None?
    ensures r.Throw? ==> r.exc == NullPointer
    ensures r.Ok? ==> fresh(r.value) && r.value.item == item.value && r.value.hashcode == hash(item.value)
  {
    if item.None? {
      return Throw(NullPointer);
    }
    var h := hash(item.value);
    var holder := new Holder(item.value, h);
    return Ok(holder);
  }

  /** Two Holders of the same item are not equal, and keep the item's hash
      after either is given a new item, which getItem then returns. */
  method SameItem<T>(item: T, other: T, hash: T -> int) returns (equal: Result<bool>, got: T, h: int)
    ensures equal == Ok(false)
    ensures got == other && h == hash(item)
  {
    var a := NewHolder(Some(item), hash);
    var b := NewHolder(Some(item), hash);
    var first := a.value;
    var second := b.value;
    equal := first.Equals(AHolder(second));
    second.SetItem(other);
    got := second.GetItem();
    h := second.HashCode();
  }
}

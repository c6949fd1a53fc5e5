/**
 * The collection helpers of Utils/ContainerExtensions.cs: merging one
 * dictionary into another, and testing whether every element of an array is
 * a given item.
 */
module ContainerExtensions {

  /**
   * `Merge`: every entry of `other` is written into `self`, in the
   * dictionary's own (unspecified) order. The outcome is the same whatever
   * that order: the keys of both, with `other`'s value wherever it has one.
   */
  method Merge<K, V>(self: map<K, V>, other: map<K, V>) returns (r: map<K, V>)
    ensures r.Keys == self.Keys + other.Keys
    ensures forall k :: k in other ==> r[k] == other[k]
    ensures forall k :: k in self && k !in other ==> r[k] == self[k]
  {
    r := self;
    var rest := other.Keys;
    while rest != {}
      invariant rest <= other.Keys
      invariant r.Keys == self.Keys + (other.Keys - rest)
      invariant forall k :: k in other && k !in rest ==> r[k] == other[k]
      invariant forall k :: k in self && k !in other ==> r[k] == self[k]
      decreases rest
    {
      var k :| k in rest;
      r := r[k := other[k]];
      rest := rest - {k};
    }
  }

  /** Merging agrees with map override, `self + other`. */
  method MergeOverrides<K, V>(self: map<K, V>, other: map<K, V>) returns (r: map<K, V>)
    ensures r == self + other
  {
    r := Merge(self, other);
  }

  /**
   * `AllEqual`: false at the first element that differs from `item`, true
   * when there is none, so true on an empty array.
   */
  method AllEqual<T(==)>(self: seq<T>, item: T) returns (r: bool)
    ensures r <==> forall i :: 0 <= i < |self| ==> self[i] == item
    ensures !r ==> exists i :: 0 <= i < |self| && self[i] != item
  {
    var i := 0;
    while i < |self|
      invariant 0 <= i <= |self|
      invariant forall j :: 0 <= j < i ==> self[j] == item
    {
      if self[i] != item {
        return false;
      }
      i := i + 1;
    }
    return true;
  }
}

/** A map layered over a parent map: writes go to the child layer only, reads
    fall through to the parent when the child has no (non-null) value, and the
    operations that would have to remove entries or expose keys are refused. */
module HierarchicalMaps {
  import opened Wrappers
  import opened SetQueues

  /** UnsupportedOperationException. */
  datatype Unsupported = UnsupportedOperation

  /** Values are nullable, as in a Java HashMap: None is a key mapped to null. */
  class HierarchicalMap<K(==), V(==)> {
    var child: map<K, Option<V>>
    var parent: map<K, Option<V>>

    /** Layers a fresh, empty child over the given parent. */
    constructor (parent: map<K, Option<V>>)
      ensures this.child == map[] && this.parent == parent
    {
      this.child := map[];
      this.parent := parent;
    }

    /** The no-argument constructor: both layers start empty. */
    constructor Empty()
      ensures child == map[] && parent == map[]
      ensures Size() == 0 && IsEmpty()
    {
      child := map[];
      parent := map[];
    }

    /** size: entries of both layers; a key present in both counts twice. */
    function Size(): (n: nat)
      reads this
      ensures n == |child| + |parent|
      ensures n == |child.Keys + parent.Keys| + |child.Keys * parent.Keys|
    {
      UnionCard(child.Keys, parent.Keys);
      |child| + |parent|
    }

    /** isEmpty: neither layer has an entry, which is exactly a size of zero. */
    predicate IsEmpty()
      reads this
      ensures IsEmpty() <==> Size() == 0
      ensures IsEmpty() <==> child.Keys + parent.Keys == {}
    {
      child == map[] && parent == map[]
    }

    /** containsKey: either layer has the key (possibly mapped to null). */
    predicate ContainsKey(k: K)
      reads this
      ensures ContainsKey(k) <==> k in child.Keys + parent.Keys
      ensures ContainsKey(k) ==> !IsEmpty() && Size() > 0
    {
      k in child || k in parent
    }

    /** containsValue: either layer maps some key to the value. */
    predicate ContainsValue(v: Option<V>)
      reads this
      ensures ContainsValue(v) ==> !IsEmpty()
    {
      v in child.Values || v in parent.Values
    }

    /** get: the child's value when it is not null, the parent's otherwise. */
    function Get(k: K): (r: Option<V>)
      reads this
      ensures k in child && child[k].Some? ==> r == child[k]
      ensures r.Some? ==> ContainsKey(k)
      ensures r.Some? && !(k in child && child[k].Some?) ==> k in parent && parent[k] == r
      ensures !ContainsKey(k) ==> r.None?
      ensures !(k in child && child[k].Some?) ==> r == (if k in parent then parent[k] else None)
    {
      Lookup(child, parent, k)
    }

    /** put: writes the child layer only and returns its previous value. */
    method Put(k: K, v: Option<V>) returns (previous: Option<V>)
      modifies this`child
      ensures child == old(child)[k := v] && parent == old(parent)
      ensures previous == (if k in old(child) then old(child)[k] else None)
      ensures ContainsKey(k)
      ensures v.Some? ==> Get(k) == v
      ensures forall k' :: k' != k ==> Get(k') == Lookup(old(child), old(parent), k')
    {
      previous := if k in child then child[k] else None;
      child := child[k := v];
    }

    /** putAll: copies every entry of m into the child layer only. */
    method PutAll(m: map<K, Option<V>>)
      modifies this`child
      ensures child == old(child) + m && parent == old(parent)
      ensures forall k :: k in m && m[k].Some? ==> Get(k) == m[k]
      ensures forall k :: k !in m ==> Get(k) == Lookup(old(child), old(parent), k)
    {
      child := child + m;
    }

    /** remove is refused and changes nothing. */
    method Remove(k: K) returns (r: Result<Option<V>, Unsupported>)
      ensures r == Failure(UnsupportedOperation)
    {
      r := Failure(UnsupportedOperation);
    }

    /** clear is refused and changes nothing. */
    method Clear() returns (r: Result<(), Unsupported>)
      ensures r == Failure(UnsupportedOperation)
    {
      r := Failure(UnsupportedOperation);
    }

    /** keySet is refused. */
    method KeySet() returns (r: Result<set<K>, Unsupported>)
      ensures r == Failure(UnsupportedOperation)
    {
      r := Failure(UnsupportedOperation);
    }

    /** entrySet is refused. */
    method EntrySet() returns (r: Result<map<K, Option<V>>, Unsupported>)
      ensures r == Failure(UnsupportedOperation)
    {
      r := Failure(UnsupportedOperation);
    }

    /** values: the value of every key of the child (in the map's own
        iteration order), then that of every key of the parent, so a value
        appears once per key holding it; as long as size(). The keys visited
        are returned alongside, child keys then parent keys. */
    method Values() returns (vs: seq<Option<V>>, ghost keys: seq<K>)
      ensures |vs| == |keys| == Size()
      ensures VisitsOnce(keys[..|child|], child) && VisitsOnce(keys[|child|..], parent)
      ensures ReadOff(vs[..|child|], keys[..|child|], child)
      ensures ReadOff(vs[|child|..], keys[|child|..], parent)
    {
      var fromChild, childKeys := ValuesOf(child);
      var fromParent, parentKeys := ValuesOf(parent);
      vs := fromChild + fromParent;
      keys := childKeys + parentKeys;
      assert vs[..|child|] == fromChild && vs[|child|..] == fromParent;
      assert keys[..|child|] == childKeys && keys[|child|..] == parentKeys;
    }
  }

  /** keys lists every key of m exactly once. */
  ghost predicate VisitsOnce<K, V>(keys: seq<K>, m: map<K, V>)
  {
    NoDup(keys) && Elems(keys) == m.Keys
  }

  /** vs[i] is the value m holds for keys[i], for every i. */
  ghost predicate ReadOff<K, V>(vs: seq<V>, keys: seq<K>, m: map<K, V>)
  {
    |vs| == |keys| && forall i :: 0 <= i < |vs| ==> keys[i] in m && vs[i] == m[keys[i]]
  }

  /** The values of one layer, visiting its keys one by one: the value of the
      i-th key visited is the i-th value, and every key is visited once. */
  method ValuesOf<K, V>(m: map<K, V>) returns (vs: seq<V>, keys: seq<K>)
    ensures |vs| == |keys| == |m|
    ensures VisitsOnce(keys, m) && ReadOff(vs, keys, m)
  {
    vs, keys := [], [];
    var todo := m.Keys;
    while todo != {}
      invariant todo !! Elems(keys) && Elems(keys) + todo == m.Keys
      invariant NoDup(keys) && ReadOff(vs, keys, m)
      invariant |keys| + |todo| == |m|
      decreases |todo|
    {
      var k :| k in todo;
      AppendFresh(keys, k);
      vs, keys := vs + [m[k]], keys + [k];
      todo := todo - {k};
    }
  }

  /** The value get(k) reads from a child layer over a parent layer. */
  function Lookup<K, V>(child: map<K, Option<V>>, parent: map<K, Option<V>>, k: K): Option<V>
  {
    if k in child && child[k].Some? then child[k]
    else if k in parent then parent[k]
    else None
  }

  /** Inclusion-exclusion for two sets. */
  lemma UnionCard<T>(a: set<T>, b: set<T>)
    ensures |a + b| + |a * b| == |a| + |b|
  {
    assert a + b == a + (b - a);
    assert b == (b - a) + (a * b);
  }
}

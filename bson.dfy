/**
 The BSON values that reach the Compass renderer: the kinds its type switch
 recognises, the three containers (`bson.A`, `bson.D`, `bson.M`) and a
 catch-all for every other Go value.
 */
module Bson {
  import opened Numbers

  /**
   A value handed to the renderer.

   - `Int` is a plain Go `int` (64 bits), which the renderer prints through
     its fallback `%v` branch.
   - `Other(text)` is any other Go value (a `float64` among them) together
     with the text `%v` gives it.
   - `Map(entries)` is a `bson.M` given by the entries in the order that Go's
     map iteration yields them during this rendering; Go leaves that order
     unspecified, so the model takes it as part of the input and promises
     nothing about it. A real map has distinct keys (`KeysDistinct`).
   */
  datatype Value =
    | Null
    | Bool(b: bool)
    | Int32(i32: Int32)
    | Int64(i64: Int64)
    | Int(n: Int64)
    | Str(s: string)
    | ObjectId(id: ObjectIdBytes)
    | DateTime(millis: Int64)
    | Timestamp(t: UInt32, i: UInt32)
    | Decimal128(text: string)
    | Arr(items: seq<Value>)
    | Doc(elems: seq<Elem>)
    | Map(entries: seq<Elem>)
    | Other(text: string)

  /** One key/value pair of a document (`bson.E`) or one entry of a map. */
  datatype Elem = Elem(key: string, value: Value)

  /** The twelve bytes of an ObjectID. */
  type ObjectIdBytes = s: seq<Byte> | |s| == 12 witness [0, 0, 0, 0, 0, 0, 0, 0, 0, 0, 0, 0]

  /** A stage of an aggregation pipeline is an ordered document. */
  type Stage = seq<Elem>

  /** No key occurs twice. */
  predicate KeysDistinct(es: seq<Elem>) {
    forall i, j :: 0 <= i < j < |es| ==> es[i].key != es[j].key
  }

  /** The Go map that an enumeration lists (for repeated keys the last entry wins). */
  function MapOf(es: seq<Elem>): map<string, Value> {
    if es == [] then map[] else MapOf(es[..|es| - 1])[es[|es| - 1].key := es[|es| - 1].value]
  }

  /** Every key of the map is the key of some listed entry. */
  lemma {:induction false} MapOfKeys(es: seq<Elem>)
    ensures forall k :: k in MapOf(es) ==> exists i :: 0 <= i < |es| && es[i].key == k
  {
    if es != [] {
      var p := es[..|es| - 1];
      MapOfKeys(p);
      forall k | k in MapOf(es) ensures exists i :: 0 <= i < |es| && es[i].key == k {
        if k != es[|es| - 1].key {
          assert k in MapOf(p);
          var i :| 0 <= i < |p| && p[i].key == k;
          assert es[i].key == k;
        }
      }
    }
  }

  /** Every listed key is a key of the map. */
  lemma {:induction false} KeyListed(es: seq<Elem>, i: nat)
    requires i < |es|
    ensures es[i].key in MapOf(es)
    decreases |es|
  {
    var p := es[..|es| - 1];
    if i < |p| {
      KeyListed(p, i);
      assert p[i] == es[i];
    }
  }

  /** The last entry of a duplicate-free enumeration is not in the map of the entries before it. */
  lemma LastKeyFresh(es: seq<Elem>)
    requires KeysDistinct(es) && es != []
    ensures es[|es| - 1].key !in MapOf(es[..|es| - 1])
  {
    var p := es[..|es| - 1];
    MapOfKeys(p);
  }

  /** With distinct keys, an entry is listed exactly when the map holds it. */
  lemma {:induction false} MapOfEntries(es: seq<Elem>)
    requires KeysDistinct(es)
    ensures forall e :: e in es <==> e.key in MapOf(es) && MapOf(es)[e.key] == e.value
  {
    if es != [] {
      var p := es[..|es| - 1];
      assert KeysDistinct(p);
      MapOfEntries(p);
      var last := es[|es| - 1];
      LastKeyFresh(es);
      assert es == p + [last];
    }
  }

  /** Two entries with different keys, listed in either order, enumerate the same map. */
  lemma SwapTwo(e1: Elem, e2: Elem)
    requires e1.key != e2.key
    ensures MapOf([e1, e2]) == MapOf([e2, e1])
  {
    assert [e1, e2][..1] == [e1] && [e2, e1][..1] == [e2];
    assert [e1][..0] == [] && [e2][..0] == [];
  }

  /** An enumeration of a map has one entry per key. */
  lemma {:induction false} EnumerationLength(es: seq<Elem>)
    requires KeysDistinct(es)
    ensures |MapOf(es)| == |es|
  {
    if es != [] {
      var p := es[..|es| - 1];
      assert KeysDistinct(p);
      EnumerationLength(p);
      LastKeyFresh(es);
    }
  }

  /** Every Go map has an iteration order: some duplicate-free enumeration lists exactly its entries. */
  /** Appending an entry with a new key keeps the keys distinct and adds that key. */
  lemma Extend(es: seq<Elem>, k: string, v: Value)
    requires KeysDistinct(es) && k !in MapOf(es)
    ensures KeysDistinct(es + [Elem(k, v)])
    ensures MapOf(es + [Elem(k, v)]) == MapOf(es)[k := v]
  {
    var es' := es + [Elem(k, v)];
    assert es'[..|es'| - 1] == es;
    forall i, j | 0 <= i < j < |es'| ensures es'[i].key != es'[j].key {
      assert es'[i] == es[i];
      if j < |es| {
        assert es'[j] == es[j];
      } else {
        KeyListed(es, i);
      }
    }
  }

  lemma EnumerationExists(m: map<string, Value>)
    ensures exists es :: KeysDistinct(es) && MapOf(es) == m
    decreases |m|
  {
    if m == map[] {
      assert KeysDistinct([]) && MapOf([]) == m;
    } else {
      var k :| k in m;
      var rest := m - {k};
      assert |rest| < |m| by {
        assert rest.Keys == m.Keys - {k};
      }
      EnumerationExists(rest);
      var es :| KeysDistinct(es) && MapOf(es) == rest;
      Extend(es, k, m[k]);
      assert MapOf(es + [Elem(k, m[k])]) == rest[k := m[k]];
      assert rest[k := m[k]] == m;
    }
  }

  lemma {:induction false} DistinctCount(es: seq<Elem>, e: Elem)
    requires KeysDistinct(es)
    ensures multiset(es)[e] == if e in es then 1 else 0
  {
    if es != [] {
      var p := es[..|es| - 1];
      assert es == p + [es[|es| - 1]];
      assert KeysDistinct(p);
      DistinctCount(p, e);
    }
  }

  /**
   Two iteration orders of the same Go map list the same entries: each
   enumeration is a permutation of the other.
   */
  lemma EnumerationsArePermutations(es1: seq<Elem>, es2: seq<Elem>)
    requires KeysDistinct(es1) && KeysDistinct(es2)
    requires MapOf(es1) == MapOf(es2)
    ensures multiset(es1) == multiset(es2)
  {
    MapOfEntries(es1);
    MapOfEntries(es2);
    forall e ensures multiset(es1)[e] == multiset(es2)[e] {
      DistinctCount(es1, e);
      DistinctCount(es2, e);
    }
  }
}

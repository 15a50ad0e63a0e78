/**
 * The device catalog as the engine sees it: the sensor records in insertion
 * order, with the queries the engine makes of it (by uuid, by name, by line)
 * and the reference count of a line across all records.
 */
module Catalog {
  import opened Records

  /** No two records share a uuid. */
  ghost predicate DistinctUuids(d: seq<Sensor>)
  {
    forall i, j :: 0 <= i < j < |d| ==> d[i].uuid != d[j].uuid
  }

  /** The two halves of a DHT22 sensor: one temperature and one humidity record on one shared line. */
  predicate DhtPair(a: Sensor, b: Sensor)
  {
    && a.subtype == Dht22 && b.subtype == Dht22
    && {a.kind, b.kind} == {Temperature, Humidity}
    && a.gpios == b.gpios && |a.gpios| == 1
  }

  /** Names are unique, except that the two halves of a DHT22 sensor share theirs. */
  ghost predicate PairedNames(d: seq<Sensor>)
  {
    forall a, b :: a in d && b in d && a != b && a.name == b.name ==> DhtPair(a, b)
  }

  /** The record with this uuid, if any (`_get_device`). */
  function Find(d: seq<Sensor>, uuid: Uuid): (r: Option<Sensor>)
    ensures r.Some? ==> r.value in d && r.value.uuid == uuid
    ensures r.None? <==> forall s :: s in d ==> s.uuid != uuid
  {
    if d == [] then None
    else if d[0].uuid == uuid then Some(d[0])
    else Find(d[1..], uuid)
  }

  /** Some record has this name (`_search_device('name', name) is not None`). */
  predicate NameUsed(d: seq<Sensor>, name: string)
  {
    exists s :: s in d && s.name == name
  }

  /** All records with this name, in catalog order (`_search_devices('name', name)`). */
  function ByName(d: seq<Sensor>, name: string): (r: seq<Sensor>)
    ensures forall s :: s in r <==> s in d && s.name == name
    ensures |r| <= |d|
  {
    if d == [] then []
    else (if d[0].name == name then [d[0]] else []) + ByName(d[1..], name)
  }

  /** The catalog after `_update_device(s.uuid, s)`: the record with s's uuid is replaced by s. */
  function Replaced(d: seq<Sensor>, s: Sensor): (r: seq<Sensor>)
    ensures |r| == |d|
    ensures forall i :: 0 <= i < |d| ==> r[i] == if d[i].uuid == s.uuid then s else d[i]
  {
    seq(|d|, i requires 0 <= i < |d| => if d[i].uuid == s.uuid then s else d[i])
  }

  /** The catalog after `_delete_device(uuid)`: every other record, in order. */
  function Without(d: seq<Sensor>, uuid: Uuid): (r: seq<Sensor>)
    ensures forall s :: s in r <==> s in d && s.uuid != uuid
  {
    if d == [] then []
    else (if d[0].uuid == uuid then [] else [d[0]]) + Without(d[1..], uuid)
  }

  /** Number of entries of a gpios list that name this line. */
  function CountIn(gpios: seq<Gpio>, name: string): nat
  {
    if gpios == [] then 0
    else (if gpios[0].gpio == name then 1 else 0) + CountIn(gpios[1..], name)
  }

  /** Number of gpios entries, over all records, that name this line: its live reference count. */
  function CountUses(d: seq<Sensor>, name: string): nat
  {
    if d == [] then 0 else CountIn(d[0].gpios, name) + CountUses(d[1..], name)
  }

  /** Some gpios entry of the record holds this line uuid. */
  predicate HasLine(s: Sensor, gpioUuid: Uuid)
  {
    exists j :: 0 <= j < |s.gpios| && s.gpios[j].gpioUuid == gpioUuid
  }

  /** The first record, in catalog order, with an entry for this line uuid (`__search_by_gpio`). */
  function FirstWithLine(d: seq<Sensor>, gpioUuid: Uuid): (r: Option<Sensor>)
    ensures r.None? <==> forall s :: s in d ==> !HasLine(s, gpioUuid)
    ensures r.Some? ==> exists i :: 0 <= i < |d| && d[i] == r.value && HasLine(d[i], gpioUuid)
                                    && forall k :: 0 <= k < i ==> !HasLine(d[k], gpioUuid)
  {
    if d == [] then None
    else if HasLine(d[0], gpioUuid) then Some(d[0])
    else
      var r := FirstWithLine(d[1..], gpioUuid);
      assert forall s :: s in d <==> s == d[0] || s in d[1..];
      assert r.Some? ==> exists i :: 0 <= i < |d| && d[i] == r.value && HasLine(d[i], gpioUuid)
                                    && forall k :: 0 <= k < i ==> !HasLine(d[k], gpioUuid) by {
        if r.Some? {
          var i :| 0 <= i < |d[1..]| && d[1..][i] == r.value && HasLine(d[1..][i], gpioUuid)
                   && forall k :: 0 <= k < i ==> !HasLine(d[1..][k], gpioUuid);
          assert d[i + 1] == r.value;
          forall k | 0 <= k < i + 1 ensures !HasLine(d[k], gpioUuid) {
            if k > 0 { assert d[k] == d[1..][k - 1]; }
          }
        }
      }
      r
  }

  // ---------------------------------------------------------------------
  // Reference counting

  lemma {:induction false} CountInSnoc(gpios: seq<Gpio>, g: Gpio, name: string)
    ensures CountIn(gpios + [g], name) == CountIn(gpios, name) + (if g.gpio == name then 1 else 0)
  {
    if gpios != [] {
      assert (gpios + [g])[1..] == gpios[1..] + [g];
      CountInSnoc(gpios[1..], g, name);
    }
  }

  lemma {:induction false} CountUsesSnoc(d: seq<Sensor>, s: Sensor, name: string)
    ensures CountUses(d + [s], name) == CountUses(d, name) + CountIn(s.gpios, name)
  {
    if d == [] {
      assert CountUses([s], name) == CountIn(s.gpios, name) + CountUses([], name);
    } else {
      assert (d + [s])[1..] == d[1..] + [s];
      CountUsesSnoc(d[1..], s, name);
    }
  }

  /** A line named in some record's gpios has a reference count of at least one. */
  lemma {:induction false} CountUsesPositive(d: seq<Sensor>, s: Sensor, j: nat)
    requires s in d && j < |s.gpios|
    ensures CountUses(d, s.gpios[j].gpio) >= 1
  {
    if d[0] == s {
      CountInPositive(s.gpios, j);
    } else {
      CountUsesPositive(d[1..], s, j);
    }
  }

  lemma {:induction false} CountInPositive(gpios: seq<Gpio>, j: nat)
    requires j < |gpios|
    ensures CountIn(gpios, gpios[j].gpio) >= 1
  {
    if j > 0 {
      CountInPositive(gpios[1..], j - 1);
    }
  }

  /** A line that no record names has a reference count of zero, and conversely. */
  lemma {:induction false} CountUsesZero(d: seq<Sensor>, name: string)
    ensures CountUses(d, name) == 0 <==> forall s, j :: s in d && 0 <= j < |s.gpios| ==> s.gpios[j].gpio != name
  {
    if d != [] {
      CountUsesZero(d[1..], name);
      CountInZero(d[0].gpios, name);
      assert forall s :: s in d <==> s == d[0] || s in d[1..];
    }
  }

  lemma {:induction false} CountInZero(gpios: seq<Gpio>, name: string)
    ensures CountIn(gpios, name) == 0 <==> forall j :: 0 <= j < |gpios| ==> gpios[j].gpio != name
  {
    if gpios != [] {
      CountInZero(gpios[1..], name);
      assert forall j :: 1 <= j < |gpios| ==> gpios[j] == gpios[1..][j - 1];
    }
  }

  /** Removing a record lowers the count of every line by the number of times that record names it. */
  lemma {:induction false} CountUsesWithout(d: seq<Sensor>, k: nat, name: string)
    requires DistinctUuids(d) && k < |d|
    ensures CountUses(Without(d, d[k].uuid), name) == CountUses(d, name) - CountIn(d[k].gpios, name)
  {
    if k == 0 {
      WithoutAbsent(d[1..], d[0].uuid);
      assert Without(d, d[0].uuid) == Without(d[1..], d[0].uuid);
    } else {
      assert d[k] == d[1..][k - 1];
      CountUsesWithout(d[1..], k - 1, name);
      assert Without(d, d[k].uuid) == [d[0]] + Without(d[1..], d[k].uuid);
    }
  }

  /** Removing a uuid no record holds leaves the catalog as it is. */
  lemma {:induction false} WithoutAbsent(d: seq<Sensor>, uuid: Uuid)
    requires forall s :: s in d ==> s.uuid != uuid
    ensures Without(d, uuid) == d
  {
    if d != [] {
      WithoutAbsent(d[1..], uuid);
    }
  }

  // ---------------------------------------------------------------------
  // Catalog invariants kept by the catalog updates

  lemma {:induction false} WithoutDistinct(d: seq<Sensor>, uuid: Uuid)
    requires DistinctUuids(d)
    ensures DistinctUuids(Without(d, uuid))
  {
    if d != [] {
      WithoutDistinct(d[1..], uuid);
      var rest := Without(d[1..], uuid);
      forall s | s in rest ensures s.uuid != d[0].uuid {
        var i :| 0 <= i < |d[1..]| && d[1..][i] == s;
        assert d[i + 1] == s;
      }
    }
  }

  lemma AppendDistinct(d: seq<Sensor>, s: Sensor)
    requires DistinctUuids(d) && forall t :: t in d ==> t.uuid != s.uuid
    ensures DistinctUuids(d + [s])
  {
    forall i, j | 0 <= i < j < |d + [s]| ensures (d + [s])[i].uuid != (d + [s])[j].uuid {
      if j == |d| {
        assert d[i] in d;
      }
    }
  }

  lemma ReplacedDistinct(d: seq<Sensor>, s: Sensor)
    requires DistinctUuids(d)
    ensures DistinctUuids(Replaced(d, s))
  {
  }

  /** Every record of the replaced catalog is s or a record of the old catalog with another uuid. */
  lemma ReplacedMembers(d: seq<Sensor>, s: Sensor)
    ensures forall t :: t in Replaced(d, s) ==> t == s || (t in d && t.uuid != s.uuid)
  {
    forall t | t in Replaced(d, s) ensures t == s || (t in d && t.uuid != s.uuid) {
      var i :| 0 <= i < |Replaced(d, s)| && Replaced(d, s)[i] == t;
    }
  }

  /** When s takes a record's place, the other records are all still there. */
  lemma ReplacedKeeps(d: seq<Sensor>, s: Sensor)
    ensures forall t :: t in d && t.uuid != s.uuid ==> t in Replaced(d, s)
  {
    forall t | t in d && t.uuid != s.uuid ensures t in Replaced(d, s) {
      var i :| 0 <= i < |d| && d[i] == t;
      assert Replaced(d, s)[i] == t;
    }
  }

  /** The uuid found by Find sits at exactly one index of a catalog with distinct uuids. */
  lemma FindUnique(d: seq<Sensor>, s: Sensor)
    requires DistinctUuids(d) && s in d
    ensures Find(d, s.uuid) == Some(s)
  {
    var r := Find(d, s.uuid);
    var i :| 0 <= i < |d| && d[i] == s;
    var j :| 0 <= j < |d| && d[j] == r.value;
    assert i == j;
  }

  /** In a catalog whose names are paired, at most two records share a name. */
  lemma ByNameAtMostTwo(d: seq<Sensor>, name: string)
    requires DistinctUuids(d) && PairedNames(d)
    ensures |ByName(d, name)| <= 2
  {
    var r := ByName(d, name);
    ByNameDistinct(d, name);
    forall i, j | 0 <= i < j < |r| ensures r[i].kind != r[j].kind {
      assert r[i] in d && r[j] in d && r[i] != r[j];
    }
    if |r| > 1 {
      forall i | 0 <= i < |r| ensures r[i].kind != Motion {
        var j := if i == 0 then 1 else 0;
        assert r[i] in d && r[j] in d && r[i] != r[j];
      }
      KindCountAtMostOne(r, Temperature);
      KindCountAtMostOne(r, Humidity);
      KindCountSplit(r);
    }
  }

  /** Number of records of this kind. */
  function KindCount(r: seq<Sensor>, k: Kind): nat
  {
    if r == [] then 0 else (if r[0].kind == k then 1 else 0) + KindCount(r[1..], k)
  }

  lemma {:induction false} KindCountAtMostOne(r: seq<Sensor>, k: Kind)
    requires forall i, j :: 0 <= i < j < |r| ==> r[i].kind != r[j].kind
    ensures KindCount(r, k) <= 1
  {
    if r != [] {
      if r[0].kind == k {
        KindCountNone(r[1..], k);
      } else {
        KindCountAtMostOne(r[1..], k);
      }
    }
  }

  lemma {:induction false} KindCountNone(r: seq<Sensor>, k: Kind)
    requires forall i :: 0 <= i < |r| ==> r[i].kind != k
    ensures KindCount(r, k) == 0
  {
    if r != [] {
      KindCountNone(r[1..], k);
    }
  }

  lemma {:induction false} KindCountSplit(r: seq<Sensor>)
    requires forall i :: 0 <= i < |r| ==> r[i].kind != Motion
    ensures |r| == KindCount(r, Temperature) + KindCount(r, Humidity)
  {
    if r != [] {
      KindCountSplit(r[1..]);
    }
  }

  lemma {:induction false} ByNameDistinct(d: seq<Sensor>, name: string)
    requires DistinctUuids(d)
    ensures DistinctUuids(ByName(d, name))
  {
    if d != [] {
      ByNameDistinct(d[1..], name);
      var rest := ByName(d[1..], name);
      forall s | s in rest ensures s.uuid != d[0].uuid {
        var i :| 0 <= i < |d[1..]| && d[1..][i] == s;
        assert d[i + 1] == s;
      }
    }
  }

  // ---------------------------------------------------------------------
  // Queries over grown and rewritten catalogs

  /** Appending a record extends the name query by that record when it carries the name. */
  lemma {:induction false} ByNameSnoc(d: seq<Sensor>, s: Sensor, name: string)
    ensures ByName(d + [s], name) == ByName(d, name) + (if s.name == name then [s] else [])
  {
    if d == [] {
      assert ByName([s], name) == (if s.name == name then [s] else []) + ByName([], name);
    } else {
      var head := if d[0].name == name then [d[0]] else [];
      var tail := if s.name == name then [s] else [];
      assert (d + [s])[0] == d[0] && (d + [s])[1..] == d[1..] + [s];
      assert ByName(d + [s], name) == head + ByName(d[1..] + [s], name);
      ByNameSnoc(d[1..], s, name);
      assert head + (ByName(d[1..], name) + tail) == (head + ByName(d[1..], name)) + tail;
    }
  }

  /** The name query keeps every record carrying the name as often as the catalog holds it, and no other. */
  lemma {:induction false} ByNameCount(d: seq<Sensor>, name: string, s: Sensor)
    ensures multiset(ByName(d, name))[s] == if s.name == name then multiset(d)[s] else 0
  {
    if d != [] {
      ByNameCount(d[1..], name, s);
      assert d == [d[0]] + d[1..];
      assert multiset(d) == multiset{d[0]} + multiset(d[1..]);
    }
  }

  /** The name query for a name no record carries is empty. */
  lemma ByNameUnused(d: seq<Sensor>, name: string)
    requires !NameUsed(d, name)
    ensures ByName(d, name) == []
  {
  }

  /** Rewriting a record in place keeps the set of uuids the catalog holds. */
  lemma ReplacedFind(d: seq<Sensor>, s: Sensor, uuid: Uuid)
    ensures Find(Replaced(d, s), uuid).Some? <==> Find(d, uuid).Some?
  {
    var r := Replaced(d, s);
    if Find(d, uuid).Some? {
      var t := Find(d, uuid).value;
      var i :| 0 <= i < |d| && d[i] == t;
      assert r[i].uuid == uuid;
    }
    if Find(r, uuid).Some? {
      var t := Find(r, uuid).value;
      var i :| 0 <= i < |r| && r[i] == t;
      assert d[i].uuid == uuid;
    }
  }

  /** Removing the record just appended gives back the catalog it was appended to. */
  lemma {:induction false} WithoutLast(d: seq<Sensor>, s: Sensor)
    requires forall t :: t in d ==> t.uuid != s.uuid
    ensures Without(d + [s], s.uuid) == d
  {
    if d == [] {
      assert Without([s], s.uuid) == [] + Without([], s.uuid);
    } else {
      assert (d + [s])[1..] == d[1..] + [s];
      WithoutLast(d[1..], s);
    }
  }

  // ---------------------------------------------------------------------
  // Paired names kept by the add, update and delete operations

  /** A record whose name no record carries can be appended. */
  lemma PairedAppendFresh(d: seq<Sensor>, s: Sensor)
    requires PairedNames(d) && !NameUsed(d, s.name)
    ensures PairedNames(d + [s])
  {
  }

  /** The two halves of a DHT22 sensor under a name no record carries can be appended together. */
  lemma PairedAppendPair(d: seq<Sensor>, t: Sensor, h: Sensor)
    requires PairedNames(d) && !NameUsed(d, t.name)
    requires DhtPair(t, h) && t.name == h.name && t != h
    ensures PairedNames(d + [t] + [h])
  {
    PairedAppendFresh(d, t);
    forall a, b | a in d + [t] + [h] && b in d + [t] + [h] && a != b && a.name == b.name
      ensures DhtPair(a, b)
    {
      if a == h && b == t {
        assert {b.kind, a.kind} == {a.kind, b.kind};
      }
    }
  }

  lemma PairedWithout(d: seq<Sensor>, uuid: Uuid)
    requires PairedNames(d)
    ensures PairedNames(Without(d, uuid))
  {
  }

  /** Two versions of a record with the same type, subtype and lines. */
  predicate SameShape(a: Sensor, b: Sensor)
  {
    a.kind == b.kind && a.subtype == b.subtype && a.gpios == b.gpios
  }

  /** Rewriting a record keeps names paired when the rewrite keeps its shape and keeps or frees its name. */
  lemma PairedReplaced(d: seq<Sensor>, current: Sensor, s: Sensor)
    requires DistinctUuids(d) && PairedNames(d)
    requires current in d && current.uuid == s.uuid && SameShape(current, s)
    requires s.name == current.name || !NameUsed(d, s.name)
    ensures PairedNames(Replaced(d, s))
  {
    var r := Replaced(d, s);
    ReplacedMembers(d, s);
    forall a, b | a in r && b in r && a != b && a.name == b.name ensures DhtPair(a, b) {
      if a == s {
        assert b in d && b.uuid != s.uuid;
        assert b != current && b.name == current.name;
        assert DhtPair(current, b);
      } else if b == s {
        assert a in d && a.uuid != s.uuid;
        assert a != current && a.name == current.name;
        assert DhtPair(a, current);
      }
    }
  }
}

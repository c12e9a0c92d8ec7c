/**
 * The manager's entity array as a sequence of object identities into a heap
 * of states. `addEntity` pushes and then sorts by `zIndex` with JavaScript's
 * stable sort; removal filters by identity (entities.manager.ts).
 */
module EntityList {
  import opened Bodies
  import Asteroids

  /** The identity of an entity object. */
  type Id = nat

  /** The state of every entity object ever created, by identity. */
  type Heap = map<Id, Body>

  predicate Stored(ids: seq<Id>, heap: Heap) {
    forall i :: 0 <= i < |ids| ==> ids[i] in heap
  }

  /** Non-decreasing draw order. */
  predicate Sorted(ids: seq<Id>, heap: Heap)
    requires Stored(ids, heap)
  {
    forall i, j :: 0 <= i < j < |ids| ==> ZIndex(heap[ids[i]]) <= ZIndex(heap[ids[j]])
  }

  /** No object appears twice. */
  predicate Distinct(ids: seq<Id>) {
    forall i, j :: 0 <= i < j < |ids| ==> ids[i] != ids[j]
  }

  /**
   * `push(id)` followed by the stable sort on a sorted array: the new entity
   * passes every later entity of a strictly greater draw order.
   */
  function Insert(ids: seq<Id>, heap: Heap, id: Id): (r: seq<Id>)
    requires Stored(ids, heap) && id in heap
    ensures Stored(r, heap) && |r| == |ids| + 1
    decreases |ids|
  {
    if |ids| == 0 || ZIndex(heap[ids[|ids| - 1]]) <= ZIndex(heap[id]) then ids + [id]
    else Insert(ids[..|ids| - 1], heap, id) + [ids[|ids| - 1]]
  }

  /** Where `Insert` places the new entity. */
  function InsertAt(ids: seq<Id>, heap: Heap, id: Id): (k: nat)
    requires Stored(ids, heap) && id in heap
    ensures k <= |ids|
    decreases |ids|
  {
    if |ids| == 0 || ZIndex(heap[ids[|ids| - 1]]) <= ZIndex(heap[id]) then |ids|
    else InsertAt(ids[..|ids| - 1], heap, id)
  }

  /** The entities of draw order `z`, in array order. */
  function Layer(ids: seq<Id>, heap: Heap, z: int): seq<Id>
    requires Stored(ids, heap)
    decreases |ids|
  {
    if |ids| == 0 then []
    else Layer(ids[..|ids| - 1], heap, z) + (if ZIndex(heap[ids[|ids| - 1]]) == z then [ids[|ids| - 1]] else [])
  }

  /** `filter(e => e !== entity)`. */
  function Without(ids: seq<Id>, id: Id): seq<Id>
    decreases |ids|
  {
    if |ids| == 0 then []
    else Without(ids[..|ids| - 1], id) + (if ids[|ids| - 1] == id then [] else [ids[|ids| - 1]])
  }

  /** `filter(e => e.hasExtension(CollisionalExtension))`. */
  function Colliders(ids: seq<Id>, heap: Heap): seq<Id>
    requires Stored(ids, heap)
    decreases |ids|
  {
    if |ids| == 0 then []
    else Colliders(ids[..|ids| - 1], heap) + (if Collidable(heap[ids[|ids| - 1]]) then [ids[|ids| - 1]] else [])
  }

  /** `filter(e => e instanceof Asteroid).length`. */
  function CountAsteroids(ids: seq<Id>, heap: Heap): nat
    requires Stored(ids, heap)
    decreases |ids|
  {
    if |ids| == 0 then 0
    else CountAsteroids(ids[..|ids| - 1], heap) + (if heap[ids[|ids| - 1]].AsteroidBody? then 1 else 0)
  }

  // ---------------------------------------------------------------- insertion

  /** The array after `addEntity` holds the old entities and the new one, nothing else. */
  lemma {:induction false} InsertPermutes(ids: seq<Id>, heap: Heap, id: Id)
    requires Stored(ids, heap) && id in heap
    ensures multiset(Insert(ids, heap, id)) == multiset(ids) + multiset{id}
    decreases |ids|
  {
    if |ids| > 0 && ZIndex(heap[ids[|ids| - 1]]) > ZIndex(heap[id]) {
      var init, last := ids[..|ids| - 1], ids[|ids| - 1];
      InsertPermutes(init, heap, id);
      assert ids == init + [last];
    }
  }

  /** The new entity goes in after every entity of its draw order or lower, before the rest. */
  lemma {:induction false} InsertSplits(ids: seq<Id>, heap: Heap, id: Id)
    requires Stored(ids, heap) && id in heap
    ensures var k := InsertAt(ids, heap, id);
      Insert(ids, heap, id) == ids[..k] + [id] + ids[k..]
      && forall j :: k <= j < |ids| ==> ZIndex(heap[ids[j]]) > ZIndex(heap[id])
    decreases |ids|
  {
    if |ids| > 0 && ZIndex(heap[ids[|ids| - 1]]) > ZIndex(heap[id]) {
      var init, last := ids[..|ids| - 1], ids[|ids| - 1];
      InsertSplits(init, heap, id);
      var k := InsertAt(init, heap, id);
      assert ids[..k] == init[..k];
      assert ids[k..] == init[k..] + [last];
    }
  }

  /** Sorting is kept. */
  lemma InsertSorted(ids: seq<Id>, heap: Heap, id: Id)
    requires Stored(ids, heap) && id in heap && Sorted(ids, heap)
    ensures Sorted(Insert(ids, heap, id), heap)
  {
    InsertSplits(ids, heap, id);
    var k := InsertAt(ids, heap, id);
    var r := Insert(ids, heap, id);
    forall i, j | 0 <= i < j < |r|
      ensures ZIndex(heap[r[i]]) <= ZIndex(heap[r[j]])
    {
      if i < k && j == k {
        if k < |ids| {
          assert ZIndex(heap[ids[i]]) <= ZIndex(heap[ids[k]]);
        } else {
          assert ZIndex(heap[ids[|ids| - 1]]) <= ZIndex(heap[id]) by {
            if |ids| > 0 && ZIndex(heap[ids[|ids| - 1]]) > ZIndex(heap[id]) {
              PlaceBeforeGreater(ids, heap, id);
            }
          }
          assert ZIndex(heap[ids[i]]) <= ZIndex(heap[ids[|ids| - 1]]);
        }
      }
    }
  }

  lemma PlaceBeforeGreater(ids: seq<Id>, heap: Heap, id: Id)
    requires Stored(ids, heap) && id in heap
    requires |ids| > 0 && ZIndex(heap[ids[|ids| - 1]]) > ZIndex(heap[id])
    ensures InsertAt(ids, heap, id) < |ids|
  {
  }

  /**
   * Stability: within each draw order the entities keep their relative order
   * and the new one comes last.
   */
  lemma {:induction false} InsertStable(ids: seq<Id>, heap: Heap, id: Id, z: int)
    requires Stored(ids, heap) && id in heap
    ensures Layer(Insert(ids, heap, id), heap, z)
         == Layer(ids, heap, z) + (if ZIndex(heap[id]) == z then [id] else [])
    decreases |ids|
  {
    var r := Insert(ids, heap, id);
    if |ids| == 0 || ZIndex(heap[ids[|ids| - 1]]) <= ZIndex(heap[id]) {
      assert r[..|r| - 1] == ids;
    } else {
      var init, last := ids[..|ids| - 1], ids[|ids| - 1];
      InsertStable(init, heap, id, z);
      assert r[..|r| - 1] == Insert(init, heap, id);
    }
  }

  /** The entities at or before position `i` keep their places when the new entity draws at or above `ids[i]`. */
  lemma InsertKeepsPrefix(ids: seq<Id>, heap: Heap, id: Id, i: nat)
    requires Stored(ids, heap) && id in heap && i < |ids|
    requires ZIndex(heap[ids[i]]) <= ZIndex(heap[id])
    ensures Insert(ids, heap, id)[..i + 1] == ids[..i + 1]
  {
    InsertSplits(ids, heap, id);
    var k := InsertAt(ids, heap, id);
    assert i < k;
    assert Insert(ids, heap, id)[..i + 1] == (ids[..k] + [id] + ids[k..])[..i + 1];
  }

  /** Adding a state for a fresh identity leaves the order of stored entities alone. */
  lemma FreshKeepsOrder(ids: seq<Id>, heap: Heap, id: Id, b: Body)
    requires Stored(ids, heap) && Sorted(ids, heap) && id !in heap
    ensures Stored(ids, heap[id := b]) && Sorted(ids, heap[id := b])
    ensures forall z :: Layer(ids, heap[id := b], z) == Layer(ids, heap, z)
  {
    forall z
      ensures Layer(ids, heap[id := b], z) == Layer(ids, heap, z)
    {
      LayerAgree(ids, heap, heap[id := b], z);
    }
  }

  /** Replacing an entity's state by one of the same class leaves the order alone. */
  lemma SameClassKeepsOrder(ids: seq<Id>, heap: Heap, id: Id, b: Body)
    requires Stored(ids, heap) && Sorted(ids, heap) && id in heap && SameClass(heap[id], b)
    ensures Stored(ids, heap[id := b]) && Sorted(ids, heap[id := b])
    ensures forall z :: Layer(ids, heap[id := b], z) == Layer(ids, heap, z)
  {
    SameClassSameOrder(heap[id], b);
    forall z
      ensures Layer(ids, heap[id := b], z) == Layer(ids, heap, z)
    {
      LayerAgree(ids, heap, heap[id := b], z);
    }
  }

  lemma {:induction false} LayerAgree(ids: seq<Id>, h1: Heap, h2: Heap, z: int)
    requires Stored(ids, h1) && Stored(ids, h2)
    requires forall i :: 0 <= i < |ids| ==> ZIndex(h1[ids[i]]) == ZIndex(h2[ids[i]])
    ensures Layer(ids, h1, z) == Layer(ids, h2, z)
    decreases |ids|
  {
    if |ids| > 0 {
      LayerAgree(ids[..|ids| - 1], h1, h2, z);
    }
  }

  // ---------------------------------------------------------------- removal

  /** `removeEntity` drops every occurrence of the entity and keeps every other one, as often as it was there. */
  lemma {:induction false} WithoutMultiset(ids: seq<Id>, id: Id)
    ensures multiset(Without(ids, id)) == multiset(ids)[id := 0]
    decreases |ids|
  {
    if |ids| > 0 {
      var init, last := ids[..|ids| - 1], ids[|ids| - 1];
      WithoutMultiset(init, id);
      assert ids == init + [last];
    }
  }

  lemma WithoutMembers(ids: seq<Id>, id: Id)
    ensures forall x :: x in Without(ids, id) <==> x in ids && x != id
  {
    WithoutMultiset(ids, id);
    forall x
      ensures x in Without(ids, id) <==> x in ids && x != id
    {
      assert x in Without(ids, id) <==> x in multiset(Without(ids, id));
      assert x in ids <==> x in multiset(ids);
    }
  }

  /** Removing an absent entity changes nothing; removing twice is removing once. */
  lemma {:induction false} WithoutAbsent(ids: seq<Id>, id: Id)
    requires id !in ids
    ensures Without(ids, id) == ids
    decreases |ids|
  {
    if |ids| > 0 {
      var init := ids[..|ids| - 1];
      assert ids == init + [ids[|ids| - 1]];
      WithoutAbsent(init, id);
    }
  }

  lemma WithoutIdempotent(ids: seq<Id>, id: Id)
    ensures Without(Without(ids, id), id) == Without(ids, id)
  {
    WithoutMembers(ids, id);
    WithoutAbsent(Without(ids, id), id);
  }

  /** Removal keeps the survivors in their order, so it keeps sortedness and distinctness. */
  lemma {:induction false} WithoutKeeps(ids: seq<Id>, heap: Heap, id: Id)
    requires Stored(ids, heap)
    ensures Stored(Without(ids, id), heap)
    ensures Sorted(ids, heap) ==> Sorted(Without(ids, id), heap)
    ensures Distinct(ids) ==> Distinct(Without(ids, id))
    decreases |ids|
  {
    var r := Without(ids, id);
    WithoutMembers(ids, id);
    if |ids| > 0 {
      var init, last := ids[..|ids| - 1], ids[|ids| - 1];
      WithoutKeeps(init, heap, id);
      WithoutMembers(init, id);
      var w := Without(init, id);
      if last != id {
        assert r == w + [last];
        forall x | x in w
          ensures x in init
        {
        }
        if Sorted(ids, heap) {
          assert Sorted(init, heap);
          forall i | 0 <= i < |w|
            ensures ZIndex(heap[w[i]]) <= ZIndex(heap[last])
          {
            assert w[i] in init;
            var k :| 0 <= k < |init| && init[k] == w[i];
            assert ids[k] == w[i];
          }
        }
        if Distinct(ids) {
          assert Distinct(init);
          assert forall k :: 0 <= k < |init| ==> init[k] == ids[k] && ids[k] != ids[|ids| - 1];
          assert last !in init;
          assert last !in w;
          forall i, j | 0 <= i < j < |r|
            ensures r[i] != r[j]
          {
            if j == |w| {
              assert r[i] == w[i] && w[i] in w;
            } else {
              assert r[i] == w[i] && r[j] == w[j];
            }
          }
        }
      } else {
        if Sorted(ids, heap) {
          assert Sorted(init, heap);
        }
        if Distinct(ids) {
          assert Distinct(init);
        }
      }
    }
  }

  /** A present, unrepeated entity is removed exactly once. */
  lemma WithoutLength(ids: seq<Id>, id: Id)
    requires Distinct(ids) && id in ids
    ensures |Without(ids, id)| == |ids| - 1
  {
    WithoutMultiset(ids, id);
    DistinctOnce(ids, id);
    assert |multiset(Without(ids, id))| == |multiset(ids)| - 1;
  }

  lemma {:induction false} DistinctOnce(ids: seq<Id>, id: Id)
    requires Distinct(ids) && id in ids
    ensures multiset(ids)[id] == 1
    decreases |ids|
  {
    var init, last := ids[..|ids| - 1], ids[|ids| - 1];
    assert ids == init + [last];
    assert Distinct(init);
    if last == id {
      assert forall k :: 0 <= k < |init| ==> init[k] == ids[k] && ids[k] != ids[|ids| - 1];
    } else {
      DistinctOnce(init, id);
    }
  }

  // ---------------------------------------------------------------- filters

  /** The collision snapshot holds exactly the stored entities that carry a collisional extension. */
  lemma {:induction false} CollidersMembers(ids: seq<Id>, heap: Heap)
    requires Stored(ids, heap)
    ensures Stored(Colliders(ids, heap), heap)
    ensures forall x :: x in Colliders(ids, heap) <==> x in ids && Collidable(heap[x])
    decreases |ids|
  {
    if |ids| > 0 {
      CollidersMembers(ids[..|ids| - 1], heap);
      assert ids == ids[..|ids| - 1] + [ids[|ids| - 1]];
    }
  }

  /** Asteroids are exactly the entities of draw order 1, so the asteroid count is that layer's length. */
  lemma {:induction false} CountIsLayer(ids: seq<Id>, heap: Heap)
    requires Stored(ids, heap)
    ensures CountAsteroids(ids, heap) == |Layer(ids, heap, Asteroids.Z_INDEX)|
    decreases |ids|
  {
    if |ids| > 0 {
      CountIsLayer(ids[..|ids| - 1], heap);
      DrawLayers(heap[ids[|ids| - 1]]);
    }
  }

  /** `addEntity` raises the asteroid count by one exactly when it adds an asteroid. */
  lemma InsertCount(ids: seq<Id>, heap: Heap, id: Id)
    requires Stored(ids, heap) && id in heap
    ensures CountAsteroids(Insert(ids, heap, id), heap)
         == CountAsteroids(ids, heap) + (if heap[id].AsteroidBody? then 1 else 0)
  {
    CountIsLayer(ids, heap);
    CountIsLayer(Insert(ids, heap, id), heap);
    InsertStable(ids, heap, id, Asteroids.Z_INDEX);
    DrawLayers(heap[id]);
  }
}

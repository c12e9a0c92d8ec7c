/**
 * The manager's entity array together with the states of all entity objects
 * (entities.manager.ts), and the invariant every operation keeps.
 */
module Scenes {
  import opened Bodies
  import opened EntityList
  import Vectors

  /**
   * `entities` is the current array, `heap` the state of every object created
   * so far (removed ones included, since an iteration may still hold them),
   * `nextId` the identity the next object gets, `ship` the manager's ship.
   */
  datatype Scene = Scene(entities: seq<Id>, heap: Heap, nextId: nat, ship: Id)

  /** The objects the manager creates after its ship: never a ship, and sound. */
  predicate Admissible(b: Body) {
    !b.ShipBody? && Sound(b)
  }

  /**
   * The array holds stored objects in draw order, each once; every stored
   * identity was handed out; the manager's ship is the only ship; every
   * state is sound.
   */
  predicate WellFormed(s: Scene) {
    Stored(s.entities, s.heap) && Sorted(s.entities, s.heap) && Distinct(s.entities)
    && (forall id :: id in s.heap ==> id < s.nextId)
    && s.ship in s.heap && s.heap[s.ship].ShipBody?
    && (forall id :: id in s.heap && s.heap[id].ShipBody? ==> id == s.ship)
    && (forall id :: id in s.heap ==> Sound(s.heap[id]))
  }

  /** `addEntity` of a newly constructed object. */
  function Add(s: Scene, b: Body): (r: Scene)
    requires Stored(s.entities, s.heap)
    ensures Stored(r.entities, r.heap)
  {
    var heap := s.heap[s.nextId := b];
    assert Stored(s.entities, heap);
    Scene(Insert(s.entities, heap, s.nextId), heap, s.nextId + 1, s.ship)
  }

  /** `addEntity` of each object in turn. */
  function AddAll(s: Scene, bs: seq<Body>): (r: Scene)
    requires Stored(s.entities, s.heap)
    ensures Stored(r.entities, r.heap)
    decreases |bs|
  {
    if |bs| == 0 then s else AddAll(Add(s, bs[0]), bs[1..])
  }

  /** `removeEntity`: the object's state stays in the heap. */
  function Remove(s: Scene, id: Id): (r: Scene)
    ensures Stored(s.entities, s.heap) ==> Stored(r.entities, r.heap)
  {
    assert Stored(s.entities, s.heap) ==> Stored(Without(s.entities, id), s.heap) by {
      if Stored(s.entities, s.heap) {
        WithoutKeeps(s.entities, s.heap, id);
      }
    }
    s.(entities := Without(s.entities, id))
  }

  /** An in-place change to one object. */
  function SetBody(s: Scene, id: Id, b: Body): Scene {
    s.(heap := s.heap[id := b])
  }

  /** The states at the identities `from`, ..., `from + n - 1`, in that order. */
  ghost function Slice(h: Heap, from: int, n: nat): (r: seq<Body>)
    requires forall id :: from <= id < from + n ==> id in h
    ensures |r| == n && forall k :: 0 <= k < n ==> r[k] == h[from + k]
  {
    seq(n, k requires 0 <= k < n => h[from + k])
  }

  /**
   * What `r` holds at the identities handed out after `s`: the object `m`
   * first, then the objects `bs`, then `sparks` sparks placed at `at`.
   */
  ghost predicate LaidOut(s: Scene, r: Scene, m: Body, bs: seq<Body>, sparks: nat, at: Vectors.Vec) {
    r.nextId == s.nextId + 1 + |bs| + sparks
    && (forall id :: s.nextId <= id < r.nextId ==> id in r.heap)
    && r.heap[s.nextId] == m
    && Slice(r.heap, s.nextId + 1, |bs|) == bs
    && (forall id :: s.nextId + |bs| < id < r.nextId ==> r.heap[id].SparkBody? && r.heap[id].spark.t.position == at)
  }

  // ---------------------------------------------------------------- lemmas

  /** The new object gets the next identity, joins the array, and no other state changes. */
  lemma AddEffect(s: Scene, b: Body)
    requires WellFormed(s)
    ensures var r := Add(s, b);
      r.nextId == s.nextId + 1 && r.heap == s.heap[s.nextId := b] && r.ship == s.ship
      && s.nextId !in s.heap
      && multiset(r.entities) == multiset(s.entities) + multiset{s.nextId}
  {
    InsertPermutes(s.entities, s.heap[s.nextId := b], s.nextId);
  }

  /** Adding an admissible object keeps the invariant. */
  lemma AddWellFormed(s: Scene, b: Body)
    requires WellFormed(s) && Admissible(b)
    ensures WellFormed(Add(s, b))
  {
    var heap := s.heap[s.nextId := b];
    var r := Add(s, b);
    FreshKeepsOrder(s.entities, s.heap, s.nextId, b);
    InsertSorted(s.entities, heap, s.nextId);
    InsertPermutes(s.entities, heap, s.nextId);
    InsertSplits(s.entities, heap, s.nextId);
    var k := InsertAt(s.entities, heap, s.nextId);
    assert s.nextId !in s.entities;
    forall i, j | 0 <= i < j < |r.entities|
      ensures r.entities[i] != r.entities[j]
    {
      var e := s.entities;
      assert r.entities == e[..k] + [s.nextId] + e[k..];
      if i < k && j < k {
        assert r.entities[i] == e[i] && r.entities[j] == e[j];
      } else if i < k && j == k {
        assert r.entities[i] == e[i];
      } else if i < k {
        assert r.entities[i] == e[i] && r.entities[j] == e[j - 1];
      } else if i == k {
        assert r.entities[j] == e[j - 1];
      } else {
        assert r.entities[i] == e[i - 1] && r.entities[j] == e[j - 1];
      }
    }
  }

  /** Adding admissible objects one by one keeps the invariant. */
  lemma {:induction false} AddAllWellFormed(s: Scene, bs: seq<Body>)
    requires WellFormed(s) && forall k :: 0 <= k < |bs| ==> Admissible(bs[k])
    ensures WellFormed(AddAll(s, bs))
    ensures AddAll(s, bs).nextId == s.nextId + |bs| && AddAll(s, bs).ship == s.ship
    decreases |bs|
  {
    if |bs| > 0 {
      AddWellFormed(s, bs[0]);
      AddAllWellFormed(Add(s, bs[0]), bs[1..]);
    }
  }

  /**
   * `r` is `s` with the objects `bs` stored under the next identities, in
   * order: the states already stored are untouched and nothing else is stored.
   */
  ghost predicate Appends(s: Scene, r: Scene, bs: seq<Body>) {
    r.ship == s.ship && r.nextId == s.nextId + |bs|
    && (forall id :: id in s.heap ==> id in r.heap && r.heap[id] == s.heap[id])
    && (forall id :: s.nextId <= id < s.nextId + |bs| ==> id in r.heap && r.heap[id] == bs[id - s.nextId])
    && (forall id :: id in r.heap ==> id in s.heap || s.nextId <= id < s.nextId + |bs|)
  }

  lemma AppendsTwice(s: Scene, r: Scene, q: Scene, bs: seq<Body>, cs: seq<Body>)
    requires (forall id :: id in s.heap ==> id < s.nextId) && Appends(s, r, bs) && Appends(r, q, cs)
    ensures Appends(s, q, bs + cs)
  {
    forall id | s.nextId <= id < s.nextId + |bs| + |cs|
      ensures id in q.heap && q.heap[id] == (bs + cs)[id - s.nextId]
    {
      if id < r.nextId {
        assert id in r.heap && r.heap[id] == bs[id - s.nextId];
      } else {
        assert q.heap[id] == cs[id - r.nextId];
      }
    }
  }

  /** The `k`-th object added gets identity `nextId + k`; the states already stored are untouched. */
  lemma {:induction false} AddAllHeap(s: Scene, bs: seq<Body>)
    requires Stored(s.entities, s.heap) && forall id :: id in s.heap ==> id < s.nextId
    ensures Appends(s, AddAll(s, bs), bs)
    decreases |bs|
  {
    if |bs| > 0 {
      var s1 := Add(s, bs[0]);
      assert Appends(s, s1, [bs[0]]);
      AddAllHeap(s1, bs[1..]);
      AppendsTwice(s, s1, AddAll(s1, bs[1..]), [bs[0]], bs[1..]);
      assert [bs[0]] + bs[1..] == bs;
    }
  }

  /** After adding, the array holds the old entities and exactly the new identities. */
  lemma {:induction false} AddAllMembers(s: Scene, bs: seq<Body>)
    requires Stored(s.entities, s.heap)
    ensures forall id :: id in AddAll(s, bs).entities <==> id in s.entities || s.nextId <= id < s.nextId + |bs|
    decreases |bs|
  {
    if |bs| > 0 {
      var s1 := Add(s, bs[0]);
      AddAllMembers(s1, bs[1..]);
      InsertPermutes(s.entities, s.heap[s.nextId := bs[0]], s.nextId);
      forall id
        ensures id in s1.entities <==> id in s.entities || id == s.nextId
      {
        assert id in s1.entities <==> id in multiset(s1.entities);
        assert id in s.entities <==> id in multiset(s.entities);
      }
    }
  }

  /** Removal keeps the invariant and drops exactly the removed object from the array. */
  lemma RemoveWellFormed(s: Scene, id: Id)
    requires WellFormed(s)
    ensures WellFormed(Remove(s, id))
    ensures forall x :: x in Remove(s, id).entities <==> x in s.entities && x != id
  {
    WithoutKeeps(s.entities, s.heap, id);
    WithoutMembers(s.entities, id);
  }

  /** Changing an object's state within its class keeps the invariant. */
  lemma SetBodyWellFormed(s: Scene, id: Id, b: Body)
    requires WellFormed(s) && id in s.heap && SameClass(s.heap[id], b)
    requires Sound(b)
    ensures WellFormed(SetBody(s, id, b))
  {
    SameClassKeepsOrder(s.entities, s.heap, id, b);
  }

  /** `r` is a later state of `s`: same ship, and every object of `s` is still stored, of the same class. */
  predicate Grows(s: Scene, r: Scene) {
    r.ship == s.ship && forall id :: id in s.heap ==> id in r.heap && SameClass(s.heap[id], r.heap[id])
  }

  lemma GrowsTransitive(s: Scene, r: Scene, q: Scene)
    requires Grows(s, r) && Grows(r, q)
    ensures Grows(s, q)
  {
  }

  /** Adding objects only ever lets the scene grow. */
  lemma AddAllGrows(s: Scene, bs: seq<Body>)
    requires WellFormed(s)
    ensures Grows(s, AddAll(s, bs))
  {
    AddAllHeap(s, bs);
  }

  /** Removal keeps every state, and a same-class change keeps every class. */
  lemma EditsGrow(s: Scene, id: Id, c: Body)
    ensures Grows(s, Remove(s, id))
    ensures id in s.heap && SameClass(s.heap[id], c) ==> Grows(s, SetBody(s, id, c))
  {
  }

  /**
   * `r` follows from `s` by removing `gone` from the array, adding the
   * identities from `s.nextId` up to `r.nextId`, and changing in place at most
   * the objects in `edited`; the invariant holds afterwards.
   */
  ghost predicate Changes(s: Scene, r: Scene, gone: set<Id>, edited: set<Id>) {
    WellFormed(r) && Grows(s, r) && s.nextId <= r.nextId
    && (forall x :: x in r.entities <==> (x in s.entities && x !in gone) || s.nextId <= x < r.nextId)
    && (forall id :: id in s.heap && id !in edited ==> r.heap[id] == s.heap[id])
  }

  /** Two changes in a row, the second removing only objects older than the first. */
  lemma ChangesCompose(s: Scene, r: Scene, q: Scene, g1: set<Id>, e1: set<Id>, g2: set<Id>, e2: set<Id>)
    requires Changes(s, r, g1, e1) && Changes(r, q, g2, e2)
    requires forall x :: x in g2 ==> x < s.nextId
    ensures Changes(s, q, g1 + g2, e1 + e2)
  {
    forall x
      ensures x in q.entities <==> (x in s.entities && x !in g1 + g2) || s.nextId <= x < q.nextId
    {
      if x in g2 {
        assert x < s.nextId;
      }
    }
  }

  lemma AddChanges(s: Scene, b: Body)
    requires WellFormed(s) && Admissible(b)
    ensures Changes(s, Add(s, b), {}, {})
    ensures Add(s, b).nextId == s.nextId + 1 && Add(s, b).heap[s.nextId] == b
  {
    AddWellFormed(s, b);
    AddAllMembers(s, [b]);
    AddAllHeap(s, [b]);
    AddAllGrows(s, [b]);
    assert AddAll(s, [b]) == AddAll(Add(s, b), []);
  }

  /** The `k`-th of the objects added gets identity `s.nextId + k`. */
  lemma AddAllChanges(s: Scene, bs: seq<Body>)
    requires WellFormed(s) && forall k :: 0 <= k < |bs| ==> Admissible(bs[k])
    ensures Changes(s, AddAll(s, bs), {}, {})
    ensures AddAll(s, bs).nextId == s.nextId + |bs|
    ensures forall id :: s.nextId <= id < s.nextId + |bs| ==> id in AddAll(s, bs).heap && AddAll(s, bs).heap[id] == bs[id - s.nextId]
  {
    AddAllWellFormed(s, bs);
    AddAllMembers(s, bs);
    AddAllHeap(s, bs);
    AddAllGrows(s, bs);
  }

  lemma RemoveChanges(s: Scene, id: Id)
    requires WellFormed(s)
    ensures Changes(s, Remove(s, id), {id}, {})
    ensures Remove(s, id).nextId == s.nextId && Remove(s, id).heap == s.heap
  {
    RemoveWellFormed(s, id);
    EditsGrow(s, id, s.heap[s.ship]);
  }

  lemma SetBodyChanges(s: Scene, id: Id, b: Body)
    requires WellFormed(s) && id in s.heap && SameClass(s.heap[id], b) && Sound(b)
    ensures Changes(s, SetBody(s, id, b), {}, {id})
    ensures SetBody(s, id, b).nextId == s.nextId && SetBody(s, id, b).heap[id] == b
  {
    SetBodyWellFormed(s, id, b);
    EditsGrow(s, id, b);
  }

  /** Two batches in a row: the first batch gets the first identities, the second the next ones. */
  lemma AddAllTwice(s: Scene, bs: seq<Body>, cs: seq<Body>)
    requires Stored(s.entities, s.heap) && forall id :: id in s.heap ==> id < s.nextId
    ensures Appends(s, AddAll(AddAll(s, bs), cs), bs + cs)
  {
    AddAllHeap(s, bs);
    AddAllHeap(AddAll(s, bs), cs);
    AppendsTwice(s, AddAll(s, bs), AddAll(AddAll(s, bs), cs), bs, cs);
  }
}

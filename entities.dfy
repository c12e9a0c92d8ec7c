/**
 * The entity base class (src/game2/entities/entity.ts): a type tag, a draw
 * order and an ordered list of attached extensions looked up by class.
 */
module Entities {
  import opened Wrappers
  import opened Transformable

  /** The seven type tags of `Entities`. */
  datatype Kind = Asteroid | Ship | Bullet | Flame | Rocket | ExplosionSpark | PointIndicator

  function Tag(k: Kind): string {
    match k
    case Asteroid => "asteroid"
    case Ship => "ship"
    case Bullet => "bullet"
    case Flame => "flame"
    case Rocket => "rocket"
    case ExplosionSpark => "explosion_spark"
    case PointIndicator => "point_indicator"
  }

  /** The extension classes an `instanceof` test can name. */
  datatype ExtensionClass = TransformableClass | CollisionalClass | FlammableClass

  /**
   * An attached extension. The collisional extension holds only a reference
   * to its entity's transformable, so as a value it carries nothing.
   */
  datatype Extension =
    | TransformableExt(transform: Transform)
    | CollisionalExt
    | FlammableExt(count: int, colorCount: nat)

  function ClassOf(e: Extension): ExtensionClass {
    match e
    case TransformableExt(_) => TransformableClass
    case CollisionalExt => CollisionalClass
    case FlammableExt(_, _) => FlammableClass
  }

  /**
   * The message `getExtension` throws. The extension classes declare no static
   * `type`, so the template always renders `undefined`.
   */
  const NotFound: string := "Extension undefined not found"

  /** `extensions.some(e => e instanceof c)`. */
  predicate Includes(exts: seq<Extension>, c: ExtensionClass) {
    exists i :: 0 <= i < |exts| && ClassOf(exts[i]) == c
  }

  /** `extensions.find(e => e instanceof c)`, or the thrown error. */
  function Find(exts: seq<Extension>, c: ExtensionClass): Result<Extension>
    decreases |exts|
  {
    if |exts| == 0 then Err(NotFound)
    else if ClassOf(exts[0]) == c then Ok(exts[0])
    else Find(exts[1..], c)
  }

  /** The index `find` stops at, if any. */
  function FirstIndex(exts: seq<Extension>, c: ExtensionClass): (r: int)
    ensures -1 <= r < |exts|
    ensures r >= 0 ==> ClassOf(exts[r]) == c && forall j :: 0 <= j < r ==> ClassOf(exts[j]) != c
    ensures r == -1 ==> forall j :: 0 <= j < |exts| ==> ClassOf(exts[j]) != c
    decreases |exts|
  {
    if |exts| == 0 then -1
    else if ClassOf(exts[0]) == c then 0
    else
      var r := FirstIndex(exts[1..], c);
      if r == -1 then -1 else r + 1
  }

  /** The extension update step: only the transformable has a non-empty `update`. */
  function UpdateExtension(e: Extension, width: real, height: real): Extension {
    match e
    case TransformableExt(t) => TransformableExt(Integrate(t, width, height))
    case _ => e
  }

  /** `Entity.update`: every extension's update, in attachment order. */
  function UpdateAll(exts: seq<Extension>, width: real, height: real): (r: seq<Extension>)
    ensures |r| == |exts|
    ensures forall i :: 0 <= i < |exts| ==> r[i] == UpdateExtension(exts[i], width, height)
    decreases |exts|
  {
    if |exts| == 0 then [] else [UpdateExtension(exts[0], width, height)] + UpdateAll(exts[1..], width, height)
  }

  // ---------------------------------------------------------------- lemmas

  /** The seven tags are pairwise distinct. */
  lemma TagInjective(a: Kind, b: Kind)
    requires Tag(a) == Tag(b)
    ensures a == b
  {
    assert Tag(a)[0] == Tag(b)[0];
    if a.Asteroid? || b.Asteroid? {
      assert |Tag(a)| == |Tag(b)|;
    }
  }

  /** `getExtension` returns the first attached extension of the class, in attachment order. */
  lemma GetExtensionIsFirst(exts: seq<Extension>, c: ExtensionClass)
    ensures Find(exts, c)
         == if FirstIndex(exts, c) >= 0 then Ok(exts[FirstIndex(exts, c)]) else Err(NotFound)
    decreases |exts|
  {
    if |exts| > 0 && ClassOf(exts[0]) != c {
      GetExtensionIsFirst(exts[1..], c);
    }
  }

  /** `hasExtension(c)` holds exactly when `getExtension(c)` does not throw. */
  lemma HasIffFound(exts: seq<Extension>, c: ExtensionClass)
    ensures Includes(exts, c) <==> Find(exts, c).Ok?
  {
    GetExtensionIsFirst(exts, c);
  }

  /** `getExtension(c)` throws "Extension undefined not found" when nothing of class c is attached. */
  lemma GetMissingThrows(exts: seq<Extension>, c: ExtensionClass)
    requires !Includes(exts, c)
    ensures Find(exts, c) == Err(NotFound)
  {
    HasIffFound(exts, c);
    GetExtensionIsFirst(exts, c);
  }

  /** A found extension is of the requested class. */
  lemma GetExtensionClass(exts: seq<Extension>, c: ExtensionClass)
    requires Find(exts, c).Ok?
    ensures ClassOf(Find(exts, c).value) == c
  {
    GetExtensionIsFirst(exts, c);
  }

  /** Attaching one more extension: `has` gains its class, `get` keeps an earlier match. */
  lemma AppendLookup(exts: seq<Extension>, e: Extension, c: ExtensionClass)
    ensures Includes(exts + [e], c) <==> Includes(exts, c) || ClassOf(e) == c
    ensures Find(exts + [e], c)
         == if Includes(exts, c) then Find(exts, c)
            else if ClassOf(e) == c then Ok(e) else Err(NotFound)
    decreases |exts|
  {
    var ext := exts + [e];
    assert forall i :: 0 <= i < |exts| ==> ext[i] == exts[i];
    assert ext[|exts|] == e;
    if |exts| > 0 && ClassOf(exts[0]) != c {
      assert ext[1..] == exts[1..] + [e];
      AppendLookup(exts[1..], e, c);
      assert Includes(exts, c) <==> Includes(exts[1..], c) by {
        if Includes(exts, c) {
          var i :| 0 <= i < |exts| && ClassOf(exts[i]) == c;
          assert exts[1..][i - 1] == exts[i];
        }
        if Includes(exts[1..], c) {
          var i :| 0 <= i < |exts[1..]| && ClassOf(exts[1..][i]) == c;
          assert exts[i + 1] == exts[1..][i];
        }
      }
    }
  }

  /** `update` keeps every extension in its place and of its class, so lookups see the same classes. */
  lemma UpdateKeepsClasses(exts: seq<Extension>, width: real, height: real, c: ExtensionClass)
    ensures Includes(UpdateAll(exts, width, height), c) == Includes(exts, c)
    ensures FirstIndex(UpdateAll(exts, width, height), c) == FirstIndex(exts, c)
  {
    var r := UpdateAll(exts, width, height);
    assert forall i :: 0 <= i < |exts| ==> ClassOf(r[i]) == ClassOf(exts[i]);
    if Includes(exts, c) {
      var i :| 0 <= i < |exts| && ClassOf(exts[i]) == c;
      assert ClassOf(r[i]) == c;
    }
    if Includes(r, c) {
      var i :| 0 <= i < |r| && ClassOf(r[i]) == c;
      assert ClassOf(exts[i]) == c;
    }
    FirstIndexSameClasses(r, exts, c);
  }

  lemma FirstIndexSameClasses(a: seq<Extension>, b: seq<Extension>, c: ExtensionClass)
    requires |a| == |b| && forall i :: 0 <= i < |a| ==> ClassOf(a[i]) == ClassOf(b[i])
    ensures FirstIndex(a, c) == FirstIndex(b, c)
  {
    var ia, ib := FirstIndex(a, c), FirstIndex(b, c);
    if ia >= 0 {
      assert ClassOf(b[ia]) == c;
    }
    if ib >= 0 {
      assert ClassOf(a[ib]) == c;
    }
  }

  /** The entity object. `id` is the `nanoid` string, supplied by the creator. */
  class Entity {
    const id: string
    const kind: Kind
    var zIndex: int
    var extensions: seq<Extension>

    constructor (id: string, kind: Kind)
      ensures this.id == id && this.kind == kind
      ensures zIndex == 0 && extensions == []
    {
      this.id := id;
      this.kind := kind;
      zIndex := 0;
      extensions := [];
    }

    function Type(): string
      reads this
    {
      Tag(kind)
    }

    /** `addExtension`: appended at the end of the list. */
    method AddExtension(extension: Extension)
      modifies this
      ensures extensions == old(extensions) + [extension]
      ensures zIndex == old(zIndex)
    {
      extensions := extensions + [extension];
    }

    /**
     * `removeExtension` deletes the property named after the extension from the
     * array object; array elements live under index keys, so the list is untouched.
     */
    method RemoveExtension(extension: Extension)
      modifies this
      ensures extensions == old(extensions) && zIndex == old(zIndex)
    {
    }

    method GetExtension(c: ExtensionClass) returns (r: Result<Extension>)
      ensures r.Ok? <==> Includes(extensions, c)
      ensures r.Ok? ==> ClassOf(r.value) == c && r.value == extensions[FirstIndex(extensions, c)]
      ensures r.Err? ==> r.message == NotFound
    {
      r := Find(extensions, c);
      HasIffFound(extensions, c);
      GetExtensionIsFirst(extensions, c);
    }

    method HasExtension(c: ExtensionClass) returns (b: bool)
      ensures b <==> exists i :: 0 <= i < |extensions| && ClassOf(extensions[i]) == c
    {
      b := FirstIndex(extensions, c) >= 0;
    }

    /** `update`: loops over a snapshot of the list, updating each extension in order. */
    method Update(width: real, height: real)
      modifies this
      ensures extensions == UpdateAll(old(extensions), width, height)
      ensures zIndex == old(zIndex)
    {
      var values := extensions;
      var i := 0;
      while i < |values|
        invariant 0 <= i <= |values|
        invariant |extensions| == |values|
        invariant forall k :: 0 <= k < i ==> extensions[k] == UpdateExtension(values[k], width, height)
        invariant forall k :: i <= k < |values| ==> extensions[k] == values[k]
        invariant zIndex == old(zIndex)
      {
        extensions := extensions[i := UpdateExtension(values[i], width, height)];
        i := i + 1;
      }
      assert extensions == UpdateAll(values, width, height);
    }

    /** The default `shouldRemove`. */
    predicate ShouldRemove()
    {
      false
    }
  }
}

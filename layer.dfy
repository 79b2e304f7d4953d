/** The layer list of layer.c: an ordered sequence of layers (tilemap,
    entity or custom), drawn back to front, plus the camera kept in the
    list's head node. */
module Layers {
  import opened Basics
  import opened Entities

  /** The payload of a custom layer (_LE_CustomLayer), owned by its layer. */
  class CustomLayer {
    const callback: CustomCallback
    const params: ParamsRef
    var released: bool

    constructor (callback: CustomCallback, params: ParamsRef)
      ensures this.callback == callback && this.params == params && !released
    {
      this.callback := callback;
      this.params := params;
      released := false;
    }
  }

  /** A layer's type tag together with the payload its `ptr` points to. */
  datatype LayerData =
    | TilemapData(tilemap: TilemapRef)
    | EntityData(list: EntityList)
    | CustomData(custom: CustomLayer)

  /** One layer (_LE_Layer). Each pair of floats is kept as a Vec2: x for the
      horizontal field, y for the vertical one (scaleW and scaleH for the
      scale). */
  class Layer {
    var scrollOffset: Vec2
    var scrollSpeed: Vec2
    var scale: Vec2
    var prevScrollOffset: Vec2
    var prevScrollSpeed: Vec2
    var prevScale: Vec2
    const data: LayerData
    const parent: LayerList
    var released: bool

    /** The field initialisation of LE_MakeLayer (layer.c:41-46). The
        previous-value fields are left unset, as in the C code. */
    constructor (parent: LayerList, data: LayerData)
      ensures scrollOffset == Origin && scrollSpeed == Vec2(One, One) && scale == Vec2(One, One)
      ensures this.data == data && this.parent == parent && !released
    {
      scrollOffset := Origin;
      scrollSpeed := Vec2(One, One);
      scale := Vec2(One, One);
      this.data := data;
      this.parent := parent;
      released := false;
    }
  }

  /** A layer list: the layers in index order and the camera of the head
      node. */
  class LayerList {
    var layers: seq<Layer>
    var cam: Vec2
    var prevCam: Vec2

    /** Every layer occurs once and leads back to this list. */
    ghost predicate Valid()
      reads this, layers
    {
      && Distinct(layers)
      && forall l | l in layers :: l.parent == this
    }

    /** LE_CreateLayerList: no layers, the camera at the origin. The previous
        camera position is left unset, as in the C code. */
    constructor ()
      ensures Valid() && layers == [] && cam == Origin
    {
      layers := [];
      cam := Origin;
    }

    /** LE_NumLayers. */
    method NumLayers() returns (n: int)
      ensures n == |layers|
    {
      n := |layers|;
    }

    /** LE_ScrollCamera. */
    method ScrollCamera(x: Float, y: Float)
      modifies this`cam
      ensures cam == Vec2(x, y)
    {
      cam := Vec2(x, y);
    }

    /** LE_GetCameraPos: where the last ScrollCamera put the camera, or the
        origin. */
    method GetCameraPos() returns (x: Float, y: Float)
      ensures Vec2(x, y) == cam
    {
      x := cam.x;
      y := cam.y;
    }
  }

  /** A new layer list's camera is at the origin, and reading the camera
      gives back what was scrolled to. */
  method CameraRoundTrip(x: Float, y: Float) returns (initial: Vec2, scrolled: Vec2)
    ensures initial == Origin && scrolled == Vec2(x, y)
  {
    var list := new LayerList();
    var x0, y0 := list.GetCameraPos();
    initial := Vec2(x0, y0);
    list.ScrollCamera(x, y);
    var x1, y1 := list.GetCameraPos();
    scrolled := Vec2(x1, y1);
  }

  /** LE_MakeLayer: a new layer with scroll offset 0, scroll speed 1 and
      scale 1, appended at the tail. */
  method MakeLayer(list: LayerList, data: LayerData) returns (l: Layer)
    requires list.Valid()
    modifies list`layers
    ensures fresh(l) && list.Valid()
    ensures list.layers == old(list.layers) + [l]
    ensures l.scrollOffset == Origin && l.scrollSpeed == Vec2(One, One) && l.scale == Vec2(One, One)
    ensures l.data == data && l.parent == list && !l.released
  {
    l := new Layer(list, data);
    list.layers := list.layers + [l];
  }

  /** LE_AddTilemapLayer. */
  method AddTilemapLayer(list: LayerList, tilemap: TilemapRef) returns (l: Layer)
    requires list.Valid()
    modifies list`layers
    ensures fresh(l) && list.Valid() && list.layers == old(list.layers) + [l]
    ensures l.data == TilemapData(tilemap) && l.parent == list
    ensures l.scrollOffset == Origin && l.scrollSpeed == Vec2(One, One) && l.scale == Vec2(One, One) && !l.released
  {
    l := MakeLayer(list, TilemapData(tilemap));
  }

  /** LE_AddEntityLayer. */
  method AddEntityLayer(list: LayerList, entities: EntityList) returns (l: Layer)
    requires list.Valid()
    modifies list`layers
    ensures fresh(l) && list.Valid() && list.layers == old(list.layers) + [l]
    ensures l.data == EntityData(entities) && l.parent == list
    ensures l.scrollOffset == Origin && l.scrollSpeed == Vec2(One, One) && l.scale == Vec2(One, One) && !l.released
  {
    l := MakeLayer(list, EntityData(entities));
  }

  /** LE_AddCustomLayer: the callback and its parameters go into a new
      payload owned by the layer. */
  method AddCustomLayer(list: LayerList, callback: CustomCallback, params: ParamsRef) returns (l: Layer)
    requires list.Valid()
    modifies list`layers
    ensures fresh(l) && list.Valid() && list.layers == old(list.layers) + [l]
    ensures l.data.CustomData? && fresh(l.data.custom) && l.parent == list
    ensures l.scrollOffset == Origin && l.scrollSpeed == Vec2(One, One) && l.scale == Vec2(One, One) && !l.released
    ensures l.data.custom.callback == callback && l.data.custom.params == params && !l.data.custom.released
  {
    var custom := new CustomLayer(callback, params);
    l := MakeLayer(list, CustomData(custom));
  }

  /** LE_LayerGetByIndex: walk `index` nodes from the head, giving up when the
      list ends, then take the next node's layer. With index equal to the
      number of layers the C code dereferences a null node, so that index is
      excluded. */
  method GetByIndex(list: LayerList, index: int32) returns (r: Option<Layer>)
    requires index as int != |list.layers|
    ensures index < 0 ==> r == None
    ensures 0 <= index as int < |list.layers| ==> r == Some(list.layers[index])
    ensures index as int > |list.layers| ==> r == None
  {
    if index < 0 {
      return None;
    }
    var node := -1;  // the position of the current node; -1 is the head
    var i := 0;
    while i < index as int
      invariant 0 <= i <= index as int && node == i - 1 && node < |list.layers|
    {
      node := node + 1;
      if node == |list.layers| {
        return None;
      }
      i := i + 1;
    }
    r := Some(list.layers[node + 1]);
  }

  /** The position of the first occurrence of l. */
  function Position(layers: seq<Layer>, l: Layer): (p: nat)
    requires l in layers
    ensures p < |layers| && layers[p] == l
    ensures forall k | 0 <= k < p :: layers[k] != l
  {
    if layers[0] == l then 0
    else
      assert l in layers[1..];
      var p := Position(layers[1..], l);
      assert forall k | 1 <= k <= p :: layers[k] == layers[1..][k - 1];
      p + 1
  }

  /** In a list without duplicates, the layer at position i is found at
      position i: LE_IndexOfLayer undoes LE_LayerGetByIndex. */
  lemma PositionAt(layers: seq<Layer>, i: nat)
    requires Distinct(layers) && i < |layers|
    ensures Position(layers, layers[i]) == i
  {
  }

  /** LE_IndexOfLayer: count the nodes between the layer's own node and the
      head. */
  method IndexOfLayer(l: Layer) returns (index: int)
    requires l in l.parent.layers
    ensures index == Position(l.parent.layers, l)
    ensures 0 <= index < |l.parent.layers| && l.parent.layers[index] == l
  {
    var node := Position(l.parent.layers, l);  // the layer's own node
    index := 0;
    while node > 0
      invariant 0 <= node && index + node == Position(l.parent.layers, l)
    {
      index := index + 1;
      node := node - 1;
    }
  }

  /** The order LE_MoveLayer leaves: l first, then the others. */
  function Moved(layers: seq<Layer>, l: Layer): seq<Layer> {
    [l] + RemoveValue(layers, l)
  }

  /** Moving a layer of the list only reorders the list. */
  lemma MovedIsPermutation(layers: seq<Layer>, l: Layer)
    requires l in layers
    ensures multiset(Moved(layers, l)) == multiset(layers)
  {
    RemoveValueMultiset(layers, l);
    assert multiset(Moved(layers, l)) == multiset{l} + multiset(RemoveValue(layers, l));
  }

  /** Moving l puts it first and keeps the others in their relative order. */
  lemma MovedKeepsOrder(before: seq<Layer>, l: Layer, after: seq<Layer>)
    requires l !in before
    ensures Moved(before + [l] + after, l) == [l] + before + after
  {
    RemoveValueSplit(before, l, after);
  }

  /** Moving keeps a list free of duplicates. */
  lemma MovedDistinct(layers: seq<Layer>, l: Layer)
    requires Distinct(layers)
    ensures Distinct(Moved(layers, l))
    ensures forall x | x in Moved(layers, l) :: x == l || x in layers
  {
    RemoveValueDistinct(layers, l);
    var m := Moved(layers, l);
    forall i, j | 0 <= i < j < |m|
      ensures m[i] != m[j]
    {
      if i == 0 {
        assert m[j] in RemoveValue(layers, l);
      } else {
        assert m[i] == RemoveValue(layers, l)[i - 1] && m[j] == RemoveValue(layers, l)[j - 1];
      }
    }
  }

  /** LE_MoveLayer: unlink the layer's node, then relink it after `prev`.
      The loop meant to advance `prev` towards `index` never does
      (layer.c:82-84), so the layer always becomes the first one, whatever
      the index. */
  method MoveLayer(l: Layer, index: int32)
    requires l.parent.Valid() && l in l.parent.layers
    modifies l.parent`layers
    ensures l.parent.Valid()
    ensures l.parent.layers == Moved(old(l.parent.layers), l)
  {
    var list := l.parent;
    var rest := RemoveValue(list.layers, l);
    var i := 0;
    while i < index as int
      invariant 0 <= i
    {
      if rest == [] {
        break;
      }
      i := i + 1;
    }
    MovedDistinct(list.layers, l);
    list.layers := [l] + rest;
  }

  /** LE_UpdateLayerList: the previous camera becomes the camera and every
      layer's previous scale, scroll speed and scroll offset become the
      current ones. Nothing else changes. */
  method UpdateLayerList(list: LayerList)
    modifies list`prevCam, list.layers`prevScale, list.layers`prevScrollSpeed, list.layers`prevScrollOffset
    ensures list.prevCam == list.cam
    ensures forall l | l in list.layers ::
      l.prevScale == l.scale && l.prevScrollSpeed == l.scrollSpeed && l.prevScrollOffset == l.scrollOffset
  {
    list.prevCam := list.cam;
    var i := 0;
    while i < |list.layers|
      invariant 0 <= i <= |list.layers| && list.prevCam == list.cam
      invariant forall k | 0 <= k < i :: list.layers[k].prevScale == list.layers[k].scale
      invariant forall k | 0 <= k < i :: list.layers[k].prevScrollSpeed == list.layers[k].scrollSpeed
      invariant forall k | 0 <= k < i :: list.layers[k].prevScrollOffset == list.layers[k].scrollOffset
    {
      var l := list.layers[i];
      l.prevScale := l.scale;
      l.prevScrollSpeed := l.scrollSpeed;
      l.prevScrollOffset := l.scrollOffset;
      i := i + 1;
    }
  }

  /** LE_DisposeLayer: free the layer, and its payload when it is a custom
      layer's. */
  method DisposeLayer(l: Layer)
    modifies l`released, if l.data.CustomData? then {l.data.custom} else {}
    ensures l.released
    ensures l.data.CustomData? ==> l.data.custom.released
  {
    if l.data.CustomData? {
      l.data.custom.released := true;
    }
    l.released := true;
  }

  /** LE_DestroyLayer: unlink the layer from its list, then dispose of it. */
  method DestroyLayer(l: Layer)
    requires l.parent.Valid() && l in l.parent.layers
    modifies l.parent`layers, l`released, if l.data.CustomData? then {l.data.custom} else {}
    ensures l.parent.Valid()
    ensures l.parent.layers == RemoveValue(old(l.parent.layers), l)
    ensures l !in l.parent.layers && |l.parent.layers| == |old(l.parent.layers)| - 1
    ensures l.released && (l.data.CustomData? ==> l.data.custom.released)
  {
    var list := l.parent;
    RemoveValueDistinct(list.layers, l);
    list.layers := RemoveValue(list.layers, l);
    DisposeLayer(l);
  }

  /** sort_entities: a negative, zero or positive answer as the left draw
      priority is below, equal to or above the right one. The C subtraction
      is only meaningful when the difference fits an int. */
  function ComparePriority(left: int32, right: int32): (r: int32)
    requires InInt32(left as int - right as int)
    ensures r < 0 <==> left < right
    ensures r == 0 <==> left == right
    ensures r > 0 <==> left > right
  {
    (left as int - right as int) as int32
  }

  /** Draw priorities never decrease along s. */
  ghost predicate SortedByPriority(s: seq<Entity>)
    reads s`drawPriority
  {
    forall i, j | 0 <= i < j < |s| :: s[i].drawPriority <= s[j].drawPriority
  }

  /** The sort reads each priority through a snapshot `prio` of them, which
      does not change while the array is permuted. */
  ghost predicate SortedPrefix(s: seq<Entity>, n: nat, prio: map<Entity, int32>)
    requires n <= |s| && forall k | 0 <= k < |s| :: s[k] in prio
  {
    forall p, q | 0 <= p < q < n :: prio[s[p]] <= prio[s[q]]
  }

  /** s with the entities at j - 1 and j exchanged. */
  function Swapped(s: seq<Entity>, j: nat): (r: seq<Entity>)
    requires 0 < j < |s|
    ensures multiset(r) == multiset(s)
    ensures |r| == |s| && forall k | 0 <= k < |s| && k != j - 1 && k != j :: r[k] == s[k]
  {
    s[j - 1 := s[j]][j := s[j - 1]]
  }

  /** The state of an insertion pass over a permutation of s0: s[..i + 1] is
      sorted except at the moving position j, and s[j] is not above what
      follows it. */
  ghost predicate InsertState(s: seq<Entity>, s0: seq<Entity>, i: nat, j: nat, prio: map<Entity, int32>) {
    && j <= i < |s|
    && multiset(s) == multiset(s0)
    && (forall k | 0 <= k < |s| :: s[k] in prio)
    && (forall p, q | 0 <= p < q <= i && p != j && q != j :: prio[s[p]] <= prio[s[q]])
    && (forall q | j < q <= i :: prio[s[j]] <= prio[s[q]])
  }

  /** Swapping the moving entity with a higher one to its left keeps the
      insertion going. */
  lemma InsertingSwap(s: seq<Entity>, s0: seq<Entity>, i: nat, j: nat, prio: map<Entity, int32>)
    requires InsertState(s, s0, i, j, prio) && 0 < j
    requires prio[s[j - 1]] > prio[s[j]]
    ensures InsertState(Swapped(s, j), s0, i, j - 1, prio)
  {
  }

  /** The insertion ends when the moving entity is first or not below its
      left neighbour. */
  lemma InsertingDone(s: seq<Entity>, s0: seq<Entity>, i: nat, j: nat, prio: map<Entity, int32>)
    requires InsertState(s, s0, i, j, prio)
    requires j == 0 || prio[s[j - 1]] <= prio[s[j]]
    ensures SortedPrefix(s, i + 1, prio)
  {
  }

  /** The snapshot agrees with the entities, and any two of its priorities
      can be subtracted without overflow. */
  ghost predicate PriorityMap(prio: map<Entity, int32>)
    reads prio.Keys
  {
    && (forall e | e in prio :: prio[e] == e.drawPriority)
    && (forall x, y | x in prio && y in prio :: InInt32(prio[x] as int - prio[y] as int))
  }

  /** One pass of insertion: move a[i] left past every entity of higher
      priority. */
  method Insert(a: array<Entity>, i: nat, ghost prio: map<Entity, int32>)
    requires i < a.Length && PriorityMap(prio)
    requires forall k | 0 <= k < a.Length :: a[k] in prio
    requires SortedPrefix(a[..], i, prio)
    modifies a
    ensures forall k | 0 <= k < a.Length :: a[k] in prio
    ensures SortedPrefix(a[..], i + 1, prio)
    ensures multiset(a[..]) == multiset(old(a[..]))
  {
    ghost var s0 := a[..];
    var j: nat := i;
    while j > 0 && ComparePriority(a[j - 1].drawPriority, a[j].drawPriority) > 0
      invariant InsertState(a[..], s0, i, j, prio)
    {
      InsertingSwap(a[..], s0, i, j, prio);
      ghost var s := Swapped(a[..], j);
      a[j - 1], a[j] := a[j], a[j - 1];
      assert a[..] == s;
      j := j - 1;
    }
    InsertingDone(a[..], s0, i, j, prio);
  }

  /** Any two of these entities can be compared without overflow. */
  ghost predicate Comparable(es: set<Entity>)
    reads es
  {
    forall x, y | x in es && y in es :: InInt32(x.drawPriority as int - y.drawPriority as int)
  }

  /** The qsort call of the entity-layer branch (layer.c:198), as an
      insertion sort: the entities end up ordered by draw priority, as a
      permutation of what was there. Equal priorities may come out in any
      order. */
  method SortByPriority(a: array<Entity>)
    requires Comparable(set k | 0 <= k < a.Length :: a[k])
    modifies a
    ensures SortedByPriority(a[..])
    ensures multiset(a[..]) == multiset(old(a[..]))
  {
    ghost var prio := map k | k in (set k | 0 <= k < a.Length :: a[k]) :: k.drawPriority;
    var i := 0;
    while i < a.Length
      invariant 0 <= i <= a.Length
      invariant forall k | 0 <= k < a.Length :: a[k] in prio
      invariant SortedPrefix(a[..], i, prio)
      invariant multiset(a[..]) == multiset(old(a[..]))
    {
      Insert(a, i, prio);
      i := i + 1;
    }
  }

  /** What drawing es in order appends to the draw list. */
  ghost function EntitiesDraws(es: seq<Entity>, provide: TextureProvider): seq<DrawCommand>
    reads (set e | e in es)`deleted, (set e | e in es :: e.textureCallbacks)`items
  {
    if es == [] then []
    else EntitiesDraws(es[..|es| - 1], provide) + EntityDraws(es[|es| - 1], provide)
  }

  /** Each entity adds at most one draw command. */
  lemma {:induction false} EntitiesDrawsAtMostOne(es: seq<Entity>, provide: TextureProvider)
    ensures |EntitiesDraws(es, provide)| <= |es|
  {
    if es != [] {
      EntitiesDrawsAtMostOne(es[..|es| - 1], provide);
    }
  }

  /** The snapshot loop of the entity-layer branch (layer.c:193-197): walk
      the list with its iterators, collecting every entity in order. */
  method Snapshot(list: EntityList) returns (snapshot: seq<Entity>)
    ensures snapshot == list.entities
  {
    snapshot := [];
    var it := GetIter(list);
    while it.Some?
      invariant it.Some? ==> it.value < |list.entities| && snapshot == list.entities[..it.value]
      invariant it.None? ==> snapshot == list.entities
      decreases if it.Some? then |list.entities| - it.value else 0
    {
      assert list.entities[..it.value + 1] == snapshot + [list.entities[it.value]];
      snapshot := snapshot + [EntityAt(list, it.value)];
      it := Next(list, it.value);
    }
  }

  /** The drawing loop of the entity-layer branch (layer.c:199-206): draw
      the entities in array order. */
  method DrawEntities(entities: array<Entity>, provide: TextureProvider, dl: DrawList)
    modifies dl
    ensures dl.commands == old(dl.commands) + EntitiesDraws(entities[..], provide)
  {
    ghost var before := dl.commands;
    var i := 0;
    while i < entities.Length
      invariant 0 <= i <= entities.Length
      invariant dl.commands == before + EntitiesDraws(entities[..i], provide)
    {
      DrawNext(entities, i, provide, dl, before);
      i := i + 1;
    }
    assert entities[..i] == entities[..];
  }

  /** One step of the drawing loop: draw the entity at i. */
  method DrawNext(entities: array<Entity>, i: nat, provide: TextureProvider, dl: DrawList, ghost before: seq<DrawCommand>)
    requires i < entities.Length
    requires dl.commands == before + EntitiesDraws(entities[..i], provide)
    modifies dl
    ensures dl.commands == before + EntitiesDraws(entities[..i + 1], provide)
  {
    var e := entities[i];
    ghost var done := entities[..i];
    assert entities[..i + 1] == done + [e];
    DrawEntity(e, provide, dl);
    EntitiesDrawsSnoc(done, e, provide);
  }

  /** Drawing one more entity appends its commands. */
  lemma EntitiesDrawsSnoc(es: seq<Entity>, e: Entity, provide: TextureProvider)
    ensures EntitiesDraws(es + [e], provide) == EntitiesDraws(es, provide) + EntityDraws(e, provide)
  {
    assert (es + [e])[..|es|] == es;
  }

  /** The entity-layer branch of LE_DrawSingleLayer (layer.c:189-207):
      snapshot the list, sort the snapshot by draw priority, then draw each
      entity. Tombstoned entities are in the snapshot; drawing them adds
      nothing. */
  method DrawEntityLayer(list: EntityList, provide: TextureProvider, dl: DrawList) returns (drawn: seq<Entity>)
    requires Comparable(set e | e in list.entities)
    modifies dl
    ensures multiset(drawn) == multiset(list.entities)
    ensures SortedByPriority(drawn)
    ensures dl.commands == old(dl.commands) + EntitiesDraws(drawn, provide)
  {
    var n := list.NumEntities();
    var snapshot := Snapshot(list);
    var entities := new Entity[n](k requires 0 <= k < n => snapshot[k]);
    assert entities[..] == list.entities;
    SortByPriority(entities);
    DrawEntities(entities, provide, dl);
    drawn := entities[..];
  }

  /** What a layer needs for drawing: entity priorities that the
      comparator can subtract. */
  ghost predicate Drawable(l: Layer)
    reads l, if l.data.EntityData? then {l.data.list} else {}
    reads if l.data.EntityData? then set e | e in l.data.list.entities else {}
  {
    l.data.EntityData? ==> Comparable(set e | e in l.data.list.entities)
  }

  /** The commands `cmds` drawing layer `l` appends: a tilemap layer its
      tilemap when it has a tileset, a custom layer one call of its
      callback, an entity layer its entities in the order `drawn`, which
      holds each of them once, sorted by draw priority. */
  ghost predicate LayerDrawn(l: Layer, provide: TextureProvider, hasTileset: TilemapRef -> bool,
                             drawn: seq<Entity>, cmds: seq<DrawCommand>)
    reads (if l.data.EntityData? then {l.data.list} else {})`entities
    reads (set e | e in drawn)`deleted, (set e | e in drawn)`drawPriority
    reads (set e | e in drawn :: e.textureCallbacks)`items
  {
    match l.data
    case TilemapData(tilemap) => drawn == [] && cmds == if hasTileset(tilemap) then [TilemapDraw(tilemap)] else []
    case CustomData(custom) => drawn == [] && cmds == [CustomDraw(custom.callback, custom.params)]
    case EntityData(list) =>
      && multiset(drawn) == multiset(list.entities)
      && SortedByPriority(drawn)
      && cmds == EntitiesDraws(drawn, provide)
  }

  /** LayerDrawn for every layer of `order`, taken back to front. */
  ghost predicate LayersDrawn(order: seq<Layer>, drawns: seq<seq<Entity>>, parts: seq<seq<DrawCommand>>,
                              provide: TextureProvider, hasTileset: TilemapRef -> bool)
    reads (set k | 0 <= k < |order| && order[k].data.EntityData? :: order[k].data.list)`entities
    reads (set k, e | 0 <= k < |drawns| && e in drawns[k] :: e)`deleted
    reads (set k, e | 0 <= k < |drawns| && e in drawns[k] :: e)`drawPriority
    reads (set k, e | 0 <= k < |drawns| && e in drawns[k] :: e.textureCallbacks)`items
  {
    && |drawns| == |parts| == |order|
    && (order != [] ==>
         var n := |order| - 1;
         && LayersDrawn(order[..n], drawns[..n], parts[..n], provide, hasTileset)
         && LayerDrawn(order[n], provide, hasTileset, drawns[n], parts[n]))
  }

  /** What LayersDrawn promises of each layer. */
  lemma {:induction false} LayersDrawnEach(order: seq<Layer>, drawns: seq<seq<Entity>>, parts: seq<seq<DrawCommand>>,
                                           provide: TextureProvider, hasTileset: TilemapRef -> bool)
    requires LayersDrawn(order, drawns, parts, provide, hasTileset)
    ensures |drawns| == |parts| == |order|
    ensures forall k | 0 <= k < |order| :: LayerDrawn(order[k], provide, hasTileset, drawns[k], parts[k])
  {
    if order != [] {
      var n := |order| - 1;
      LayersDrawnEach(order[..n], drawns[..n], parts[..n], provide, hasTileset);
    }
  }

  /** The command lists of several layers, one after the other. */
  function Concat(parts: seq<seq<DrawCommand>>): seq<DrawCommand>
  {
    if parts == [] then [] else Concat(parts[..|parts| - 1]) + parts[|parts| - 1]
  }

  /** LE_DrawSingleLayer without the screen geometry: a tilemap layer draws
      its tilemap when it has a tileset and nothing otherwise, an entity
      layer draws its entities by priority, and a custom layer runs its
      callback once. */
  method DrawSingleLayer(l: Layer, provide: TextureProvider, hasTileset: TilemapRef -> bool, dl: DrawList)
    returns (ghost drawn: seq<Entity>, ghost added: seq<DrawCommand>)
    requires Drawable(l)
    modifies dl
    ensures dl.commands == old(dl.commands) + added && LayerDrawn(l, provide, hasTileset, drawn, added)
  {
    ghost var before := dl.commands;
    drawn := [];
    match l.data {
      case TilemapData(tilemap) =>
        if hasTileset(tilemap) {
          dl.Append(TilemapDraw(tilemap));
        }
      case EntityData(list) =>
        drawn := DrawEntityLayer(list, provide, dl);
      case CustomData(custom) =>
        dl.Append(CustomDraw(custom.callback, custom.params));
    }
    added := dl.commands[|before|..];
  }

  /** LE_Draw: draw the layers from the last index down to 0, so the first
      layer ends up in front. */
  method Draw(list: LayerList, provide: TextureProvider, hasTileset: TilemapRef -> bool, dl: DrawList)
    returns (order: seq<Layer>, ghost drawns: seq<seq<Entity>>, ghost parts: seq<seq<DrawCommand>>)
    requires forall l | l in list.layers :: Drawable(l)
    modifies dl
    ensures |order| == |list.layers|
    ensures forall k | 0 <= k < |order| :: order[k] == list.layers[|list.layers| - 1 - k]
    ensures LayersDrawn(order, drawns, parts, provide, hasTileset)
    ensures dl.commands == old(dl.commands) + Concat(parts)
  {
    var layers := list.layers;
    order, drawns, parts := [], [], [];
    var i := |layers| - 1;
    while i >= 0
      invariant list.layers == layers && -1 <= i < |layers|
      invariant |order| == |layers| - 1 - i
      invariant forall k | 0 <= k < |order| :: order[k] == layers[|layers| - 1 - k]
      invariant LayersDrawn(order, drawns, parts, provide, hasTileset)
      invariant dl.commands == old(dl.commands) + Concat(parts)
    {
      order, drawns, parts := DrawNextLayer(layers[i], provide, hasTileset, dl, order, drawns, parts, old(dl.commands));
      i := i - 1;
    }
  }

  /** One round of LE_Draw's loop: draw layer `l` and record it after the
      layers already drawn. */
  method DrawNextLayer(l: Layer, provide: TextureProvider, hasTileset: TilemapRef -> bool, dl: DrawList,
                       order: seq<Layer>, ghost drawns: seq<seq<Entity>>, ghost parts: seq<seq<DrawCommand>>,
                       ghost before: seq<DrawCommand>)
    returns (order': seq<Layer>, ghost drawns': seq<seq<Entity>>, ghost parts': seq<seq<DrawCommand>>)
    requires Drawable(l)
    requires LayersDrawn(order, drawns, parts, provide, hasTileset)
    requires dl.commands == before + Concat(parts)
    modifies dl
    ensures order' == order + [l]
    ensures LayersDrawn(order', drawns', parts', provide, hasTileset)
    ensures dl.commands == before + Concat(parts')
  {
    ghost var drawn, added := DrawSingleLayer(l, provide, hasTileset, dl);
    LayersDrawnSnoc(order, drawns, parts, l, drawn, added, provide, hasTileset);
    ConcatSnoc(parts, added);
    order', drawns', parts' := order + [l], drawns + [drawn], parts + [added];
  }

  /** Drawing one more layer extends LayersDrawn by that layer. */
  lemma LayersDrawnSnoc(order: seq<Layer>, drawns: seq<seq<Entity>>, parts: seq<seq<DrawCommand>>,
                        l: Layer, drawn: seq<Entity>, added: seq<DrawCommand>,
                        provide: TextureProvider, hasTileset: TilemapRef -> bool)
    requires LayersDrawn(order, drawns, parts, provide, hasTileset)
    requires LayerDrawn(l, provide, hasTileset, drawn, added)
    ensures LayersDrawn(order + [l], drawns + [drawn], parts + [added], provide, hasTileset)
  {
    assert (order + [l])[..|order|] == order;
    assert (drawns + [drawn])[..|drawns|] == drawns;
    assert (parts + [added])[..|parts|] == parts;
  }

  /** Concatenating one more command list appends it at the end. */
  lemma ConcatSnoc(parts: seq<seq<DrawCommand>>, added: seq<DrawCommand>)
    ensures Concat(parts + [added]) == Concat(parts) + added
  {
    assert (parts + [added])[..|parts|] == parts;
  }
}

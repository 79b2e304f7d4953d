/** Entity builders, entities and entity lists (entity.c): the write-only
    builder template, entity creation from it, per-entity properties, list
    transfer, tombstoning, the two-phase update pass and texture selection
    for drawing.

    An entity list is an explicit container (its sequence of entities plus
    the tilemap link that the C code keeps on the list's head node). Each
    entity remembers how it reaches its list: through its own node (set by
    creation) or through the list head (set by a list transfer), because
    destruction tells the two apart. */
module Entities {
  import opened Basics
  import opened Properties

  /** The model knows callbacks by identity. */
  datatype TextureCallback = TextureCallback(id: nat)
  datatype UpdateCallback = UpdateCallback(id: nat)
  datatype CollisionCallback = CollisionCallback(id: nat)

  /** LE_EntityFlags as a 32-bit set of flag bits. */
  type Flags = bv32

  /** What texture callback c returns when asked for entity e (None is NULL). */
  type TextureProvider = (TextureCallback, Entity) -> Option<Sprite>

  /** The entities that an entity's update callbacks tombstone when they run. */
  type Tombstoner = Entity -> set<Entity>

  /** Integration and collision after the callbacks (entity.c:249-252):
      for a given entity (its hitbox and its list's tilemap are known
      through it), from the position and velocity before, the position and
      velocity after. */
  type Physics = (Entity, Vec2, Vec2) -> (Vec2, Vec2)

  /** One invocation of a callback, in the order the engine makes them. */
  datatype UpdateCall = UpdateCall(callback: UpdateCallback, entity: Entity)
  datatype CollisionCall = CollisionCall(callback: CollisionCallback, entity: Entity, collider: Entity)

  /** A list of callbacks; builders hand the same list objects to every
      entity they create. */
  class CallbackList<C> {
    var items: seq<C>

    constructor ()
      ensures items == []
    {
      items := [];
    }

    method Add(c: C)
      modifies this
      ensures items == old(items) + [c]
    {
      items := items + [c];
    }
  }

  /** Appending flag bits: every bit of f ends up set, every other bit is
      kept, and appending the same bits again changes nothing. */
  function AppendedFlags(flags: Flags, f: Flags): (r: Flags)
    ensures r & f == f
    ensures r & !f == flags & !f
  {
    flags | f
  }

  lemma AppendedFlagsIdempotent(flags: Flags, f: Flags)
    ensures AppendedFlags(AppendedFlags(flags, f), f) == AppendedFlags(flags, f)
  {
  }

  /** Clearing flag bits: every bit of f ends up clear, every other bit is
      kept. */
  function ClearedFlags(flags: Flags, f: Flags): (r: Flags)
    ensures r & f == 0
    ensures r & !f == flags & !f
  {
    flags & !f
  }

  /** The entity template (_LE_EntityBuilder). */
  class EntityBuilder {
    const textureCallbacks: CallbackList<TextureCallback>
    const updateCallbacks: CallbackList<UpdateCallback>
    const collisionCallbacks: CallbackList<CollisionCallback>
    const properties: PropertyList
    var width: Float
    var height: Float
    var drawPriority: int32
    var flags: Flags

    ghost predicate Valid()
      reads this, properties
    {
      properties.Valid()
    }

    /** LE_CreateEntityBuilder: all scalars zero, four new empty lists. */
    constructor ()
      ensures Valid()
      ensures fresh(textureCallbacks) && fresh(updateCallbacks) && fresh(collisionCallbacks) && fresh(properties)
      ensures textureCallbacks.items == [] && updateCallbacks.items == [] && collisionCallbacks.items == []
      ensures properties.entries == []
      ensures width == Zero && height == Zero && drawPriority == 0 && flags == 0
    {
      textureCallbacks := new CallbackList();
      updateCallbacks := new CallbackList();
      collisionCallbacks := new CallbackList();
      properties := new PropertyList();
      width, height := Zero, Zero;
      drawPriority := 0;
      flags := 0;
    }

    method AddTextureCallback(c: TextureCallback)
      modifies textureCallbacks
      ensures textureCallbacks.items == old(textureCallbacks.items) + [c]
    {
      textureCallbacks.Add(c);
    }

    method AddUpdateCallback(c: UpdateCallback)
      modifies updateCallbacks
      ensures updateCallbacks.items == old(updateCallbacks.items) + [c]
    {
      updateCallbacks.Add(c);
    }

    method AddCollisionCallback(c: CollisionCallback)
      modifies collisionCallbacks
      ensures collisionCallbacks.items == old(collisionCallbacks.items) + [c]
    {
      collisionCallbacks.Add(c);
    }

    method SetHitboxSize(w: Float, h: Float)
      modifies this`width, this`height
      ensures width == w && height == h
    {
      width := w;
      height := h;
    }

    method SetFlags(f: Flags)
      modifies this`flags
      ensures flags == f
    {
      flags := f;
    }

    method SetDrawPriority(p: int32)
      modifies this`drawPriority
      ensures drawPriority == p
    {
      drawPriority := p;
    }

    method AppendFlags(f: Flags)
      modifies this`flags
      ensures flags == AppendedFlags(old(flags), f)
    {
      flags := flags | f;
    }

    method ClearFlags(f: Flags)
      modifies this`flags
      ensures flags == ClearedFlags(old(flags), f)
    {
      flags := flags & !f;
    }

    method SetProperty(value: PropertyValue, name: string)
      requires Valid()
      modifies properties`entries
      ensures Valid()
      ensures properties.entries == Put(old(properties.entries), name, value)
    {
      properties.Set(value, name);
    }
  }

  /** How an entity reaches its list: through its own list node, or through
      the list's head node. */
  datatype ParentRef = NodeRef(list: EntityList) | HeadRef(list: EntityList)

  /** An entity (_LE_Entity). The position before the last update and the
      `released` flag (the record has been freed) complete the state. */
  class Entity {
    var pos: Vec2
    var vel: Vec2
    var prevPos: Vec2
    var width: Float
    var height: Float
    var drawPriority: int32
    var flags: Flags
    var deleted: bool
    var platform: Entity?
    const properties: PropertyList
    const textureCallbacks: CallbackList<TextureCallback>
    const updateCallbacks: CallbackList<UpdateCallback>
    const collisionCallbacks: CallbackList<CollisionCallback>
    var parent: ParentRef
    var released: bool

    /** The field initialisation of LE_CreateEntity (entity.c:129-144). The
        previous position is left unset, as in the C code. */
    constructor (list: EntityList, builder: EntityBuilder, x: Float, y: Float)
      ensures pos == Vec2(x, y) && vel == Origin
      ensures width == builder.width && height == builder.height
      ensures flags == builder.flags && drawPriority == builder.drawPriority
      ensures !deleted && platform == null && !released
      ensures textureCallbacks == builder.textureCallbacks
      ensures updateCallbacks == builder.updateCallbacks
      ensures collisionCallbacks == builder.collisionCallbacks
      ensures fresh(properties) && properties.Valid() && properties.entries == [] && !properties.released
      ensures parent == NodeRef(list)
    {
      pos := Vec2(x, y);
      vel := Origin;
      width := builder.width;
      height := builder.height;
      flags := builder.flags;
      deleted := false;
      platform := null;
      drawPriority := builder.drawPriority;
      textureCallbacks := builder.textureCallbacks;
      updateCallbacks := builder.updateCallbacks;
      collisionCallbacks := builder.collisionCallbacks;
      properties := new PropertyList();
      parent := NodeRef(list);
      released := false;
    }

    /** LE_EntitySetProperty: insert-or-overwrite on this entity's own table. */
    method SetProperty(value: PropertyValue, name: string)
      requires properties.Valid()
      modifies properties`entries
      ensures properties.Valid()
      ensures properties.entries == Put(old(properties.entries), name, value)
    {
      properties.Set(value, name);
    }

    /** LE_EntityDelProperty: unlink the first entry called `name`, if any. */
    method DelProperty(name: string)
      requires properties.Valid()
      modifies properties`entries
      ensures properties.Valid()
      ensures properties.entries == Remove(old(properties.entries), name)
    {
      var i := 0;
      while i < |properties.entries|
        invariant 0 <= i <= |properties.entries|
        invariant properties.entries == old(properties.entries)
        invariant forall j | 0 <= j < i :: properties.entries[j].name != name
      {
        if properties.entries[i].name == name {
          RemoveKeepsUnique(properties.entries, name);
          properties.entries := DropAt(properties.entries, i);
          return;
        }
        i := i + 1;
      }
    }

    /** LE_EntityGetProperty: `property` is the value the caller's output
        slot holds before the call and `result` the value it holds after. */
    method GetProperty(property: PropertyValue, name: string) returns (found: bool, result: PropertyValue)
      ensures found <==> HasName(properties.entries, name)
      ensures found ==> Lookup(properties.entries, name) == Some(result)
      ensures !found ==> result == property
    {
      var t := properties.entries;
      var i := 0;
      while i < |t|
        invariant 0 <= i <= |t|
        invariant forall j | 0 <= j < i :: t[j].name != name
      {
        if t[i].name == name {
          return true, t[i].value;
        }
        i := i + 1;
      }
      return false, property;
    }

    /** LE_EntityGetPropertyOrDefault. */
    method GetPropertyOrDefault(def: PropertyValue, name: string) returns (r: PropertyValue)
      ensures HasName(properties.entries, name) ==> Lookup(properties.entries, name) == Some(r)
      ensures !HasName(properties.entries, name) ==> r == def
    {
      var _, v := GetProperty(def, name);
      r := v;
    }

    /** LE_EntityNumProperties. */
    method NumProperties() returns (n: int)
      ensures n == |properties.entries|
    {
      n := |properties.entries|;
    }

    /** LE_EntityGetPropertyKey: the name at a position in insertion order;
        looking that name up leads back to the same position. */
    method GetPropertyKey(index: int) returns (name: string)
      requires properties.Valid()
      requires 0 <= index < |properties.entries|
      ensures HasName(properties.entries, name)
      ensures IndexOf(properties.entries, name) == Some(index)
    {
      name := properties.entries[index].name;
    }
  }

  /** An entity list: its entities in list order and the tilemap link kept
      on the list's head node. */
  class EntityList {
    var entities: seq<Entity>
    var tilemap: Option<TilemapRef>

    /** Every entity occurs once and leads back to this list. */
    ghost predicate Valid()
      reads this, entities
    {
      && Distinct(entities)
      && forall e | e in entities :: e.parent.list == this
    }

    /** LE_CreateEntityList. */
    constructor ()
      ensures Valid() && entities == [] && tilemap == None
    {
      entities := [];
      tilemap := None;
    }

    /** LE_EntityAssignTilemap. */
    method AssignTilemap(t: Option<TilemapRef>)
      modifies this`tilemap
      ensures tilemap == t
    {
      tilemap := t;
    }

    /** LE_NumEntities. */
    method NumEntities() returns (n: int)
      ensures n == |entities|
    {
      n := |entities|;
    }
  }

  /** LE_CreateEntity: a new entity built from the template, appended at the
      tail of the list. Scalars are copied, the callback lists are the
      builder's own list objects, and the properties are copied entry by
      entry into a new list of the entity's own. */
  method CreateEntity(list: EntityList, builder: EntityBuilder, x: Float, y: Float) returns (e: Entity)
    requires list.Valid() && builder.Valid()
    modifies list`entities
    ensures fresh(e) && fresh(e.properties)
    ensures list.entities == old(list.entities) + [e]
    ensures list.Valid()
    ensures e.parent == NodeRef(list)
    ensures e.pos == Vec2(x, y) && e.vel == Origin
    ensures !e.deleted && e.platform == null && !e.released
    ensures e.width == builder.width && e.height == builder.height
    ensures e.flags == builder.flags && e.drawPriority == builder.drawPriority
    ensures e.textureCallbacks == builder.textureCallbacks
    ensures e.updateCallbacks == builder.updateCallbacks
    ensures e.collisionCallbacks == builder.collisionCallbacks
    ensures e.properties.Valid() && !e.properties.released
    ensures e.properties.entries == builder.properties.entries
  {
    e := new Entity(list, builder, x, y);
    list.entities := list.entities + [e];
    var source := builder.properties.entries;
    var i := 0;
    while i < |source|
      modifies e.properties`entries
      invariant 0 <= i <= |source|
      invariant e.properties.Valid()
      invariant e.properties.entries == source[..i]
    {
      PutNextEntry(source, i);
      e.properties.Set(source[i].value, source[i].name);
      i := i + 1;
    }
  }

  /** LE_EntityChangeLists: unlink the entity from its list and append it at
      the tail of `dest`. The entity now reaches `dest` through the head
      node. Nothing else about the entity changes. */
  method ChangeLists(e: Entity, dest: EntityList)
    requires e.parent.list.Valid() && e in e.parent.list.entities
    requires dest.Valid()
    modifies e`parent, e.parent.list`entities, dest`entities
    ensures e.parent == HeadRef(dest)
    ensures old(e.parent.list) != dest ==>
      && old(e.parent.list).entities == RemoveValue(old(e.parent.list.entities), e)
      && dest.entities == old(dest.entities) + [e]
    ensures old(e.parent.list) == dest ==>
      dest.entities == RemoveValue(old(dest.entities), e) + [e]
    ensures old(e.parent.list).Valid() && dest.Valid()
  {
    var source := e.parent.list;
    RemoveValueDistinct(source.entities, e);
    source.entities := RemoveValue(source.entities, e);
    dest.entities := dest.entities + [e];
    e.parent := HeadRef(dest);
  }

  /** LE_DeleteEntity: set the tombstone. */
  method DeleteEntity(e: Entity)
    modifies e`deleted
    ensures e.deleted
  {
    e.deleted := true;
  }

  /** LE_DestroyEntity. Only an entity that reaches its list through its own
      node is unlinked and has its properties freed; one that reaches it
      through the head node (a moved entity) is freed but stays linked. */
  method DestroyEntity(e: Entity)
    requires e.parent.list.Valid()
    modifies e`released, e.properties`released, e.parent.list`entities
    ensures e.released
    ensures old(e.parent).NodeRef? ==>
      && e.properties.released
      && e.parent.list.entities == RemoveValue(old(e.parent.list.entities), e)
      && e !in e.parent.list.entities
    ensures old(e.parent).HeadRef? ==>
      && e.parent.list.entities == old(e.parent.list.entities)
      && e.properties.released == old(e.properties.released)
    ensures e.parent.list.Valid()
  {
    if e.parent.NodeRef? {
      e.properties.released := true;
      RemoveValueDistinct(e.parent.list.entities, e);
      e.parent.list.entities := RemoveValue(e.parent.list.entities, e);
    }
    e.released := true;
  }

  /** The invocations of a callback list on one entity, in order. */
  function UpdateCalls(cbs: seq<UpdateCallback>, e: Entity): seq<UpdateCall> {
    seq(|cbs|, i requires 0 <= i < |cbs| => UpdateCall(cbs[i], e))
  }

  function CollisionCalls(cbs: seq<CollisionCallback>, e: Entity, collider: Entity): seq<CollisionCall> {
    seq(|cbs|, i requires 0 <= i < |cbs| => CollisionCall(cbs[i], e, collider))
  }

  /** LE_EntityCollision: every collision callback, in registration order,
      with both entities. */
  method EntityCollision(e: Entity, collider: Entity) returns (calls: seq<CollisionCall>)
    ensures |calls| == |e.collisionCallbacks.items|
    ensures forall i | 0 <= i < |calls| ::
      calls[i] == CollisionCall(e.collisionCallbacks.items[i], e, collider)
  {
    var cbs := e.collisionCallbacks.items;
    calls := [];
    var i := 0;
    while i < |cbs|
      invariant 0 <= i <= |cbs|
      invariant calls == CollisionCalls(cbs[..i], e, collider)
    {
      calls := calls + [CollisionCall(cbs[i], e, collider)];
      i := i + 1;
    }
  }

  /** The kinematic state an update changes. */
  datatype Motion = Motion(pos: Vec2, vel: Vec2, prevPos: Vec2)

  ghost function MotionOf(e: Entity): Motion
    reads e`pos, e`vel, e`prevPos
  {
    Motion(e.pos, e.vel, e.prevPos)
  }

  /** One update step of live entity `e` in motion `m`: the position is
      remembered as the previous position, then integration and collision
      move it. */
  function Advance(e: Entity, m: Motion, physics: Physics): Motion {
    var next := physics(e, m.pos, m.vel);
    Motion(next.0, next.1, m.pos)
  }

  /** LE_UpdateEntity. A tombstoned entity is left alone and no callback
      runs. Otherwise its update callbacks run in order (and tombstone what
      they tombstone), the position is saved as the previous position, and
      integration with collision gives the new position and velocity. */
  method UpdateEntity(e: Entity, physics: Physics, kills: set<Entity>) returns (calls: seq<UpdateCall>)
    requires forall k | k in kills :: allocated(k)
    modifies e`pos, e`vel, e`prevPos, kills`deleted
    ensures forall k | k in kills :: k.deleted == (old(k.deleted) || !old(e.deleted))
    ensures old(e.deleted) ==> calls == [] && MotionOf(e) == old(MotionOf(e))
    ensures !old(e.deleted) ==>
      && calls == UpdateCalls(e.updateCallbacks.items, e)
      && MotionOf(e) == Advance(e, old(MotionOf(e)), physics)
  {
    if e.deleted {
      return [];
    }
    var cbs := e.updateCallbacks.items;
    calls := [];
    var i := 0;
    while i < |cbs|
      invariant 0 <= i <= |cbs|
      invariant calls == UpdateCalls(cbs[..i], e)
    {
      calls := calls + [UpdateCall(cbs[i], e)];
      i := i + 1;
    }
    forall k | k in kills {
      k.deleted := true;
    }
    e.prevPos := e.pos;
    var next := physics(e, e.pos, e.vel);
    e.pos, e.vel := next.0, next.1;
  }

  /** The entities that any update callback of `es` could tombstone. */
  ghost function Targets(es: seq<Entity>, tombstones: Tombstoner): set<Entity> {
    if es == [] then {} else Targets(es[..|es| - 1], tombstones) + tombstones(es[|es| - 1])
  }

  lemma {:induction false} TargetsCover(es: seq<Entity>, tombstones: Tombstoner, i: nat)
    requires i < |es|
    ensures tombstones(es[i]) <= Targets(es, tombstones)
    decreases |es|
  {
    if i < |es| - 1 {
      TargetsCover(es[..|es| - 1], tombstones, i);
    }
  }

  /** The entities of `es` that are tombstoned. */
  ghost function DeadIn(es: seq<Entity>): set<Entity>
    reads es`deleted
  {
    set e | e in es && e.deleted
  }

  /** The entities tombstoned by update callbacks while the update pass
      visits es[..n], given that `dead0` were tombstoned when it began. */
  ghost function Tombstoned(es: seq<Entity>, n: nat, dead0: set<Entity>, tombstones: Tombstoner): set<Entity>
    requires n <= |es|
  {
    if n == 0 then {}
    else
      var t := Tombstoned(es, n - 1, dead0, tombstones);
      if es[n - 1] in dead0 || es[n - 1] in t then t
      else t + tombstones(es[n - 1])
  }

  /** Whether es[i] is still live when the update pass reaches it. */
  ghost predicate VisitedLive(es: seq<Entity>, i: nat, dead0: set<Entity>, tombstones: Tombstoner)
    requires i < |es|
  {
    es[i] !in dead0 && es[i] !in Tombstoned(es, i, dead0, tombstones)
  }

  /** The update-callback lists of `es`, in list order. */
  ghost function UpdateCallbackLists(es: seq<Entity>): (r: seq<seq<UpdateCallback>>)
    reads (set e | e in es :: e.updateCallbacks)`items
    ensures |r| == |es|
    ensures forall j | 0 <= j < |es| :: r[j] == es[j].updateCallbacks.items
  {
    if es == [] then []
    else
      var r := UpdateCallbackLists(es[..|es| - 1]);
      assert forall j | 0 <= j < |es| - 1 :: es[..|es| - 1][j] == es[j];
      r + [es[|es| - 1].updateCallbacks.items]
  }

  /** For each entity of `es`, whether it is live when the update pass
      reaches it. */
  ghost function Lives(es: seq<Entity>, dead0: set<Entity>, tombstones: Tombstoner): (r: seq<bool>)
    ensures |r| == |es|
    ensures forall j | 0 <= j < |es| :: r[j] == VisitedLive(es, j, dead0, tombstones)
  {
    seq(|es|, j requires 0 <= j < |es| => VisitedLive(es, j, dead0, tombstones))
  }

  /** The update callbacks that the update pass runs while visiting es[..n],
      where cbs[j] are the update callbacks of es[j] and live[j] says whether
      es[j] is live when reached. */
  ghost function PassCalls(es: seq<Entity>, cbs: seq<seq<UpdateCallback>>, live: seq<bool>, n: nat): seq<UpdateCall>
    requires n <= |es| == |cbs| == |live|
  {
    if n == 0 then []
    else PassCalls(es, cbs, live, n - 1) + if live[n - 1] then UpdateCalls(cbs[n - 1], es[n - 1]) else []
  }

  /** The entities that stay linked after the reap pass: those not
      tombstoned, and those reached through the head node. */
  ghost function Survivors(es: seq<Entity>): seq<Entity>
    reads es`deleted, es`parent
  {
    if es == [] then []
    else
      var last := es[|es| - 1];
      Survivors(es[..|es| - 1]) + if !last.deleted || last.parent.HeadRef? then [last] else []
  }

  /** The reap pass keeps exactly the live entities and the moved ones. */
  lemma {:induction false} SurvivorsMembers(es: seq<Entity>)
    ensures forall e | e in Survivors(es) :: e in es
    ensures forall e | e in es :: e in Survivors(es) <==> !e.deleted || e.parent.HeadRef?
  {
    if es != [] {
      var last := es[|es| - 1];
      assert es == es[..|es| - 1] + [last];
      SurvivorsMembers(es[..|es| - 1]);
    }
  }

  /** The reap pass keeps the relative order of what it keeps. */
  lemma {:induction false} SurvivorsAppend(a: seq<Entity>, b: seq<Entity>)
    ensures Survivors(a + b) == Survivors(a) + Survivors(b)
    decreases |b|
  {
    if b != [] {
      var b' := b[..|b| - 1];
      assert a + b == (a + b') + [b[|b| - 1]];
      assert (a + b)[..|a + b| - 1] == a + b';
      SurvivorsAppend(a, b');
    } else {
      assert a + b == a;
    }
  }

  /** The list during the reap pass, one entity further. */
  lemma SurvivorsSnoc(es: seq<Entity>, i: nat)
    requires i < |es|
    ensures Survivors(es[..i]) + (if !es[i].deleted || es[i].parent.HeadRef? then [es[i]] else []) + es[i + 1..]
      == Survivors(es[..i + 1]) + es[i + 1..]
  {
    assert es[..i + 1][..i] == es[..i];
  }

  /** The property lists owned by `es`. */
  ghost function PropertyLists(es: seq<Entity>): set<PropertyList> {
    set e | e in es :: e.properties
  }

  /** The tombstones during the update pass: exactly those in dead0 or
      dead are tombstoned among `es`, and everything in dead is. */
  ghost predicate PassState(es: seq<Entity>, dead0: set<Entity>, dead: set<Entity>)
    reads es`deleted, dead`deleted
  {
    && (forall k | k in dead :: k.deleted)
    && (forall k | k in es :: k.deleted == (k in dead0 || k in dead))
  }

  /** The bookkeeping of the update pass once it has visited es[..n]: the
      callbacks it ran and the entities tombstoned so far. */
  ghost predicate Visited(es: seq<Entity>, n: nat, calls: seq<UpdateCall>, dead: set<Entity>,
                          cbs: seq<seq<UpdateCallback>>, live: seq<bool>, dead0: set<Entity>,
                          tombstones: Tombstoner)
    reads es`deleted, dead`deleted
  {
    && n <= |es| == |cbs| == |live|
    && calls == PassCalls(es, cbs, live, n)
    && dead == Tombstoned(es, n, dead0, tombstones)
    && PassState(es, dead0, dead)
  }

  /** How the pass's bookkeeping advances over one entity. */
  lemma PassStep(es: seq<Entity>, i: nat, dead0: set<Entity>,
                 tombstones: Tombstoner, cbs: seq<seq<UpdateCallback>>, live: seq<bool>)
    requires |es| == |cbs| == |live| && i < |es|
    requires live[i] == VisitedLive(es, i, dead0, tombstones)
    ensures Tombstoned(es, i + 1, dead0, tombstones) ==
      var dead := Tombstoned(es, i, dead0, tombstones);
      if live[i] then dead + tombstones(es[i]) else dead
    ensures PassCalls(es, cbs, live, i + 1) ==
      PassCalls(es, cbs, live, i) + if live[i] then UpdateCalls(cbs[i], es[i]) else []
  {
  }

  /** The tombstones of the entities callbacks may target, outside the list
      as well as in it: exactly those tombstoned before the pass (`deadT0`)
      or by a callback that ran (`dead`). */
  ghost predicate TargetsState(targets: set<Entity>, deadT0: set<Entity>, dead: set<Entity>)
    reads targets`deleted
  {
    forall k | k in targets :: k.deleted == (k in deadT0 || k in dead)
  }

  /** The entities among `ks` that are tombstoned. */
  ghost function DeadAmong(ks: set<Entity>): set<Entity>
    reads ks`deleted
  {
    set k | k in ks && k.deleted
  }

  /** The motion of each entity of `es` once the pass has visited es[..n]:
      advanced from `m0` when it was live when reached, as it was otherwise. */
  ghost predicate MovedState(es: seq<Entity>, n: nat, m0: seq<Motion>, live: seq<bool>, physics: Physics)
    reads es`pos, es`vel, es`prevPos
  {
    && |m0| == |es| == |live|
    && forall j | 0 <= j < |es| ::
         MotionOf(es[j]) == if j < n && live[j] then Advance(es[j], m0[j], physics) else m0[j]
  }

  /** The motions of `es`, in list order. */
  ghost function Motions(es: seq<Entity>): (r: seq<Motion>)
    reads es`pos, es`vel, es`prevPos
    ensures |r| == |es| && forall j | 0 <= j < |es| :: r[j] == MotionOf(es[j])
  {
    if es == [] then []
    else
      assert forall j | 0 <= j < |es| - 1 :: es[..|es| - 1][j] == es[j];
      Motions(es[..|es| - 1]) + [MotionOf(es[|es| - 1])]
  }

  /** One step of the update pass: update es[i], which runs its callbacks
      and moves it only when it is still live. */
  method UpdateStep(es: seq<Entity>, i: nat, e: Entity, kills: set<Entity>,
                    physics: Physics, tombstones: Tombstoner, calls: seq<UpdateCall>,
                    ghost cbs: seq<seq<UpdateCallback>>, ghost live: seq<bool>,
                    ghost dead0: set<Entity>, ghost dead: set<Entity>,
                    ghost targets: set<Entity>, ghost deadT0: set<Entity>, ghost m0: seq<Motion>)
    returns (calls': seq<UpdateCall>, ghost dead': set<Entity>)
    requires i < |es| && es[i] == e && kills == tombstones(e) && Distinct(es)
    requires forall k | k in kills :: allocated(k)
    requires forall k | k in dead :: allocated(k)
    requires Visited(es, i, calls, dead, cbs, live, dead0, tombstones)
    requires TargetsState(targets, deadT0, dead)
    requires MovedState(es, i, m0, live, physics)
    requires live[i] == VisitedLive(es, i, dead0, tombstones)
    requires e.updateCallbacks.items == cbs[i]
    modifies e`pos, e`vel, e`prevPos, kills`deleted
    ensures forall k | k in dead' :: allocated(k)
    ensures Visited(es, i + 1, calls', dead', cbs, live, dead0, tombstones)
    ensures TargetsState(targets, deadT0, dead')
    ensures MovedState(es, i + 1, m0, live, physics)
  {
    PassStep(es, i, dead0, tombstones, cbs, live);
    var c := UpdateEntity(e, physics, kills);
    calls' := calls + c;
    dead' := if live[i] then dead + kills else dead;
  }

  /** The loop of the update pass over es[i..]. */
  method UpdateFrom(es: seq<Entity>, i: nat, physics: Physics, tombstones: Tombstoner, calls: seq<UpdateCall>,
                    ghost cbs: seq<seq<UpdateCallback>>, ghost live: seq<bool>,
                    ghost dead0: set<Entity>, ghost dead: set<Entity>,
                    ghost deadT0: set<Entity>, ghost m0: seq<Motion>)
    returns (calls': seq<UpdateCall>, ghost dead': set<Entity>)
    requires Distinct(es)
    requires forall e, k | e in es && k in tombstones(e) :: allocated(k)
    requires forall k | k in dead :: allocated(k)
    requires Visited(es, i, calls, dead, cbs, live, dead0, tombstones)
    requires TargetsState(Targets(es, tombstones), deadT0, dead)
    requires MovedState(es, i, m0, live, physics)
    requires forall j | 0 <= j < |es| :: live[j] == VisitedLive(es, j, dead0, tombstones)
    requires forall j | 0 <= j < |es| :: es[j].updateCallbacks.items == cbs[j]
    modifies es`pos, es`vel, es`prevPos, Targets(es, tombstones)`deleted
    ensures forall k | k in dead' :: allocated(k)
    ensures Visited(es, |es|, calls', dead', cbs, live, dead0, tombstones)
    ensures TargetsState(Targets(es, tombstones), deadT0, dead')
    ensures MovedState(es, |es|, m0, live, physics)
  {
    ghost var targets := Targets(es, tombstones);
    calls', dead' := calls, dead;
    var n := i;
    while n < |es|
      invariant n <= |es|
      invariant forall k | k in dead' :: allocated(k)
      invariant Visited(es, n, calls', dead', cbs, live, dead0, tombstones)
      invariant TargetsState(targets, deadT0, dead')
      invariant MovedState(es, n, m0, live, physics)
    {
      var e := es[n];
      var kills := tombstones(e);
      TargetsCover(es, tombstones, n);
      calls', dead' := UpdateStep(es, n, e, kills, physics, tombstones, calls', cbs, live, dead0, dead',
                                  targets, deadT0, m0);
      n := n + 1;
    }
  }

  /** The first loop of LE_UpdateEntities (entity.c:227-230): update every
      entity in list order. Callbacks may tombstone entities at any
      position; one tombstoned before the pass reaches it is skipped and
      does not move. An entity that a callback could target keeps its
      tombstone state unless a callback that ran tombstoned it. */
  method UpdatePass(list: EntityList, physics: Physics, tombstones: Tombstoner) returns (calls: seq<UpdateCall>)
    requires list.Valid()
    requires forall k | k in Targets(list.entities, tombstones) :: allocated(k)
    modifies list.entities`pos, list.entities`vel, list.entities`prevPos
    modifies Targets(list.entities, tombstones)`deleted
    ensures var es, dead0 := list.entities, old(DeadIn(list.entities));
      var live := Lives(es, dead0, tombstones);
      && calls == PassCalls(es, UpdateCallbackLists(es), live, |es|)
      && PassState(es, dead0, Tombstoned(es, |es|, dead0, tombstones))
      && forall k | k in Tombstoned(es, |es|, dead0, tombstones) :: allocated(k)
    ensures var es, dead0 := list.entities, old(DeadIn(list.entities));
      forall k | k in Targets(es, tombstones) ::
        k.deleted == (old(k.deleted) || k in Tombstoned(es, |es|, dead0, tombstones))
    ensures var es, dead0 := list.entities, old(DeadIn(list.entities));
      var live := Lives(es, dead0, tombstones);
      forall j | 0 <= j < |es| ::
        MotionOf(es[j]) == if live[j] then Advance(es[j], old(MotionOf(es[j])), physics) else old(MotionOf(es[j]))
  {
    var es := list.entities;
    ghost var dead0 := DeadIn(es);
    ghost var live := Lives(es, dead0, tombstones);
    ghost var cbs := UpdateCallbackLists(es);
    ghost var deadT0 := DeadAmong(Targets(es, tombstones));
    ghost var m0 := Motions(es);
    forall e, k | e in es && k in tombstones(e)
      ensures allocated(k)
    {
      var i :| 0 <= i < |es| && es[i] == e;
      TargetsCover(es, tombstones, i);
    }
    ghost var dead;
    calls, dead := UpdateFrom(es, 0, physics, tombstones, [], cbs, live, dead0, {}, deadT0, m0);
  }

  /** One step of the reap pass: destroy e when it is tombstoned. */
  method ReapOne(list: EntityList, e: Entity, ghost kept: seq<Entity>, ghost rest: seq<Entity>)
    requires list.Valid() && list.entities == kept + [e] + rest && e !in kept
    modifies list`entities, e`released, e.properties`released
    ensures list.Valid()
    ensures list.entities == kept + (if !e.deleted || e.parent.HeadRef? then [e] else []) + rest
    ensures e.released == (old(e.released) || e.deleted)
    ensures e.properties.released == (old(e.properties.released) || (e.deleted && e.parent.NodeRef?))
  {
    if e.deleted {
      DestroyEntity(e);
      if e.parent.NodeRef? {
        RemoveValueSplit(kept, e, rest);
      }
    }
  }

  /** The entities of `es` that are released. */
  ghost function ReleasedIn(es: seq<Entity>): set<Entity>
    reads es`released
  {
    set e | e in es && e.released
  }

  /** The entities of `es` whose property lists are released. */
  ghost function PropertiesReleasedIn(es: seq<Entity>): set<Entity>
    reads PropertyLists(es)`released
  {
    set e | e in es && e.properties.released
  }

  /** Every entity of `es` owns its own property list, as each creation
      allocates a new one (entity.c:144). */
  predicate OwnProperties(es: seq<Entity>) {
    forall i, j | 0 <= i < j < |es| :: es[i].properties != es[j].properties
  }

  /** The bookkeeping of the reap pass once it has visited es[..i]: the
      list holds the survivors of es[..i] followed by es[i..], the
      tombstoned entities of es[..i] are released, and so are the property
      lists of those that were unlinked. `rel0` are the entities and `prel0`
      the entities with property lists released before the pass began. */
  ghost predicate Reaped(list: EntityList, es: seq<Entity>, i: nat, rel0: set<Entity>, prel0: set<Entity>)
    reads list, list.entities, es, PropertyLists(es)
  {
    && i <= |es|
    && OwnProperties(es)
    && list.Valid()
    && list.entities == Survivors(es[..i]) + es[i..]
    && (forall j | 0 <= j < |es| :: es[j].released == (es[j] in rel0 || (j < i && es[j].deleted)))
    && (forall j | 0 <= j < |es| ::
          es[j].properties.released == (es[j] in prel0 || (j < i && es[j].deleted && es[j].parent.NodeRef?)))
  }

  /** One step of the reap pass: visit es[i]. */
  method ReapStep(list: EntityList, es: seq<Entity>, i: nat, e: Entity, ghost rel0: set<Entity>, ghost prel0: set<Entity>)
    requires i < |es| && es[i] == e
    requires Reaped(list, es, i, rel0, prel0)
    modifies list`entities, e`released, e.properties`released
    ensures Reaped(list, es, i + 1, rel0, prel0)
  {
    SurvivorsSnoc(es, i);
    SurvivorsMembers(es[..i]);
    assert es[i..] == [e] + es[i + 1..];
    ReapOne(list, e, Survivors(es[..i]), es[i + 1..]);
  }

  /** The second loop of LE_UpdateEntities (entity.c:231-236): destroy every
      tombstoned entity, in list order. Exactly the tombstoned entities are
      freed, and exactly the unlinked ones lose their property lists. */
  method ReapPass(list: EntityList)
    requires list.Valid() && OwnProperties(list.entities)
    modifies list`entities, list.entities`released, PropertyLists(list.entities)`released
    ensures list.Valid()
    ensures list.entities == Survivors(old(list.entities))
    ensures forall e | e in old(list.entities) :: e.released == (old(e.released) || e.deleted)
    ensures forall e | e in old(list.entities) ::
      e.properties.released == (old(e.properties.released) || (e.deleted && e.parent.NodeRef?))
  {
    var es := list.entities;
    ghost var rel0 := ReleasedIn(es);
    ghost var prel0 := PropertiesReleasedIn(es);
    assert es[..0] == [] && es[0..] == es;
    var i := 0;
    while i < |es|
      invariant Reaped(list, es, i, rel0, prel0)
    {
      ReapStep(list, es, i, es[i], rel0, prel0);
      i := i + 1;
    }
    assert es[..i] == es;
  }

  /** LE_UpdateEntities: the update pass runs to completion before the reap
      pass starts. Afterwards the list holds, in their old order, the
      entities not tombstoned and the tombstoned ones that were moved
      between lists (freed but still linked, with their properties); when
      no entity of the list was moved, no tombstoned entity is left. */
  method UpdateEntities(list: EntityList, physics: Physics, tombstones: Tombstoner) returns (calls: seq<UpdateCall>)
    requires list.Valid() && OwnProperties(list.entities)
    requires forall k | k in Targets(list.entities, tombstones) :: allocated(k)
    modifies list`entities, list.entities`pos, list.entities`vel, list.entities`prevPos
    modifies list.entities`released, PropertyLists(list.entities)`released
    modifies Targets(list.entities, tombstones)`deleted
    ensures list.Valid()
    ensures var es, dead0 := old(list.entities), old(DeadIn(list.entities));
      var live := Lives(es, dead0, tombstones);
      && calls == PassCalls(es, old(UpdateCallbackLists(es)), live, |es|)
      && PassState(es, dead0, Tombstoned(es, |es|, dead0, tombstones))
    ensures var es, dead0 := old(list.entities), old(DeadIn(list.entities));
      forall k | k in Targets(es, tombstones) ::
        k.deleted == (old(k.deleted) || k in Tombstoned(es, |es|, dead0, tombstones))
    ensures var es, dead0 := old(list.entities), old(DeadIn(list.entities));
      var live := Lives(es, dead0, tombstones);
      forall j | 0 <= j < |es| ::
        MotionOf(es[j]) == if live[j] then Advance(es[j], old(MotionOf(es[j])), physics) else old(MotionOf(es[j]))
    ensures list.entities == Survivors(old(list.entities))
    ensures forall e | e in old(list.entities) :: e.released == (old(e.released) || e.deleted)
    ensures forall e | e in old(list.entities) ::
      e.properties.released == (old(e.properties.released) || (e.deleted && e.parent.NodeRef?))
    ensures (forall e | e in old(list.entities) :: e.parent.NodeRef?) ==>
      forall e | e in list.entities :: !e.deleted
  {
    ghost var es := list.entities;
    calls := UpdatePass(list, physics, tombstones);
    ReapPass(list);
    SurvivorsMembers(es);
  }

  /** The first texture a texture callback provides, asking the callbacks in
      registration order. */
  function FirstTexture(cbs: seq<TextureCallback>, e: Entity, provide: TextureProvider): (r: Option<Sprite>)
    ensures r.None? <==> forall i | 0 <= i < |cbs| :: provide(cbs[i], e).None?
    ensures r.Some? ==> exists i | 0 <= i < |cbs| ::
      provide(cbs[i], e) == r && forall j | 0 <= j < i :: provide(cbs[j], e).None?
  {
    if cbs == [] then None
    else if provide(cbs[0], e).Some? then provide(cbs[0], e)
    else
      var r := FirstTexture(cbs[1..], e, provide);
      assert forall i | 1 <= i < |cbs| :: cbs[i] == cbs[1..][i - 1];
      r
  }

  /** The texture-callback loop of LE_DrawEntity (entity.c:268-272): stop at
      the first callback that returns a texture. */
  method SelectTexture(e: Entity, provide: TextureProvider) returns (texture: Option<Sprite>)
    ensures texture == FirstTexture(e.textureCallbacks.items, e, provide)
  {
    var cbs := e.textureCallbacks.items;
    var i := 0;
    while i < |cbs|
      invariant 0 <= i <= |cbs|
      invariant FirstTexture(cbs[i..], e, provide) == FirstTexture(cbs, e, provide)
    {
      assert cbs[i..][0] == cbs[i] && cbs[i..][1..] == cbs[i + 1..];
      texture := provide(cbs[i], e);
      if texture.Some? {
        return;
      }
      i := i + 1;
    }
    texture := None;
  }

  /** What drawing an entity appends to the draw list: nothing for a
      tombstoned entity or when no callback provides a texture, otherwise
      the first provided sprite. */
  ghost function EntityDraws(e: Entity, provide: TextureProvider): seq<DrawCommand>
    reads e`deleted, e.textureCallbacks`items
  {
    if e.deleted then []
    else match FirstTexture(e.textureCallbacks.items, e, provide)
      case Some(s) => [SpriteDraw(s)]
      case None => []
  }

  /** LE_DrawEntity, without the screen geometry. */
  method DrawEntity(e: Entity, provide: TextureProvider, dl: DrawList)
    modifies dl
    ensures dl.commands == old(dl.commands) + EntityDraws(e, provide)
  {
    if e.deleted {
      return;
    }
    var texture := SelectTexture(e, provide);
    if texture.None? {
      return;
    }
    dl.Append(SpriteDraw(texture.value));
  }

  /** LE_EntityGetList: the list an entity belongs to, however it reaches it. */
  method EntityGetList(ghost owner: EntityList, e: Entity) returns (list: EntityList)
    requires owner.Valid() && e in owner.entities
    ensures list == owner
  {
    list := e.parent.list;
  }

  /** Entity-list iterators, as positions in the list. LE_EntityListGetIter:
      the first entity, or none for an empty list. */
  function GetIter(list: EntityList): (it: Option<nat>)
    reads list
    ensures it.None? <==> list.entities == []
    ensures it.Some? ==> it.value < |list.entities| && Prev(list, it.value).None?
  {
    if list.entities == [] then None else Some(0)
  }

  /** LE_EntityListNext: the following entity, or none after the last. */
  function Next(list: EntityList, it: nat): (r: Option<nat>)
    reads list
    requires it < |list.entities|
    ensures r.None? <==> it == |list.entities| - 1
    ensures r.Some? ==> r.value < |list.entities| && Prev(list, r.value) == Some(it)
  {
    if it + 1 < |list.entities| then Some(it + 1) else None
  }

  /** LE_EntityListPrev: the preceding entity, or none before the first. */
  function Prev(list: EntityList, it: nat): Option<nat>
    reads list
    requires it < |list.entities|
  {
    if it == 0 then None else Some(it - 1)
  }

  /** LE_EntityListGet: the entity under an iterator. */
  function EntityAt(list: EntityList, it: nat): (e: Entity)
    reads list
    requires it < |list.entities|
    ensures e in list.entities
  {
    list.entities[it]
  }
}

# lunar-engine entities and layers in Dafny

A model of the bookkeeping core of lunar-engine's `entity.c` and `layer.c`:

- the **property table** every entity and entity builder owns (an ordered
  name/value list with unique names, edited by insert-or-overwrite and by
  delete);
- the **entity builder**, a write-only template (scalar setters, flag bit
  operations, three callback lists, properties);
- **entities and entity lists**: creation from a builder, list transfer,
  tombstoning, destruction, the two-phase update (an update pass whose
  callbacks may tombstone any entity, then a reap pass that destroys every
  tombstoned entity), texture selection for drawing and the list iterators;
- the **layer list**: tilemap, entity and custom layers in index order, the
  camera kept in the list head, creation with defaults, lookup by index,
  index of a layer, moving, destroying, the copy of current into previous
  values, drawing back to front, and the priority sort of the entity layer.

Every C linked list becomes a `seq` field of a class (the list primitive's
append is `+ [x]`, its remove-by-value is `Basics.RemoveValue`), and the data
the C code keeps in a list's head node becomes fields of the list class
(`EntityList.tilemap`, `LayerList.cam`, `LayerList.prevCam`). Floats are
only copied by the modelled code, so `Basics.Float` keeps their bit pattern.
Callbacks are known by identity: what the update callbacks of an entity
tombstone is the parameter `tombstones`, what a texture callback returns is
the parameter `provide`, integration with collision is the parameter
`physics` (a function of the entity, its position and its velocity), and whether a tilemap has a tileset is the parameter
`hasTileset`. Freeing memory is the `released` flag of the freed object.
Callback invocations are returned as traces (`UpdateCall`, `CollisionCall`);
drawing appends `DrawCommand`s to a `DrawList`.

The variable-length array the entity-layer draw fills is a Dafny array of
the list's length. Each entity allocates its own property list
(entity.c:144), so no two entities of a list share one
(`Entities.OwnProperties`); the reap contracts rely on it.

Files: `basics.dfy` (shared values, the draw list, remove-by-value),
`properties.dfy` (the property table), `entity.dfy` (builders, entities,
entity lists), `layer.dfy` (layers, layer lists, drawing).

The model follows the code in these places:

- the entity-layer draw uses `qsort`, which is not stable, so only "ordered
  by draw priority and a permutation" is stated, not stability;
- `LE_MoveLayer` never advances its insertion point (layer.c:82-84), so the
  layer always becomes the first one, whatever the index;
- `LE_LayerGetByIndex` with an index equal to the number of layers
  dereferences a null node instead of returning null, so that index is a
  precondition;
- `LE_EntityGetPropertyKey` takes whatever `LE_LL_Get` returns for the
  index (entity.c:206), so an index outside the property table reads a
  node that is not there; the index is required to be in range;
- an entity moved with `LE_EntityChangeLists` stores the list head as its
  parent (entity.c:212), so when it is later destroyed the sentinel test at
  entity.c:293 holds: it is freed but stays linked and keeps its
  properties. `Entities.ParentRef` (`NodeRef` / `HeadRef`) makes this
  visible, and the destruction and reap contracts state it.

## Model

| member | source | states |
|---|---|---|
| Properties.IndexOf | entity.c:49-56 | the scan finds a position exactly when some entry has the name, and that position is the first entry with it |
| Properties.PropertyList.constructor | entity.c:144 | a new property list is empty and has unique names |
| Properties.PropertyList.Set | entity.c:48-61 | the scan-then-overwrite-or-append loop leaves exactly `Put` of the old table and keeps names unique |
| Properties.PutIsInsertOrOverwrite | entity.c:48-61 | an existing name keeps its place, the length and the name order stay, only its value changes; a new name becomes exactly one entry at the end |
| Properties.PutKeepsUnique | entity.c:48-61 | setting a property never creates a duplicate name |
| Properties.LookupPut | entity.c:48-61 | after setting a name, looking it up gives the new value and every other lookup is unchanged |
| Properties.PutIdempotent | entity.c:48-61 | setting the same name to the same value twice is the same as once |
| Properties.RemoveKeepsOrder | entity.c:170-182 | deleting a name removes exactly that name from the name order, and an absent name leaves the table unchanged |
| Properties.RemoveKeepsUnique | entity.c:170-182 | deleting keeps names unique |
| Properties.LookupRemove | entity.c:170-182 | after deleting a name it is not found, and every other lookup is unchanged |
| Properties.PutNextEntry | entity.c:146-150 | copying a table entry by entry with insert-or-overwrite rebuilds its prefix exactly |
| Entities.AppendedFlags | entity.c:99-101 | OR-ing flags sets every bit of the argument and keeps every other bit |
| Entities.AppendedFlagsIdempotent | entity.c:99-101 | appending the same flags twice is the same as once |
| Entities.ClearedFlags | entity.c:103-105 | AND-NOT clears every bit of the argument and keeps every other bit |
| Entities.EntityBuilder.constructor | entity.c:63-71 | a new builder has zero scalars and four new empty lists |
| Entities.EntityBuilder.AddTextureCallback | entity.c:73-75 | the callback is appended at the end of the texture callbacks |
| Entities.EntityBuilder.AddUpdateCallback | entity.c:77-79 | the callback is appended at the end of the update callbacks |
| Entities.EntityBuilder.AddCollisionCallback | entity.c:81-83 | the callback is appended at the end of the collision callbacks |
| Entities.EntityBuilder.SetHitboxSize | entity.c:85-89 | width and height are overwritten, nothing else changes |
| Entities.EntityBuilder.SetFlags | entity.c:91-93 | the flags are overwritten |
| Entities.EntityBuilder.SetDrawPriority | entity.c:95-97 | the default draw priority is overwritten |
| Entities.EntityBuilder.AppendFlags | entity.c:99-101 | the flags become the appended flags of the old ones |
| Entities.EntityBuilder.ClearFlags | entity.c:103-105 | the flags become the cleared flags of the old ones |
| Entities.EntityBuilder.SetProperty | entity.c:107-109 | insert-or-overwrite on the builder's table, names stay unique |
| Entities.EntityList.constructor | entity.c:120-126 | a new entity list is empty with no tilemap |
| Entities.EntityList.AssignTilemap | entity.c:162-164 | the list's tilemap link is overwritten |
| Entities.EntityList.NumEntities | entity.c:312-314 | the count is the number of entities in the list |
| Entities.Entity.constructor | entity.c:129-144 | position (x, y), zero velocity, not deleted, no platform, scalars from the builder, the builder's own callback lists, a new empty property list, parent through its own node |
| Entities.CreateEntity | entity.c:128-152 | the new entity is appended at the tail, its fields are initialised from the builder, it shares the builder's callback lists, and its property list is new storage holding the builder's entries in order |
| Entities.Entity.SetProperty | entity.c:166-168 | insert-or-overwrite on the entity's own table, names stay unique |
| Entities.Entity.DelProperty | entity.c:170-182 | the table becomes `Remove` of the old one (only the named entry goes) and names stay unique |
| Entities.Entity.GetProperty | entity.c:184-194 | found exactly when the name is present; then the result is its value, otherwise the caller's slot is left as it was |
| Entities.Entity.GetPropertyOrDefault | entity.c:200-203 | the stored value when the name is present, the default otherwise |
| Entities.Entity.NumProperties | entity.c:196-198 | the count is the table's length |
| Entities.Entity.GetPropertyKey | entity.c:205-207 | the name at a position is present and the scan for it finds that same position |
| Entities.ChangeLists | entity.c:209-213 | the entity leaves its old list (others keep their order), is appended at the tail of the destination, reaches it through the head node, and both lists stay valid |
| Entities.DeleteEntity | entity.c:287-289 | the entity is tombstoned |
| Entities.DestroyEntity | entity.c:291-298 | the entity is freed; when it reaches its list through its own node its properties are freed and it is unlinked, otherwise the list and its properties are untouched |
| Entities.EntityCollision | entity.c:215-222 | each collision callback is called once, in registration order, with both entities |
| Entities.UpdateEntity | entity.c:239-253 | a tombstoned entity runs no callback and keeps its motion; a live one runs its update callbacks in order, tombstones what they tombstone, saves its position as the previous one and moves by integration and collision of that entity (for callbacks that leave motion alone) |
| Entities.UpdatePass | entity.c:227-230 | the callbacks run are those of each entity still live when reached, in list order; afterwards exactly the entities tombstoned before or by a callback are tombstoned, every entity a callback could reach is tombstoned exactly when it was before or a callback that ran tombstoned it, and, for callbacks that leave motion alone, each entity live when reached saves its position and moves by one integration step of its own while every other entity keeps its motion |
| Entities.SurvivorsMembers | entity.c:231-236 | the reap pass keeps exactly the entities that are not tombstoned or that reach their list through the head node |
| Entities.SurvivorsAppend | entity.c:231-236 | the reap pass keeps the relative order of what it keeps |
| Entities.ReapOne | entity.c:233-235 | one reap step destroys the entity exactly when it is tombstoned, with the list effect of destruction |
| Entities.ReapPass | entity.c:231-236 | the list becomes the survivors in their old order, exactly the tombstoned entities are freed, and an entity's property list is freed exactly when the entity is tombstoned and reaches its list through its own node; no other property list is touched |
| Entities.UpdateEntities | entity.c:224-237 | the update pass completes before the reap pass: the callback trace, the tombstones and the motion of every entity are those of the update pass, the list holds the survivors in order, exactly the tombstoned entities are freed, exactly the unlinked ones lose their property lists, and when no entity was moved between lists no tombstoned entity remains |
| Entities.FirstTexture | entity.c:268-272 | no texture exactly when every callback returns none; otherwise the texture of the first callback, in order, that returns one |
| Entities.SelectTexture | entity.c:268-272 | the short-circuit loop returns the first texture provided |
| Entities.DrawEntity | entity.c:260-279 | a tombstoned entity or one without a texture appends nothing; otherwise exactly one sprite, the first provided |
| Entities.EntityGetList | entity.c:316-318 | the list an entity belongs to, whether it reaches it through its node or the head |
| Entities.GetIter | entity.c:324-326 | no iterator exactly for an empty list, otherwise the first entity, which has no predecessor |
| Entities.Next | entity.c:328-330 | none exactly after the last entity; otherwise the following one, whose predecessor is the current one |
| Entities.EntityAt | entity.c:338-340 | the entity under an iterator belongs to the list |
| Layers.CustomLayer.constructor | layer.c:60-62 | the payload holds the callback and its parameters |
| Layers.Layer.constructor | layer.c:41-47 | scroll offset 0, scroll speed 1 and scale 1 on both axes, the given payload and parent |
| Layers.LayerList.constructor | layer.c:32-38 | a new layer list is empty with the camera at the origin |
| Layers.LayerList.NumLayers | layer.c:231-233 | the count is the number of layers |
| Layers.LayerList.ScrollCamera | layer.c:103-107 | the camera is set to (x, y) |
| Layers.LayerList.GetCameraPos | layer.c:109-113 | the camera position is read back |
| Layers.CameraRoundTrip | layer.c:32-38 | a new list's camera reads as the origin, and after scrolling it reads as what was scrolled to |
| Layers.MakeLayer | layer.c:40-49 | one new layer with the defaults, the given payload and this list as parent is appended at the tail |
| Layers.AddTilemapLayer | layer.c:51-53 | a tilemap layer for the given tilemap is appended, with this list as parent, scroll offset 0, scroll speed 1 and scale 1, not freed |
| Layers.AddEntityLayer | layer.c:55-57 | an entity layer for the given entity list is appended, with this list as parent, scroll offset 0, scroll speed 1 and scale 1, not freed |
| Layers.AddCustomLayer | layer.c:59-64 | a custom layer with a new payload holding the callback and parameters is appended, with this list as parent, scroll offset 0, scroll speed 1 and scale 1, not freed |
| Layers.GetByIndex | layer.c:66-74 | a negative index gives none, an index below the count gives the layer there, an index above the count gives none |
| Layers.Position | layer.c:92-101 | the position of the first occurrence of a layer |
| Layers.IndexOfLayer | layer.c:92-101 | counting back to the head gives the layer's position, and the layer is at that index |
| Layers.PositionAt | layer.c:92-101 | in a list without duplicates the layer at index i is at position i, so looking up the index of a layer found by index gives that index back |
| Layers.MovedIsPermutation | layer.c:76-90 | moving a layer only reorders the list |
| Layers.MovedKeepsOrder | layer.c:76-90 | the moved layer comes first and the others keep their relative order |
| Layers.MovedDistinct | layer.c:76-90 | moving keeps the list free of duplicates and adds nothing |
| Layers.MoveLayer | layer.c:76-90 | for every index, the list becomes the moved layer followed by the others in their old order, and stays valid |
| Layers.UpdateLayerList | layer.c:123-136 | the previous camera equals the camera and every layer's previous scale, scroll speed and scroll offset equal the current ones; only those fields change |
| Layers.DisposeLayer | layer.c:215-219 | the layer is freed, and its payload when it is a custom layer's |
| Layers.DestroyLayer | layer.c:221-225 | the layer is unlinked (the count drops by one, the others keep their order) and disposed of |
| Layers.ComparePriority | layer.c:144-146 | negative, zero or positive exactly when the left priority is below, equal to or above the right one |
| Layers.Insert | layer.c:198 | one insertion step extends the sorted prefix by one, permuting the array |
| Layers.SortByPriority | layer.c:198 | the array ends up ordered by draw priority and is a permutation of what it held |
| Layers.Snapshot | layer.c:193-197 | walking the list with its iterators collects every entity, in list order |
| Layers.DrawNext | layer.c:199-206 | drawing the next entity appends what drawing that entity appends |
| Layers.DrawEntities | layer.c:199-206 | drawing the array appends each entity's commands in array order |
| Layers.EntitiesDrawsSnoc | layer.c:199-206 | drawing one more entity appends exactly its own commands |
| Layers.EntitiesDrawsAtMostOne | layer.c:199-206 | drawing an entity layer appends at most one command per entity |
| Layers.DrawEntityLayer | layer.c:189-207 | the entities drawn are a permutation of the list's entities, tombstoned ones included, ordered by draw priority, and the draw list gains each one's commands in that order |
| Layers.DrawSingleLayer | layer.c:148-213 | the draw list gains exactly the layer's commands: a tilemap layer's tilemap exactly when it has a tileset, an entity layer's entities in an order that is a permutation sorted by priority, a custom layer's one callback call with its parameters |
| Layers.LayersDrawnEach | layer.c:138-142 | a record of layers drawn in order gives, for each of them, the commands it appended |
| Layers.LayersDrawnSnoc | layer.c:138-142 | drawing one more layer extends the record by that layer's commands |
| Layers.ConcatSnoc | layer.c:138-142 | the draw list's growth over several layers is their command lists in order |
| Layers.DrawNextLayer | layer.c:139-141 | one round of the loop draws the layer and records it after the ones already drawn |
| Layers.Draw | layer.c:138-142 | the layers are drawn from the last index down to 0, each once, and the draw list gains, in that order, exactly the commands each layer appends; an empty layer list draws nothing |

## Left out

- Float arithmetic: position integration, the draw-origin and size math with its truncation to int, and all interpolation and visible-window computation; floats are only copied, and the screen geometry of a draw command is not recorded.
- Collision (`LE_RunCollisionX/Y`): integration with collision is the parameter `physics`, which receives the entity; it is a fixed function of the entity's identity, so a hitbox or tilemap changed between updates is not seen by it.
- Entities.UpdateEntity, Entities.UpdatePass and Entities.UpdateEntities: update callbacks only tombstone entities in the model; their writes to the position, velocity, flags or properties of any entity are not modelled, so the motion clauses (previous position, one integration step, unchanged motion of the others) hold only for callbacks that leave motion alone.
- The bodies of update, texture, collision and custom-layer callbacks: they are known by identity; their effects are parameters (`tombstones`, `provide`) or recorded calls.
- Tilemap and tileset queries, including the tile-size lookup, and `LE_DrawPartialTilemap`: a tilemap layer's draw is one `TilemapDraw` command, and whether a tileset exists is the parameter `hasTileset`.
- `linked_list.h` is not part of this model: its operations are taken as append at the tail, remove the first node holding a value, get by index and size.
- Memory management: `malloc`, `free`, `strdup`, `LE_LL_DeepFree`, `LE_DestroyEntityBuilder`, `LE_DestroyEntityInner`, `LE_DestroyEntityList` and `LE_DestroyLayerList` are left out; freeing is the `released` flag, and use after free is not detected.
- Simple accessors: `LE_EntityGetPlatform`, `LE_EntitySetPlatform`, `LE_EntityGetTilemap`, `LE_EntityGetPrevPosition`, `LE_EntityLastDrawnPos`, the layer type and payload getters and the layer-list iterators; `LE_EntityListPrev` is the function `Entities.Prev` and has no contract of its own.
- The last-drawn position of an entity, which only the float geometry sets.
- The previous-position, previous-camera and previous-scale/scroll fields are left unset at creation, as in the C code, so nothing is assumed about them before the first update.
- `LE_GetCameraPos` lets either output argument be null; the model always returns both coordinates.
- Entities.ChangeLists: `LE_EntityChangeLists` starts its list removal at the entity's own node (entity.c:210), while every other removal starts at the list head (entity.c:176, entity.c:295, layer.c:222-223). `linked_list.h` is not part of this model, so the model takes it that this removal unlinks the entity from its old list.
- Entities.CreateEntity: the parent link is taken to be the new node that `LE_LL_Add` returns (entity.c:145), which `linked_list.h` would have to confirm.
- Layers.MakeLayer: the parent link is taken to be the new node that `LE_LL_Add` returns (layer.c:47), for the same reason.
- Entities.Entity.GetProperty: the output argument is always present; the null check on it (entity.c:189) is not modelled.
- Layers.SortByPriority: `qsort` is modelled by an insertion sort; its comparison order is not modelled, only its outcome, and the priorities must be subtractable without overflowing an int, as the comparator needs.

/** The named-property table that every entity and every entity builder
    owns: an ordered list of (name, value) pairs in which a name occurs at
    most once. The functions here are the specification; PropertyList is
    the mutable list that entity.c walks and edits in place. */
module Properties {
  import opened Basics

  /** An engine property value (LE_EntityProperty). It is copied by bytes
      and never interpreted, so the model keeps its raw bytes. */
  datatype PropertyValue = PropertyValue(raw: seq<bv8>)

  datatype Property = Property(name: string, value: PropertyValue)

  predicate HasName(t: seq<Property>, name: string) {
    exists i | 0 <= i < |t| :: t[i].name == name
  }

  /** The table invariant: no name occurs twice. */
  predicate UniqueNames(t: seq<Property>) {
    forall i, j | 0 <= i < j < |t| :: t[i].name != t[j].name
  }

  /** The names of the table, in table order. */
  function Names(t: seq<Property>): seq<string> {
    seq(|t|, i requires 0 <= i < |t| => t[i].name)
  }

  /** The position of the first entry called `name`, as the linear scans of
      entity.c find it. */
  function IndexOf(t: seq<Property>, name: string): (r: Option<nat>)
    ensures r.None? <==> !HasName(t, name)
    ensures r.Some? ==> r.value < |t| && t[r.value].name == name
    ensures r.Some? ==> forall j | 0 <= j < r.value :: t[j].name != name
  {
    if t == [] then None
    else if t[0].name == name then Some(0)
    else
      match IndexOf(t[1..], name)
      case None =>
        assert forall j | 1 <= j < |t| :: t[j] == t[1..][j - 1];
        None
      case Some(k) =>
        assert t[k + 1] == t[1..][k];
        assert forall j | 1 <= j <= k :: t[j] == t[1..][j - 1];
        Some(k + 1)
  }

  /** The value stored under `name`, if any. */
  function Lookup(t: seq<Property>, name: string): Option<PropertyValue> {
    match IndexOf(t, name)
    case Some(i) => Some(t[i].value)
    case None => None
  }

  /** Insert-or-overwrite: the effect of setting a property. */
  function Put(t: seq<Property>, name: string, v: PropertyValue): seq<Property> {
    match IndexOf(t, name)
    case Some(i) => t[i := Property(name, v)]
    case None => t + [Property(name, v)]
  }

  /** The effect of deleting a property: the entry called `name` goes, the
      rest stays in order. */
  function Remove(t: seq<Property>, name: string): seq<Property> {
    match IndexOf(t, name)
    case Some(i) => DropAt(t, i)
    case None => t
  }

  /** IndexOf looks only at names. */
  lemma {:induction false} IndexOfSameNames(t: seq<Property>, u: seq<Property>, name: string)
    requires |t| == |u|
    requires forall i | 0 <= i < |t| :: t[i].name == u[i].name
    ensures IndexOf(t, name) == IndexOf(u, name)
  {
    if t != [] && t[0].name != name {
      IndexOfSameNames(t[1..], u[1..], name);
    }
  }

  /** Looking a name up in a table that grew by one entry at the end. */
  lemma {:induction false} IndexOfAppend(t: seq<Property>, p: Property, name: string)
    ensures IndexOf(t + [p], name) ==
      if HasName(t, name) then IndexOf(t, name)
      else if p.name == name then Some(|t|)
      else None
  {
    if t != [] {
      assert (t + [p])[1..] == t[1..] + [p];
      if t[0].name != name {
        IndexOfAppend(t[1..], p, name);
        assert HasName(t, name) <==> HasName(t[1..], name) by {
          if HasName(t, name) {
            var i :| 0 <= i < |t| && t[i].name == name;
            assert t[1..][i - 1].name == name;
          }
          if HasName(t[1..], name) {
            var i :| 0 <= i < |t[1..]| && t[1..][i].name == name;
            assert t[i + 1].name == name;
          }
        }
      }
    }
  }

  /** Setting a property is insert-or-overwrite (entity.c:48-61): an existing
      entry keeps its place and only its value changes; a new name is added
      as exactly one entry at the end. */
  lemma PutIsInsertOrOverwrite(t: seq<Property>, name: string, v: PropertyValue)
    requires UniqueNames(t)
    ensures HasName(t, name) ==>
      && |Put(t, name, v)| == |t|
      && Names(Put(t, name, v)) == Names(t)
      && forall i | 0 <= i < |t| ::
           Put(t, name, v)[i] == if t[i].name == name then Property(name, v) else t[i]
    ensures !HasName(t, name) ==> Put(t, name, v) == t + [Property(name, v)]
  {
  }

  /** Setting a property never creates a duplicate name. */
  lemma PutKeepsUnique(t: seq<Property>, name: string, v: PropertyValue)
    requires UniqueNames(t)
    ensures UniqueNames(Put(t, name, v))
  {
  }

  /** After setting `name` to v, looking `name` up gives v and every other
      lookup is as before. */
  lemma LookupPut(t: seq<Property>, name: string, v: PropertyValue, other: string)
    ensures Lookup(Put(t, name, v), name) == Some(v)
    ensures other != name ==> Lookup(Put(t, name, v), other) == Lookup(t, other)
  {
    var r := Put(t, name, v);
    match IndexOf(t, name)
    case Some(i) =>
      IndexOfSameNames(t, r, name);
      IndexOfSameNames(t, r, other);
    case None =>
      IndexOfAppend(t, Property(name, v), name);
      IndexOfAppend(t, Property(name, v), other);
  }

  /** Repeating the same set changes nothing: one entry, the latest value. */
  lemma PutIdempotent(t: seq<Property>, name: string, v: PropertyValue)
    ensures Put(Put(t, name, v), name, v) == Put(t, name, v)
  {
    var r := Put(t, name, v);
    match IndexOf(t, name)
    case Some(i) =>
      IndexOfSameNames(t, r, name);
    case None =>
      IndexOfAppend(t, Property(name, v), name);
  }

  /** Deleting a property (entity.c:170-182) keeps the other names in their
      order, and changes nothing when the name is absent. */
  lemma RemoveKeepsOrder(t: seq<Property>, name: string)
    ensures Names(Remove(t, name)) == RemoveValue(Names(t), name)
    ensures !HasName(t, name) ==> Remove(t, name) == t
  {
    var n := Names(t);
    match IndexOf(t, name)
    case Some(i) =>
      var r := DropAt(t, i);
      assert n == n[..i] + [name] + n[i + 1..];
      assert name !in n[..i];
      RemoveValueSplit(n[..i], name, n[i + 1..]);
      assert Names(r) == n[..i] + n[i + 1..];
    case None =>
      assert name !in n;
  }

  /** Deleting a property never creates a duplicate name. */
  lemma RemoveKeepsUnique(t: seq<Property>, name: string)
    requires UniqueNames(t)
    ensures UniqueNames(Remove(t, name))
  {
  }

  /** After deleting `name` it is gone, and every other lookup is as before. */
  lemma LookupRemove(t: seq<Property>, name: string, other: string)
    requires UniqueNames(t)
    ensures Lookup(Remove(t, name), name) == None
    ensures other != name ==> Lookup(Remove(t, name), other) == Lookup(t, other)
  {
    var r := Remove(t, name);
    match IndexOf(t, name)
    case Some(i) =>
      assert !HasName(r, name);
      if other != name {
        match IndexOf(t, other)
        case None =>
        case Some(j) =>
          if j < i {
            assert r[j].name == other;
          } else {
            assert r[j - 1].name == other;
          }
      }
    case None =>
  }

  /** Copying a table entry by entry with Put, as entity creation does,
      rebuilds it exactly: the next entry always has a fresh name. */
  lemma PutNextEntry(t: seq<Property>, i: nat)
    requires UniqueNames(t)
    requires i < |t|
    ensures Put(t[..i], t[i].name, t[i].value) == t[..i + 1]
  {
    assert !HasName(t[..i], t[i].name);
    assert t[..i + 1] == t[..i] + [t[i]];
  }

  /** The mutable property list (a DEFINE_LIST of name/value pairs). The
      `released` flag stands for the list having been freed. */
  class PropertyList {
    var entries: seq<Property>
    var released: bool

    ghost predicate Valid()
      reads this
    {
      UniqueNames(entries)
    }

    /** LE_LL_Create: an empty list. */
    constructor ()
      ensures Valid() && entries == [] && !released
    {
      entries := [];
      released := false;
    }

    /** _LE_AddPropertyToList (entity.c:48-61): scan for `name`; overwrite
        its value in place when found, otherwise append a new entry. */
    method Set(value: PropertyValue, name: string)
      requires Valid()
      modifies this`entries
      ensures Valid()
      ensures entries == Put(old(entries), name, value)
    {
      PutKeepsUnique(entries, name, value);
      var i := 0;
      while i < |entries|
        invariant 0 <= i <= |entries|
        invariant entries == old(entries)
        invariant forall j | 0 <= j < i :: entries[j].name != name
      {
        if entries[i].name == name {
          entries := entries[i := Property(name, value)];
          return;
        }
        i := i + 1;
      }
      entries := entries + [Property(name, value)];
    }
  }
}

/** Values shared by the entity and layer modules: floats that are only
    copied, C integers, the draw sink, and the list primitive's
    remove-by-value operation. */
module Basics {

  datatype Option<T> = None | Some(value: T)

  /** A C `float`, kept as its IEEE-754 bit pattern. The modelled code only
      copies floats (the arithmetic on them is outside the model), so equality
      of bit patterns is exactly what matters. */
  datatype Float = Float(bits: bv32)

  /** 0.0f and 1.0f. */
  const Zero: Float := Float(0)
  const One: Float := Float(0x3F80_0000)

  datatype Vec2 = Vec2(x: Float, y: Float)

  const Origin: Vec2 := Vec2(Zero, Zero)

  /** A C `int`. */
  newtype int32 = x: int | -0x8000_0000 <= x < 0x8000_0000

  predicate InInt32(x: int) {
    -0x8000_0000 <= x < 0x8000_0000
  }

  /** Opaque handles owned by collaborators outside the model. */
  datatype TextureHandle = TextureHandle(id: nat)
  datatype TilemapRef = TilemapRef(id: nat)
  datatype CustomCallback = CustomCallback(id: nat)
  datatype ParamsRef = ParamsRef(id: nat)

  /** What a texture callback hands back when it provides a texture: the
      handle, the intrinsic size (negative means flipped) and the source
      rectangle in the atlas. */
  datatype Sprite = Sprite(texture: TextureHandle, width: Float, height: Float,
                           srcX: int32, srcY: int32, srcW: int32, srcH: int32)

  /** One primitive appended to the draw list. Only the sprite form is
      appended by the modelled code itself; the other two stand for the
      effect of the external tilemap renderer and of a custom layer's
      callback. Screen geometry is float arithmetic and is not recorded. */
  datatype DrawCommand =
    | SpriteDraw(sprite: Sprite)
    | TilemapDraw(tilemap: TilemapRef)
    | CustomDraw(callback: CustomCallback, params: ParamsRef)

  /** The draw sink (LE_DrawList): commands in the order they were appended. */
  class DrawList {
    var commands: seq<DrawCommand>

    constructor ()
      ensures commands == []
    {
      commands := [];
    }

    method Append(c: DrawCommand)
      modifies this
      ensures commands == old(commands) + [c]
    {
      commands := commands + [c];
    }
  }

  predicate Distinct<T(==)>(s: seq<T>) {
    forall i, j | 0 <= i < j < |s| :: s[i] != s[j]
  }

  /** s without its element at position i. */
  function DropAt<T>(s: seq<T>, i: nat): (r: seq<T>)
    requires i < |s|
    ensures |r| == |s| - 1
    ensures forall k | 0 <= k < |r| :: r[k] == s[if k < i then k else k + 1]
  {
    s[..i] + s[i + 1..]
  }

  /** The list primitive's remove-by-value: drops the first node holding x,
      and leaves the list alone when there is none. */
  function RemoveValue<T(==)>(s: seq<T>, x: T): (r: seq<T>)
    ensures x !in s ==> r == s
    ensures x in s ==> |r| == |s| - 1
  {
    if s == [] then []
    else
      assert s == [s[0]] + s[1..];
      if s[0] == x then s[1..] else [s[0]] + RemoveValue(s[1..], x)
  }

  /** Removing x keeps everything before and after it, in order. */
  lemma {:induction false} RemoveValueSplit<T>(a: seq<T>, x: T, b: seq<T>)
    requires x !in a
    ensures RemoveValue(a + [x] + b, x) == a + b
  {
    var s := a + [x] + b;
    if a == [] {
      assert s[0] == x && s[1..] == b;
    } else {
      assert s[0] == a[0] != x;
      assert s[1..] == a[1..] + [x] + b;
      RemoveValueSplit(a[1..], x, b);
      assert a == [a[0]] + a[1..];
    }
  }

  /** Removing by value takes exactly one copy of x out of the multiset of
      elements, and nothing else. */
  lemma {:induction false} RemoveValueMultiset<T>(s: seq<T>, x: T)
    ensures multiset(RemoveValue(s, x)) == multiset(s) - multiset{x}
  {
    if s != [] {
      assert s == [s[0]] + s[1..];
      if s[0] != x {
        RemoveValueMultiset(s[1..], x);
      }
    }
  }

  /** Dropping position i of a list without duplicates drops exactly the
      element there. */
  lemma DropAtDistinct<T>(s: seq<T>, i: nat)
    requires i < |s| && Distinct(s)
    ensures Distinct(DropAt(s, i))
    ensures s[i] !in DropAt(s, i)
    ensures forall y | y in DropAt(s, i) :: y in s
  {
  }

  /** Dropping position i keeps every other element. */
  lemma DropAtKeeps<T>(s: seq<T>, i: nat)
    requires i < |s|
    ensures forall j | 0 <= j < |s| && j != i :: s[j] in DropAt(s, i)
  {
    var r := DropAt(s, i);
    forall j | 0 <= j < |s| && j != i
      ensures s[j] in r
    {
      assert r[if j < i then j else j - 1] == s[j];
    }
  }

  /** Removing a value from a list without duplicates leaves no copy of it
      and no duplicates. */
  lemma RemoveValueDistinct<T>(s: seq<T>, x: T)
    requires Distinct(s)
    ensures Distinct(RemoveValue(s, x))
    ensures x !in RemoveValue(s, x)
    ensures forall y | y in s && y != x :: y in RemoveValue(s, x)
    ensures forall y | y in RemoveValue(s, x) :: y in s
  {
    if x in s {
      var i :| 0 <= i < |s| && s[i] == x;
      RemoveValueFirst(s, i);
      DropAtDistinct(s, i);
      DropAtKeeps(s, i);
    }
  }

  /** Removing the value at the first position that holds it drops that
      position. */
  lemma RemoveValueFirst<T>(s: seq<T>, i: nat)
    requires i < |s| && forall k | 0 <= k < i :: s[k] != s[i]
    ensures RemoveValue(s, s[i]) == DropAt(s, i)
  {
    assert s == s[..i] + [s[i]] + s[i + 1..];
    RemoveValueSplit(s[..i], s[i], s[i + 1..]);
  }
}

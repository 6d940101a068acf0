// A room: its name and background, its sprites kept in drawing order, and
// its interactions. Sprite sizes and layers come from the sprite registry,
// which is passed in as functions of the sprite index.
module Rooms {
  import opened Points
  import opened Rects
  import opened Interactions

  datatype Color = Color(r: int, g: int, b: int)

  const DEFAULT_BACKGROUND: Color := Color(64, 64, 64)

  /** A sprite placed in a room: which sprite, its layer, where its
      centre is, and an optional name. */
  datatype Entry = Entry(index: int, layer: int, center: Point, name: string)

  // ---------------------------------------------------------------------
  // The drawing order

  /** `Entry::operator<`: a lower layer first; within layer 0, a smaller
      centre y first; other ties are unordered. */
  predicate Less(a: Entry, b: Entry) {
    a.layer < b.layer || (a.layer == 0 && b.layer == 0 && a.center.y < b.center.y)
  }

  /** `operator<` is a strict weak order: irreflexive, transitive, and with
      "neither is less" transitive as well. */
  lemma LessStrictWeakOrder(a: Entry, b: Entry, c: Entry)
    ensures !Less(a, a)
    ensures Less(a, b) && Less(b, c) ==> Less(a, c)
    ensures !Less(a, b) && !Less(b, a) && !Less(b, c) && !Less(c, b) ==> !Less(a, c) && !Less(c, a)
  {
  }

  /** Two entries are unordered exactly when they share a layer and, in
      layer 0, a centre y. */
  lemma LessTies(a: Entry, b: Entry)
    ensures !Less(a, b) && !Less(b, a) <==> a.layer == b.layer && (a.layer != 0 || a.center.y == b.center.y)
  {
  }

  /** No entry is ever less than one before it. */
  predicate Sorted(s: seq<Entry>) {
    forall i, j :: 0 <= i < j < |s| ==> !Less(s[j], s[i])
  }

  /** `k` is where `upper_bound` puts `e` in `s`: after every entry that
      `e` is not less than, before every entry that it is less than. */
  predicate UpperBoundAt(s: seq<Entry>, e: Entry, k: int) {
    && 0 <= k <= |s|
    && (forall i :: 0 <= i < k ==> !Less(e, s[i]))
    && (forall i :: k <= i < |s| ==> Less(e, s[i]))
  }

  function InsertAt<T>(s: seq<T>, k: nat, x: T): (r: seq<T>)
    requires k <= |s|
    ensures |r| == |s| + 1 && r[k] == x
    ensures forall i :: 0 <= i < k ==> r[i] == s[i]
    ensures forall i :: k < i < |r| ==> r[i] == s[i - 1]
  {
    s[..k] + [x] + s[k..]
  }

  function EraseAt<T>(s: seq<T>, k: nat): (r: seq<T>)
    requires k < |s|
    ensures |r| == |s| - 1
    ensures forall i :: 0 <= i < k ==> r[i] == s[i]
    ensures forall i :: k <= i < |r| ==> r[i] == s[i + 1]
  {
    s[..k] + s[k + 1..]
  }

  /** Inserting at the upper bound keeps the list sorted. */
  lemma InsertKeepsSorted(s: seq<Entry>, e: Entry, k: int)
    requires Sorted(s) && UpperBoundAt(s, e, k)
    ensures Sorted(InsertAt(s, k, e))
  {
    var r := InsertAt(s, k, e);
    forall i, j | 0 <= i < j < |r|
      ensures !Less(r[j], r[i])
    {
      if j == k {
        assert !Less(e, s[i]);
      } else if i == k {
        assert Less(e, s[j - 1]);
        LessStrictWeakOrder(r[j], e, r[j]);
      }
    }
  }

  /** Erasing what was just inserted restores the list: `Remove(Add(...))`
      undoes the `Add`. */
  lemma EraseInsert<T>(s: seq<T>, k: nat, x: T)
    requires k <= |s|
    ensures EraseAt(InsertAt(s, k, x), k) == s
  {
  }

  /** Erasing an entry keeps the list sorted. */
  lemma EraseKeepsSorted(s: seq<Entry>, k: nat)
    requires Sorted(s) && k < |s|
    ensures Sorted(EraseAt(s, k))
  {
    var r := EraseAt(s, k);
    forall i, j | 0 <= i < j < |r|
      ensures !Less(r[j], r[i])
    {
      var i', j' := if i < k then i else i + 1, if j < k then j else j + 1;
      assert r[i] == s[i'] && r[j] == s[j'];
    }
  }

  // ---------------------------------------------------------------------
  // Removing by name

  /** The list without the items called `name`, in their order. */
  function Without<T>(s: seq<T>, nameOf: T -> string, name: string): (r: seq<T>)
    ensures |r| <= |s|
  {
    if s == [] then []
    else (if nameOf(s[0]) == name then [] else [s[0]]) + Without(s[1..], nameOf, name)
  }

  /** Nothing called `name` is left, and everything else is kept. */
  lemma {:induction false} WithoutKeepsOthers<T>(s: seq<T>, nameOf: T -> string, name: string)
    ensures forall x :: x in Without(s, nameOf, name) <==> x in s && nameOf(x) != name
  {
    if s != [] {
      WithoutKeepsOthers(s[1..], nameOf, name);
      assert forall x :: x in s <==> x == s[0] || x in s[1..];
    }
  }

  /** Removing a name twice removes nothing more. */
  lemma {:induction false} WithoutIdempotent<T>(s: seq<T>, nameOf: T -> string, name: string)
    ensures Without(Without(s, nameOf, name), nameOf, name) == Without(s, nameOf, name)
  {
    if s != [] {
      WithoutIdempotent(s[1..], nameOf, name);
      var rest := Without(s[1..], nameOf, name);
      if nameOf(s[0]) != name {
        assert ([s[0]] + rest)[1..] == rest;
      } else {
        assert [] + rest == rest;
      }
    }
  }

  /** A list without some of its entries is still sorted. */
  lemma {:induction false} WithoutKeepsSorted(s: seq<Entry>, name: string)
    requires Sorted(s)
    ensures Sorted(Without(s, EntryName, name))
  {
    if s != [] {
      var tail := s[1..];
      assert Sorted(tail);
      WithoutKeepsSorted(tail, name);
      var rest := Without(tail, EntryName, name);
      WithoutKeepsOthers(tail, EntryName, name);
      if s[0].name != name {
        var r := [s[0]] + rest;
        forall i, j | 0 <= i < j < |r|
          ensures !Less(r[j], r[i])
        {
          if i == 0 {
            assert r[j] in tail;
          } else {
            assert r[i] == rest[i - 1] && r[j] == rest[j - 1];
          }
        }
      }
    }
  }

  function EntryName(e: Entry): string {
    e.name
  }

  function InteractionName(f: Fields): string {
    f.name
  }

  /** The icon of an interaction in a room has its three slots and radii. */
  predicate Shaped(f: Fields) {
    |f.radius| == 2 && |f.icon| == 3
  }

  /** A sprite's bounds in room coordinates: its image bounds moved to its
      centre. */
  function Bounds(e: Entry, spriteBounds: int -> Rect): Rect {
    spriteBounds(e.index).Plus(e.center)
  }

  /** An interaction shows a button at `point` when it is ACTIVE and its
      icon, drawn at its position plus offset, covers the point. */
  predicate ButtonAt(f: Fields, point: Point, spriteBounds: int -> Rect)
    requires Shaped(f)
  {
    f.state == ACTIVE &&
    spriteBounds(IconFor(f.state, f.icon)).Contains(point.Minus(f.position.Plus(f.offset)))
  }

  // ---------------------------------------------------------------------
  // The room

  class Room {
    var name: string
    var background: Color
    var sprites: seq<Entry>
    var interactions: seq<Fields>

    ghost predicate Valid()
      reads this
    {
      Sorted(sprites) && forall k :: 0 <= k < |interactions| ==> Shaped(interactions[k])
    }

    /** A room before anything is loaded: no name, no sprites, no
        interactions, and a black background (the default `Color`). */
    constructor ()
      ensures Valid()
      ensures name == [] && background == Color(0, 0, 0) && sprites == [] && interactions == []
    {
      name := [];
      background := Color(0, 0, 0);
      sprites := [];
      interactions := [];
    }

    /** `Reset`: the empty room with the default background. */
    method Reset()
      modifies this
      ensures Valid()
      ensures name == [] && background == DEFAULT_BACKGROUND && sprites == [] && interactions == []
    {
      name := [];
      background := DEFAULT_BACKGROUND;
      sprites := [];
      interactions := [];
    }

    /** `Add(spriteIndex, center, name)`: inserts the sprite after every
        entry it sorts equal to and returns where it went. */
    method Add(spriteIndex: int, layer: int, center: Point, name: string) returns (index: int)
      requires Valid()
      modifies this
      ensures Valid()
      ensures UpperBoundAt(old(sprites), Entry(spriteIndex, layer, center, name), index)
      ensures sprites == InsertAt(old(sprites), index, Entry(spriteIndex, layer, center, name))
      ensures interactions == old(interactions) && this.name == old(this.name) && background == old(background)
    {
      var e := Entry(spriteIndex, layer, center, name);
      index := UpperBound(sprites, e);
      InsertKeepsSorted(sprites, e, index);
      sprites := InsertAt(sprites, index, e);
    }

    /** `Add(interaction)`: appends a copy. */
    method AddInteraction(f: Fields)
      requires Valid() && Shaped(f)
      modifies this
      ensures Valid() && interactions == old(interactions) + [f] && sprites == old(sprites)
      ensures name == old(name) && background == old(background)
    {
      interactions := interactions + [f];
    }

    /** `Find(center)`: the first sprite whose bounds contain the point, or -1. */
    method Find(center: Point, spriteBounds: int -> Rect) returns (r: int)
      ensures -1 <= r < |sprites|
      ensures r == -1 <==> forall k :: 0 <= k < |sprites| ==> !Bounds(sprites[k], spriteBounds).Contains(center)
      ensures r >= 0 ==> Bounds(sprites[r], spriteBounds).Contains(center)
      ensures forall k :: 0 <= k < r ==> !Bounds(sprites[k], spriteBounds).Contains(center)
    {
      for k := 0 to |sprites|
        invariant forall j :: 0 <= j < k ==> !Bounds(sprites[j], spriteBounds).Contains(center)
      {
        if Bounds(sprites[k], spriteBounds).Contains(center) {
          return k;
        }
      }
      return -1;
    }

    /** `Remove(index)`: erases the sprite when the index is in range; any
        other index, negative ones included, changes nothing. */
    method Remove(index: int)
      requires Valid()
      modifies this
      ensures Valid()
      ensures sprites == if 0 <= index < |old(sprites)| then EraseAt(old(sprites), index) else old(sprites)
      ensures interactions == old(interactions) && name == old(name) && background == old(background)
    {
      if 0 <= index < |sprites| {
        EraseKeepsSorted(sprites, index);
        sprites := EraseAt(sprites, index);
      }
    }

    /** `Remove(interaction)`: erases the given interaction. */
    method RemoveInteraction(k: nat)
      requires Valid() && k < |interactions|
      modifies this
      ensures Valid() && interactions == EraseAt(old(interactions), k) && sprites == old(sprites)
      ensures name == old(name) && background == old(background)
    {
      interactions := EraseAt(interactions, k);
    }

    /** `Remove(name)`: erases every sprite and every interaction with that
        name, keeping the rest in order. */
    method RemoveNamed(n: string)
      requires Valid()
      modifies this
      ensures Valid()
      ensures sprites == Without(old(sprites), EntryName, n)
      ensures interactions == Without(old(interactions), InteractionName, n)
      ensures name == old(name) && background == old(background)
    {
      WithoutKeepsSorted(sprites, n);
      WithoutKeepsOthers(interactions, InteractionName, n);
      ghost var before := interactions;
      sprites := EraseNamed(sprites, EntryName, n);
      interactions := EraseNamed(interactions, InteractionName, n);
      forall k | 0 <= k < |interactions|
        ensures Shaped(interactions[k])
      {
        assert interactions[k] in before;
      }
    }

    /** `Button(point)`: the last ACTIVE interaction whose icon covers the
        point, or -1 for none. */
    method Button(point: Point, spriteBounds: int -> Rect) returns (r: int)
      requires Valid()
      ensures -1 <= r < |interactions|
      ensures r == -1 <==> forall k :: 0 <= k < |interactions| ==> !ButtonAt(interactions[k], point, spriteBounds)
      ensures r >= 0 ==> ButtonAt(interactions[r], point, spriteBounds)
      ensures forall k :: r < k < |interactions| ==> !ButtonAt(interactions[k], point, spriteBounds)
    {
      r := -1;
      for k := 0 to |interactions|
        invariant -1 <= r < k
        invariant r >= 0 ==> ButtonAt(interactions[r], point, spriteBounds)
        invariant forall j :: r < j < k ==> !ButtonAt(interactions[j], point, spriteBounds)
      {
        var f := interactions[k];
        if f.state == ACTIVE {
          var center := f.position.Plus(f.offset);
          if spriteBounds(IconFor(f.state, f.icon)).Contains(point.Minus(center)) {
            r := k;
          }
        }
      }
    }
  }

  /** `upper_bound`: a binary search of a sorted list for the first entry
      that `e` is less than. */
  method UpperBound(s: seq<Entry>, e: Entry) returns (k: int)
    requires Sorted(s)
    ensures UpperBoundAt(s, e, k)
  {
    var lo, hi := 0, |s|;
    while lo < hi
      invariant 0 <= lo <= hi <= |s|
      invariant forall i :: 0 <= i < lo ==> !Less(e, s[i])
      invariant forall i :: hi <= i < |s| ==> Less(e, s[i])
    {
      var mid := (lo + hi) / 2;
      if Less(e, s[mid]) {
        forall i | mid <= i < hi
          ensures Less(e, s[i])
        {
          LessStrictWeakOrder(e, s[i], s[mid]);
        }
        hi := mid;
      } else {
        forall i | lo <= i <= mid
          ensures !Less(e, s[i])
        {
          LessStrictWeakOrder(e, s[mid], s[i]);
        }
        lo := mid + 1;
      }
    }
    return lo;
  }

  /** Without one step into its list. */
  lemma WithoutAt<T>(r: seq<T>, i: nat, nameOf: T -> string, name: string)
    requires i < |r|
    ensures Without(r[i..], nameOf, name) == (if nameOf(r[i]) == name then [] else [r[i]]) + Without(r[i + 1..], nameOf, name)
    ensures (r[..i] + r[i + 1..])[i..] == r[i + 1..]
  {
    assert r[i..][1..] == r[i + 1..];
  }

  /** The erase loop of `Remove(name)`: an item with the name is erased in
      place and the scan stays at the same index; otherwise it moves on. */
  method EraseNamed<T>(s: seq<T>, nameOf: T -> string, name: string) returns (r: seq<T>)
    ensures r == Without(s, nameOf, name)
  {
    r := s;
    var i := 0;
    while i < |r|
      invariant i <= |r|
      invariant r[..i] + Without(r[i..], nameOf, name) == Without(s, nameOf, name)
      decreases |r| - i
    {
      WithoutAt(r, i, nameOf, name);
      if nameOf(r[i]) == name {
        ghost var kept := r[..i];
        r := r[..i] + r[i + 1..];
        assert r[..i] == kept;
      } else {
        assert r[..i + 1] == r[..i] + [r[i]];
        i := i + 1;
      }
    }
    assert r[i..] == [];
    assert r[..i] == r;
  }
}

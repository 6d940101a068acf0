// The avatar: where it is, which room it is in, and which sprite it shows,
// chosen from the loaded facings by the direction it last moved in. The
// facings and the conversion of compass degrees to a vector are passed in.
module Avatars {
  import opened Ints
  import opened Points
  import opened Rooms

  /** A facing: a direction, and the sprite to show when moving that way. */
  type Facing = (Point, int)

  /** The compass angle an avatar faces before it is first placed. */
  const DEFAULT_FACING: int := 180

  /** The scan of `Facing`: the best dot product so far, starting from the
      smallest `int`, and the index of the facing that set it (-1 for none).
      Only a strictly greater dot replaces the best. */
  function BestFacing(v: Point, facings: seq<Facing>): (r: (int, int))
    ensures INT_MIN <= r.0 && -1 <= r.1 < |facings|
    // No facing beats the best.
    ensures forall k :: 0 <= k < |facings| ==> v.Dot(facings[k].0) <= r.0
    // The chosen facing has the best dot, and none before it does.
    ensures r.1 >= 0 ==> v.Dot(facings[r.1].0) == r.0 && forall j :: 0 <= j < r.1 ==> v.Dot(facings[j].0) < r.0
    // None is chosen exactly when no dot exceeds the starting value.
    ensures r.1 == -1 <==> r.0 == INT_MIN
  {
    if facings == [] then (INT_MIN, -1)
    else
      var prefix := facings[..|facings| - 1];
      var best := BestFacing(v, prefix);
      var dot := v.Dot(facings[|facings| - 1].0);
      if dot > best.0 then (dot, |facings| - 1) else best
  }

  /** The sprite `Facing` returns: that of the chosen facing, or 0. */
  function FacingSprite(v: Point, facings: seq<Facing>): int {
    var best := BestFacing(v, facings);
    if best.1 < 0 then 0 else facings[best.1].1
  }

  /** With no facings loaded, the sprite is 0. */
  lemma NoFacings(v: Point)
    ensures FacingSprite(v, []) == 0
  {
  }

  /** Standing still gives every facing the dot 0, so the first facing wins. */
  lemma {:induction false} StillFacing(facings: seq<Facing>)
    ensures FacingSprite(Origin(), facings) == if facings == [] then 0 else facings[0].1
  {
    if facings != [] {
      assert Origin().Dot(facings[0].0) == 0;
    }
  }

  /** The chosen sprite is the sprite of a first facing with the largest
      dot product, when that product exceeds the smallest `int`. */
  lemma FacingIsFirstMax(v: Point, facings: seq<Facing>, k: nat)
    requires k < |facings| && v.Dot(facings[k].0) > INT_MIN
    requires forall j :: 0 <= j < |facings| ==> v.Dot(facings[j].0) <= v.Dot(facings[k].0)
    requires forall j :: 0 <= j < k ==> v.Dot(facings[j].0) < v.Dot(facings[k].0)
    ensures FacingSprite(v, facings) == facings[k].1
  {
    var best := BestFacing(v, facings);
    assert best.1 >= 0;
    assert v.Dot(facings[best.1].0) == v.Dot(facings[k].0);
  }

  /** `Facing(v)`: the loop over the facings, keeping the first one with a
      strictly larger dot product than any before it. */
  method ChooseFacing(v: Point, facings: seq<Facing>) returns (best: int)
    ensures best == FacingSprite(v, facings)
  {
    var bestDot := INT_MIN;
    best := 0;
    ghost var at := -1;
    for i := 0 to |facings|
      invariant (bestDot, at) == BestFacing(v, facings[..i])
      invariant best == if at < 0 then 0 else facings[at].1
    {
      assert facings[..i + 1][..i] == facings[..i];
      var dot := v.Dot(facings[i].0);
      if dot > bestDot {
        bestDot := dot;
        best := facings[i].1;
        at := i;
      }
    }
    assert facings[..|facings|] == facings;
  }

  class Avatar {
    var location: Room?
    var position: Point
    var spriteIndex: int

    constructor ()
      ensures location == null && position == Origin() && spriteIndex == 0
    {
      location := null;
      position := Origin();
      spriteIndex := 0;
    }

    /** `Enter`: always moves to the point; changes room only when one is
        given; turns to the default facing only if no sprite is set yet. */
    method Enter(point: Point, room: Room?, facings: seq<Facing>, vector: int -> Point)
      modifies this
      ensures position == point
      ensures location == if room != null then room else old(location)
      ensures spriteIndex == if old(spriteIndex) == 0 then FacingSprite(vector(DEFAULT_FACING), facings) else old(spriteIndex)
    {
      if spriteIndex == 0 {
        Face(DEFAULT_FACING, facings, vector);
      }
      if room != null {
        location := room;
      }
      position := point;
    }

    /** `Move`: goes to the point, facing the way it moved. */
    method Move(point: Point, facings: seq<Facing>)
      modifies this
      ensures position == point && location == old(location)
      ensures spriteIndex == FacingSprite(point.Minus(old(position)), facings)
    {
      var v := point.Minus(position);
      position := point;
      spriteIndex := ChooseFacing(v, facings);
    }

    /** `Face`: turns to the compass direction, staying put. */
    method Face(degrees: int, facings: seq<Facing>, vector: int -> Point)
      modifies this
      ensures position == old(position) && location == old(location)
      ensures spriteIndex == FacingSprite(vector(degrees), facings)
    {
      spriteIndex := ChooseFacing(vector(degrees), facings);
    }
  }
}

// An interaction: a spot in a room with an elliptical "visible" range and
// an elliptical "active" range around it, the icons it shows, and the state
// machine that the avatar's position drives.
module Interactions {
  import opened Ints
  import opened Points
  import opened DataFiles

  const INACTIVE: int := -1
  const VISIBLE: int := 0
  const ACTIVE: int := 1
  const HOVER: int := 2
  const IMMEDIATE: int := 3

  // ---------------------------------------------------------------------
  // The range test

  /** `InRange`: the point lies in the ellipse with semi-axes `radius`
      around the origin, tested exactly as (x * ry)^2 + (y * rx)^2 <= (rx * ry)^2. */
  predicate InRange(point: Point, radius: Point) {
    var px := point.x * radius.y;
    var py := point.y * radius.x;
    var r := radius.x * radius.y;
    px * px + py * py <= r * r
  }

  /** A radius of (0, 0) puts every point in range. */
  lemma ZeroRadiusInRange(point: Point)
    ensures InRange(point, Origin())
  {
  }

  /** The centre is in range of every radius. */
  lemma CentreInRange(radius: Point)
    ensures InRange(Origin(), radius)
  {
  }

  /** A point no farther out than an in-range point on either axis is in
      range too: the range is a filled ellipse, symmetric about both axes. */
  lemma InRangeInward(p: Point, q: Point, radius: Point)
    requires Abs(q.x) <= Abs(p.x) && Abs(q.y) <= Abs(p.y) && InRange(p, radius)
    ensures InRange(q, radius)
  {
    ScaledSquareMono(q.x, p.x, radius.y);
    ScaledSquareMono(q.y, p.y, radius.x);
  }

  lemma ScaledSquareMono(a: int, b: int, k: int)
    requires Abs(a) <= Abs(b)
    ensures (a * k) * (a * k) <= (b * k) * (b * k)
  {
    AbsProduct(a, k);
    AbsProduct(b, k);
    MulMono(Abs(a), Abs(b), Abs(k), Abs(k));
    SquareMono(a * k, b * k);
  }

  /** With both semi-axes nonzero, the range reaches exactly `radius.x`
      along the x axis: that point is in range and the next one out is not. */
  lemma RangeEdge(radius: Point)
    requires radius.x > 0 && radius.y != 0
    ensures InRange(Point(radius.x, 0), radius)
    ensures !InRange(Point(radius.x + 1, 0), radius)
  {
    var rx, ry := radius.x, radius.y;
    AbsProduct(rx, ry);
    AbsProduct(rx + 1, ry);
    assert Abs((rx + 1) * ry) == Abs(rx * ry) + Abs(ry);
    SquareStrict(rx * ry, (rx + 1) * ry);
  }

  lemma SquareStrict(a: int, b: int)
    requires Abs(a) < Abs(b)
    ensures a * a < b * b
  {
    AbsProduct(a, a);
    AbsProduct(b, b);
    MulMono(Abs(a), Abs(b), Abs(a), Abs(b));
    assert Abs(a) * Abs(b) < Abs(b) * Abs(b);
  }

  // ---------------------------------------------------------------------
  // The state machine

  /** `SetState(avatar)` on the relative position `p` of the avatar, the
      state before, the two radii and the two icons: the state stored and
      the state returned. */
  function Transition(state: int, p: Point, visibleRadius: Point, activeRadius: Point,
                      visibleIcon: int, activeIcon: int): (r: (int, int))
    ensures r.0 == INACTIVE || r.0 == VISIBLE || r.0 == ACTIVE
    ensures r.0 == ACTIVE <==> InRange(p, activeRadius)
    ensures r.0 == VISIBLE <==> !InRange(p, activeRadius) && visibleIcon != 0 && InRange(p, visibleRadius)
    ensures r.1 == IMMEDIATE <==> state != ACTIVE && InRange(p, activeRadius) && activeIcon == 0
    ensures r.1 != IMMEDIATE ==> r.1 == r.0
  {
    if InRange(p, activeRadius) then
      if state != ACTIVE && activeIcon == 0 then (ACTIVE, IMMEDIATE) else (ACTIVE, ACTIVE)
    else if visibleIcon != 0 && InRange(p, visibleRadius) then (VISIBLE, VISIBLE)
    else (INACTIVE, INACTIVE)
  }

  /** An immediate interaction fires once: while the avatar stays in the
      active range, the next `SetState` reports ACTIVE. */
  lemma ImmediateOnce(state: int, p: Point, q: Point, visibleRadius: Point, activeRadius: Point,
                      visibleIcon: int, activeIcon: int)
    requires Transition(state, p, visibleRadius, activeRadius, visibleIcon, activeIcon).1 == IMMEDIATE
    requires InRange(q, activeRadius)
    ensures Transition(Transition(state, p, visibleRadius, activeRadius, visibleIcon, activeIcon).0, q,
                       visibleRadius, activeRadius, visibleIcon, activeIcon) == (ACTIVE, ACTIVE)
  {
  }

  /** The icon shown in a state: none unless the state is VISIBLE or ACTIVE. */
  function IconFor(state: int, icons: seq<int>): (r: int)
    requires |icons| == 3
    ensures state != VISIBLE && state != ACTIVE ==> r == 0
    ensures state == VISIBLE || state == ACTIVE ==> r == icons[state]
  {
    if state != VISIBLE && state != ACTIVE then 0 else icons[state]
  }

  /** An immediate interaction shows no icon once it has fired. */
  lemma ImmediateShowsNothing(state: int, p: Point, visibleRadius: Point, activeRadius: Point,
                              icons: seq<int>)
    requires |icons| == 3
    requires Transition(state, p, visibleRadius, activeRadius, icons[VISIBLE], icons[ACTIVE]).1 == IMMEDIATE
    ensures IconFor(Transition(state, p, visibleRadius, activeRadius, icons[VISIBLE], icons[ACTIVE]).0, icons) == 0
  {
  }

  // ---------------------------------------------------------------------
  // Loading

  /** Everything `Load` can read from one line: its tag, token 1 as a point,
      tokens 2 and 3 as integers, and the text from token 1 and from token 2. */
  datatype LineArgs = LineArgs(tag: string, point: Point, first: int, second: int,
                               rest: string, restAfter: string)

  /** The fields of an interaction, as one value. */
  datatype Fields = Fields(name: string, position: Point, offset: Point, radius: seq<Point>,
                           state: int, icon: seq<int>, hasEnter: bool, enterPosition: Point,
                           enterRoom: string, dialog: string)

  /** The tags an interaction definition is made of. */
  predicate Known(tag: string) {
    tag == "position" || tag == "offset" || tag == "visible" || tag == "active" ||
    tag == "enter" || tag == "dialog"
  }

  /** One line of an interaction definition applied to the fields. */
  function ApplyLine(f: Fields, a: LineArgs): (r: Fields)
    requires |f.radius| == 2 && |f.icon| == 3
    ensures |r.radius| == 2 && |r.icon| == 3
    ensures r.name == f.name && r.state == f.state
    ensures !Known(a.tag) ==> r == f
    ensures a.tag == "active" ==>
              r.icon[ACTIVE] == a.first && r.icon[HOVER] == (if a.second != 0 then a.second else a.first)
  {
    if a.tag == "position" then f.(position := a.point)
    else if a.tag == "offset" then f.(offset := a.point)
    else if a.tag == "visible" then
      f.(radius := f.radius[VISIBLE := a.point], icon := f.icon[VISIBLE := a.first])
    else if a.tag == "active" then
      var icons := f.icon[ACTIVE := a.first][HOVER := a.second];
      f.(radius := f.radius[ACTIVE := a.point],
         icon := if icons[HOVER] == 0 then icons[HOVER := icons[ACTIVE]] else icons)
    else if a.tag == "enter" then
      f.(hasEnter := true, enterPosition := a.point, enterRoom := a.restAfter)
    else if a.tag == "dialog" then f.(dialog := a.rest)
    else f
  }

  /** The lines of a definition applied in order. */
  function ApplyLines(f: Fields, lines: seq<LineArgs>): (r: Fields)
    requires |f.radius| == 2 && |f.icon| == 3
    ensures |r.radius| == 2 && |r.icon| == 3 && r.name == f.name && r.state == f.state
  {
    if lines == [] then f else ApplyLine(ApplyLines(f, lines[..|lines| - 1]), lines[|lines| - 1])
  }

  /** Applying one more line applies it to what the earlier lines gave. */
  lemma ApplyLinesSnoc(f: Fields, lines: seq<LineArgs>, a: LineArgs)
    requires |f.radius| == 2 && |f.icon| == 3
    ensures ApplyLines(f, lines + [a]) == ApplyLine(ApplyLines(f, lines), a)
  {
    assert (lines + [a])[..|lines|] == lines;
  }

  /** Once an "active" line has supplied the icons, the hover icon is never
      0 while the active icon is set: a missing hover icon is the active one. */
  lemma {:induction false} HoverNeverMissing(f: Fields, lines: seq<LineArgs>)
    requires |f.radius| == 2 && |f.icon| == 3
    requires f.icon[HOVER] == 0 ==> f.icon[ACTIVE] == 0
    ensures var r := ApplyLines(f, lines); r.icon[HOVER] == 0 ==> r.icon[ACTIVE] == 0
  {
    if lines != [] {
      HoverNeverMissing(f, lines[..|lines| - 1]);
    }
  }

  /** Token `k` of a line as a point, and as an integer: the source reads
      past the end of the token table for a missing token, which here reads
      as (0, 0) or 0. */
  function PointToken(line: string, k: nat): Point
  {
    if k < TokenCount(line) then PointValue(TokenOf(line, k)) else Origin()
  }

  function IntToken(line: string, k: nat): int
  {
    if k < TokenCount(line) then TokenOf(line, k).Int() else 0
  }

  /** What `Load` reads from one line. */
  function ArgsOfLine(line: string): LineArgs
  {
    LineArgs(TagOf(line), PointToken(line, 1), IntToken(line, 2), IntToken(line, 3),
             ValueOf(line, 1), ValueOf(line, 2))
  }

  /** `read` holds what `args` gives for the lines after line `start`, one
      entry per line. `Load` reads with `ArgsOfLine`. */
  predicate ReadFrom(lines: seq<string>, start: nat, read: seq<LineArgs>, args: string -> LineArgs)
  {
    && start + |read| < |lines|
    && forall k :: 0 <= k < |read| ==> read[k] == args(lines[start + 1 + k])
  }

  /** Every line read has one of the interaction's tags. */
  predicate AllKnown(read: seq<LineArgs>)
  {
    forall k :: 0 <= k < |read| ==> Known(read[k].tag)
  }

  /** `a` is what `args` gives for line `i`, and its tag is known. */
  predicate LineRead(lines: seq<string>, i: nat, a: LineArgs, args: string -> LineArgs)
  {
    i < |lines| && a == args(lines[i]) && Known(a.tag)
  }

  /** Reading the next line extends what was read. */
  lemma ReadFromSnoc(lines: seq<string>, start: nat, read: seq<LineArgs>, args: string -> LineArgs, a: LineArgs)
    requires ReadFrom(lines, start, read, args) && AllKnown(read)
    requires LineRead(lines, start + |read| + 1, a, args)
    ensures ReadFrom(lines, start, read + [a], args) && AllKnown(read + [a])
  {
    var r := read + [a];
    forall k | 0 <= k < |r|
      ensures r[k] == args(lines[start + 1 + k]) && Known(r[k].tag)
    {
      if k < |read| {
        assert r[k] == read[k];
      }
    }
  }

  /** Reads the arguments of the current line. */
  method ReadArgs(d: Data) returns (a: LineArgs)
    requires d.Valid() && !d.AtEnd()
    ensures a == ArgsOfLine(d.Line())
  {
    var point := Origin();
    if 1 < d.Size() {
      point := ArgPoint(d.At(1));
    }
    var first := if 2 < d.Size() then d.At(2).Int() else 0;
    var second := if 3 < d.Size() then d.At(3).Int() else 0;
    a := LineArgs(d.Tag(), point, first, second, d.Value(1), d.Value(2));
  }

  // ---------------------------------------------------------------------
  // The interaction

  class Interaction {
    var name: string
    var position: Point
    var offset: Point
    const radius: array<Point>
    var state: int
    const icon: array<int>
    var hasEnter: bool
    var enterPosition: Point
    var enterRoom: string
    var dialog: string

    ghost predicate Valid()
      reads this
    {
      radius.Length == 2 && icon.Length == 3
    }

    /** All fields as one value. */
    ghost function Snapshot(): (f: Fields)
      reads this, radius, icon
      requires Valid()
      ensures |f.radius| == 2 && |f.icon| == 3
    {
      Fields(name, position, offset, radius[..], state, icon[..], hasEnter, enterPosition,
             enterRoom, dialog)
    }

    /** `Interaction()`: inactive, with no name, radii, icons, enter or dialog. */
    constructor ()
      ensures Valid() && fresh(radius) && fresh(icon)
      ensures Snapshot() == Fields([], Origin(), Origin(), [Origin(), Origin()], INACTIVE, [0, 0, 0],
                                   false, Origin(), [], [])
    {
      name := [];
      position := Origin();
      offset := Origin();
      radius := new Point[2](_ => Origin());
      state := INACTIVE;
      icon := new int[3](_ => 0);
      hasEnter := false;
      enterPosition := Origin();
      enterRoom := [];
      dialog := [];
    }

    /** `Load(data)`: the name from the current line, then every following
        line whose tag is one of the interaction's; it stops at the end of
        the data, at a blank line, or on the first other tag, which it
        leaves for the caller. */
    method Load(data: Data) returns (ghost read: seq<LineArgs>)
      requires Valid() && data.Valid() && !data.AtEnd()
      modifies this, radius, icon, data
      ensures Valid() && data.Valid() && data.it == old(data.it) + |read| + 1
      ensures Snapshot() == ApplyLines(old(Snapshot()).(name := old(data.Value(1))), read)
      ensures ReadFrom(data.lines, old(data.it), read, ArgsOfLine) && AllKnown(read)
      ensures data.AtEnd() || data.Size() == 0 || !Known(data.Tag())
    {
      name := data.Value(1);
      read := LoadLines(data, ArgsOfLine);
    }

    /** The loop of `Load`: the lines after the current one, applied in order
        while their tags are the interaction's. The ghost `args` is
        `ArgsOfLine`, passed as a parameter so that the loop's proof does not
        look inside it. */
    method LoadLines(data: Data, ghost args: string -> LineArgs) returns (ghost read: seq<LineArgs>)
      requires Valid() && data.Valid() && !data.AtEnd()
      requires forall line {:trigger ArgsOfLine(line)} :: args(line) == ArgsOfLine(line)
      modifies this, radius, icon, data
      ensures Valid() && data.Valid() && data.it == old(data.it) + |read| + 1
      ensures Snapshot() == ApplyLines(old(Snapshot()), read)
      ensures ReadFrom(data.lines, old(data.it), read, args) && AllKnown(read)
      ensures data.AtEnd() || data.Size() == 0 || !Known(data.Tag())
    {
      read := [];
      while true
        invariant Valid() && data.Valid()
        invariant data.it == old(data.it) + |read|
        invariant Snapshot() == ApplyLines(old(Snapshot()), read)
        invariant ReadFrom(data.lines, old(data.it), read, args) && AllKnown(read)
        decreases |data.lines| - data.it
      {
        var more, a := LoadNext(data, args);
        if !more {
          return;
        }
        ReadFromSnoc(data.lines, old(data.it), read, args, a);
        ApplyLinesSnoc(old(Snapshot()), read, a);
        read := read + [a];
      }
    }

    /** One turn of `Load`'s loop: moves to the next line and applies it
        when its tag is one of the interaction's. The ghost `args` is
        `ArgsOfLine`, as in `LoadLines`. */
    method LoadNext(data: Data, ghost args: string -> LineArgs) returns (more: bool, ghost a: LineArgs)
      requires Valid() && data.Valid()
      requires forall line {:trigger ArgsOfLine(line)} :: args(line) == ArgsOfLine(line)
      modifies this, radius, icon, data
      ensures Valid() && data.Valid()
      ensures data.it == if old(data.it) < |data.lines| then old(data.it) + 1 else old(data.it)
      ensures more ==> LineRead(data.lines, data.it, a, args)
      ensures more ==> Snapshot() == ApplyLine(old(Snapshot()), a)
      ensures !more ==> Snapshot() == old(Snapshot()) && (data.AtEnd() || data.Size() == 0 || !Known(data.Tag()))
    {
      var moved := data.Next();
      if !moved || data.Size() == 0 {
        return false, LineArgs([], Origin(), 0, 0, [], []);
      }
      var found := ReadArgs(data);
      if !Known(found.tag) {
        return false, found;
      }
      LoadLine(found);
      return true, found;
    }

    /** One recognised line of a definition. */
    method LoadLine(a: LineArgs)
      requires Valid()
      modifies this, radius, icon
      ensures Valid() && Snapshot() == ApplyLine(old(Snapshot()), a)
    {
      if a.tag == "position" {
        position := a.point;
      } else if a.tag == "offset" {
        offset := a.point;
      } else if a.tag == "visible" {
        radius[VISIBLE] := a.point;
        icon[VISIBLE] := a.first;
      } else if a.tag == "active" {
        radius[ACTIVE] := a.point;
        icon[ACTIVE] := a.first;
        icon[HOVER] := a.second;
        if icon[HOVER] == 0 {
          icon[HOVER] := icon[ACTIVE];
        }
      } else if a.tag == "enter" {
        hasEnter := true;
        enterPosition := a.point;
        enterRoom := a.restAfter;
      } else if a.tag == "dialog" {
        dialog := a.rest;
      }
    }

    /** `SetState(avatar)`: the new state from the avatar's position, and
        IMMEDIATE when an interaction without an active icon has just become
        active. */
    method SetState(avatar: Point) returns (r: int)
      requires Valid()
      modifies this
      ensures Valid()
      ensures (state, r) == Transition(old(state), avatar.Minus(position), radius[VISIBLE],
                                       radius[ACTIVE], icon[VISIBLE], icon[ACTIVE])
      ensures Snapshot() == old(Snapshot()).(state := state)
    {
      var p := avatar.Minus(position);
      if InRange(p, radius[ACTIVE]) {
        if state != ACTIVE {
          state := ACTIVE;
          if icon[ACTIVE] == 0 {
            return IMMEDIATE;
          }
        }
      } else if icon[VISIBLE] != 0 && InRange(p, radius[VISIBLE]) {
        state := VISIBLE;
      } else {
        state := INACTIVE;
      }
      return state;
    }

    /** `SetState(state)`: sets the state by hand. */
    method SetStateTo(s: int)
      requires Valid()
      modifies this
      ensures Valid() && Snapshot() == old(Snapshot()).(state := s)
    {
      state := s;
    }

    /** `ClearState`: back to INACTIVE, so that an immediate interaction can
        fire again; no icon shows. */
    method ClearState()
      requires Valid()
      modifies this
      ensures Valid() && Snapshot() == old(Snapshot()).(state := INACTIVE)
      ensures Icon() == 0
    {
      state := INACTIVE;
    }

    /** `Icon()`: the icon for the current state. */
    function Icon(): (r: int)
      reads this, icon
      requires Valid()
      ensures r == IconFor(state, icon[..])
    {
      if state != VISIBLE && state != ACTIVE then 0 else icon[state]
    }

    /** `Place(position, offset)`: overwrites the position and the offset
        and nothing else. */
    method Place(p: Point, o: Point)
      requires Valid()
      modifies this
      ensures Valid() && Snapshot() == old(Snapshot()).(position := p, offset := o)
    {
      position := p;
      offset := o;
    }
  }
}

// The SVG path converter: for each input line holding `<path d="`, the
// relative path data after it is read as the `m`, `l`, `h` and `v` commands
// of section 8.3 of SVG 1.1 and written out as a "mask" line of absolute
// vertices.
module Svg {
  import opened Decimals
  import opened Points

  const PREFIX: string := "<path d=\""

  /** The character at `i`, or the terminating NUL that a `std::string`
      keeps one past its last character. */
  function At(line: string, i: nat): char {
    if i < |line| then line[i] else '\0'
  }

  predicate IsLower(c: char) {
    'a' <= c <= 'z'
  }

  // ---------------------------------------------------------------------
  // ReadInt

  /** The end of the run of digits starting at `i`. */
  function DigitRun(line: string, i: nat): (j: nat)
    requires i <= |line|
    ensures i <= j <= |line| && AllDigits(line[i..j])
    ensures j < |line| ==> !IsDigit(line[j])
    decreases |line| - i
  {
    if i < |line| && IsDigit(line[i]) then
      var j := DigitRun(line, i + 1);
      assert line[i..j] == [line[i]] + line[i + 1..j];
      j
    else i
  }

  /** A digit run is maximal: it ends exactly where the digits do. */
  lemma {:induction false} DigitRunEnds(line: string, i: nat, e: nat)
    requires i <= e <= |line| && AllDigits(line[i..e]) && (e == |line| || !IsDigit(line[e]))
    ensures DigitRun(line, i) == e
    decreases e - i
  {
    if i < e {
      assert IsDigit(line[i..e][0]);
      assert line[i + 1..e] == line[i..e][1..];
      DigitRunEnds(line, i + 1, e);
    }
  }

  /** Where the digits of the number at `i` start: after at most one
      space and then at most one '-'. */
  function SignEnd(line: string, i: nat): (b: nat)
    requires i <= |line|
    ensures i <= b <= |line| && b <= i + 2
  {
    var a := if At(line, i) == ' ' then i + 1 else i;
    if At(line, a) == '-' then a + 1 else a
  }

  predicate Negative(line: string, i: nat) {
    At(line, if At(line, i) == ' ' then i + 1 else i) == '-'
  }

  /** `ReadInt(it, end)`: the value of the number at `i` and where the
      cursor ends. */
  function ReadIntOf(line: string, i: nat): (r: (int, nat))
    requires i <= |line|
    ensures i <= r.1 <= |line|
  {
    var b := SignEnd(line, i);
    var j := DigitRun(line, b);
    var v := Decimal(line[b..j]);
    (if Negative(line, i) then -(v as int) else v as int, j)
  }

  /** `ReadInt` moves the cursor exactly when it finds a space, a '-' or
      a digit. */
  lemma ReadIntProgress(line: string, i: nat)
    requires i <= |line|
    ensures ReadIntOf(line, i).1 == i <==> At(line, i) != ' ' && At(line, i) != '-' && !IsDigit(At(line, i))
    ensures ReadIntOf(line, i).1 == i ==> ReadIntOf(line, i).0 == 0
  {
    if ReadIntOf(line, i).1 == i {
      assert line[i..i] == [];
    }
  }

  /** Without digits the value is 0, and the cursor passes only the space
      and the '-'. */
  lemma ReadIntNoDigits(line: string, i: nat)
    requires i <= |line| && !IsDigit(At(line, SignEnd(line, i)))
    ensures ReadIntOf(line, i) == (0, SignEnd(line, i))
  {
    var b := SignEnd(line, i);
    assert DigitRun(line, b) == b;
    assert line[b..b] == [];
  }

  /** A written integer: an optional '-' before a non-empty run of
      decimal digits, whose value is `v`. */
  predicate Numeral(t: string, v: int) {
    if v < 0 then |t| > 1 && t[0] == '-' && AllDigits(t[1..]) && Decimal(t[1..]) == -v
    else t != [] && AllDigits(t) && Decimal(t) == v
  }

  /** What `ostream << v` writes is a numeral of `v`. */
  lemma IntTextNumeral(v: int)
    ensures Numeral(IntText(v), v)
  {
    var n: nat := if v < 0 then -v else v;
    DigitsValue(n);
    if v < 0 {
      assert IntText(v)[1..] == Digits(n);
    }
  }

  /** Reading a numeral, after a space and before anything but a digit,
      gives back its value. */
  lemma ReadNumeral(line: string, i: nat, t: string, v: int)
    requires Numeral(t, v)
    requires i + 1 + |t| <= |line| && line[i..i + 1 + |t|] == " " + t
    requires i + 1 + |t| == |line| || !IsDigit(line[i + 1 + |t|])
    ensures ReadIntOf(line, i) == (v, i + 1 + |t|)
  {
    var e := i + 1 + |t|;
    var b := if v < 0 then i + 2 else i + 1;
    assert line[i] == line[i..e][0] == ' ';
    assert line[b..e] == line[i..e][b - i..] == (" " + t)[b - i..];
    if v < 0 {
      assert line[i + 1] == line[i..e][1] == (" " + t)[1] == t[0] == '-';
      assert line[b..e] == t[1..];
    } else {
      assert line[b..e] == t;
    }
    ReadSigned(line, i, if v < 0 then -v else v, v < 0, e);
  }

  /** A space, an optional '-', then digits whose value is `n`. */
  lemma ReadSigned(line: string, i: nat, n: nat, negative: bool, e: nat)
    requires i < |line| && line[i] == ' '
    requires negative ==> i + 1 < |line| && line[i + 1] == '-'
    requires var b := if negative then i + 2 else i + 1;
      b < e <= |line| && AllDigits(line[b..e]) && Decimal(line[b..e]) == n
    requires e == |line| || !IsDigit(line[e])
    ensures ReadIntOf(line, i) == (if negative then -(n as int) else n as int, e)
  {
    var b := if negative then i + 2 else i + 1;
    assert IsDigit(line[b..e][0]);
    DigitRunEnds(line, b, e);
    assert SignEnd(line, i) == b;
  }

  /** One more digit: ten times the value so far, plus the digit. */
  lemma DecimalStep(line: string, b: nat, it: nat)
    requires b <= it < |line| && AllDigits(line[b..it + 1])
    ensures AllDigits(line[b..it]) && IsDigit(line[it])
    ensures Decimal(line[b..it + 1]) == Decimal(line[b..it]) * 10 + (line[it] as int - '0' as int)
  {
    assert line[b..it + 1][..it - b] == line[b..it];
    assert line[b..it + 1][it - b] == line[it];
  }

  /** The digit loop of `ReadInt`. */
  method ReadInt(line: string, i: nat) returns (value: int, it: nat)
    requires i <= |line|
    ensures (value, it) == ReadIntOf(line, i)
  {
    it := i;
    if At(line, it) == ' ' {
      it := it + 1;
    }
    var negative := At(line, it) == '-';
    if negative {
      it := it + 1;
    }
    var n;
    n, it := ReadDigits(line, it);
    value := if negative then -(n as int) else n as int;
  }

  /** The `while` loop of `ReadInt`: the value of the run of digits. */
  method ReadDigits(line: string, b: nat) returns (n: nat, it: nat)
    requires b <= |line|
    ensures it == DigitRun(line, b) && n == Decimal(line[b..it])
  {
    it := b;
    ghost var j := DigitRun(line, b);
    n := 0;
    while it < |line| && IsDigit(line[it])
      invariant b <= it <= j && j == DigitRun(line, it)
      invariant AllDigits(line[b..it]) && n == Decimal(line[b..it])
      decreases |line| - it
    {
      assert AllDigits(line[b..it + 1]) by {
        assert line[b..it + 1] == line[b..it] + [line[it]];
      }
      DecimalStep(line, b, it);
      n := n * 10 + (line[it] as int - '0' as int);
      it := it + 1;
    }
  }

  // ---------------------------------------------------------------------
  // One line of path data

  /** Where the reader is: the cursor, the current command, and the
      current absolute position. */
  datatype Cursor = Cursor(it: nat, mode: char, x: int, y: int)

  /** What one pass of the reading loop does: stop, or move on, emitting
      the new position when it read a number group. */
  datatype Step = Stop | Next(c: Cursor, emits: bool)

  /** One pass of the reading loop as the source writes it: a lowercase
      letter becomes the mode; in mode `v` one number moves y, in `h` one
      number moves x, in `l` or `m` two numbers move x and then y; any
      other mode stops. */
  function StepAsWritten(line: string, c: Cursor): (r: Step)
    requires c.it < |line|
    ensures r.Next? ==> c.it <= r.c.it <= |line|
  {
    var ch := line[c.it];
    if IsLower(ch) then Next(Cursor(c.it + 1, ch, c.x, c.y), false)
    else if c.mode == 'v' then
      var (d, j) := ReadIntOf(line, c.it);
      Next(Cursor(j, c.mode, c.x, c.y + d), true)
    else if c.mode == 'h' then
      var (d, j) := ReadIntOf(line, c.it);
      Next(Cursor(j, c.mode, c.x + d, c.y), true)
    else if c.mode == 'l' || c.mode == 'm' then
      var (dx, j) := ReadIntOf(line, c.it);
      var (dy, k) := ReadIntOf(line, j);
      Next(Cursor(k, c.mode, c.x + dx, c.y + dy), true)
    else Stop
  }

  /** The source's reading loop, run for at most `fuel` passes: `None`
      when the fuel runs out before the loop ends. */
  function RunAsWritten(line: string, c: Cursor, fuel: nat): Option<seq<Point>>
    requires c.it <= |line|
    decreases fuel
  {
    if c.it == |line| then Some([])
    else if fuel == 0 then None
    else match StepAsWritten(line, c)
      case Stop => Some([])
      case Next(d, emits) =>
        match RunAsWritten(line, d, fuel - 1)
        case None => None
        case Some(rest) => Some((if emits then [Point(d.x, d.y)] else []) + rest)
  }

  datatype Option<T> = None | Some(value: T)

  /** A pass that reads a number group and moves nothing leaves the
      reader exactly where it was. */
  lemma NoProgressSpins(line: string, c: Cursor)
    requires c.it < |line| && StepAsWritten(line, c).Next? && StepAsWritten(line, c).c.it == c.it
    ensures StepAsWritten(line, c) == Next(c, true)
  {
    ReadIntProgress(line, c.it);
  }

  /** From a pass that leaves the reader where it was, the source's loop
      never ends. */
  lemma {:induction false} SpinsForEver(line: string, c: Cursor, fuel: nat)
    requires c.it < |line| && StepAsWritten(line, c) == Next(c, true)
    ensures RunAsWritten(line, c, fuel) == None
    decreases fuel
  {
    if fuel > 0 {
      SpinsForEver(line, c, fuel - 1);
    }
  }

  /** A path left open, `<path d="m 1 2"/>`. */
  const OPEN_PATH: string := "<path d=\"m 1 2\"/>"

  /** The passes of the source's loop over the open path: the `m`, the
      pair "1 2", then the closing quote read as an empty group. */
  lemma OpenPathSteps()
    ensures StepAsWritten(OPEN_PATH, Cursor(9, 'l', 0, 0)) == Next(Cursor(10, 'm', 0, 0), false)
    ensures StepAsWritten(OPEN_PATH, Cursor(10, 'm', 0, 0)) == Next(Cursor(14, 'm', 1, 2), true)
    ensures StepAsWritten(OPEN_PATH, Cursor(14, 'm', 1, 2)) == Next(Cursor(14, 'm', 1, 2), true)
  {
    var line := OPEN_PATH;
    assert line[9] == 'm' && line[10] == ' ' && line[11] == '1' && line[12] == ' ' && line[13] == '2' && line[14] == '"';
    assert DigitRun(line, 12) == 12;
    assert DigitRun(line, 11) == 12;
    assert line[11..12] == "1";
    assert ReadIntOf(line, 10) == (1, 12);
    assert DigitRun(line, 14) == 14;
    assert DigitRun(line, 13) == 14;
    assert line[13..14] == "2";
    assert ReadIntOf(line, 12) == (2, 14);
    assert line[14..14] == [];
    assert ReadIntOf(line, 14) == (0, 14);
  }

  /** On the open path the source's loop reaches the closing quote in mode
      `m` and reads an empty number group there for ever: for no number
      of passes does it end. */
  lemma {:induction false} OpenPathHangs(fuel: nat)
    ensures RunAsWritten(OPEN_PATH, Cursor(|PREFIX|, 'l', 0, 0), fuel) == None
  {
    OpenPathSteps();
    SpinsForEver(OPEN_PATH, Cursor(14, 'm', 1, 2), if fuel >= 2 then fuel - 2 else 0);
  }

  /** One pass of the reading loop, stopping instead when a number group
      reads nothing, so that the loop always ends. */
  function StepOf(line: string, c: Cursor): (r: Step)
    requires c.it < |line|
    ensures r.Next? ==> c.it < r.c.it <= |line|
  {
    var s := StepAsWritten(line, c);
    if s.Next? && s.c.it == c.it then Stop else s
  }

  /** The correction changes only the passes on which the source spins. */
  lemma StepOfAgrees(line: string, c: Cursor)
    requires c.it < |line|
    ensures StepOf(line, c) == StepAsWritten(line, c) || StepAsWritten(line, c) == Next(c, true)
  {
    var s := StepAsWritten(line, c);
    if s.Next? && s.c.it == c.it {
      NoProgressSpins(line, c);
    }
  }

  /** The vertices read from `c` on. */
  function Trace(line: string, c: Cursor): seq<Point>
    requires c.it <= |line|
    decreases |line| - c.it
  {
    if c.it == |line| then []
    else match StepOf(line, c)
      case Stop => []
      case Next(d, emits) => (if emits then [Point(d.x, d.y)] else []) + Trace(line, d)
  }

  /** Where the loop starts: after the prefix, in mode `l`, at (0, 0). */
  function Start(pos: nat): Cursor {
    Cursor(pos + |PREFIX|, 'l', 0, 0)
  }

  /** Whenever the source's loop ends, it has emitted what the corrected
      one does. */
  lemma {:induction false} RunAsWrittenAgrees(line: string, c: Cursor, fuel: nat)
    requires c.it <= |line|
    ensures RunAsWritten(line, c, fuel).Some? ==> RunAsWritten(line, c, fuel).value == Trace(line, c)
    decreases fuel
  {
    if c.it < |line| && fuel > 0 {
      var s := StepAsWritten(line, c);
      if s.Next? {
        if s.c.it == c.it {
          NoProgressSpins(line, c);
          SpinsForEver(line, c, fuel);
        } else {
          RunAsWrittenAgrees(line, s.c, fuel - 1);
        }
      }
    }
  }

  /** On the open path the corrected loop ends after the one vertex. */
  lemma OpenPathEnds()
    ensures Trace(OPEN_PATH, Start(0)) == [Point(1, 2)]
  {
    OpenPathSteps();
    var c2 := Cursor(14, 'm', 1, 2);
    assert StepOf(OPEN_PATH, c2) == Stop;
    assert Trace(OPEN_PATH, c2) == [];
    assert Trace(OPEN_PATH, Cursor(10, 'm', 0, 0)) == [Point(1, 2)];
  }

  // ---------------------------------------------------------------------
  // Relative moves read back

  /** One relative move as path data, with the text of its two numbers. */
  datatype Move = Move(d: Point, dx: string, dy: string)

  /** The texts are numerals of the move's two coordinates. */
  predicate Written(m: Move) {
    Numeral(m.dx, m.d.x) && Numeral(m.dy, m.d.y)
  }

  /** A space, dx, a space, dy. */
  function PairText(m: Move): (t: string)
    ensures |t| > 0 && t[0] == ' '
  {
    " " + m.dx + " " + m.dy
  }

  /** The text of relative moves, one pair after another. */
  function MovesText(ms: seq<Move>): string {
    if ms == [] then "" else PairText(ms[0]) + MovesText(ms[1..])
  }

  /** The text of the first move, then that of the rest. */
  lemma MovesTextCons(ms: seq<Move>)
    requires ms != []
    ensures MovesText(ms) == PairText(ms[0]) + MovesText(ms[1..])
  {
  }

  /** Moves are written each after a blank. */
  lemma MovesTextBlank(ms: seq<Move>)
    requires ms != []
    ensures MovesText(ms)[0] == ' '
  {
    MovesTextCons(ms);
  }

  /** The absolute vertices of relative moves from (x, y). */
  function Sums(x: int, y: int, ms: seq<Move>): (r: seq<Point>)
    ensures |r| == |ms|
    decreases |ms|
  {
    if ms == [] then [] else [Point(x + ms[0].d.x, y + ms[0].d.y)] + Sums(x + ms[0].d.x, y + ms[0].d.y, ms[1..])
  }

  function SumX(ms: seq<Move>): int {
    if ms == [] then 0 else ms[0].d.x + SumX(ms[1..])
  }

  function SumY(ms: seq<Move>): int {
    if ms == [] then 0 else ms[0].d.y + SumY(ms[1..])
  }

  /** Where a line holds `a + b`, it holds `a` and then `b`. */
  lemma SliceHalves(line: string, i: nat, a: string, b: string)
    requires i + |a| + |b| <= |line| && line[i..i + |a| + |b|] == a + b
    ensures line[i..i + |a|] == a && line[i + |a|..i + |a| + |b|] == b
  {
    assert line[i..i + |a|] == line[i..i + |a| + |b|][..|a|];
    assert line[i + |a|..i + |a| + |b|] == line[i..i + |a| + |b|][|a|..];
  }

  /** Two numerals, each after a blank, read one after the other. */
  lemma TwoNumerals(line: string, i: nat, t: string, v: int, u: string, w: int)
    requires Numeral(t, v) && Numeral(u, w)
    requires i + 2 + |t| + |u| < |line| && line[i..i + 2 + |t| + |u|] == " " + t + " " + u
    requires !IsDigit(line[i + 2 + |t| + |u|])
    ensures ReadIntOf(line, i) == (v, i + 1 + |t|)
    ensures ReadIntOf(line, i + 1 + |t|) == (w, i + 2 + |t| + |u|)
  {
    var a, b := " " + t, " " + u;
    assert " " + t + " " + u == a + b;
    SliceHalves(line, i, a, b);
    assert line[i + |a|] == b[0];
    ReadNumeral(line, i, t, v);
    ReadNumeral(line, i + |a|, u, w);
  }

  /** At `i` the reader finds the pair `m`: a blank, then `ReadInt`
      yields dx and stops before the second blank, then it yields dy and
      stops at the end of the pair. */
  predicate PairReads(line: string, i: nat, m: Move) {
    var j, k := i + 1 + |m.dx|, i + |PairText(m)|;
    && k < |line| && line[i] == ' ' && j <= k
    && ReadIntOf(line, i) == (m.d.x, j) && ReadIntOf(line, j) == (m.d.y, k)
  }

  /** A written pair, before a blank or a `z`, reads back as its two
      numbers. */
  lemma PairRead(line: string, i: nat, m: Move)
    requires Written(m)
    requires i + |PairText(m)| < |line| && line[i..i + |PairText(m)|] == PairText(m)
    requires line[i + |PairText(m)|] == ' ' || line[i + |PairText(m)|] == 'z'
    ensures PairReads(line, i, m)
  {
    TwoNumerals(line, i, m.dx, m.d.x, m.dy, m.d.y);
    assert line[i] == line[i..i + |PairText(m)|][0];
  }

  /** In mode `l` or `m`, a pass over a pair that reads back moves x by
      dx and y by dy, and emits the new position. */
  lemma MovesStep(line: string, i: nat, mode: char, x: int, y: int, m: Move)
    requires mode == 'l' || mode == 'm'
    requires PairReads(line, i, m)
    ensures StepOf(line, Cursor(i, mode, x, y)) == Next(Cursor(i + |PairText(m)|, mode, x + m.d.x, y + m.d.y), true)
  {
    PairStep(line, i, mode, x, y, m);
  }

  /** The pass as written reads the pair and moves past it. */
  lemma PairStep(line: string, i: nat, mode: char, x: int, y: int, m: Move)
    requires mode == 'l' || mode == 'm'
    requires PairReads(line, i, m)
    ensures StepAsWritten(line, Cursor(i, mode, x, y)) == Next(Cursor(i + |PairText(m)|, mode, x + m.d.x, y + m.d.y), true)
  {
    assert !IsLower(line[i]);
  }

  /** The first pair of moves, and the rest, where the line holds them;
      after the first pair comes a blank or the `z`. */
  lemma MovesSlices(line: string, i: nat, ms: seq<Move>)
    requires ms != [] && i + |MovesText(ms)| < |line| && line[i..i + |MovesText(ms)|] == MovesText(ms)
    requires line[i + |MovesText(ms)|] == 'z'
    ensures |MovesText(ms)| == |PairText(ms[0])| + |MovesText(ms[1..])|
    ensures var k := i + |PairText(ms[0])|;
      && line[i..k] == PairText(ms[0])
      && line[k..k + |MovesText(ms[1..])|] == MovesText(ms[1..])
      && line[k + |MovesText(ms[1..])|] == 'z'
      && (line[k] == ' ' || line[k] == 'z')
  {
    MovesTextCons(ms);
    if ms[1..] != [] {
      MovesTextBlank(ms[1..]);
    }
    PairThenRest(line, i, MovesText(ms), PairText(ms[0]), MovesText(ms[1..]));
  }

  /** Where a line holds `t + rest` before a `z`, and `rest` is empty or
      starts with a blank, the character after `t` is a blank or the `z`. */
  lemma PairThenRest(line: string, i: nat, s: string, t: string, rest: string)
    requires s == t + rest
    requires i + |s| < |line| && line[i..i + |s|] == s && line[i + |s|] == 'z'
    requires rest != [] ==> rest[0] == ' '
    ensures |s| == |t| + |rest|
    ensures line[i..i + |t|] == t && line[i + |t|..i + |t| + |rest|] == rest
    ensures line[i + |t| + |rest|] == 'z'
    ensures line[i + |t|] == ' ' || line[i + |t|] == 'z'
  {
    SliceHalves(line, i, t, rest);
    if rest != [] {
      assert line[i + |t|] == rest[0];
    }
  }

  /** One emitting pass, then whatever follows it: the trace from the
      start is the new position, then the rest. */
  lemma TraceChain(line: string, c: Cursor, d: Cursor, e: Cursor, s: seq<Point>)
    requires c.it < |line| && StepOf(line, c) == Next(d, true)
    requires e.it <= |line| && Trace(line, d) == s + Trace(line, e)
    ensures Trace(line, c) == [Point(d.x, d.y)] + s + Trace(line, e)
  {
  }

  /** The passes the loop makes over the moves from `c`: the vertices it
      emits, and where it leaves the reader. */
  function Walk(c: Cursor, ms: seq<Move>): (seq<Point>, Cursor)
    decreases |ms|
  {
    if ms == [] then ([], c)
    else
      var d := Cursor(c.it + |PairText(ms[0])|, c.mode, c.x + ms[0].d.x, c.y + ms[0].d.y);
      var w := Walk(d, ms[1..]);
      ([Point(d.x, d.y)] + w.0, w.1)
  }

  /** From `c`, the loop makes exactly the passes of the walk. */
  predicate Passes(line: string, c: Cursor, ms: seq<Move>)
    decreases |ms|
  {
    ms == [] || (
      var d := Cursor(c.it + |PairText(ms[0])|, c.mode, c.x + ms[0].d.x, c.y + ms[0].d.y);
      && c.it < |line| && StepOf(line, c) == Next(d, true)
      && Passes(line, d, ms[1..]))
  }

  /** The trace along such passes is the walk's vertices. */
  lemma {:induction false} PassesTrace(line: string, c: Cursor, ms: seq<Move>)
    requires Walk(c, ms).1.it <= |line| && Passes(line, c, ms)
    ensures Trace(line, c) == Walk(c, ms).0 + Trace(line, Walk(c, ms).1)
    decreases |ms|
  {
    if ms != [] {
      var d := Cursor(c.it + |PairText(ms[0])|, c.mode, c.x + ms[0].d.x, c.y + ms[0].d.y);
      var w := Walk(d, ms[1..]);
      PassesTrace(line, d, ms[1..]);
      TraceChain(line, c, d, w.1, w.0);
    }
  }

  /** The walk emits the running sums of the moves and ends past their
      text, moved by their totals. */
  lemma {:induction false} WalkSums(c: Cursor, ms: seq<Move>)
    ensures Walk(c, ms).0 == Sums(c.x, c.y, ms)
    ensures Walk(c, ms).1 == Cursor(c.it + |MovesText(ms)|, c.mode, c.x + SumX(ms), c.y + SumY(ms))
    decreases |ms|
  {
    if ms != [] {
      var d := Cursor(c.it + |PairText(ms[0])|, c.mode, c.x + ms[0].d.x, c.y + ms[0].d.y);
      WalkSums(d, ms[1..]);
    }
  }

  /** From `i` the reader finds the moves pair after pair, and then the
      `z`. */
  predicate MovesAt(line: string, i: nat, ms: seq<Move>)
    decreases |ms|
  {
    if ms == [] then i < |line| && line[i] == 'z'
    else PairReads(line, i, ms[0]) && MovesAt(line, i + |PairText(ms[0])|, ms[1..])
  }

  /** The written moves before a `z` are found there pair by pair. */
  lemma {:induction false} MovesAtOf(line: string, i: nat, ms: seq<Move>)
    requires AllWritten(ms)
    requires i + |MovesText(ms)| < |line| && line[i..i + |MovesText(ms)|] == MovesText(ms)
    requires line[i + |MovesText(ms)|] == 'z'
    ensures MovesAt(line, i, ms)
    decreases |ms|
  {
    if ms != [] {
      MovesSlices(line, i, ms);
      MovesAtOf(line, i + |PairText(ms[0])|, ms[1..]);
      PairRead(line, i, ms[0]);
    }
  }

  /** After `m` or `l`, every pair the reader finds, up to the `z`, makes
      one pass of the walk. */
  lemma {:induction false} MovesPasses(line: string, c: Cursor, ms: seq<Move>)
    requires c.mode == 'l' || c.mode == 'm'
    requires MovesAt(line, c.it, ms)
    ensures Passes(line, c, ms)
    decreases |ms|
  {
    if ms != [] {
      var d := Cursor(c.it + |PairText(ms[0])|, c.mode, c.x + ms[0].d.x, c.y + ms[0].d.y);
      MovesPasses(line, d, ms[1..]);
      MovesStep(line, c.it, c.mode, c.x, c.y, ms[0]);
    }
  }

  /** Every move is written as a numeral pair, taken one move at a time. */
  predicate AllWritten(ms: seq<Move>)
    decreases |ms|
  {
    ms == [] || (Written(ms[0]) && AllWritten(ms[1..]))
  }

  lemma {:induction false} AllWrittenOf(ms: seq<Move>)
    requires forall k :: 0 <= k < |ms| ==> Written(ms[k])
    ensures AllWritten(ms)
    decreases |ms|
  {
    if ms != [] {
      assert forall k :: 0 <= k < |ms[1..]| ==> ms[1..][k] == ms[k + 1];
      AllWrittenOf(ms[1..]);
    }
  }

  /** After `m` or `l`, the written number pairs up to the `z` are read
      as the running sums of the moves, leaving the reader at the `z`. */
  lemma MovesRead(line: string, c: Cursor, ms: seq<Move>)
    requires c.mode == 'l' || c.mode == 'm'
    requires MovesAt(line, c.it, ms) && c.it + |MovesText(ms)| < |line|
    ensures Trace(line, c) == Sums(c.x, c.y, ms) + Trace(line, Cursor(c.it + |MovesText(ms)|, c.mode, c.x + SumX(ms), c.y + SumY(ms)))
  {
    WalkSums(c, ms);
    MovesPasses(line, c, ms);
    PassesTrace(line, c, ms);
  }

  /** A closed relative path: `<path d="m`, the moves, then `z"/>`. */
  function PathText(ms: seq<Move>): string {
    PREFIX + "m" + MovesText(ms) + "z\"/>"
  }

  /** The passes at both ends of a closed path: the `m`, then the `z` and
      the closing quote, after which the loop stops. */
  lemma PathEnds(ms: seq<Move>, x: int, y: int)
    ensures var line, e := PathText(ms), |PREFIX| + 1 + |MovesText(ms)|;
      && |line| == e + 4
      && StepOf(line, Start(0)) == Next(Cursor(|PREFIX| + 1, 'm', 0, 0), false)
      && Trace(line, Cursor(e, 'm', x, y)) == []
  {
    var line, m := PathText(ms), MovesText(ms);
    var e := |PREFIX| + 1 + |m|;
    assert line == PREFIX + "m" + m + "z\"/>";
    assert line[9] == 'm';
    assert line[e] == 'z' && line[e + 1] == '"';
    var c := Cursor(e, 'm', x, y);
    var z := Cursor(e + 1, 'z', x, y);
    assert StepOf(line, c) == Next(z, false);
    assert StepOf(line, z) == Stop;
  }

  /** Between the `m` and the `z` of a closed path its moves stand pair
      by pair. */
  lemma PathMovesAt(ms: seq<Move>)
    requires AllWritten(ms)
    ensures MovesAt(PathText(ms), |PREFIX| + 1, ms)
  {
    var line, m := PathText(ms), MovesText(ms);
    var e := |PREFIX| + 1 + |m|;
    assert line == PREFIX + "m" + m + "z\"/>";
    assert line[|PREFIX| + 1..e] == m;
    assert line[e] == 'z';
    MovesAtOf(line, |PREFIX| + 1, ms);
  }

  /** A closed relative path, `<path d="m dx dy dx dy ... z"/>`, reads
      back as the running sums of its moves. */
  lemma ClosedPathRead(ms: seq<Move>)
    requires forall k :: 0 <= k < |ms| ==> Written(ms[k])
    ensures Trace(PathText(ms), Start(0)) == Sums(0, 0, ms)
  {
    PathEnds(ms, SumX(ms), SumY(ms));
    AllWrittenOf(ms);
    PathMovesAt(ms);
    EndsRead(PathText(ms), ms);
  }

  /** A line whose ends are as `PathEnds` describes reads back as the
      running sums of the moves between them. */
  lemma EndsRead(line: string, ms: seq<Move>)
    requires MovesAt(line, |PREFIX| + 1, ms)
    requires var e := |PREFIX| + 1 + |MovesText(ms)|;
      && |line| == e + 4
      && StepOf(line, Start(0)) == Next(Cursor(|PREFIX| + 1, 'm', 0, 0), false)
      && Trace(line, Cursor(e, 'm', SumX(ms), SumY(ms))) == []
    ensures Trace(line, Start(0)) == Sums(0, 0, ms)
  {
    var c := Cursor(|PREFIX| + 1, 'm', 0, 0);
    var e := Cursor(c.it + |MovesText(ms)|, c.mode, c.x + SumX(ms), c.y + SumY(ms));
    ReadBetween(line, ms, c, e);
    assert Trace(line, Start(0)) == Trace(line, c);
  }

  /** Moves up to a `z` after which the line yields nothing more read
      back as their running sums. */
  lemma ReadBetween(line: string, ms: seq<Move>, c: Cursor, e: Cursor)
    requires c.mode == 'l' || c.mode == 'm'
    requires MovesAt(line, c.it, ms) && c.it + |MovesText(ms)| < |line|
    requires e == Cursor(c.it + |MovesText(ms)|, c.mode, c.x + SumX(ms), c.y + SumY(ms))
    requires Trace(line, e) == []
    ensures Trace(line, c) == Sums(c.x, c.y, ms)
  {
    MovesRead(line, c, ms);
    assert Sums(c.x, c.y, ms) + [] == Sums(c.x, c.y, ms);
  }

  /** The moves `ostream` would write for relative steps. */
  function WrittenMoves(ds: seq<Point>): (ms: seq<Move>)
    ensures |ms| == |ds|
  {
    if ds == [] then [] else [Move(ds[0], IntText(ds[0].x), IntText(ds[0].y))] + WrittenMoves(ds[1..])
  }

  /** Relative steps written with `ostream` and closed read back as the
      running sums of the steps. */
  lemma WrittenPathRead(ds: seq<Point>)
    ensures var ms := WrittenMoves(ds);
      && (forall k :: 0 <= k < |ds| ==> ms[k].d == ds[k])
      && Trace(PathText(ms), Start(0)) == Sums(0, 0, ms)
  {
    var ms := WrittenMoves(ds);
    WrittenMovesAre(ds);
    forall k | 0 <= k < |ms|
      ensures Written(ms[k])
    {
      IntTextNumeral(ds[k].x);
      IntTextNumeral(ds[k].y);
    }
    ClosedPathRead(ms);
  }

  lemma {:induction false} WrittenMovesAre(ds: seq<Point>)
    ensures forall k :: 0 <= k < |ds| ==> WrittenMoves(ds)[k] == Move(ds[k], IntText(ds[k].x), IntText(ds[k].y))
  {
    if ds != [] {
      WrittenMovesAre(ds[1..]);
    }
  }

  // ---------------------------------------------------------------------
  // Whole lines

  predicate PrefixAt(line: string, k: nat) {
    k + |PREFIX| <= |line| && line[k..k + |PREFIX|] == PREFIX
  }

  /** `line.find(PREFIX)` from `i` on: the first place the prefix starts. */
  function FindPrefix(line: string, i: nat): (r: Option<nat>)
    ensures r.Some? ==> i <= r.value && PrefixAt(line, r.value)
    ensures forall k :: i <= k && (r.None? || k < r.value) ==> !PrefixAt(line, k)
    decreases |line| - i
  {
    if i + |PREFIX| > |line| then None
    else if line[i..i + |PREFIX|] == PREFIX then Some(i)
    else FindPrefix(line, i + 1)
  }

  /** The text written for one vertex. */
  function VertexText(p: Point): string {
    " " + IntText(p.x) + "," + IntText(p.y)
  }

  function VerticesText(ps: seq<Point>): string {
    if ps == [] then "" else VertexText(ps[0]) + VerticesText(ps[1..])
  }

  /** What one input line produces: nothing without the prefix; else a
      "mask" line with its vertices, then an empty line. */
  function LineOutput(line: string): seq<string> {
    match FindPrefix(line, 0)
    case None => []
    case Some(pos) => ["mask" + VerticesText(Trace(line, Start(pos))), ""]
  }

  function Output(lines: seq<string>): seq<string> {
    if lines == [] then [] else Output(lines[..|lines| - 1]) + LineOutput(lines[|lines| - 1])
  }

  /** Each line is converted on its own: the output of two runs of lines
      is the output of the first, then that of the second. */
  lemma {:induction false} OutputConcat(a: seq<string>, b: seq<string>)
    ensures Output(a + b) == Output(a) + Output(b)
    decreases |b|
  {
    if b == [] {
      assert a + b == a;
    } else {
      var n := |b| - 1;
      assert (a + b)[..|a + b| - 1] == a + b[..n];
      OutputConcat(a, b[..n]);
    }
  }

  /** The number-group branches of the reading loop: `v` moves y, `h`
      moves x, `l` and `m` move x and then y; any other mode breaks. */
  method ReadGroup(line: string, it: nat, mode: char, x: int, y: int) returns (ok: bool, next: nat, nx: int, ny: int)
    requires it < |line| && !IsLower(line[it])
    ensures ok ==> StepAsWritten(line, Cursor(it, mode, x, y)) == Next(Cursor(next, mode, nx, ny), true)
    ensures !ok ==> StepAsWritten(line, Cursor(it, mode, x, y)) == Stop
  {
    ok, next, nx, ny := true, it, x, y;
    if mode == 'v' {
      var d;
      d, next := ReadInt(line, it);
      ny := y + d;
    } else if mode == 'h' {
      var d;
      d, next := ReadInt(line, it);
      nx := x + d;
    } else if mode == 'l' || mode == 'm' {
      var dx, dy, j;
      dx, j := ReadInt(line, it);
      dy, next := ReadInt(line, j);
      nx, ny := x + dx, y + dy;
    } else {
      ok := false;
    }
  }

  /** The reading loop of `main` for one line, with a number group that
      reads nothing ending the line: the vertices it writes. */
  method ReadPath(line: string, pos: nat) returns (points: seq<Point>)
    requires pos + |PREFIX| <= |line|
    ensures points == Trace(line, Start(pos))
  {
    var mode := 'l';
    var x, y := 0, 0;
    var it := pos + |PREFIX|;
    points := [];
    while it != |line|
      invariant it <= |line|
      invariant points + Trace(line, Cursor(it, mode, x, y)) == Trace(line, Start(pos))
      decreases |line| - it
    {
      ghost var c := Cursor(it, mode, x, y);
      if IsLower(line[it]) {
        mode := line[it];
        it := it + 1;
        assert Trace(line, c) == Trace(line, Cursor(it, mode, x, y));
      } else {
        var ok, next, nx, ny := ReadGroup(line, it, mode, x, y);
        if !ok || next == it {
          assert Trace(line, c) == [];
          break;
        }
        it, x, y := next, nx, ny;
        assert Trace(line, c) == [Point(x, y)] + Trace(line, Cursor(it, mode, x, y));
        points := points + [Point(x, y)];
      }
    }
  }

  /** `main`: every input line in turn. */
  method Convert(lines: seq<string>) returns (out: seq<string>)
    ensures out == Output(lines)
  {
    out := [];
    for n := 0 to |lines|
      invariant out == Output(lines[..n])
    {
      var line := lines[n];
      assert lines[..n + 1][..n] == lines[..n];
      var found := FindPrefix(line, 0);
      if found.Some? {
        var points := ReadPath(line, found.value);
        out := out + ["mask" + VerticesText(points), ""];
      }
    }
    assert lines[..|lines|] == lines;
  }
}

// The data-file reader: a cursor over lines, each line split into
// whitespace-separated tokens, and the conversions of one token to a string,
// a flag, an integer or a point.
module DataFiles {
  import opened Points
  import opened Decimals

  /** C's `isspace` in the "C" locale: space, \t, \n, \v, \f and \r. */
  predicate IsSpace(c: char) {
    c == ' ' || c == '\t' || c == '\n' || c == '\r' || c as int == 11 || c as int == 12
  }

  // ---------------------------------------------------------------------
  // Tokens

  /** How many entries of `t` are at most `j`. */
  function Below(t: seq<nat>, j: int): nat {
    if t == [] then 0 else Below(t[..|t| - 1], j) + (if t[|t| - 1] <= j then 1 else 0)
  }

  predicate Increasing(t: seq<nat>) {
    forall a, b :: 0 <= a < b < |t| ==> t[a] < t[b]
  }

  /** `t` is the token table of `line`: pairs of (start, end) indices in
      increasing order, such that a character is part of a token exactly
      when an odd number of indices lie at or before it. */
  predicate Tokenized(line: string, t: seq<nat>) {
    && |t| % 2 == 0
    && Increasing(t)
    && (forall a :: 0 <= a < |t| ==> t[a] <= |line|)
    && forall j :: 0 <= j < |line| ==> (!IsSpace(line[j]) <==> Below(t, j) % 2 == 1)
  }

  lemma BelowSnoc(t: seq<nat>, v: nat, j: int)
    ensures Below(t + [v], j) == Below(t, j) + (if v <= j then 1 else 0)
  {
    assert (t + [v])[..|t|] == t;
  }

  /** Appending an entry above all others keeps the list increasing. */
  lemma SnocIncreasing(t: seq<nat>, v: nat)
    requires Increasing(t) && forall a :: 0 <= a < |t| ==> t[a] < v
    ensures Increasing(t + [v])
  {
    var u := t + [v];
    forall a, b | 0 <= a < b < |u|
      ensures u[a] < u[b]
    {
      assert u[a] == t[a];
    }
  }

  /** `Below(t, j)` splits an increasing `t` into the entries at most `j`
      and those above it. */
  lemma {:induction false} BelowRank(t: seq<nat>, j: int)
    requires Increasing(t)
    ensures Below(t, j) <= |t|
    ensures forall a :: 0 <= a < Below(t, j) ==> t[a] <= j
    ensures forall a :: Below(t, j) <= a < |t| ==> t[a] > j
  {
    if t != [] {
      var n := |t|;
      var u := t[..n - 1];
      assert Increasing(u);
      BelowRank(u, j);
    }
  }

  /** The index of the entry pair around `j`, when `t` is increasing. */
  lemma BelowBetween(t: seq<nat>, j: int, b: nat)
    requires Increasing(t) && b <= |t|
    requires b == 0 || t[b - 1] <= j
    requires b == |t| || j < t[b]
    ensures Below(t, j) == b
  {
    BelowRank(t, j);
  }

  /** Token `p` of a tokenized line is a maximal run of non-space characters. */
  lemma TokenRun(line: string, t: seq<nat>, p: nat)
    requires Tokenized(line, t) && 2 * p + 1 < |t|
    ensures t[2 * p] < t[2 * p + 1] <= |line|
    ensures forall j :: t[2 * p] <= j < t[2 * p + 1] ==> !IsSpace(line[j])
    ensures t[2 * p] == 0 || IsSpace(line[t[2 * p] - 1])
    ensures t[2 * p + 1] == |line| || IsSpace(line[t[2 * p + 1]])
  {
    var s, e := t[2 * p], t[2 * p + 1];
    forall j | s <= j < e
      ensures !IsSpace(line[j])
    {
      BelowBetween(t, j, 2 * p + 1);
    }
    if s > 0 {
      BelowBetween(t, s - 1, 2 * p);
    }
    if e < |line| {
      BelowBetween(t, e, 2 * p + 2);
    }
  }

  /** Every non-space character lies inside some token. */
  lemma TokenCovers(line: string, t: seq<nat>, j: nat)
    requires Tokenized(line, t) && j < |line| && !IsSpace(line[j])
    ensures exists p :: 0 <= p < |t| / 2 && t[2 * p] <= j < t[2 * p + 1]
  {
    BelowRank(t, j);
    var b := Below(t, j);
    var p := (b - 1) / 2;
    assert 2 * p == b - 1;
    assert t[2 * p] <= j;
  }

  /** What the walk over `line[..i]` has recorded: the token indices so far,
      an odd number of them while inside a token. */
  predicate Scanned(line: string, t: seq<nat>, i: nat)
    requires i <= |line|
  {
    && (|t| % 2 == 0 <==> i == 0 || IsSpace(line[i - 1]))
    && Increasing(t)
    && (forall a :: 0 <= a < |t| ==> t[a] < i)
    && forall j :: 0 <= j < i ==> (!IsSpace(line[j]) <==> Below(t, j) % 2 == 1)
  }

  /** A change of whitespace status records the index. */
  lemma ScanRecord(line: string, t: seq<nat>, i: nat)
    requires i < |line| && Scanned(line, t, i) && Below(t, i) == |t|
    requires IsSpace(line[i]) != (i == 0 || IsSpace(line[i - 1]))
    ensures Scanned(line, t + [i], i + 1)
  {
    var u := t + [i];
    SnocIncreasing(t, i);
    forall j | 0 <= j < i + 1
      ensures !IsSpace(line[j]) <==> Below(u, j) % 2 == 1
    {
      BelowSnoc(t, i, j);
    }
  }

  /** No change of whitespace status records nothing. */
  lemma ScanSkip(line: string, t: seq<nat>, i: nat)
    requires i < |line| && Scanned(line, t, i) && Below(t, i) == |t|
    requires IsSpace(line[i]) == (i == 0 || IsSpace(line[i - 1]))
    ensures Scanned(line, t, i + 1)
  {
  }

  /** Closing an open last token at the end of the line completes the table. */
  lemma ScanDone(line: string, t: seq<nat>)
    requires Scanned(line, t, |line|)
    ensures Tokenized(line, if |t| % 2 == 1 then t + [|line|] else t)
  {
    if |t| % 2 == 1 {
      var u := t + [|line|];
      SnocIncreasing(t, |line|);
      forall j | 0 <= j < |line|
        ensures !IsSpace(line[j]) <==> Below(u, j) % 2 == 1
      {
        BelowSnoc(t, |line|, j);
      }
    }
  }

  /** The indices the walk over `line[..i]` records: that of every character
      whose whitespace status differs from the previous character's (a line
      starts in whitespace). */
  function ScanOf(line: string, i: nat): seq<nat>
    requires i <= |line|
  {
    if i == 0 then []
    else
      var t := ScanOf(line, i - 1);
      var was := i - 1 == 0 || IsSpace(line[i - 2]);
      if IsSpace(line[i - 1]) != was then t + [i - 1] else t
  }

  /** One character of the walk: its index is recorded exactly when its
      whitespace status differs from the previous character's. */
  lemma ScanStep(line: string, i: nat)
    requires i < |line| && Scanned(line, ScanOf(line, i), i)
    ensures Scanned(line, ScanOf(line, i + 1), i + 1)
  {
    var t := ScanOf(line, i);
    BelowBetween(t, i, |t|);
    if IsSpace(line[i]) != (i == 0 || IsSpace(line[i - 1])) {
      assert ScanOf(line, i + 1) == t + [i];
      ScanRecord(line, t, i);
    } else {
      assert ScanOf(line, i + 1) == t;
      ScanSkip(line, t, i);
    }
  }

  /** The walk's indices are what `Scanned` describes. */
  lemma {:induction false} ScanOfScanned(line: string, i: nat)
    requires i <= |line|
    ensures Scanned(line, ScanOf(line, i), i)
  {
    if i > 0 {
      ScanOfScanned(line, i - 1);
      ScanStep(line, i - 1);
    }
  }

  /** The token table of a line: the walk's indices, with an open last token
      closed at the end of the line. */
  function TokensOf(line: string): (t: seq<nat>)
    ensures |t| % 2 == 0
  {
    var t := ScanOf(line, |line|);
    if |t| % 2 == 1 then t + [|line|] else t
  }

  /** The token table of a line is what `Tokenized` describes. */
  lemma TokensOfTokenized(line: string)
    ensures Tokenized(line, TokensOf(line))
  {
    ScanOfScanned(line, |line|);
    ScanDone(line, ScanOf(line, |line|));
  }

  /** `Tokenize`'s loop: an index is recorded wherever the character's
      whitespace status differs from the previous one's (a line starts in
      whitespace), and the last token is closed at the end of the line. */
  method TokenizeLine(line: string) returns (tokens: seq<nat>)
    ensures tokens == TokensOf(line) && Tokenized(line, tokens)
  {
    tokens := [];
    var was := true;
    for i := 0 to |line|
      invariant was == (i == 0 || IsSpace(line[i - 1]))
      invariant tokens == ScanOf(line, i)
    {
      tokens, was := TokenizeStep(line, tokens, i, was);
    }
    if |tokens| % 2 == 1 {
      tokens := tokens + [|line|];
    }
    TokensOfTokenized(line);
  }

  /** One character of `Tokenize`'s loop. */
  method TokenizeStep(line: string, tokens: seq<nat>, i: nat, was: bool) returns (next: seq<nat>, space: bool)
    requires i < |line| && tokens == ScanOf(line, i) && was == (i == 0 || IsSpace(line[i - 1]))
    ensures next == ScanOf(line, i + 1) && space == IsSpace(line[i])
  {
    space := IsSpace(line[i]);
    next := tokens;
    if space != was {
      next := tokens + [i];
    }
  }

  /** The number of tokens on a line. */
  function TokenCount(line: string): nat
  {
    |TokensOf(line)| / 2
  }

  /** Token `index` of a line: a maximal run of non-space characters. */
  function TokenOf(line: string, index: nat): (arg: Arg)
    requires index < TokenCount(line)
    ensures arg.Valid() && arg.line == line && 0 < |arg.Text()|
    ensures forall j :: 0 <= j < |arg.Text()| ==> !IsSpace(arg.Text()[j])
    ensures arg.start == 0 || IsSpace(line[arg.start - 1])
    ensures arg.end == |line| || IsSpace(line[arg.end])
  {
    var t := TokensOf(line);
    TokensOfTokenized(line);
    TokenRun(line, t, index);
    Arg(line, t[2 * index], t[2 * index + 1])
  }

  /** The first token of a line, or the empty string for a blank line. */
  function TagOf(line: string): string
  {
    if TokenCount(line) == 0 then [] else TokenOf(line, 0).Text()
  }

  /** A line with no token is all whitespace; otherwise its first token
      starts at its first non-space character. */
  lemma IndentSpan(line: string)
    ensures var t := TokensOf(line);
            && (t == [] ==> forall j :: 0 <= j < |line| ==> IsSpace(line[j]))
            && (t != [] ==> t[0] < |line| && !IsSpace(line[t[0]]))
            && (t != [] ==> forall j :: 0 <= j < t[0] ==> IsSpace(line[j]))
  {
    var t := TokensOf(line);
    TokensOfTokenized(line);
    if t == [] {
      assert forall j :: 0 <= j < |line| ==> Below(t, j) == 0;
    } else {
      TokenRun(line, t, 0);
      forall j | 0 <= j < t[0]
        ensures IsSpace(line[j])
      {
        BelowBetween(t, j, 0);
      }
    }
  }

  /** The tag of a line is empty exactly when the line has no token, and is
      otherwise its first token: non-space characters followed by a space or
      the end of the line. */
  lemma TagSpan(line: string)
    ensures var t, r := TokensOf(line), TagOf(line);
            && (r == [] <==> t == [])
            && (t != [] ==> t[0] < t[1] <= |line| && r == line[t[0]..t[1]])
            && (t != [] ==> t[1] == |line| || IsSpace(line[t[1]]))
            && forall j :: 0 <= j < |r| ==> !IsSpace(r[j])
  {
    var t := TokensOf(line);
    if t != [] {
      var arg := TokenOf(line, 0);
      assert arg == Arg(line, t[0], t[1]);
    }
  }

  /** The text of a line from the start of token `index` to the end of its
      last token; empty when the line has no token `index`. */
  function ValueOf(line: string, index: nat): string
  {
    var t := TokensOf(line);
    TokensOfTokenized(line);
    if |t| < 2 * (index + 1) then [] else line[t[2 * index]..t[|t| - 1]]
  }

  /** `ValueOf(line, index)` runs from the start of token `index` through the
      end of the last token, so it starts with that token and ends on a
      non-space character followed by a space or the end of the line. */
  lemma ValueOfSpan(line: string, index: nat)
    ensures index >= TokenCount(line) ==> ValueOf(line, index) == []
    ensures index < TokenCount(line) ==>
              var r, t := ValueOf(line, index), TokensOf(line);
              var pos, stop, end := t[2 * index], t[2 * index + 1], t[|t| - 1];
              && pos < stop <= end <= |line|
              && r == line[pos..end]
              && r[..stop - pos] == line[pos..stop]
              && !IsSpace(line[end - 1])
              && (end == |line| || IsSpace(line[end]))
  {
    var t := TokensOf(line);
    if |t| >= 2 * (index + 1) {
      var pos, stop, end := t[2 * index], t[2 * index + 1], t[|t| - 1];
      ValueSpan(line, index);
      assert line[pos..end][..stop - pos] == line[pos..stop];
    }
  }

  // ---------------------------------------------------------------------
  // Numbers

  /** The end of the run of characters from `i` that satisfy `digits` (or,
      when `digits` is false, that are whitespace). */
  function RunEnd(s: string, i: nat, digits: bool): (k: nat)
    requires i <= |s|
    ensures i <= k <= |s|
    ensures forall j :: i <= j < k ==> (if digits then IsDigit(s[j]) else IsSpace(s[j]))
    ensures k < |s| ==> !(if digits then IsDigit(s[k]) else IsSpace(s[k]))
    decreases |s| - i
  {
    if i < |s| && (if digits then IsDigit(s[i]) else IsSpace(s[i])) then RunEnd(s, i + 1, digits) else i
  }

  /** C's `atoi` on the characters from `i` on: leading whitespace, an
      optional sign, then the longest run of decimal digits; 0 when there
      are no digits. */
  function Atoi(s: string, i: nat): int
    requires i <= |s|
  {
    var k := RunEnd(s, i, false);
    if k < |s| && (s[k] == '-' || s[k] == '+') then
      var v := Decimal(s[k + 1..RunEnd(s, k + 1, true)]);
      if s[k] == '-' then -(v as int) else v
    else
      Decimal(s[k..RunEnd(s, k, true)])
  }

  /** `atoi` of a run of digits that the line ends, or ends with a
      character that is not a digit, is the run's decimal value. */
  lemma AtoiDigits(s: string, i: nat, e: nat)
    requires i < e <= |s| && AllDigits(s[i..e]) && (e == |s| || !IsDigit(s[e]))
    ensures Atoi(s, i) == Decimal(s[i..e])
  {
    assert IsDigit(s[i..e][0]);
    assert RunEnd(s, i, false) == i;
  }

  /** `DirPath(path)`: everything up to and including the last '/', or the
      empty string when there is none. */
  function DirPath(path: string): (r: string)
    ensures |r| <= |path| && r == path[..|r|]
    ensures r == [] || r[|r| - 1] == '/'
    ensures forall j :: |r| <= j < |path| ==> path[j] != '/'
  {
    if path == [] then []
    else if path[|path| - 1] == '/' then path
    else DirPath(path[..|path| - 1])
  }

  // ---------------------------------------------------------------------
  // Arguments

  /** The spelling of the false flag. */
  const FALSE: string := "false"

  /** A token of a line: the characters `line[start..end]`. */
  datatype Arg = Arg(line: string, start: nat, end: nat) {

    predicate Valid() {
      start <= end <= |line|
    }

    /** The conversion to a string. */
    function Text(): (r: string)
      requires Valid()
      ensures |r| == end - start
      ensures forall j :: 0 <= j < |r| ==> r[j] == line[start + j]
    {
      line[start..end]
    }

    /** The conversion to a flag: `compare` returns 0, and so the flag holds,
        exactly when the token is five characters long and spells "false". */
    function Flag(): (b: bool)
      requires Valid()
      ensures b <==> end - start == 5 && forall j :: 0 <= j < 5 ==> line[start + j] == FALSE[j]
    {
      Text() == FALSE
    }

    /** The conversion to an integer is `atoi` from the token's start. */
    function Int(): int
      requires Valid()
    {
      Atoi(line, start)
    }
  }

  /** `IsInt`: every character of the token is a decimal digit (so the empty
      token passes, and a sign does not). */
  method IsInt(arg: Arg) returns (b: bool)
    requires arg.Valid()
    ensures b <==> AllDigits(arg.Text())
  {
    for i := arg.start to arg.end
      invariant forall j :: arg.start <= j < i ==> IsDigit(arg.line[j])
    {
      if arg.line[i] < '0' || arg.line[i] > '9' {
        assert !IsDigit(arg.Text()[i - arg.start]);
        return false;
      }
    }
    return true;
  }

  /** The first comma of `line[i..end]`, or `end` when there is none. */
  function CommaFrom(line: string, i: nat, end: nat): (c: nat)
    requires i <= end <= |line|
    ensures i <= c <= end && (c < end ==> line[c] == ',')
    ensures forall j :: i <= j < c ==> line[j] != ','
    decreases end - i
  {
    if i == end then end else if line[i] == ',' then i else CommaFrom(line, i + 1, end)
  }

  /** The point a token converts to. */
  function PointValue(arg: Arg): Point
    requires arg.Valid()
  {
    var c := CommaFrom(arg.line, arg.start, arg.end);
    if c == arg.end then Origin() else Point(Atoi(arg.line, arg.start), Atoi(arg.line, c + 1))
  }

  /** A token with no comma converts to (0, 0). */
  lemma PointValueNoComma(arg: Arg)
    requires arg.Valid() && forall j :: arg.start <= j < arg.end ==> arg.line[j] != ','
    ensures PointValue(arg) == Origin()
  {
  }

  /** Otherwise it converts to `atoi` of its start and `atoi` after its
      first comma. */
  lemma PointValueAtComma(arg: Arg, c: nat)
    requires arg.Valid() && arg.start <= c < arg.end && arg.line[c] == ','
    requires forall j :: arg.start <= j < c ==> arg.line[j] != ','
    ensures PointValue(arg) == Point(Atoi(arg.line, arg.start), Atoi(arg.line, c + 1))
  {
    CommaFirst(arg.line, arg.start, arg.end, c);
  }

  lemma {:induction false} CommaFirst(line: string, i: nat, end: nat, c: nat)
    requires i <= c < end <= |line| && line[c] == ','
    requires forall j :: i <= j < c ==> line[j] != ','
    ensures CommaFrom(line, i, end) == c
    decreases c - i
  {
    if i < c {
      CommaFirst(line, i + 1, end, c);
    }
  }

  /** The conversion to a point. */
  method ArgPoint(arg: Arg) returns (p: Point)
    requires arg.Valid()
    ensures p == PointValue(arg)
  {
    var c := FindComma(arg);
    if c == arg.end {
      return Origin();
    }
    return Point(Atoi(arg.line, arg.start), Atoi(arg.line, c + 1));
  }

  /** The scan of a token for its first comma. */
  method FindComma(arg: Arg) returns (c: nat)
    requires arg.Valid()
    ensures c == CommaFrom(arg.line, arg.start, arg.end)
  {
    c := arg.start;
    while c < arg.end && arg.line[c] != ','
      invariant arg.start <= c <= arg.end
      invariant CommaFrom(arg.line, c, arg.end) == CommaFrom(arg.line, arg.start, arg.end)
      decreases arg.end - c
    {
      c := c + 1;
    }
  }

  // ---------------------------------------------------------------------
  // The reader

  /** A data file read from an in-memory list of lines, with the cursor `it`
      and the token table of the current line. */
  class Data {
    const lines: seq<string>
    var it: nat
    var tokens: seq<nat>

    ghost predicate Valid()
      reads this
    {
      && it <= |lines|
      && if it < |lines| then tokens == TokensOf(lines[it]) else tokens == []
    }

    /** `Data(lines)`: the cursor on the first line, already tokenized. */
    constructor (lines: seq<string>)
      ensures Valid() && this.lines == lines && it == 0
    {
      this.lines := lines;
      it := 0;
      tokens := [];
      new;
      var _ := Tokenize();
    }

    /** Splits the current line into tokens; at the end there are none. */
    method Tokenize() returns (more: bool)
      requires it <= |lines|
      modifies this
      ensures Valid() && it == old(it)
      ensures more == (it < |lines|)
    {
      tokens := [];
      if it == |lines| {
        return false;
      }
      tokens := TokenizeLine(lines[it]);
      return true;
    }

    /** `Next()`: moves to the following line (possibly past the last one)
        and reports whether it moved; at the end nothing changes. */
    method Next() returns (moved: bool)
      requires Valid()
      modifies this
      ensures Valid()
      ensures moved == (old(it) < |lines|)
      ensures it == if moved then old(it) + 1 else old(it)
      ensures !moved ==> tokens == old(tokens)
    {
      if it == |lines| {
        return false;
      }
      it := it + 1;
      var _ := Tokenize();
      return true;
    }

    /** `operator!`: the cursor is past the last line. */
    predicate AtEnd()
      reads this
    {
      it == |lines|
    }

    /** `operator bool`, the negation of `AtEnd`. */
    function More(): (b: bool)
      reads this
      ensures b <==> !AtEnd()
    {
      it != |lines|
    }

    /** The current line, whitespace included. */
    function Line(): string
      reads this
      requires Valid() && !AtEnd()
    {
      lines[it]
    }

    /** `Size()`: the number of tokens on the line. */
    function Size(): (n: nat)
      reads this
      requires Valid()
      ensures 2 * n == |tokens|
    {
      |tokens| / 2
    }

    /** `operator[]`: token `index` of the current line. The source reads out
        of range for an index past the last token. */
    function At(index: nat): (arg: Arg)
      reads this
      requires Valid() && index < Size()
      ensures arg.Valid() && arg.line == Line() && 0 < |arg.Text()|
      ensures forall j :: 0 <= j < |arg.Text()| ==> !IsSpace(arg.Text()[j])
      ensures arg.start == 0 || IsSpace(arg.line[arg.start - 1])
      ensures arg.end == |arg.line| || IsSpace(arg.line[arg.end])
    {
      TokenOf(lines[it], index)
    }

    /** `Indent()`: the index of the line's first non-space character, or 0
        for a line of whitespace only and past the last line. */
    function Indent(): (r: nat)
      reads this
      requires Valid()
      ensures AtEnd() ==> r == 0
      ensures !AtEnd() ==> r <= |Line()|
      ensures !AtEnd() && (exists j :: 0 <= j < |Line()| && !IsSpace(Line()[j])) ==>
                r < |Line()| && !IsSpace(Line()[r]) && forall j :: 0 <= j < r ==> IsSpace(Line()[j])
      ensures !AtEnd() && (forall j :: 0 <= j < |Line()| ==> IsSpace(Line()[j])) ==> r == 0
    {
      if AtEnd() then 0
      else
        IndentSpan(lines[it]);
        if tokens == [] then 0 else tokens[0]
    }

    /** `Tag()`: the first token, or the empty string for a blank line and
        past the last line. */
    function Tag(): (r: string)
      reads this
      requires Valid()
      ensures r == [] <==> Size() == 0
      ensures AtEnd() ==> r == []
      ensures !AtEnd() ==> Indent() + |r| <= |Line()|
      ensures Size() > 0 ==> r == Line()[Indent()..Indent() + |r|]
      ensures forall j :: 0 <= j < |r| ==> !IsSpace(r[j])
      ensures !AtEnd() ==> Indent() + |r| == |Line()| || IsSpace(Line()[Indent() + |r|])
    {
      if AtEnd() then []
      else
        IndentSpan(lines[it]);
        TagSpan(lines[it]);
        TagOf(lines[it])
    }

    /** `Value(index)`: from the start of token `index` to the end of the last
        token, so without trailing whitespace; empty when the line has no
        token `index`, and so also past the last line. */
    function Value(index: nat): (r: string)
      reads this
      requires Valid()
      ensures index >= Size() ==> r == []
      ensures AtEnd() ==> r == []
      ensures index < Size() ==>
                var arg := At(index);
                && r != []
                && arg.start + |r| <= |Line()|
                && |arg.Text()| <= |r|
                && r == Line()[arg.start..arg.start + |r|]
                && r[..|arg.Text()|] == arg.Text()
                && !IsSpace(r[|r| - 1])
                && (arg.start + |r| == |Line()| || IsSpace(Line()[arg.start + |r|]))
                && arg.start + |r| == tokens[|tokens| - 1]
    {
      if AtEnd() then []
      else
        var line := lines[it];
        ValueOfSpan(line, index);
        assert index < Size() ==>
                 var arg, pos, stop := At(index), tokens[2 * index], tokens[2 * index + 1];
                 arg.start == pos && arg.Text() == line[pos..stop] && |arg.Text()| == stop - pos;
        ValueOf(line, index)
    }
  }

  /** The span of `Value(p)`: from the start of token p, past its end, to
      the end of the last token, which is followed by a space or the end of
      the line. */
  lemma ValueSpan(line: string, p: nat)
    requires 2 * p + 1 < |TokensOf(line)|
    ensures var t := TokensOf(line);
            && t[2 * p] < t[2 * p + 1] <= t[|t| - 1] <= |line|
            && !IsSpace(line[t[|t| - 1] - 1])
            && (t[|t| - 1] == |line| || IsSpace(line[t[|t| - 1]]))
  {
    var t := TokensOf(line);
    TokensOfTokenized(line);
    var last := |t| / 2 - 1;
    TokenRun(line, t, p);
    TokenRun(line, t, last);
    assert p <= last && 2 * last + 1 == |t| - 1;
  }

  /** `Value(i)` ends exactly where the line's last token ends. */
  lemma ValueEndsAtLastToken(d: Data, index: nat)
    requires d.Valid() && index < d.Size()
    ensures d.At(index).start + |d.Value(index)| == d.At(d.Size() - 1).end
  {
    assert 2 * (d.Size() - 1) + 1 == |d.tokens| - 1;
  }

  /** The integer conversion of a token that `IsInt` accepts is the decimal
      value of its digits. */
  lemma IntOfDigits(d: Data, index: nat)
    requires d.Valid() && index < d.Size() && AllDigits(d.At(index).Text())
    ensures d.At(index).Int() == Decimal(d.At(index).Text())
  {
    var arg := d.At(index);
    assert arg.line[arg.start..arg.end] == arg.Text();
    if arg.end < |arg.line| {
      assert IsSpace(arg.line[arg.end]);
    }
    AtoiDigits(arg.line, arg.start, arg.end);
  }
}

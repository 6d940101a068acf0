// The game's integer variables: a name-ordered store, a shunting-yard
// evaluator for `if` conditions and the `set` command that assigns to one
// variable.
module VariableStore {
  import opened Ints
  import opened Decimals

  // ---------------------------------------------------------------------
  // Operators

  datatype Fun =
    | Pow | LessEq | GreaterEq | Equal | NotEqual | And | Or
    | Times | Divide | Modulo | Plus | Minus | Less | Greater
    | Not | Negate | Assign | Paren

  /** An operator: its spelling, its precedence, its number of operands and
      what it computes. */
  datatype Op = Op(token: string, precedence: int, args: int, fun: Fun)

  datatype Option<T> = None | Some(value: T)

  const OP_CHARS: string := "()!*/%+-<=>&|^?"

  /** The binary operators, in matching order: every two-character operator
      comes before the one-character operator that is its prefix. */
  const BINARY_OPS: seq<Op> := [
    Op("**", 8, 2, Pow),
    Op("<=", 4, 2, LessEq),
    Op(">=", 4, 2, GreaterEq),
    Op("==", 3, 2, Equal),
    Op("!=", 3, 2, NotEqual),
    Op("&&", 2, 2, And),
    Op("||", 1, 2, Or),
    Op("*", 6, 2, Times),
    Op("/", 6, 2, Divide),
    Op("%", 6, 2, Modulo),
    Op("+", 5, 2, Plus),
    Op("-", 5, 2, Minus),
    Op("<", 4, 2, Less),
    Op(">", 4, 2, Greater)
  ]

  const UNARY_OPS: seq<Op> := [
    Op("!", 7, 1, Not),
    Op("-", 7, 1, Negate)
  ]

  /** An open parenthesis on the operator stack: precedence 0 and no function. */
  const PAREN_OP: Op := Op("(", 0, 1, Paren)

  /** The assignment operators; the variable's current value is the left operand. */
  const ASSIGN_OPS: seq<Op> := [
    Op("+=", 0, 2, Plus),
    Op("-=", 0, 2, Minus),
    Op("*=", 0, 2, Times),
    Op("/=", 0, 2, Divide),
    Op("%=", 0, 2, Modulo),
    Op("=", 0, 2, Assign)
  ]

  /** Characters reserved for operators; a variable name cannot hold one. */
  predicate IsOpChar(c: char) {
    c in OP_CHARS
  }

  /** The evaluator's whitespace: every character up to and including ' '. */
  predicate IsBlank(c: char) {
    c <= ' '
  }

  /** The result of an evaluation; `Undefined` stands for the cases where
      the C++ code has undefined behaviour or throws. */
  datatype Outcome = Ok(value: int) | Undefined

  function Flag(b: bool): int {
    if b then 1 else 0
  }

  /** `a` to the power `b` as the C library's `pow` computes it, truncated
      back to an integer; a negative power of 0 is infinite. */
  function Power(a: int, b: int): (r: Outcome)
    ensures b >= 0 ==> r == Ok(IntPow(a, b))
    ensures b < 0 && (a < -1 || a > 1) ==> r == Ok(0)
  {
    if b >= 0 then Ok(IntPow(a, b))
    else if a == 0 then Undefined
    else if a == 1 then Ok(1)
    else if a == -1 then Ok(if b % 2 == 0 then 1 else -1)
    else Ok(0)
  }

  function IntPow(a: int, b: nat): int {
    if b == 0 then 1 else a * IntPow(a, b - 1)
  }

  /** What an operator's function object computes; a unary operator ignores
      `a`, and calling the parenthesis marker's empty function throws. */
  function Calc(f: Fun, a: int, b: int): Outcome {
    match f
    case Pow => Power(a, b)
    case LessEq => Ok(Flag(a <= b))
    case GreaterEq => Ok(Flag(a >= b))
    case Equal => Ok(Flag(a == b))
    case NotEqual => Ok(Flag(a != b))
    case And => Ok(Flag(a != 0 && b != 0))
    case Or => Ok(Flag(a != 0 || b != 0))
    case Times => Ok(a * b)
    case Divide => if b == 0 then Undefined else Ok(Quot(a, b))
    case Modulo => if b == 0 then Undefined else Ok(Rem(a, b))
    case Plus => Ok(a + b)
    case Minus => Ok(a - b)
    case Less => Ok(Flag(a < b))
    case Greater => Ok(Flag(a > b))
    case Not => Ok(Flag(b == 0))
    case Negate => Ok(-b)
    case Assign => Ok(b)
    case Paren => Undefined
  }

  /** The character at `i`, or the string's terminating '\0' past its end. */
  function CharAt(s: string, i: nat): char {
    if i < |s| then s[i] else '\0'
  }

  /** The operator `op` is spelt at position `i` of `s`. */
  predicate Matches(s: string, i: nat, op: Op)
    requires |op.token| > 0
  {
    CharAt(s, i) == op.token[0] && (|op.token| == 1 || CharAt(s, i + 1) == op.token[1])
  }

  predicate WellFormedTable(table: seq<Op>) {
    forall k :: 0 <= k < |table| ==> 1 <= |table[k].token| <= 2 && '\0' !in table[k].token
  }

  /** `FindOp` as a function: the first entry of `table`, from entry `k` on,
      spelt at position `i`. */
  function FindOpFrom(s: string, i: nat, table: seq<Op>, k: nat): (r: Option<Op>)
    requires WellFormedTable(table) && k <= |table|
    ensures r.Some? ==> r.value in table[k..] && Matches(s, i, r.value)
    ensures r.None? <==> forall m :: k <= m < |table| ==> !Matches(s, i, table[m])
    decreases |table| - k
  {
    if k == |table| then None
    else if Matches(s, i, table[k]) then Some(table[k])
    else FindOpFrom(s, i, table, k + 1)
  }

  function FindOpOf(s: string, i: nat, table: seq<Op>): Option<Op>
    requires WellFormedTable(table)
  {
    FindOpFrom(s, i, table, 0)
  }

  /** `FindOp(it, ops)`: the first entry of the table spelt at `it`. */
  method FindOp(s: string, i: nat, table: seq<Op>) returns (r: Option<Op>)
    requires WellFormedTable(table)
    ensures r == FindOpOf(s, i, table)
  {
    for k := 0 to |table|
      invariant FindOpFrom(s, i, table, k) == FindOpOf(s, i, table)
    {
      var op := table[k];
      if CharAt(s, i) == op.token[0] && (|op.token| == 1 || CharAt(s, i + 1) == op.token[1]) {
        return Some(op);
      }
    }
    return None;
  }

  /** A match lies inside the string: the terminating '\0' never matches. */
  lemma MatchInside(s: string, i: nat, op: Op)
    requires 1 <= |op.token| <= 2 && '\0' !in op.token && Matches(s, i, op)
    ensures i + |op.token| <= |s|
  {
    assert op.token[0] in op.token;
    if |op.token| == 2 {
      assert op.token[1] in op.token;
    }
  }

  lemma TablesWellFormed()
    ensures WellFormedTable(BINARY_OPS) && WellFormedTable(UNARY_OPS) && WellFormedTable(ASSIGN_OPS)
  {
  }

  /** No entry of `table` that matches at `i` is longer than the one found:
      the table order makes the matching greedy. */
  predicate Greedy(table: seq<Op>)
    requires WellFormedTable(table)
  {
    forall a, b :: 0 <= a < b < |table| && |table[a].token| < |table[b].token| ==>
      table[a].token[0] != table[b].token[0]
  }

  lemma {:induction false} FindOpLongest(s: string, i: nat, table: seq<Op>, k: nat)
    requires WellFormedTable(table) && Greedy(table) && k <= |table|
    requires FindOpFrom(s, i, table, k).Some?
    ensures forall m :: k <= m < |table| && Matches(s, i, table[m]) ==>
              |table[m].token| <= |FindOpFrom(s, i, table, k).value.token|
    decreases |table| - k
  {
    if !Matches(s, i, table[k]) {
      FindOpLongest(s, i, table, k + 1);
    }
  }

  /** The binary and assignment tables are greedy, so "<=" wins over "<",
      and "**" over "*". */
  lemma TablesGreedy()
    ensures Greedy(BINARY_OPS) && Greedy(UNARY_OPS) && Greedy(ASSIGN_OPS)
  {
    TablesWellFormed();
    LongFirstGreedy(BINARY_OPS, 7);
    LongFirstGreedy(UNARY_OPS, 0);
    LongFirstGreedy(ASSIGN_OPS, 5);
  }

  /** A table whose two-character tokens all come before its one-character
      tokens is greedy. */
  lemma LongFirstGreedy(table: seq<Op>, split: nat)
    requires WellFormedTable(table) && split <= |table|
    requires forall k :: 0 <= k < split ==> |table[k].token| == 2
    requires forall k :: split <= k < |table| ==> |table[k].token| == 1
    ensures Greedy(table)
  {
  }

  // ---------------------------------------------------------------------
  // The variable store

  datatype Entry = Entry(name: string, value: int)

  /** `std::string`'s order: lexicographic on the characters. */
  predicate Before(a: string, b: string)
    decreases |a|
  {
    if a == [] then b != []
    else b != [] && (a[0] < b[0] || (a[0] == b[0] && Before(a[1..], b[1..])))
  }

  lemma {:induction false} BeforeIrreflexive(a: string)
    ensures !Before(a, a)
    decreases |a|
  {
    if a != [] {
      BeforeIrreflexive(a[1..]);
    }
  }

  lemma {:induction false} BeforeTransitive(a: string, b: string, c: string)
    requires Before(a, b) && Before(b, c)
    ensures Before(a, c)
    decreases |a|
  {
    if a != [] && a[0] == b[0] && b[0] == c[0] {
      BeforeTransitive(a[1..], b[1..], c[1..]);
    }
  }

  lemma {:induction false} BeforeTotal(a: string, b: string)
    requires a != b
    ensures Before(a, b) || Before(b, a)
    decreases |a|
  {
    if a != [] && b != [] && a[0] == b[0] {
      assert a == [a[0]] + a[1..] && b == [b[0]] + b[1..];
      BeforeTotal(a[1..], b[1..]);
    }
  }

  predicate Sorted(es: seq<Entry>) {
    forall i, j :: 0 <= i < j < |es| ==> Before(es[i].name, es[j].name)
  }

  function Names(es: seq<Entry>): set<string> {
    set i | 0 <= i < |es| :: es[i].name
  }

  /** The set holding `name` and nothing else. */
  function Only(name: string): set<string> {
    {name}
  }

  /** `variables[name]` read without inserting: 0 for a missing name. */
  function Lookup(es: seq<Entry>, name: string): int {
    if es == [] then 0
    else if es[0].name == name then es[0].value
    else Lookup(es[1..], name)
  }

  lemma {:induction false} LookupMissing(es: seq<Entry>, name: string)
    requires name !in Names(es)
    ensures Lookup(es, name) == 0
  {
    if es != [] {
      assert es[0].name in Names(es);
      assert Names(es[1..]) <= Names(es) by {
        forall n | n in Names(es[1..]) ensures n in Names(es) {
          var i :| 0 <= i < |es[1..]| && es[1..][i].name == n;
          assert es[i + 1].name == n;
        }
      }
      LookupMissing(es[1..], name);
    }
  }

  lemma NamesCons(e: Entry, es: seq<Entry>)
    ensures Names([e] + es) == Only(e.name) + Names(es)
  {
    var r := [e] + es;
    forall n | n in Names(r) ensures n in {e.name} + Names(es) {
      var i :| 0 <= i < |r| && r[i].name == n;
      if i > 0 {
        assert es[i - 1].name == n;
      }
    }
    forall n | n in Names(es) ensures n in Names(r) {
      var i :| 0 <= i < |es| && es[i].name == n;
      assert r[i + 1].name == n;
    }
    assert r[0].name == e.name;
  }

  /** `r` is `es` with `v` stored under `name`, in name order. */
  ghost predicate Stores(es: seq<Entry>, name: string, v: int, r: seq<Entry>) {
    && Sorted(r)
    && Names(r) == Names(es) + {name}
    && Lookup(r, name) == v
    && forall n :: n != name ==> Lookup(r, n) == Lookup(es, n)
  }

  /** Storing `v` under `name`, keeping the entries in name order. */
  function Put(es: seq<Entry>, name: string, v: int): (r: seq<Entry>)
    requires Sorted(es)
    ensures Sorted(r)
    ensures Names(r) == Names(es) + Only(name)
    ensures Lookup(r, name) == v
    ensures forall n :: n != name ==> Lookup(r, n) == Lookup(es, n)
  {
    if es == [] then
      NamesCons(Entry(name, v), []);
      [Entry(name, v)]
    else if es[0].name == name then
      PutReplaces(es, name, v);
      [Entry(name, v)] + es[1..]
    else if Before(name, es[0].name) then
      PutInFront(es, name, v);
      [Entry(name, v)] + es
    else
      BeforeTotal(name, es[0].name);
      var tail := Put(es[1..], name, v);
      PutBehind(es, name, v, tail);
      [es[0]] + tail
  }

  lemma PutReplaces(es: seq<Entry>, name: string, v: int)
    requires Sorted(es) && es != [] && es[0].name == name
    ensures Stores(es, name, v, [Entry(name, v)] + es[1..])
  {
    NamesCons(Entry(name, v), es[1..]);
    NamesCons(es[0], es[1..]);
    assert es == [es[0]] + es[1..];
  }

  lemma PutInFront(es: seq<Entry>, name: string, v: int)
    requires Sorted(es) && es != [] && Before(name, es[0].name)
    ensures Stores(es, name, v, [Entry(name, v)] + es)
  {
    NamesCons(Entry(name, v), es);
    forall j | 0 <= j < |es|
      ensures Before(name, es[j].name)
    {
      if j > 0 {
        BeforeTransitive(name, es[0].name, es[j].name);
      }
    }
    LookupMissingBelow(es, name);
  }

  lemma PutBehind(es: seq<Entry>, name: string, v: int, tail: seq<Entry>)
    requires Sorted(es) && es != [] && Before(es[0].name, name)
    requires Stores(es[1..], name, v, tail)
    ensures Stores(es, name, v, [es[0]] + tail)
  {
    NamesCons(es[0], tail);
    NamesCons(es[0], es[1..]);
    assert es == [es[0]] + es[1..];
    FirstBeforeTail(es, name, tail);
    SortedCons(es[0], tail);
    BeforeIrreflexive(name);
  }

  /** The first entry stays ahead of every entry of the tail it is put into. */
  lemma FirstBeforeTail(es: seq<Entry>, name: string, tail: seq<Entry>)
    requires Sorted(es) && es != [] && Before(es[0].name, name)
    requires Names(tail) == Names(es[1..]) + Only(name)
    ensures forall j :: 0 <= j < |tail| ==> Before(es[0].name, tail[j].name)
  {
    forall j | 0 <= j < |tail|
      ensures Before(es[0].name, tail[j].name)
    {
      assert tail[j].name in Names(tail);
      if tail[j].name != name {
        var i :| 0 <= i < |es[1..]| && es[1..][i].name == tail[j].name;
        assert es[i + 1].name == tail[j].name;
      }
    }
  }

  lemma SortedCons(e: Entry, es: seq<Entry>)
    requires Sorted(es) && forall j :: 0 <= j < |es| ==> Before(e.name, es[j].name)
    ensures Sorted([e] + es)
  {
    var r := [e] + es;
    forall i, j | 0 <= i < j < |r| ensures Before(r[i].name, r[j].name) {
      assert r[j] == es[j - 1];
      if i > 0 {
        assert r[i] == es[i - 1];
      }
    }
  }

  /** A name ordered before every stored name is not stored. */
  lemma LookupMissingBelow(es: seq<Entry>, name: string)
    requires Sorted(es) && es != [] && Before(name, es[0].name)
    ensures Lookup(es, name) == 0
  {
    if name in Names(es) {
      var i :| 0 <= i < |es| && es[i].name == name;
      if i > 0 {
        BeforeTransitive(name, es[0].name, es[i].name);
      }
      BeforeIrreflexive(name);
    }
    LookupMissing(es, name);
  }

  /** `variables[name]`, which inserts the name with the value 0 when it is
      missing: no name's value changes. */
  function Touch(es: seq<Entry>, name: string): (r: seq<Entry>)
    requires Sorted(es)
    ensures Sorted(r)
    ensures Names(r) == Names(es) + Only(name)
    ensures forall n :: Lookup(r, n) == Lookup(es, n)
  {
    if name in Names(es) then es
    else
      LookupMissing(es, name);
      Put(es, name, 0)
  }

  // ---------------------------------------------------------------------
  // Values

  /** `Value(start, end)`: an all-digit token is a number, anything else a
      variable name, looked up (and so inserted) in the store. */
  function ValueOf(es: seq<Entry>, token: string): (r: (int, seq<Entry>))
    requires Sorted(es)
    ensures Sorted(r.1) && forall n :: Lookup(r.1, n) == Lookup(es, n)
  {
    if AllDigits(token) then (Decimal(token), es)
    else (Lookup(es, token), Touch(es, token))
  }

  /** A token of digits is its decimal value and leaves the store as it is;
      any other token is a name whose value defaults to 0 and which is then
      in the store. */
  lemma ValueTokens(es: seq<Entry>, token: string)
    requires Sorted(es)
    ensures AllDigits(token) ==> ValueOf(es, token) == (Decimal(token), es)
    ensures !AllDigits(token) ==> ValueOf(es, token).0 == Lookup(es, token)
                                  && token in Names(ValueOf(es, token).1)
    ensures !AllDigits(token) && token !in Names(es) ==> ValueOf(es, token).0 == 0
  {
    if !AllDigits(token) && token !in Names(es) {
      LookupMissing(es, token);
    }
  }

  // ---------------------------------------------------------------------
  // The evaluation machine

  datatype Stacks = Stacks(values: seq<int>, ops: seq<Op>) | Mismatch | Fault

  /** `Apply`: pops the top operator and its operands, and pushes the result. */
  function ApplyOf(values: seq<int>, ops: seq<Op>): (r: Stacks)
    requires ops != []
    ensures r.Stacks? ==> r.ops == ops[..|ops| - 1]
    ensures r.Stacks? ==> |r.values| == |values| - (if ops[|ops| - 1].args == 2 then 1 else 0)
    ensures r.Stacks? ==> |values| >= (if ops[|ops| - 1].args == 2 then 2 else 1)
  {
    var op := ops[|ops| - 1];
    if values == [] then Fault
    else
      var b := values[|values| - 1];
      var rest := values[..|values| - 1];
      if op.args == 2 then
        if rest == [] then Fault
        else match Calc(op.fun, rest[|rest| - 1], b)
          case Ok(v) => Stacks(rest[..|rest| - 1] + [v], ops[..|ops| - 1])
          case Undefined => Fault
      else match Calc(op.fun, 0, b)
        case Ok(v) => Stacks(rest + [v], ops[..|ops| - 1])
        case Undefined => Fault
  }

  /** A ')': applies operators down to the nearest '(' and removes it; with
      no '(' on the stack the parentheses are mismatched. */
  function CloseParen(values: seq<int>, ops: seq<Op>): Stacks
    decreases |ops|
  {
    if ops == [] then Mismatch
    else if ops[|ops| - 1].fun == Paren then Stacks(values, ops[..|ops| - 1])
    else match ApplyOf(values, ops)
      case Stacks(v, o) => CloseParen(v, o)
      case _ => Fault
  }

  /** The operator on top of the stack gives way to `op`: a higher precedence,
      or the same precedence when `op` is binary. */
  predicate Yields(top: Op, op: Op) {
    top.precedence >= op.precedence && !(top.precedence == op.precedence && op.args == 1)
  }

  /** Before pushing `op`: applies every operator on top that yields to it. */
  function PopFor(values: seq<int>, ops: seq<Op>, op: Op): (r: Stacks)
    ensures !r.Mismatch?
    decreases |ops|
  {
    if ops == [] || !Yields(ops[|ops| - 1], op) then Stacks(values, ops)
    else match ApplyOf(values, ops)
      case Stacks(v, o) => PopFor(v, o, op)
      case _ => Fault
  }

  /** At the end of the line: applies every operator left on the stack. */
  function PopAll(values: seq<int>, ops: seq<Op>): (r: Stacks)
    ensures r.Stacks? ==> r.ops == []
    ensures !r.Mismatch?
    decreases |ops|
  {
    if ops == [] then Stacks(values, ops)
    else match ApplyOf(values, ops)
      case Stacks(v, o) => PopAll(v, o)
      case _ => Fault
  }

  /** The usual binding strength of the binary operators, tightest first:
      `**`, then `* / %`, `+ -`, the comparisons, `== !=`, `&&` and `||`. */
  function Tier(f: Fun): int {
    match f
    case Pow => 7
    case Times | Divide | Modulo => 5
    case Plus | Minus => 4
    case Less | Greater | LessEq | GreaterEq => 3
    case Equal | NotEqual => 2
    case And => 1
    case Or => 0
    case _ => -1
  }

  /** Between binary operators, the one on the stack is applied first
      exactly when it binds at least as tightly: the tiers order the table,
      and operators of one tier associate to the left. */
  lemma BinaryPrecedence()
    ensures forall i, j :: 0 <= i < |BINARY_OPS| && 0 <= j < |BINARY_OPS| ==>
      (Yields(BINARY_OPS[i], BINARY_OPS[j]) <==> Tier(BINARY_OPS[i].fun) >= Tier(BINARY_OPS[j].fun))
    ensures forall i :: 0 <= i < |BINARY_OPS| ==> Yields(BINARY_OPS[i], BINARY_OPS[i])
  {
    BinaryTiers();
  }

  lemma BinaryTiers()
    ensures forall i :: 0 <= i < |BINARY_OPS| ==>
      BINARY_OPS[i].args == 2 && BINARY_OPS[i].precedence == Tier(BINARY_OPS[i].fun) + 1
  {
  }

  /** A unary operator pops no operator of its own precedence, so `- -x`
      and `!-x` apply from the right; it binds more tightly than every
      binary operator except `**`. */
  lemma UnaryPrecedence()
    ensures forall top: Op, k :: 0 <= k < |UNARY_OPS| && top.precedence == UNARY_OPS[k].precedence ==>
      !Yields(top, UNARY_OPS[k])
    ensures forall k, i :: 0 <= k < |UNARY_OPS| && 0 <= i < |BINARY_OPS| ==>
      (Yields(UNARY_OPS[k], BINARY_OPS[i]) <==> BINARY_OPS[i].fun != Pow)
  {
  }

  /** No operator makes a '(' on the stack give way: what is inside a
      parenthesis is applied only when it closes. */
  lemma ParenHolds()
    ensures forall i :: 0 <= i < |BINARY_OPS| ==> !Yields(PAREN_OP, BINARY_OPS[i])
    ensures forall k :: 0 <= k < |UNARY_OPS| ==> !Yields(PAREN_OP, UNARY_OPS[k])
  {
  }

  /** The scan over a value token: it runs up to the next operator
      character; `last` follows the end of its last non-blank character. */
  function ScanFrom(s: string, i: nat, last: nat): (r: (nat, nat))
    requires i <= |s| && (last <= i || (last == i + 1 && i < |s| && !IsOpChar(s[i])))
    requires forall j :: last <= j < i ==> IsBlank(s[j])
    ensures Scanned(s, i, last, r)
    decreases |s| - i
  {
    if i < |s| && !IsOpChar(s[i]) then
      var r := ScanFrom(s, i + 1, if s[i] > ' ' then i + 1 else last);
      ScanExtends(s, i, last, r);
      r
    else (i, last)
  }

  /** What the scan from `i` promises about its result `r`: it stops at
      the end or at an operator character, passing none; `r.1` ends the
      last non-blank character, and only blanks follow it. */
  ghost predicate Scanned(s: string, i: nat, last: nat, r: (nat, nat)) {
    && i <= r.0 <= |s| && last <= r.1 <= r.0
    && (r.0 == |s| || IsOpChar(s[r.0]))
    && (forall j :: i <= j < r.0 ==> !IsOpChar(s[j]))
    && (forall j :: r.1 <= j < r.0 ==> IsBlank(s[j]))
    && (r.1 == last || (i < r.1 && !IsBlank(s[r.1 - 1])))
  }

  /** One more non-operator character in front keeps the scan's promise. */
  lemma ScanExtends(s: string, i: nat, last: nat, r: (nat, nat))
    requires i < |s| && !IsOpChar(s[i]) && (last <= i || last == i + 1)
    requires forall j :: last <= j < i ==> IsBlank(s[j])
    requires Scanned(s, i + 1, if s[i] > ' ' then i + 1 else last, r)
    ensures Scanned(s, i, last, r)
  {
  }

  datatype State = State(pos: nat, values: seq<int>, ops: seq<Op>, wasOp: bool, entries: seq<Entry>)

  datatype Step = Going(s: State) | Stopped(result: Outcome, entries: seq<Entry>)

  /** One token of `Eval`'s loop: a blank is skipped, '(' is pushed, ')'
      closes a parenthesis, an operator character starts an operator and
      anything else starts a value. */
  function StepOf(line: string, s: State): (r: Step)
    requires s.pos < |line| && Sorted(s.entries)
    ensures r.Going? ==> s.pos < r.s.pos <= |line| && Sorted(r.s.entries)
    ensures r.Going? ==> forall n :: Lookup(r.s.entries, n) == Lookup(s.entries, n)
    ensures r.Stopped? ==> r.entries == s.entries
  {
    var c := line[s.pos];
    if IsBlank(c) then Going(s.(pos := s.pos + 1))
    else if c == '(' then Going(s.(pos := s.pos + 1, ops := s.ops + [PAREN_OP], wasOp := true))
    else if c == ')' then CloseStep(s)
    else if IsOpChar(c) then OperatorStep(line, s)
    else ValueStep(line, s)
  }

  /** A ')': once the parenthesis closes, its contents count as a value. */
  function CloseStep(s: State): (r: Step)
    ensures r.Going? ==> r.s.pos == s.pos + 1 && r.s.entries == s.entries
    ensures r.Stopped? ==> r.entries == s.entries
  {
    match CloseParen(s.values, s.ops)
    case Stacks(v, o) => Going(State(s.pos + 1, v, o, false, s.entries))
    case Mismatch => Stopped(Ok(0), s.entries)
    case Fault => Stopped(Undefined, s.entries)
  }

  /** An operator: unary right after an operator or '(' (or at the start),
      binary after a value or ')'; the operators it outranks are applied
      before it is pushed. No matching operator ends the evaluation with 0. */
  function OperatorStep(line: string, s: State): (r: Step)
    requires s.pos < |line|
    ensures r.Going? ==> s.pos < r.s.pos <= |line| && r.s.entries == s.entries
    ensures r.Stopped? ==> r.entries == s.entries
  {
    match PushOperator(line, s.pos, s.values, s.ops, s.wasOp)
    case Pushed(p, v, o) => Going(State(p, v, o, true, s.entries))
    case NoOperator => Stopped(Ok(0), s.entries)
    case Failed => Stopped(Undefined, s.entries)
  }

  datatype Pushed = Pushed(pos: nat, values: seq<int>, ops: seq<Op>) | NoOperator | Failed

  /** The stacks after the operator at `pos` is read and pushed, and the
      position after its token. */
  function PushOperator(line: string, pos: nat, values: seq<int>, ops: seq<Op>, wasOp: bool): (r: Pushed)
    requires pos < |line|
    ensures r.Pushed? ==> pos < r.pos <= |line|
  {
    TablesWellFormed();
    var table := if wasOp then UNARY_OPS else BINARY_OPS;
    match FindOpOf(line, pos, table)
    case None => NoOperator
    case Some(op) =>
      MatchInside(line, pos, op);
      match PopFor(values, ops, op)
      case Stacks(v, o) => Pushed(pos + |op.token|, v, o + [op])
      case _ => Failed
  }

  /** A value: the text up to the next operator character, without its
      trailing blanks, as a number or a variable. */
  function ValueStep(line: string, s: State): (r: Step)
    requires s.pos < |line| && !IsOpChar(line[s.pos]) && Sorted(s.entries)
    ensures r.Going? && s.pos < r.s.pos <= |line| && Sorted(r.s.entries)
    ensures forall n :: Lookup(r.s.entries, n) == Lookup(s.entries, n)
  {
    var scan := ScanFrom(line, s.pos, s.pos + 1);
    var value := ValueOf(s.entries, line[s.pos..scan.1]);
    Going(State(scan.0, s.values + [value.0], s.ops, false, value.1))
  }

  /** What the next operator character means: after a blank the mode is
      kept; after '(' or an operator one is read as unary, and after a value
      or ')' as binary. */
  lemma StepParseMode(line: string, s: State)
    requires s.pos < |line| && Sorted(s.entries) && StepOf(line, s).Going?
    ensures IsBlank(line[s.pos]) ==> StepOf(line, s).s.wasOp == s.wasOp
    ensures !IsBlank(line[s.pos]) ==> (StepOf(line, s).s.wasOp <==> IsOpChar(line[s.pos]) && line[s.pos] != ')')
  {
  }

  /** An operator that no entry of the table for the current mode spells
      stops `Eval` with 0. */
  lemma UnknownOperatorStops(line: string, s: State)
    requires s.pos < |line|
    requires WellFormedTable(UNARY_OPS) && WellFormedTable(BINARY_OPS)
    requires FindOpOf(line, s.pos, if s.wasOp then UNARY_OPS else BINARY_OPS).None?
    ensures OperatorStep(line, s) == Stopped(Ok(0), s.entries)
  {
    assert PushOperator(line, s.pos, s.values, s.ops, s.wasOp) == NoOperator;
  }

  /** A ')' reached with no '(' open on the operator stack stops the rest
      of `Eval` with 0, wherever it stands in the line. */
  lemma RunUnmatchedClose(line: string, s: State)
    requires s.pos < |line| && line[s.pos] == ')' && Sorted(s.entries)
    requires CloseParen(s.values, s.ops) == Mismatch
    ensures RunFrom(line, s) == (Ok(0), s.entries)
  {
    assert StepOf(line, s) == CloseStep(s);
  }

  /** So does a ')' after a value: "1)" evaluates to 0. */
  lemma EvalStrayClose(es: seq<Entry>)
    requires Sorted(es)
    ensures EvalOf(es, "1)") == (Ok(0), es)
  {
    var s := State(0, [], [], true, es);
    OneStep(es);
    RunStep("1)", s);
    RunUnmatchedClose("1)", State(1, [1], [], false, es));
  }

  /** The first step over "1)" reads the value 1 and stops at the ')'. */
  lemma OneStep(es: seq<Entry>)
    requires Sorted(es)
    ensures StepOf("1)", State(0, [], [], true, es)) == Going(State(1, [1], [], false, es))
  {
    var line := "1)";
    var s := State(0, [], [], true, es);
    assert ScanFrom(line, 0, 1) == (1, 1);
    assert line[0..1] == "1" && AllDigits("1") && Decimal("1") == 1;
    assert ValueStep(line, s) == Going(State(1, [1], [], false, es));
    assert !IsBlank(line[0]) && line[0] != '(' && line[0] != ')' && !IsOpChar(line[0]);
  }

  /** In particular a line that opens with ')' evaluates to 0. */
  lemma EvalUnmatchedClose(es: seq<Entry>, line: string)
    requires Sorted(es) && line != [] && line[0] == ')'
    ensures EvalOf(es, line) == (Ok(0), es)
  {
    RunUnmatchedClose(line, State(0, [], [], true, es));
  }

  /** The result of the remaining loop from state `s`, and the final store. */
  function RunFrom(line: string, s: State): (r: (Outcome, seq<Entry>))
    requires s.pos <= |line| && Sorted(s.entries)
    ensures Sorted(r.1) && forall n :: Lookup(r.1, n) == Lookup(s.entries, n)
    decreases |line| - s.pos
  {
    if s.pos == |line| then (Finish(s.values, s.ops), s.entries)
    else match StepOf(line, s)
      case Stopped(out, es) => (out, es)
      case Going(next) => RunFrom(line, next)
  }

  /** After the loop: applies the operators left and reads the top value. */
  function Finish(values: seq<int>, ops: seq<Op>): Outcome {
    match PopAll(values, ops)
    case Stacks(v, _) => if v == [] then Undefined else Ok(v[|v| - 1])
    case _ => Undefined
  }

  /** `Eval(line)` as a function of the store.  It changes no variable's
      value: the only entries it makes are names that were missing, stored
      with 0. */
  function EvalOf(es: seq<Entry>, line: string): (r: (Outcome, seq<Entry>))
    requires Sorted(es)
    ensures Sorted(r.1)
    ensures forall n :: Lookup(r.1, n) == Lookup(es, n)
  {
    RunFrom(line, State(0, [], [], true, es))
  }

  // ---------------------------------------------------------------------
  // Set

  /** `Set(line)` as a function of the store. */
  function SetOf(es: seq<Entry>, line: string): (r: (Outcome, seq<Entry>))
    requires Sorted(es)
    ensures Sorted(r.1)
  {
    if line == [] then (Ok(0), es)
    else
      var scan := ScanFrom(line, 0, 0);
      if scan.1 == 0 then (Ok(0), es)
      else SetNamed(Touch(es, line[..scan.1]), line, scan.0, line[..scan.1])
  }

  /** `Set` once the name is found (and inserted) and the scan has stopped at
      position `k`: the end of the line, or an operator character. */
  function SetNamed(es: seq<Entry>, line: string, k: nat, name: string): (r: (Outcome, seq<Entry>))
    requires Sorted(es) && k <= |line|
    ensures Sorted(r.1)
  {
    if k == |line| then (Ok(1), Put(es, name, 1))
    else
      TablesWellFormed();
      match FindOpOf(line, k, ASSIGN_OPS)
      case None => (Ok(0), es)
      case Some(op) =>
        MatchInside(line, k, op);
        Assigned(es, name, op.fun, EvalOf(es, line[k + |op.token|..]))
  }

  /** `Set`'s last step: the operator's result is stored under the name,
      in the store `Eval` left. */
  function Assigned(es: seq<Entry>, name: string, fun: Fun, ev: (Outcome, seq<Entry>)): (r: (Outcome, seq<Entry>))
    requires Sorted(ev.1)
    ensures Sorted(r.1)
  {
    match ev.0
    case Undefined => (Undefined, ev.1)
    case Ok(b) =>
      match Calc(fun, Lookup(es, name), b)
      case Undefined => (Undefined, ev.1)
      case Ok(v) => (Ok(v), Put(ev.1, name, v))
  }

  /** The name `Set` assigns to: the text before the first operator
      character, without its trailing blanks. */
  function SetName(line: string): string
    requires line != []
  {
    line[..ScanFrom(line, 0, 0).1]
  }

  /** An empty line assigns nothing. */
  lemma SetEmpty(es: seq<Entry>)
    requires Sorted(es)
    ensures SetOf(es, "") == (Ok(0), es)
  {
  }

  /** A line that starts with an operator character (or blanks and then
      one) assigns nothing and yields 0. */
  lemma SetStartsWithOperator(es: seq<Entry>, line: string)
    requires Sorted(es) && line != []
    requires exists k :: 0 <= k < |line| && IsOpChar(line[k]) && forall j :: 0 <= j < k ==> IsBlank(line[j])
    ensures SetOf(es, line) == (Ok(0), es)
  {
    var k :| 0 <= k < |line| && IsOpChar(line[k]) && forall j :: 0 <= j < k ==> IsBlank(line[j]);
    var scan := ScanFrom(line, 0, 0);
    assert scan.0 <= k;
  }

  /** A line with no operator character sets its variable to 1, and changes
      no other. */
  lemma SetWithoutOperator(es: seq<Entry>, line: string)
    requires Sorted(es) && line != [] && !IsBlank(line[0])
    requires forall j :: 0 <= j < |line| ==> !IsOpChar(line[j])
    ensures SetOf(es, line).0 == Ok(1)
    ensures Lookup(SetOf(es, line).1, SetName(line)) == 1
    ensures forall n :: n != SetName(line) ==> Lookup(SetOf(es, line).1, n) == Lookup(es, n)
  {
  }

  /** A line with a name: `Set` inserts the name and goes on from where the
      scan stopped. */
  lemma SetFindsName(es: seq<Entry>, line: string)
    requires Sorted(es) && line != [] && ScanFrom(line, 0, 0).1 != 0
    ensures SetOf(es, line) == SetNamed(Touch(es, SetName(line)), line, ScanFrom(line, 0, 0).0, SetName(line))
  {
  }

  /** A name followed by an assignment operator: the variable becomes
      `op(old value, Eval(rest))`. */
  lemma SetNamedAssigns(es: seq<Entry>, line: string, k: nat, name: string, op: Op)
    requires Sorted(es) && k < |line|
    requires FindOpOf(line, k, ASSIGN_OPS) == Some(op)
    requires k + |op.token| <= |line|
    ensures SetNamed(es, line, k, name) == Assigned(es, name, op.fun, EvalOf(es, line[k + |op.token|..]))
  {
  }

  /** The operator's result is what the name now holds; other names keep
      what `Eval` left them. */
  lemma AssignedStores(es: seq<Entry>, name: string, fun: Fun, ev: (Outcome, seq<Entry>), v: int)
    requires Sorted(ev.1) && ev.0.Ok?
    requires fun == Assign ==> ev.0.value == v
    requires fun != Assign ==> Calc(fun, Lookup(es, name), ev.0.value) == Ok(v)
    ensures Assigned(es, name, fun, ev) == (Ok(v), Put(ev.1, name, v))
    ensures Lookup(Assigned(es, name, fun, ev).1, name) == v
    ensures forall n :: n != name ==> Lookup(Assigned(es, name, fun, ev).1, n) == Lookup(ev.1, n)
  {
  }

  /** `Eval` depends on the store only through its lookups. */
  lemma EvalSameLookups(es: seq<Entry>, fs: seq<Entry>, line: string)
    requires Sorted(es) && Sorted(fs) && forall n :: Lookup(es, n) == Lookup(fs, n)
    ensures EvalOf(es, line).0 == EvalOf(fs, line).0
  {
    RunSameLookups(line, State(0, [], [], true, es), fs);
  }

  lemma {:induction false} RunSameLookups(line: string, s: State, fs: seq<Entry>)
    requires s.pos <= |line| && Sorted(s.entries) && Sorted(fs)
    requires forall n :: Lookup(s.entries, n) == Lookup(fs, n)
    ensures RunFrom(line, s).0 == RunFrom(line, s.(entries := fs)).0
    decreases |line| - s.pos
  {
    if s.pos < |line| {
      StepSameLookups(line, s, fs);
      var t := s.(entries := fs);
      if StepOf(line, s).Going? {
        RunSameLookups(line, StepOf(line, s).s, StepOf(line, t).s.entries);
      }
    }
  }

  /** One step depends on the store only through its lookups. */
  lemma StepSameLookups(line: string, s: State, fs: seq<Entry>)
    requires s.pos < |line| && Sorted(s.entries) && Sorted(fs)
    requires forall n :: Lookup(s.entries, n) == Lookup(fs, n)
    ensures var a, b := StepOf(line, s), StepOf(line, s.(entries := fs));
            && a.Going? == b.Going?
            && (a.Stopped? ==> a.result == b.result)
            && (a.Going? ==> a.s == b.s.(entries := a.s.entries))
  {
    var c := line[s.pos];
    var t := s.(entries := fs);
    if IsBlank(c) || c == '(' {
    } else if c == ')' {
      CloseStepSame(s, fs);
    } else if IsOpChar(c) {
      OperatorStepSame(line, s, fs);
    } else {
      ValueStepSame(line, s, fs);
    }
  }

  lemma CloseStepSame(s: State, fs: seq<Entry>)
    ensures var a, b := CloseStep(s), CloseStep(s.(entries := fs));
            && a.Going? == b.Going?
            && (a.Stopped? ==> a.result == b.result)
            && (a.Going? ==> a.s == b.s.(entries := a.s.entries))
  {
  }

  lemma OperatorStepSame(line: string, s: State, fs: seq<Entry>)
    requires s.pos < |line|
    ensures var a, b := OperatorStep(line, s), OperatorStep(line, s.(entries := fs));
            && a.Going? == b.Going?
            && (a.Stopped? ==> a.result == b.result)
            && (a.Going? ==> a.s == b.s.(entries := a.s.entries))
  {
  }

  lemma ValueStepSame(line: string, s: State, fs: seq<Entry>)
    requires s.pos < |line| && !IsOpChar(line[s.pos]) && Sorted(s.entries) && Sorted(fs)
    requires forall n :: Lookup(s.entries, n) == Lookup(fs, n)
    ensures var a, b := ValueStep(line, s), ValueStep(line, s.(entries := fs));
            a.s == b.s.(entries := a.s.entries)
  {
    var scan := ScanFrom(line, s.pos, s.pos + 1);
    var token := line[s.pos..scan.1];
    assert ValueOf(s.entries, token).0 == ValueOf(fs, token).0;
  }

  // ---------------------------------------------------------------------
  // Save

  /** The text after "set " that `Save` writes for one variable. */
  function Assignment(name: string, v: int): string {
    if v == 1 then name else name + " = " + IntText(v)
  }

  /** The line `Save` writes for one variable: none for 0. */
  function SaveLine(e: Entry): seq<string> {
    if e.value == 0 then [] else ["set " + Assignment(e.name, e.value)]
  }

  /** `Save`: one "set" line per variable, in name order, leaving out zeros. */
  function SaveLines(es: seq<Entry>): seq<string> {
    if es == [] then [] else SaveLines(es[..|es| - 1]) + SaveLine(es[|es| - 1])
  }

  /** A name `Set` reads back whole: non-empty, not starting or ending with
      a blank, and with no operator character. */
  predicate NameOk(name: string) {
    && name != []
    && !IsBlank(name[0]) && !IsBlank(name[|name| - 1])
    && forall j :: 0 <= j < |name| ==> !IsOpChar(name[j])
  }

  /** A step that goes on leaves the rest of the run to the next state. */
  lemma RunStep(line: string, s: State)
    requires s.pos < |line| && Sorted(s.entries) && StepOf(line, s).Going?
    ensures RunFrom(line, s) == RunFrom(line, StepOf(line, s).s)
  {
  }

  /** Evaluating a number, written ahead of one blank, yields it. */
  lemma EvalIntText(es: seq<Entry>, v: int)
    requires Sorted(es)
    ensures EvalOf(es, " " + IntText(v)).0 == Ok(v)
  {
    TextShape(v);
    EvalNumberLine(es, " " + IntText(v), if v < 0 then -v else v, v < 0);
  }

  lemma EvalNumberLine(es: seq<Entry>, line: string, n: nat, negative: bool)
    requires Sorted(es) && 1 < |line| && line[0] == ' '
    requires negative ==> line[1] == '-' && line[2..] == Digits(n)
    requires !negative ==> line[1..] == Digits(n)
    ensures EvalOf(es, line).0 == Ok(if negative then -(n as int) else n)
  {
    var start := if negative then 2 else 1;
    var ops := if negative then [UNARY_OPS[1]] else [];
    var s2 := State(start, [], ops, true, es);
    LeadIn(line, es, negative);
    DigitsValue(n);
    NumberStep(line, s2, Digits(n));
    RunStep(line, s2);
    var s3 := State(|line|, [n], ops, false, es);
    assert RunFrom(line, s3).0 == Finish([n], ops);
    FinishNumber(n, negative);
  }

  lemma TextShape(v: int)
    ensures var line, n := " " + IntText(v), if v < 0 then -v else v;
            && line[0] == ' '
            && (v < 0 ==> 1 < |line| && line[1] == '-' && line[2..] == Digits(n))
            && (v >= 0 ==> line[1..] == Digits(n))
  {
    var line := " " + IntText(v);
    DigitsValue(if v < 0 then -v else v);
    if v < 0 {
      var d := Digits(-v);
      assert line == " " + "-" + d && line[2..] == d;
    } else {
      assert line[1..] == Digits(v);
    }
  }

  /** The blank, and a unary minus before a negative number. */
  lemma LeadIn(line: string, es: seq<Entry>, negative: bool)
    requires Sorted(es) && 1 < |line| && line[0] == ' ' && (negative ==> line[1] == '-')
    ensures var start, ops := if negative then 2 else 1, if negative then [UNARY_OPS[1]] else [];
            RunFrom(line, State(0, [], [], true, es)) == RunFrom(line, State(start, [], ops, true, es))
  {
    var s0 := State(0, [], [], true, es);
    assert StepOf(line, s0) == Going(s0.(pos := 1));
    RunStep(line, s0);
    if negative {
      NegateStep(line, es);
      RunStep(line, s0.(pos := 1));
    }
  }

  lemma FinishNumber(n: nat, negative: bool)
    ensures Finish([n], if negative then [UNARY_OPS[1]] else []) == Ok(if negative then -(n as int) else n)
  {
    if negative {
      assert ApplyOf([n], [UNARY_OPS[1]]) == Stacks([-(n as int)], []);
      assert PopAll([n], [UNARY_OPS[1]]) == PopAll([-(n as int)], []);
    }
  }

  /** A '-' right at the start of an expression is the unary minus. */
  lemma NegateStep(line: string, es: seq<Entry>)
    requires 1 < |line| && line[1] == '-' && Sorted(es)
    ensures OperatorStep(line, State(1, [], [], true, es)) == Going(State(2, [], [UNARY_OPS[1]], true, es))
    ensures StepOf(line, State(1, [], [], true, es)) == Going(State(2, [], [UNARY_OPS[1]], true, es))
  {
    NegatePush(line);
    assert IsOpChar(line[1]) && !IsBlank(line[1]);
  }

  lemma NegatePush(line: string)
    requires 1 < |line| && line[1] == '-'
    ensures PushOperator(line, 1, [], [], true) == Pushed(2, [], [UNARY_OPS[1]])
  {
    TablesWellFormed();
    assert FindOpFrom(line, 1, UNARY_OPS, 1) == Some(UNARY_OPS[1]);
  }

  /** A number that ends the line is pushed whole. */
  lemma NumberStep(line: string, s: State, d: string)
    requires s.pos < |line| && Sorted(s.entries) && d != [] && AllDigits(d) && line[s.pos..] == d
    ensures StepOf(line, s) == Going(State(|line|, s.values + [Decimal(d)], s.ops, false, s.entries))
  {
    assert forall j :: s.pos <= j < |line| ==> line[j] == d[j - s.pos];
    ScanDigits(line, s.pos, s.pos + 1);
    assert line[s.pos..|line|] == d;
    assert !IsOpChar(line[s.pos]) && !IsBlank(line[s.pos]);
    assert StepOf(line, s) == ValueStep(line, s);
  }

  /** The value scan over a run of digits that ends the line takes all of it. */
  lemma {:induction false} ScanDigits(s: string, i: nat, last: nat)
    requires i < |s| && (last == i || last == i + 1)
    requires forall j :: i <= j < |s| ==> '0' <= s[j] <= '9'
    ensures ScanFrom(s, i, last) == (|s|, |s|)
    decreases |s| - i
  {
    if i + 1 < |s| {
      ScanDigits(s, i + 1, i + 1);
    }
  }

  // ---------------------------------------------------------------------
  // Reading a save back

  /** The `set` lines of a saved game, replayed through `Set` with the text
      after "set ". */
  function Restore(es: seq<Entry>, lines: seq<string>): (r: seq<Entry>)
    requires Sorted(es)
    ensures Sorted(r)
    decreases |lines|
  {
    if lines == [] then es
    else
      var line := lines[|lines| - 1];
      var text := if |line| >= 4 && line[..4] == "set " then line[4..] else line;
      SetOf(Restore(es, lines[..|lines| - 1]), text).1
  }

  lemma {:induction false} RestoreAppend(es: seq<Entry>, a: seq<string>, b: seq<string>)
    requires Sorted(es)
    ensures Restore(es, a + b) == Restore(Restore(es, a), b)
    decreases |b|
  {
    if b == [] {
      assert a + b == a;
    } else {
      assert (a + b)[..|a + b| - 1] == a + b[..|b| - 1];
      RestoreAppend(es, a, b[..|b| - 1]);
    }
  }

  /** `Set` reads a well-formed name back whole, whether the line ends
      there or goes on with a blank and an operator. */
  lemma ScanName(line: string, name: string)
    requires NameOk(name) && |name| <= |line| && line[..|name|] == name
    requires |line| == |name| || (|name| + 1 < |line| && line[|name|] == ' ' && IsOpChar(line[|name| + 1]))
    ensures ScanFrom(line, 0, 0) == (if |line| == |name| then |name| else |name| + 1, |name|)
  {
    ScannedName(line, name, ScanFrom(line, 0, 0));
  }

  /** The scan's promise pins its result down on such a line. */
  lemma ScannedName(line: string, name: string, r: (nat, nat))
    requires NameOk(name) && |name| <= |line| && line[..|name|] == name
    requires |line| == |name| || (|name| + 1 < |line| && line[|name|] == ' ' && IsOpChar(line[|name| + 1]))
    requires Scanned(line, 0, 0, r)
    ensures r == (if |line| == |name| then |name| else |name| + 1, |name|)
  {
    var n := |name|;
    NamePrefix(line, name);
    var stop := if |line| == n then n else n + 1;
    if |line| > n {
      assert line[n] == ' ' && !IsOpChar(line[n]) && IsBlank(line[n]);
    }
    assert forall j :: 0 <= j < stop ==> !IsOpChar(line[j]);
    assert stop == |line| || IsOpChar(line[stop]);
    assert r.0 == stop;
    assert !IsBlank(line[n - 1]) && (stop == n || IsBlank(line[n]));
  }

  lemma NamePrefix(line: string, name: string)
    requires NameOk(name) && |name| <= |line| && line[..|name|] == name
    ensures forall j :: 0 <= j < |name| ==> !IsOpChar(line[j])
    ensures !IsBlank(line[|name| - 1])
  {
    assert forall j :: 0 <= j < |name| ==> line[j] == name[j];
  }

  /** The text after "set " of a saved line sets its variable and no other. */
  lemma SetAssignment(es: seq<Entry>, name: string, v: int)
    requires Sorted(es) && NameOk(name)
    ensures Lookup(SetOf(es, Assignment(name, v)).1, name) == v
    ensures forall n :: n != name ==> Lookup(SetOf(es, Assignment(name, v)).1, n) == Lookup(es, n)
  {
    var line := Assignment(name, v);
    if v == 1 {
      ScanName(line, name);
      SetWithoutOperator(es, line);
    } else {
      SetAssignmentValue(es, name, v, line);
    }
  }

  lemma SetAssignmentValue(es: seq<Entry>, name: string, v: int, line: string)
    requires Sorted(es) && NameOk(name) && line == name + " = " + IntText(v)
    ensures Lookup(SetOf(es, line).1, name) == v
    ensures forall n :: n != name ==> Lookup(SetOf(es, line).1, n) == Lookup(es, n)
  {
    EvalIntText(es, v);
    SetPlain(es, line, name, IntText(v), v);
  }

  /** `name = text` sets the name to the value of `text` and nothing else. */
  lemma SetPlain(es: seq<Entry>, line: string, name: string, text: string, v: int)
    requires Sorted(es) && NameOk(name) && line == name + " = " + text
    requires EvalOf(es, " " + text).0 == Ok(v)
    ensures Lookup(SetOf(es, line).1, name) == v
    ensures forall n :: n != name ==> Lookup(SetOf(es, line).1, n) == Lookup(es, n)
  {
    var op := ASSIGN_OPS[5];
    assert op == Op("=", 0, 2, Assign);
    AssignShape(line, name, text);
    var es1 := Touch(es, name);
    EvalSameLookups(es, es1, " " + text);
    SetFindsName(es, line);
    SetNamedAssigns(es1, line, |name| + 1, name, op);
    var ev := EvalOf(es1, " " + text);
    assert ev.0 == Ok(v);
    AssignedStores(es1, name, Assign, ev, v);
  }

  /** `name = text`: `Set` finds the name and the plain assignment. */
  lemma AssignShape(line: string, name: string, text: string)
    requires NameOk(name) && line == name + " = " + text
    ensures ScanFrom(line, 0, 0) == (|name| + 1, |name|) && SetName(line) == name
    ensures FindOpOf(line, |name| + 1, ASSIGN_OPS) == Some(ASSIGN_OPS[5])
    ensures |ASSIGN_OPS[5].token| == 1 && line[|name| + 2..] == " " + text
  {
    var k := |name| + 1;
    SplitAssign(line, name, text);
    assert IsOpChar(line[k]);
    ScanName(line, name);
    assert CharAt(line, k) == '=' && CharAt(line, k + 1) == ' ';
    FindAssign(line, k);
    assert |ASSIGN_OPS[5].token| == 1;
  }

  lemma SplitAssign(line: string, name: string, text: string)
    requires line == name + " = " + text
    ensures |line| == |name| + 3 + |text| && line[..|name|] == name
    ensures line[|name|] == ' ' && line[|name| + 1] == '=' && line[|name| + 2] == ' '
    ensures line[|name| + 2..] == " " + text
  {
    var t := " = " + text;
    assert line == name + t;
    assert line[|name|..] == t;
    assert t[2..] == " " + text;
  }

  /** A lone `=` is the plain assignment. */
  lemma FindAssign(line: string, k: nat)
    requires CharAt(line, k) == '=' && CharAt(line, k + 1) == ' '
    ensures FindOpOf(line, k, ASSIGN_OPS) == Some(ASSIGN_OPS[5])
  {
    TablesWellFormed();
    assert !Matches(line, k, ASSIGN_OPS[0]) && !Matches(line, k, ASSIGN_OPS[1]) && !Matches(line, k, ASSIGN_OPS[2]);
    assert !Matches(line, k, ASSIGN_OPS[3]) && !Matches(line, k, ASSIGN_OPS[4]) && Matches(line, k, ASSIGN_OPS[5]);
  }

  /** Replaying saved variables restores them: every saved name gets its
      value back, and the other names keep theirs. */
  lemma {:induction false} RestoreSaved(ws: seq<Entry>, es: seq<Entry>)
    requires Sorted(ws) && Sorted(es)
    requires forall i :: 0 <= i < |es| ==> NameOk(es[i].name)
    requires forall n :: n in Names(es) ==> Lookup(ws, n) == 0
    ensures forall n :: n in Names(es) ==> Lookup(Restore(ws, SaveLines(es)), n) == Lookup(es, n)
    ensures forall n :: n !in Names(es) ==> Lookup(Restore(ws, SaveLines(es)), n) == Lookup(ws, n)
  {
    if es != [] {
      var m := |es| - 1;
      var init, e := es[..m], es[m];
      assert es == init + [e];
      assert Sorted(init);
      NamesSnoc(init, e);
      RestoreSaved(ws, init);
      var mid := Restore(ws, SaveLines(init));
      RestoreAppend(ws, SaveLines(init), SaveLine(e));
      LastNameNew(es);
      LookupSnoc(init, e);
      RestoreLine(mid, e);
    }
  }

  /** In a sorted store the last name is not among the earlier ones. */
  lemma LastNameNew(es: seq<Entry>)
    requires Sorted(es) && es != []
    ensures es[|es| - 1].name !in Names(es[..|es| - 1])
  {
    var m := |es| - 1;
    if es[m].name in Names(es[..m]) {
      var i :| 0 <= i < m && es[..m][i].name == es[m].name;
      assert Before(es[i].name, es[m].name);
      BeforeIrreflexive(es[m].name);
    }
  }

  /** Replaying the line saved for one variable sets it (a zero writes no
      line and leaves it) and no other. */
  lemma RestoreLine(ws: seq<Entry>, e: Entry)
    requires Sorted(ws) && NameOk(e.name)
    ensures Lookup(Restore(ws, SaveLine(e)), e.name) == if e.value == 0 then Lookup(ws, e.name) else e.value
    ensures forall n :: n != e.name ==> Lookup(Restore(ws, SaveLine(e)), n) == Lookup(ws, n)
  {
    if e.value != 0 {
      var line := "set " + Assignment(e.name, e.value);
      var one: seq<string> := [line];
      assert SaveLine(e) == one && one[..0] == [];
      assert line[..4] == "set " && line[4..] == Assignment(e.name, e.value);
      SetAssignment(ws, e.name, e.value);
    }
  }

  lemma NamesSnoc(es: seq<Entry>, e: Entry)
    ensures Names(es + [e]) == Names(es) + Only(e.name)
  {
    var r := es + [e];
    forall n | n in Names(r) ensures n in Names(es) + {e.name} {
      var i :| 0 <= i < |r| && r[i].name == n;
      if i < |es| {
        assert es[i].name == n;
      }
    }
    forall n | n in Names(es) ensures n in Names(r) {
      var i :| 0 <= i < |es| && es[i].name == n;
      assert r[i].name == n;
    }
    assert r[|es|].name == e.name;
  }

  /** The last entry's name, when no earlier entry has it, looks up its value. */
  lemma {:induction false} LookupSnoc(es: seq<Entry>, e: Entry)
    requires e.name !in Names(es)
    ensures Lookup(es + [e], e.name) == e.value
    ensures forall n :: n != e.name ==> Lookup(es + [e], n) == Lookup(es, n)
  {
    if es != [] {
      assert (es + [e])[1..] == es[1..] + [e];
      assert es[0].name in Names(es);
      assert Names(es[1..]) <= Names(es) by {
        forall n | n in Names(es[1..]) ensures n in Names(es) {
          var i :| 0 <= i < |es[1..]| && es[1..][i].name == n;
          assert es[i + 1].name == n;
        }
      }
      LookupSnoc(es[1..], e);
    } else {
      assert ([] + [e])[1..] == [];
    }
  }

  /** Saving and replaying the saved lines into an empty store gives back
      every variable's value. */
  lemma SaveRoundTrip(es: seq<Entry>)
    requires Sorted(es) && forall i :: 0 <= i < |es| ==> NameOk(es[i].name)
    ensures forall n :: Lookup(Restore([], SaveLines(es)), n) == Lookup(es, n)
  {
    RestoreSaved([], es);
    forall n | n !in Names(es) ensures Lookup(es, n) == 0 {
      LookupMissing(es, n);
    }
  }

  // ---------------------------------------------------------------------
  // The stack operations of `Eval`, on its local `values` and `ops`

  /** `Apply`: pops the top operator and its operands, and pushes the result. */
  method Apply(values: seq<int>, ops: seq<Op>) returns (r: Stacks)
    requires ops != []
    ensures r == ApplyOf(values, ops)
  {
    var op := ops[|ops| - 1];
    if values == [] {
      return Fault;
    }
    var b := values[|values| - 1];
    var rest := values[..|values| - 1];
    var a := 0;
    if op.args == 2 {
      if rest == [] {
        return Fault;
      }
      a := rest[|rest| - 1];
      rest := rest[..|rest| - 1];
    }
    var v := Calc(op.fun, a, b);
    if v.Undefined? {
      return Fault;
    }
    return Stacks(rest + [v.value], ops[..|ops| - 1]);
  }

  /** The loop of a ')': applies operators down to the nearest '(' and drops it. */
  method CloseParens(values: seq<int>, ops: seq<Op>) returns (r: Stacks)
    ensures r == CloseParen(values, ops)
  {
    var vs, os := values, ops;
    while true
      invariant CloseParen(vs, os) == CloseParen(values, ops)
      decreases |os|
    {
      if os == [] {
        return Mismatch;
      }
      if os[|os| - 1].fun == Paren {
        break;
      }
      var st := Apply(vs, os);
      if !st.Stacks? {
        return Fault;
      }
      vs, os := st.values, st.ops;
    }
    return Stacks(vs, os[..|os| - 1]);
  }

  /** The loop before pushing `op`: applies every operator on top that
      yields to it. */
  method PopBefore(values: seq<int>, ops: seq<Op>, op: Op) returns (r: Stacks)
    ensures r == PopFor(values, ops, op)
  {
    var vs, os := values, ops;
    while os != [] && os[|os| - 1].precedence >= op.precedence &&
        !(os[|os| - 1].precedence == op.precedence && op.args == 1)
      invariant PopFor(vs, os, op) == PopFor(values, ops, op)
      decreases |os|
    {
      var st := Apply(vs, os);
      if !st.Stacks? {
        return Fault;
      }
      vs, os := st.values, st.ops;
    }
    return Stacks(vs, os);
  }

  /** The loop after the line: applies every operator left. */
  method PopRemaining(values: seq<int>, ops: seq<Op>) returns (r: Stacks)
    ensures r == PopAll(values, ops)
  {
    var vs, os := values, ops;
    while os != []
      invariant PopAll(vs, os) == PopAll(values, ops)
      decreases |os|
    {
      var st := Apply(vs, os);
      if !st.Stacks? {
        return Fault;
      }
      vs, os := st.values, st.ops;
    }
    return Stacks(vs, os);
  }

  /** The scan over a value token, up to the next operator character,
      following the end of the last non-blank character. */
  method Scan(line: string, start: nat, first: nat) returns (it: nat, last: nat)
    requires start <= |line| && (first <= start || (first == start + 1 && start < |line| && !IsOpChar(line[start])))
    requires forall j :: first <= j < start ==> IsBlank(line[j])
    ensures (it, last) == ScanFrom(line, start, first)
  {
    it, last := start, first;
    while it < |line| && !IsOpChar(line[it])
      invariant start <= it <= |line| && (last <= it || (last == it + 1 && it < |line| && !IsOpChar(line[it])))
      invariant forall j :: last <= j < it ==> IsBlank(line[j])
      invariant ScanFrom(line, it, last) == ScanFrom(line, start, first)
      decreases |line| - it
    {
      if line[it] > ' ' {
        last := it + 1;
      }
      it := it + 1;
    }
  }

  // ---------------------------------------------------------------------
  // The variables, as state

  /** The story variables (the source's global `variables` map) and the
      operations on them. */
  class Variables {
    var entries: seq<Entry>

    ghost predicate Valid()
      reads this
    {
      Sorted(entries)
    }

    constructor ()
      ensures Valid() && entries == []
    {
      entries := [];
    }

    /** `Clear`: forgets every variable. */
    method Clear()
      modifies this
      ensures Valid() && entries == []
    {
      entries := [];
    }

    /** `Value`: a number when every character is a digit, and otherwise
        the variable of that name, inserted with 0 when it is missing. */
    method Value(token: string) returns (v: int)
      requires Valid()
      modifies this
      ensures Valid() && (v, entries) == ValueOf(old(entries), token)
    {
      var value := 0;
      for i := 0 to |token|
        invariant AllDigits(token[..i]) && value == Decimal(token[..i])
        invariant entries == old(entries)
      {
        if '0' <= token[i] <= '9' {
          assert token[..i + 1][..i] == token[..i];
          value := value * 10 + (token[i] as int - '0' as int);
        } else {
          v := Lookup(entries, token);
          entries := Touch(entries, token);
          return;
        }
      }
      assert token[..|token|] == token;
      v := value;
    }

    /** `Eval`: the operator-precedence loop over the line, with its value
        and operator stacks. */
    method Eval(line: string) returns (r: Outcome)
      requires Valid()
      modifies this
      ensures Valid() && (r, entries) == EvalOf(old(entries), line)
    {
      ghost var goal := EvalOf(entries, line);
      var it := 0;
      var values: seq<int> := [];
      var ops: seq<Op> := [];
      var wasOp := true;
      while it < |line|
        invariant it <= |line| && Valid()
        invariant RunFrom(line, State(it, values, ops, wasOp, entries)) == goal
        decreases |line| - it
      {
        ghost var s := State(it, values, ops, wasOp, entries);
        var c := line[it];
        if c <= ' ' {
          RunStep(line, s);
          it := it + 1;
        } else if c == '(' {
          RunStep(line, s);
          ops := ops + [PAREN_OP];
          wasOp := true;
          it := it + 1;
        } else if c == ')' {
          var st := CloseParens(values, ops);
          assert StepOf(line, s) == CloseStep(s);
          if st.Mismatch? {
            return Ok(0);
          } else if st.Fault? {
            return Undefined;
          }
          RunStep(line, s);
          values, ops := st.values, st.ops;
          wasOp := false;
          it := it + 1;
        } else if IsOpChar(c) {
          var pushed := PushAt(line, it, values, ops, wasOp);
          assert StepOf(line, s) == OperatorStep(line, s);
          if pushed.NoOperator? {
            return Ok(0);
          } else if pushed.Failed? {
            return Undefined;
          }
          RunStep(line, s);
          it, values, ops := pushed.pos, pushed.values, pushed.ops;
          wasOp := true;
        } else {
          var first := it;
          var last;
          it, last := Scan(line, it, it + 1);
          var v := Value(line[first..last]);
          assert StepOf(line, s) == ValueStep(line, s);
          RunStep(line, s);
          values := values + [v];
          wasOp := false;
        }
      }
      var st := PopRemaining(values, ops);
      if st.Stacks? && st.values != [] {
        r := Ok(st.values[|st.values| - 1]);
      } else {
        r := Undefined;
      }
    }

    /** `Set`: finds the name before the first operator character and
        assigns to it. */
    method Set(line: string) returns (r: Outcome)
      requires Valid()
      modifies this
      ensures Valid() && (r, entries) == SetOf(old(entries), line)
    {
      if line == [] {
        return Ok(0);
      }
      var it, last := Scan(line, 0, 0);
      if last == 0 {
        return Ok(0);
      }
      var name := line[..last];
      SetFindsName(entries, line);
      entries := Touch(entries, name);
      ghost var es1 := entries;
      if it == |line| {
        entries := Put(entries, name, 1);
        return Ok(1);
      }
      TablesWellFormed();
      var found := FindOp(line, it, ASSIGN_OPS);
      if found.None? {
        return Ok(0);
      }
      var op := found.value;
      MatchInside(line, it, op);
      SetNamedAssigns(es1, line, it, name, op);
      var current := Lookup(entries, name);
      var b := Eval(line[it + |op.token|..]);
      AssignedCases(es1, name, op.fun, b, entries);
      if b.Undefined? {
        return Undefined;
      }
      var v := Calc(op.fun, current, b.value);
      if v.Undefined? {
        return Undefined;
      }
      entries := Put(entries, name, v.value);
      return v;
    }

    /** `Save`: the lines of a saved game, one per nonzero variable in name
        order. */
    method Save() returns (lines: seq<string>)
      requires Valid()
      ensures lines == SaveLines(entries)
    {
      lines := [];
      for i := 0 to |entries|
        invariant lines == SaveLines(entries[..i])
      {
        var e := entries[i];
        assert entries[..i + 1][..i] == entries[..i];
        if e.value != 0 {
          var text := if e.value == 1 then e.name else e.name + " = " + IntText(e.value);
          lines := lines + ["set " + text];
        }
      }
      assert entries[..|entries|] == entries;
    }
  }

  /** An operator token of `Eval`: finds it in the table for its position
      and applies what it outranks before pushing it. */
  method PushAt(line: string, pos: nat, values: seq<int>, ops: seq<Op>, wasOp: bool) returns (r: Pushed)
    requires pos < |line|
    ensures r == PushOperator(line, pos, values, ops, wasOp)
  {
    TablesWellFormed();
    var found := FindOp(line, pos, if wasOp then UNARY_OPS else BINARY_OPS);
    if found.None? {
      return NoOperator;
    }
    var op := found.value;
    PushFound(line, pos, values, ops, wasOp, op);
    var st := PopBefore(values, ops, op);
    if !st.Stacks? {
      return Failed;
    }
    return Pushed(pos + |op.token|, st.values, st.ops + [op]);
  }

  /** The operator found at `pos` is pushed once what it outranks is applied. */
  lemma PushFound(line: string, pos: nat, values: seq<int>, ops: seq<Op>, wasOp: bool, op: Op)
    requires pos < |line| && WellFormedTable(UNARY_OPS) && WellFormedTable(BINARY_OPS)
    requires FindOpOf(line, pos, if wasOp then UNARY_OPS else BINARY_OPS) == Some(op)
    ensures PopFor(values, ops, op).Stacks? ==>
      PushOperator(line, pos, values, ops, wasOp) ==
      Pushed(pos + |op.token|, PopFor(values, ops, op).values, PopFor(values, ops, op).ops + [op])
    ensures !PopFor(values, ops, op).Stacks? ==> PushOperator(line, pos, values, ops, wasOp) == Failed
  {
  }

  /** How `Set` finishes once `Eval` gave `b` and the store `es`: the
      outcome of the operator, stored under the name when it is defined. */
  lemma AssignedCases(es0: seq<Entry>, name: string, fun: Fun, b: Outcome, es: seq<Entry>)
    requires Sorted(es)
    ensures b.Undefined? ==> Assigned(es0, name, fun, (b, es)) == (Undefined, es)
    ensures b.Ok? ==> var v := Calc(fun, Lookup(es0, name), b.value);
      Assigned(es0, name, fun, (b, es)) == if v.Ok? then (v, Put(es, name, v.value)) else (Undefined, es)
  {
  }
}

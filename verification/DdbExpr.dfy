/** Expressions of the kernel debugger: their trees, their tokens and their parser (sys/ddb/db_expr.c, sys/ddb/db_lex.c). */
module DdbExpr {
  import opened Numbers

  datatype Token = Number(n: int) | Ident(name: string) | Dot | DotDot | Plus | Ditto | Minus | Star | Slash | Pct | Hash
                 | LParen | RParen | ShiftL | ShiftR | Other(code: int) | End

  datatype MulOp = Times | Over | Rem | Up

  // The grammar: the right operand of a multiplicative operator is a term.

  datatype Term = Num(n: int) | Name(name: string) | Here | Prev | Next | Last | Paren(e: Shift)
  datatype Unary = Neg(u: Unary) | Deref(u: Unary) | Plain(t: Term)
  datatype Mult = OneUnary(u: Unary) | Multiply(l: Mult, op: MulOp, r: Term)
  datatype Add = OneMult(m: Mult) | AddTo(l: Add, plus: bool, r: Mult)
  datatype Shift = OneAdd(a: Add) | ShiftBy(l: Shift, left: bool, r: Add)

  datatype Error = Syntax | NoSymbol | DivideByZero | NegativeShift

  datatype Value = Val(v: int) | Bad(error: Error)

  /** The machine an expression is evaluated on: symbols, addresses, memory and arithmetic. */
  datatype Machine = Machine(symbol: string -> Value, dot: int, prev: int, next: int, last: int, memory: int -> int,
                             neg: int -> int, mul: (int, int) -> int, div: (int, int) -> int, rem: (int, int) -> int,
                             up: (int, int) -> int, add: (int, int) -> int, sub: (int, int) -> int,
                             shl: (int, int) -> int, shr: (int, int) -> int)

  // The meaning of trees.

  function MulValue(m: Machine, x: Value, op: MulOp, y: Value): Value {
    if x.Bad? then x
    else if y.Bad? then y
    else if op == Times then Val(m.mul(x.v, y.v))
    else if y.v == 0 then Bad(DivideByZero)
    else if op == Over then Val(m.div(x.v, y.v))
    else if op == Rem then Val(m.rem(x.v, y.v))
    else Val(m.up(x.v, y.v))
  }

  function AddValue(m: Machine, x: Value, plus: bool, y: Value): Value {
    if x.Bad? then x else if y.Bad? then y else Val(if plus then m.add(x.v, y.v) else m.sub(x.v, y.v))
  }

  function ShiftValue(m: Machine, x: Value, left: bool, y: Value): Value {
    if x.Bad? then x
    else if y.Bad? then y
    else if y.v < 0 then Bad(NegativeShift)
    else Val(if left then m.shl(x.v, y.v) else m.shr(x.v, y.v))
  }

  function UnaryValue(m: Machine, deref: bool, x: Value): Value {
    if x.Bad? then x else Val(if deref then m.memory(x.v) else m.neg(x.v))
  }

  function EvalTerm(m: Machine, t: Term): Value {
    match t
    case Num(n) => Val(n)
    case Name(s) => (match m.symbol(s) case Val(v) => Val(v) case Bad(_) => Bad(NoSymbol))
    case Here => Val(m.dot)
    case Prev => Val(m.prev)
    case Next => Val(m.next)
    case Last => Val(m.last)
    case Paren(e) => EvalShift(m, e)
  }

  function EvalUnary(m: Machine, u: Unary): Value {
    match u
    case Neg(x) => UnaryValue(m, false, EvalUnary(m, x))
    case Deref(x) => UnaryValue(m, true, EvalUnary(m, x))
    case Plain(t) => EvalTerm(m, t)
  }

  function EvalMult(m: Machine, x: Mult): Value {
    match x
    case OneUnary(u) => EvalUnary(m, u)
    case Multiply(l, op, r) => MulValue(m, EvalMult(m, l), op, EvalTerm(m, r))
  }

  function EvalAdd(m: Machine, x: Add): Value {
    match x
    case OneMult(y) => EvalMult(m, y)
    case AddTo(l, plus, r) => AddValue(m, EvalAdd(m, l), plus, EvalMult(m, r))
  }

  function EvalShift(m: Machine, x: Shift): Value {
    match x
    case OneAdd(a) => EvalAdd(m, a)
    case ShiftBy(l, left, r) => ShiftValue(m, EvalShift(m, l), left, EvalAdd(m, r))
  }

  // The tokens of trees.

  function MulToken(op: MulOp): Token {
    match op
    case Times => Star
    case Over => Slash
    case Rem => Pct
    case Up => Hash
  }

  function PrintTerm(t: Term): seq<Token> {
    match t
    case Num(n) => [Number(n)]
    case Name(s) => [Ident(s)]
    case Here => [Dot]
    case Prev => [DotDot]
    case Next => [Plus]
    case Last => [Ditto]
    case Paren(e) => [LParen] + PrintShift(e) + [RParen]
  }

  function PrintUnary(u: Unary): seq<Token> {
    match u
    case Neg(x) => [Minus] + PrintUnary(x)
    case Deref(x) => [Star] + PrintUnary(x)
    case Plain(t) => PrintTerm(t)
  }

  function PrintMult(x: Mult): seq<Token> {
    match x
    case OneUnary(u) => PrintUnary(u)
    case Multiply(l, op, r) => PrintMult(l) + ([MulToken(op)] + PrintTerm(r))
  }

  function PrintAdd(x: Add): seq<Token> {
    match x
    case OneMult(y) => PrintMult(y)
    case AddTo(l, plus, r) => PrintAdd(l) + ([if plus then Plus else Minus] + PrintMult(r))
  }

  function PrintShift(x: Shift): seq<Token> {
    match x
    case OneAdd(a) => PrintAdd(a)
    case ShiftBy(l, left, r) => PrintShift(l) + ([if left then ShiftL else ShiftR] + PrintAdd(r))
  }

  // The parser, on the tokens that are left.

  /** A value and the tokens after it; no expression, and no token used; or an error, which stops everything. */
  datatype Outcome = Got(v: int, rest: seq<Token>) | None | Fail(error: Error)

  function Head(ts: seq<Token>): Token {
    if ts == [] then End else ts[0]
  }

  function Tail(ts: seq<Token>): (r: seq<Token>)
    ensures ts != [] ==> |r| < |ts|
  {
    if ts == [] then [] else ts[1..]
  }

  predicate IsMul(t: Token) {
    t == Star || t == Slash || t == Pct || t == Hash
  }

  predicate IsAdd(t: Token) {
    t == Plus || t == Minus
  }

  predicate IsShift(t: Token) {
    t == ShiftL || t == ShiftR
  }

  function OpOf(t: Token): MulOp
    requires IsMul(t)
  {
    if t == Star then Times else if t == Slash then Over else if t == Pct then Rem else Up
  }

  /** A value with the tokens after it, as an outcome. */
  function With(x: Value, rest: seq<Token>): Outcome {
    match x
    case Val(v) => Got(v, rest)
    case Bad(e) => Fail(e)
  }

  /** An operand that has to be there. */
  function Need(o: Outcome): Outcome {
    if o == None then Fail(Syntax) else o
  }

  function ParseTerm(m: Machine, ts: seq<Token>): (o: Outcome)
    ensures o.Got? ==> |o.rest| < |ts|
    decreases |ts|, 0
  {
    match Head(ts)
    case Number(n) => Got(n, Tail(ts))
    case Ident(s) => With((match m.symbol(s) case Val(v) => Val(v) case Bad(_) => Bad(NoSymbol)), Tail(ts))
    case Dot => Got(m.dot, Tail(ts))
    case DotDot => Got(m.prev, Tail(ts))
    case Plus => Got(m.next, Tail(ts))
    case Ditto => Got(m.last, Tail(ts))
    case LParen => Closed(m, Tail(ts))
    case _ => None
  }

  /** An expression and the parenthesis that closes it. */
  function Closed(m: Machine, ts: seq<Token>): (o: Outcome)
    ensures o.Got? ==> |o.rest| < |ts|
    ensures o != None
    decreases |ts|, 8
  {
    var e := Need(ParseShift(m, ts));
    if e.Got? then (if Head(e.rest) == RParen then Got(e.v, Tail(e.rest)) else Fail(Syntax)) else e
  }

  function ParseUnary(m: Machine, ts: seq<Token>): (o: Outcome)
    ensures o.Got? ==> |o.rest| < |ts|
    decreases |ts|, 1
  {
    if Head(ts) == Minus || Head(ts) == Star then
      var x := Need(ParseUnary(m, Tail(ts)));
      if x.Got? then With(UnaryValue(m, Head(ts) == Star, Val(x.v)), x.rest) else x
    else ParseTerm(m, ts)
  }

  function MultLoop(m: Machine, lhs: Value, ts: seq<Token>): (o: Outcome)
    ensures o.Got? ==> |o.rest| <= |ts|
    ensures o != None
    decreases |ts|, 2
  {
    if lhs.Bad? then Fail(lhs.error)
    else if !IsMul(Head(ts)) then Got(lhs.v, ts)
    else
      var rhs := Need(ParseTerm(m, Tail(ts)));
      if rhs.Got? then MultLoop(m, MulValue(m, lhs, OpOf(Head(ts)), Val(rhs.v)), rhs.rest) else rhs
  }

  function ParseMult(m: Machine, ts: seq<Token>): (o: Outcome)
    ensures o.Got? ==> |o.rest| < |ts|
    decreases |ts|, 3
  {
    var u := ParseUnary(m, ts);
    if u.Got? then MultLoop(m, Val(u.v), u.rest) else u
  }

  function AddLoop(m: Machine, lhs: Value, ts: seq<Token>): (o: Outcome)
    ensures o.Got? ==> |o.rest| <= |ts|
    ensures o != None
    decreases |ts|, 4
  {
    if lhs.Bad? then Fail(lhs.error)
    else if !IsAdd(Head(ts)) then Got(lhs.v, ts)
    else
      var rhs := Need(ParseMult(m, Tail(ts)));
      if rhs.Got? then AddLoop(m, AddValue(m, lhs, Head(ts) == Plus, Val(rhs.v)), rhs.rest) else rhs
  }

  function ParseAdd(m: Machine, ts: seq<Token>): (o: Outcome)
    ensures o.Got? ==> |o.rest| < |ts|
    decreases |ts|, 5
  {
    var x := ParseMult(m, ts);
    if x.Got? then AddLoop(m, Val(x.v), x.rest) else x
  }

  function ShiftLoop(m: Machine, lhs: Value, ts: seq<Token>): (o: Outcome)
    ensures o.Got? ==> |o.rest| <= |ts|
    ensures o != None
    decreases |ts|, 6
  {
    if lhs.Bad? then Fail(lhs.error)
    else if !IsShift(Head(ts)) then Got(lhs.v, ts)
    else
      var rhs := Need(ParseAdd(m, Tail(ts)));
      if rhs.Got? then ShiftLoop(m, ShiftValue(m, lhs, Head(ts) == ShiftL, Val(rhs.v)), rhs.rest) else rhs
  }

  function ParseShift(m: Machine, ts: seq<Token>): (o: Outcome)
    ensures o.Got? ==> |o.rest| < |ts|
    decreases |ts|, 7
  {
    var x := ParseAdd(m, ts);
    if x.Got? then ShiftLoop(m, Val(x.v), x.rest) else x
  }

  // Parsing what was printed.

  lemma Cons(t: Token, ts: seq<Token>)
    ensures Head([t] + ts) == t && Tail([t] + ts) == ts
  {
  }

  lemma Associate(x: seq<Token>, y: seq<Token>, z: seq<Token>)
    ensures x + y + z == x + (y + z)
  {
  }

  lemma {:induction false} TermBack(m: Machine, t: Term, rest: seq<Token>)
    ensures ParseTerm(m, PrintTerm(t) + rest) == With(EvalTerm(m, t), rest)
    decreases t, 0
  {
    if t.Paren? {
      ShiftBack(m, t.e, [RParen] + rest);
      ParenBack(m, t.e, rest);
    } else {
      SimpleBack(m, t, rest);
    }
  }

  lemma SimpleBack(m: Machine, t: Term, rest: seq<Token>)
    requires !t.Paren?
    ensures ParseTerm(m, PrintTerm(t) + rest) == With(EvalTerm(m, t), rest)
  {
    match t
    case Num(n) => Cons(Number(n), rest);
    case Name(s) => Cons(Ident(s), rest);
    case Here => Cons(Dot, rest);
    case Prev => Cons(DotDot, rest);
    case Next => Cons(Plus, rest);
    case Last => Cons(Ditto, rest);
  }

  lemma ParenBack(m: Machine, e: Shift, rest: seq<Token>)
    requires ParseShift(m, PrintShift(e) + ([RParen] + rest)) == ShiftLoop(m, EvalShift(m, e), [RParen] + rest)
    ensures ParseTerm(m, PrintTerm(Paren(e)) + rest) == With(EvalShift(m, e), rest)
  {
    var inner := PrintShift(e) + ([RParen] + rest);
    Cons(LParen, inner);
    Cons(RParen, rest);
    ParenTokens([LParen], PrintShift(e), [RParen], rest);
  }

  lemma ParenTokens(x: seq<Token>, y: seq<Token>, z: seq<Token>, w: seq<Token>)
    ensures x + y + z + w == x + (y + (z + w))
  {
  }

  lemma {:induction false} UnaryBack(m: Machine, u: Unary, rest: seq<Token>)
    ensures ParseUnary(m, PrintUnary(u) + rest) == With(EvalUnary(m, u), rest)
    decreases u, 1
  {
    match u
    case Neg(x) =>
      UnaryBack(m, x, rest);
      Cons(Minus, PrintUnary(x) + rest);
      Associate([Minus], PrintUnary(x), rest);
    case Deref(x) =>
      UnaryBack(m, x, rest);
      Cons(Star, PrintUnary(x) + rest);
      Associate([Star], PrintUnary(x), rest);
    case Plain(t) =>
      TermBack(m, t, rest);
      TermHead(t, rest);
  }

  lemma TermHead(t: Term, rest: seq<Token>)
    ensures Head(PrintTerm(t) + rest) != Minus && Head(PrintTerm(t) + rest) != Star
  {
  }

  lemma {:induction false} MultBack(m: Machine, x: Mult, rest: seq<Token>)
    ensures ParseMult(m, PrintMult(x) + rest) == MultLoop(m, EvalMult(m, x), rest)
    decreases x, 2
  {
    match x
    case OneUnary(u) =>
      UnaryBack(m, u, rest);
    case Multiply(l, op, r) =>
      var tail := PrintTerm(r) + rest;
      MultBack(m, l, [MulToken(op)] + tail);
      TermBack(m, r, rest);
      Cons(MulToken(op), tail);
      Associate(PrintMult(l), [MulToken(op)] + PrintTerm(r), rest);
      Associate([MulToken(op)], PrintTerm(r), rest);
  }

  lemma {:induction false} AddBack(m: Machine, x: Add, rest: seq<Token>)
    requires !IsMul(Head(rest))
    ensures ParseAdd(m, PrintAdd(x) + rest) == AddLoop(m, EvalAdd(m, x), rest)
    decreases x, 3
  {
    match x
    case OneMult(y) =>
      MultBack(m, y, rest);
    case AddTo(l, plus, r) =>
      var t := if plus then Plus else Minus;
      var tail := PrintMult(r) + rest;
      Cons(t, tail);
      AddBack(m, l, [t] + tail);
      MultBack(m, r, rest);
      Associate(PrintAdd(l), [t] + PrintMult(r), rest);
      Associate([t], PrintMult(r), rest);
  }

  /** Parsing the tokens of a tree gives its value and exactly the tokens after them, or its error. */
  lemma {:induction false} ShiftBack(m: Machine, x: Shift, rest: seq<Token>)
    requires !IsMul(Head(rest)) && !IsAdd(Head(rest))
    ensures ParseShift(m, PrintShift(x) + rest) == ShiftLoop(m, EvalShift(m, x), rest)
    decreases x, 4
  {
    match x
    case OneAdd(a) =>
      AddBack(m, a, rest);
    case ShiftBy(l, left, r) =>
      var t := if left then ShiftL else ShiftR;
      var tail := PrintAdd(r) + rest;
      Cons(t, tail);
      ShiftBack(m, l, [t] + tail);
      AddBack(m, r, rest);
      Associate(PrintShift(l), [t] + PrintAdd(r), rest);
      Associate([t], PrintAdd(r), rest);
  }

  /** Before a token that is no operator, parsing what was printed uses exactly those tokens and gives the value of the tree. */
  lemma RoundTrip(m: Machine, x: Shift, rest: seq<Token>)
    requires !IsMul(Head(rest)) && !IsAdd(Head(rest)) && !IsShift(Head(rest))
    ensures ParseShift(m, PrintShift(x) + rest) == With(EvalShift(m, x), rest)
  {
    ShiftBack(m, x, rest);
  }

  // Whatever is parsed was the print of a tree.

  lemma Uncons(ts: seq<Token>)
    requires Head(ts) != End
    ensures ts == [Head(ts)] + Tail(ts)
  {
  }

  lemma {:induction false} TermTree(m: Machine, ts: seq<Token>) returns (t: Term)
    requires ParseTerm(m, ts).Got?
    ensures ts == PrintTerm(t) + ParseTerm(m, ts).rest && EvalTerm(m, t) == Val(ParseTerm(m, ts).v)
    decreases |ts|, 0
  {
    Uncons(ts);
    match Head(ts)
    case Number(n) => t := Num(n);
    case Ident(s) => t := Name(s);
    case Dot => t := Here;
    case DotDot => t := Prev;
    case Plus => t := Next;
    case Ditto => t := Last;
    case LParen =>
      var o := ParseShift(m, Tail(ts));
      var e := ShiftTree(m, Tail(ts));
      Uncons(o.rest);
      ParenTokens([LParen], PrintShift(e), [RParen], Tail(o.rest));
      t := Paren(e);
  }

  lemma {:induction false} UnaryTree(m: Machine, ts: seq<Token>) returns (u: Unary)
    requires ParseUnary(m, ts).Got?
    ensures ts == PrintUnary(u) + ParseUnary(m, ts).rest && EvalUnary(m, u) == Val(ParseUnary(m, ts).v)
    decreases |ts|, 1
  {
    if Head(ts) == Minus || Head(ts) == Star {
      Uncons(ts);
      var x := UnaryTree(m, Tail(ts));
      Associate([Head(ts)], PrintUnary(x), ParseUnary(m, ts).rest);
      u := if Head(ts) == Star then Deref(x) else Neg(x);
    } else {
      var t := TermTree(m, ts);
      u := Plain(t);
    }
  }

  lemma {:induction false} MultLoopTree(m: Machine, l: Mult, ts: seq<Token>) returns (x: Mult)
    requires MultLoop(m, EvalMult(m, l), ts).Got?
    ensures PrintMult(l) + ts == PrintMult(x) + MultLoop(m, EvalMult(m, l), ts).rest
    ensures EvalMult(m, x) == Val(MultLoop(m, EvalMult(m, l), ts).v)
    decreases |ts|, 2
  {
    if !IsMul(Head(ts)) {
      x := l;
    } else {
      Uncons(ts);
      var rhs := ParseTerm(m, Tail(ts));
      var r := TermTree(m, Tail(ts));
      var next := Multiply(l, OpOf(Head(ts)), r);
      x := MultLoopTree(m, next, rhs.rest);
      ParenTokens(PrintMult(l), [Head(ts)], PrintTerm(r), rhs.rest);
      Associate(PrintMult(l), [Head(ts)], PrintTerm(r));
    }
  }

  lemma {:induction false} MultTree(m: Machine, ts: seq<Token>) returns (x: Mult)
    requires ParseMult(m, ts).Got?
    ensures ts == PrintMult(x) + ParseMult(m, ts).rest && EvalMult(m, x) == Val(ParseMult(m, ts).v)
    decreases |ts|, 3
  {
    var u := UnaryTree(m, ts);
    x := MultLoopTree(m, OneUnary(u), ParseUnary(m, ts).rest);
  }

  lemma {:induction false} AddLoopTree(m: Machine, l: Add, ts: seq<Token>) returns (x: Add)
    requires AddLoop(m, EvalAdd(m, l), ts).Got?
    ensures PrintAdd(l) + ts == PrintAdd(x) + AddLoop(m, EvalAdd(m, l), ts).rest
    ensures EvalAdd(m, x) == Val(AddLoop(m, EvalAdd(m, l), ts).v)
    decreases |ts|, 4
  {
    if !IsAdd(Head(ts)) {
      x := l;
    } else {
      Uncons(ts);
      var rhs := ParseMult(m, Tail(ts));
      var r := MultTree(m, Tail(ts));
      x := AddLoopTree(m, AddTo(l, Head(ts) == Plus, r), rhs.rest);
      ParenTokens(PrintAdd(l), [Head(ts)], PrintMult(r), rhs.rest);
      Associate(PrintAdd(l), [Head(ts)], PrintMult(r));
    }
  }

  lemma {:induction false} AddTree(m: Machine, ts: seq<Token>) returns (x: Add)
    requires ParseAdd(m, ts).Got?
    ensures ts == PrintAdd(x) + ParseAdd(m, ts).rest && EvalAdd(m, x) == Val(ParseAdd(m, ts).v)
    decreases |ts|, 5
  {
    var y := MultTree(m, ts);
    x := AddLoopTree(m, OneMult(y), ParseMult(m, ts).rest);
  }

  lemma {:induction false} ShiftLoopTree(m: Machine, l: Shift, ts: seq<Token>) returns (x: Shift)
    requires ShiftLoop(m, EvalShift(m, l), ts).Got?
    ensures PrintShift(l) + ts == PrintShift(x) + ShiftLoop(m, EvalShift(m, l), ts).rest
    ensures EvalShift(m, x) == Val(ShiftLoop(m, EvalShift(m, l), ts).v)
    decreases |ts|, 6
  {
    if !IsShift(Head(ts)) {
      x := l;
    } else {
      Uncons(ts);
      var rhs := ParseAdd(m, Tail(ts));
      var r := AddTree(m, Tail(ts));
      x := ShiftLoopTree(m, ShiftBy(l, Head(ts) == ShiftL, r), rhs.rest);
      ParenTokens(PrintShift(l), [Head(ts)], PrintAdd(r), rhs.rest);
      Associate(PrintShift(l), [Head(ts)], PrintAdd(r));
    }
  }

  /** A parse that succeeds has read the print of some tree, and its value is that of the tree. */
  lemma {:induction false} ShiftTree(m: Machine, ts: seq<Token>) returns (x: Shift)
    requires ParseShift(m, ts).Got?
    ensures ts == PrintShift(x) + ParseShift(m, ts).rest && EvalShift(m, x) == Val(ParseShift(m, ts).v)
    decreases |ts|, 7
  {
    var a := AddTree(m, ts);
    x := ShiftLoopTree(m, OneAdd(a), ParseAdd(m, ts).rest);
  }

  // The code: tokens are read one by one, and one can be given back.

  datatype Option<T> = Nothing | Some(value: T)

  /** A value, no expression, or an error. */
  datatype Reply = Ok(v: int) | No | Err(error: Error)

  /** A reply and the tokens left afterwards are those of an outcome. */
  ghost predicate Matches(r: Reply, left: seq<Token>, o: Outcome, was: seq<Token>) {
    match o
    case Got(v, rest) => r == Ok(v) && left == rest
    case None => r == No && left == was
    case Fail(e) => r == Err(e)
  }

  class Parser {
    const m: Machine
    const input: seq<Token>
    var pos: nat
    var look: Option<Token>

    ghost predicate Valid()
      reads this
    {
      pos <= |input| && End !in input && (look == Some(End) ==> pos == |input|)
    }

    /** The tokens still to be read. */
    ghost function Rest(): (r: seq<Token>)
      reads this
      requires Valid()
      ensures End !in r
    {
      if look == Nothing || look == Some(End) then input[pos..] else [look.value] + input[pos..]
    }

    constructor (m: Machine, input: seq<Token>)
      requires End !in input
      ensures Valid() && Rest() == input && this.m == m
    {
      this.m, this.input, pos, look := m, input, 0, Nothing;
    }

    method Read() returns (t: Token)
      requires Valid()
      modifies this
      ensures Valid() && look == Nothing && t == Head(old(Rest())) && Rest() == Tail(old(Rest()))
    {
      if look != Nothing {
        t := look.value;
        look := Nothing;
      } else if pos < |input| {
        t := input[pos];
        pos := pos + 1;
      } else {
        t := End;
      }
    }

    /** A token is given back; there is never one given back already. */
    method Unread(t: Token, ghost was: seq<Token>)
      requires Valid() && look == Nothing && End !in was && t == Head(was) && Rest() == Tail(was)
      modifies this
      ensures Valid() && Rest() == was
    {
      look := Some(t);
    }

    method ReadTerm() returns (r: Reply)
      requires Valid()
      modifies this
      ensures Valid() && Matches(r, Rest(), ParseTerm(m, old(Rest())), old(Rest()))
      decreases |Rest()|, 0
    {
      ghost var was := Rest();
      var t := Read();
      match t
      case Number(n) => return Ok(n);
      case Ident(s) =>
        var v := m.symbol(s);
        return if v.Val? then Ok(v.v) else Err(NoSymbol);
      case Dot => return Ok(m.dot);
      case DotDot => return Ok(m.prev);
      case Plus => return Ok(m.next);
      case Ditto => return Ok(m.last);
      case LParen => r := ReadParen();
      case _ =>
        Unread(t, was);
        return No;
    }

    /** An expression and the parenthesis that closes it. */
    method ReadParen() returns (r: Reply)
      requires Valid()
      modifies this
      ensures Valid() && Matches(r, Rest(), Closed(m, old(Rest())), [LParen] + old(Rest()))
      decreases |Rest()|, 8
    {
      r := ReadShift();
      if r == No {
        return Err(Syntax);
      }
      if r.Ok? {
        var t := Read();
        if t != RParen {
          return Err(Syntax);
        }
      }
    }

    method ReadUnary() returns (r: Reply)
      requires Valid()
      modifies this
      ensures Valid() && Matches(r, Rest(), ParseUnary(m, old(Rest())), old(Rest()))
      decreases |Rest()|, 1
    {
      ghost var was := Rest();
      var t := Read();
      if t == Minus || t == Star {
        r := ReadUnary();
        if r == No {
          return Err(Syntax);
        }
        if r.Ok? {
          r := Ok(if t == Star then m.memory(r.v) else m.neg(r.v));
        }
        return;
      }
      Unread(t, was);
      r := ReadTerm();
    }

    /** A multiplicative operator on two values. */
    method Combine(t: Token, lhs: int, rhs: int) returns (x: Value)
      requires IsMul(t)
      ensures x == MulValue(m, Val(lhs), OpOf(t), Val(rhs))
    {
      if t == Star {
        return Val(m.mul(lhs, rhs));
      }
      if rhs == 0 {
        return Bad(DivideByZero);
      }
      x := Val(if t == Slash then m.div(lhs, rhs) else if t == Pct then m.rem(lhs, rhs) else m.up(lhs, rhs));
    }

    method ReadMult() returns (r: Reply)
      requires Valid()
      modifies this
      ensures Valid() && Matches(r, Rest(), ParseMult(m, old(Rest())), old(Rest()))
      decreases |Rest()|, 3
    {
      r := ReadUnary();
      if !r.Ok? {
        return;
      }
      var lhs := r.v;
      ghost var all, was := MultLoop(m, Val(lhs), Rest()), Rest();
      var t := Read();
      while IsMul(t)
        invariant Valid() && look == Nothing && End !in was && t == Head(was) && Rest() == Tail(was) && |was| < |old(Rest())|
        invariant MultLoop(m, Val(lhs), was) == all
        decreases |was|
      {
        var rhs := ReadTerm();
        if !rhs.Ok? {
          return if rhs == No then Err(Syntax) else rhs;
        }
        var x := Combine(t, lhs, rhs.v);
        if x.Bad? {
          return Err(x.error);
        }
        lhs := x.v;
        was := Rest();
        t := Read();
      }
      Unread(t, was);
      r := Ok(lhs);
    }

    method ReadAdd() returns (r: Reply)
      requires Valid()
      modifies this
      ensures Valid() && Matches(r, Rest(), ParseAdd(m, old(Rest())), old(Rest()))
      decreases |Rest()|, 5
    {
      r := ReadMult();
      if !r.Ok? {
        return;
      }
      var lhs := r.v;
      ghost var all, was := AddLoop(m, Val(lhs), Rest()), Rest();
      var t := Read();
      while IsAdd(t)
        invariant Valid() && look == Nothing && End !in was && t == Head(was) && Rest() == Tail(was) && |was| < |old(Rest())|
        invariant AddLoop(m, Val(lhs), was) == all
        decreases |was|
      {
        var rhs := ReadMult();
        if !rhs.Ok? {
          return if rhs == No then Err(Syntax) else rhs;
        }
        lhs := if t == Plus then m.add(lhs, rhs.v) else m.sub(lhs, rhs.v);
        was := Rest();
        t := Read();
      }
      Unread(t, was);
      r := Ok(lhs);
    }

    method ReadShift() returns (r: Reply)
      requires Valid()
      modifies this
      ensures Valid() && Matches(r, Rest(), ParseShift(m, old(Rest())), old(Rest()))
      decreases |Rest()|, 7
    {
      r := ReadAdd();
      if !r.Ok? {
        return;
      }
      var lhs := r.v;
      ghost var all, was := ShiftLoop(m, Val(lhs), Rest()), Rest();
      var t := Read();
      while IsShift(t)
        invariant Valid() && look == Nothing && End !in was && t == Head(was) && Rest() == Tail(was) && |was| < |old(Rest())|
        invariant ShiftLoop(m, Val(lhs), was) == all
        decreases |was|
      {
        var rhs := ReadAdd();
        if !rhs.Ok? {
          return if rhs == No then Err(Syntax) else rhs;
        }
        if rhs.v < 0 {
          return Err(NegativeShift);
        }
        lhs := if t == ShiftL then m.shl(lhs, rhs.v) else m.shr(lhs, rhs.v);
        was := Rest();
        t := Read();
      }
      Unread(t, was);
      r := Ok(lhs);
    }
  }

  // The arithmetic of a machine with 64-bit longs and 32-bit unsigned ints.

  const LONG := 0x1_0000_0000_0000_0000
  const LONG_HALF := 0x8000_0000_0000_0000
  const UINT := 0x1_0000_0000

  /** A number as a 64-bit two's complement long. */
  function Wrap(x: int): (r: int)
    ensures -LONG_HALF <= r < LONG_HALF
  {
    (x + LONG_HALF) % LONG - LONG_HALF
  }

  /** Division that truncates towards zero, and its remainder. */
  function Quotient(x: int, y: int): int
    requires y != 0
  {
    if x >= 0 then x / y else -((-x) / y)
  }

  /** Division by zero and shifts by the width or more are left to `undefined`. */
  function Lp64(symbol: string -> Value, dot: int, prev: int, next: int, last: int, memory: int -> int,
                undefined: (int, int) -> int): Machine
  {
    Machine(symbol, dot, prev, next, last, memory,
            x => Wrap(-x),
            (x, y) => Wrap(x * y),
            (x, y) => if y == 0 then undefined(x, y) else Wrap(Quotient(x, y)),
            (x, y) => if y == 0 then undefined(x, y) else Wrap(x - Quotient(x, y) * y),
            (x, y) => if y == 0 then undefined(x, y) else RoundUp(x, y),
            (x, y) => Wrap(x + y),
            (x, y) => Wrap(x - y),
            (x, n) => if 0 <= n < 64 then Wrap(x * Pow2(n)) else undefined(x, n),
            (x, n) => if 0 <= n < 32 then x % UINT / Pow2(n) else undefined(x, n))
  }

  function RoundUp(x: int, y: int): int
    requires y != 0
  {
    Wrap(Quotient(Wrap(Wrap(x + y) - 1), y) * y)
  }

  lemma WrapSmall(x: int)
    requires -LONG_HALF <= x < LONG_HALF
    ensures Wrap(x) == x
  {
  }

  /** Where nothing overflows, `#` gives the least multiple of its right operand that is not below the left one. */
  lemma RoundsUp(x: int, y: int)
    requires 0 <= x && 0 < y && x + y < LONG_HALF
    ensures x <= RoundUp(x, y) < x + y && exists q :: RoundUp(x, y) == q * y
  {
    var z := x + y - 1;
    var q := z / y;
    WrapSmall(x + y);
    WrapSmall(z);
    MultipleBelow(z, y, q);
    WrapSmall(q * y);
  }

  lemma MultipleBelow(z: int, y: int, q: int)
    requires 0 <= z && 0 < y && q == z / y
    ensures 0 <= q * y <= z < q * y + y
  {
  }
}

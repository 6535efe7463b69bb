/** What an `#if` expression is worth, and the evaluator that computes it while it parses. */
module Evaluate {
  import Vm
  import opened CondExpr

  // ---------------------------------------------------------------- the value of a tree

  /** Where C leaves overflow and shift counts open, they wrap as on the usual processors. A division these trap on
      is worth 0 here, and fails. */
  function Apply(op: BinOp, a: Vm.int32, b: Vm.int32): Vm.int32 {
    match op
    case OrOr => Vm.Flag(a != 0 || b != 0)
    case AndAnd => Vm.Flag(a != 0 && b != 0)
    case BitOr => Vm.Bits32((x, y) => x || y, a, b)
    case BitXor => Vm.Bits32((x, y) => x != y, a, b)
    case BitAnd => Vm.Bits32((x, y) => x && y, a, b)
    case Eq => Vm.Flag(a == b)
    case Neq => Vm.Flag(a != b)
    case Le => Vm.Flag(a <= b)
    case Ge => Vm.Flag(a >= b)
    case Less => Vm.Flag(a < b)
    case Greater => Vm.Flag(a > b)
    case ShiftL => Vm.Wrap(a * Vm.Power(b % 32))
    case ShiftR => Vm.Wrap(a / Vm.Power(b % 32))
    case Plus => Vm.Wrap(a + b)
    case Minus => Vm.Wrap(a - b)
    case Times => Vm.Wrap(a * b)
    case Over => if Undefined(op, a, b) then 0 else Vm.Wrap(Vm.Quot(a, b))
    case Modulo => if Undefined(op, a, b) then 0 else Vm.Wrap(a - b * Vm.Quot(a, b))
  }

  /** A division by 0, or one whose quotient is out of range. */
  predicate Undefined(op: BinOp, a: Vm.int32, b: Vm.int32) {
    (op == Over || op == Modulo) && (b == 0 || (a == -Vm.TWO31 && b == -1))
  }

  function ApplyUn(u: UnOp, a: Vm.int32): Vm.int32 {
    match u
    case Tilde => -1 - a
    case Bang => Vm.Flag(a == 0)
    case Pos => a
    case Negative => Vm.Wrap(0 - a)
  }

  /** Both operands always count, also those of `&&` and `||`. What is no expression is worth 0. */
  function Value(t: Tree): Vm.int32 {
    match t
    case Lit(v) => v
    case Name => 0
    case Un(u, a) => ApplyUn(u, Value(a))
    case Bin(op, l, r) => Apply(op, Value(l), Value(r))
    case Group(i) => Value(i)
    case _ => 0
  }

  /** Whether evaluation reports an error that makes the directive fail. A missing operand and a missing closing
      parenthesis do not. */
  predicate Fails(t: Tree) {
    match t
    case Lit(_) => false
    case Name => false
    case Un(_, a) => Fails(a)
    case Bin(op, l, r) => Fails(l) || Fails(r) || Undefined(op, Value(l), Value(r))
    case Group(i) => Fails(i)
    case Missing => false
    case Unclosed(i) => Fails(i)
    case Misclosed(i, _) => Fails(i)
    case Bad(_) => true
    case BadJoin(_, _) => true
  }

  lemma StillFails(left: Tree, ts: seq<Token>)
    requires ts != []
    ensures Fails(left) ==> Fails(ParseLed(left, ts).0)
  {
  }

  // ---------------------------------------------------------------- the evaluator

  class Parser {
    const toks: seq<Token>
    var pos: nat
    var err: bool

    constructor (toks: seq<Token>)
      ensures this.toks == toks && pos == 0 && !err
    {
      this.toks, pos, err := toks, 0, false;
    }

    ghost predicate Ready(ts: seq<Token>)
      reads this
    {
      pos <= |toks| && toks[pos..] == ts
    }

    /** An expression of operators that bind tighter than `rbp`. */
    method Expr(rbp: nat, ghost ts: seq<Token>) returns (left: Vm.int32)
      requires Ready(ts)
      modifies this
      ensures Ready(ParseExpr(ts, rbp).1) && left == Value(ParseExpr(ts, rbp).0)
      ensures err == (old(err) || Fails(ParseExpr(ts, rbp).0))
      decreases |ts|, 3
    {
      hide ParseNud, ParseLed, Power;
      if pos == |toks| { return 0; }
      var tok := toks[pos];
      assert ts[0] == tok && ts[1..] == toks[pos + 1..];
      pos := pos + 1;
      left := Nud(tok, ts);
      ghost var tree, rest := ParseNud(ts).0, ParseNud(ts).1;
      while pos < |toks| && Power(toks[pos]) > rbp
        invariant Ready(rest) && |rest| < |ts| && left == Value(tree) && err == (old(err) || Fails(tree))
        invariant ParseLoop(tree, rest, rbp) == ParseExpr(ts, rbp)
        decreases |rest|
      {
        tok := toks[pos];
        assert rest[0] == tok && rest[1..] == toks[pos + 1..];
        pos := pos + 1;
        StillFails(tree, rest);
        left := Led(left, tok, tree, rest);
        ghost var r := ParseLed(tree, rest);
        tree, rest := r.0, r.1;
      }
    }

    /** What the token just read starts. */
    method Nud(tok: Token, ghost ts: seq<Token>) returns (v: Vm.int32)
      requires ts != [] && tok == ts[0] && Ready(ts[1..])
      modifies this
      ensures Ready(ParseNud(ts).1) && v == Value(ParseNud(ts).0)
      ensures err == (old(err) || Fails(ParseNud(ts).0))
      decreases |ts|, 2
    {
      hide ParseExpr, ParseLoop, ParseLed;
      match tok
      case Num(n) => v := n;
      case Ident => v := 0;
      case TildeTok =>
        v := Expr(Power(tok), ts[1..]);
        v := -1 - v;
      case BangTok =>
        v := Expr(Power(tok), ts[1..]);
        v := Vm.Flag(v == 0);
      case Op(op) =>
        if op == Plus {
          v := Expr(Power(tok), ts[1..]);
        } else if op == Minus {
          v := Expr(Power(tok), ts[1..]);
          v := Vm.Wrap(0 - v);
        } else {
          v, err := 0, true;
        }
      case LParen =>
        v := Expr(0, ts[1..]);
        ghost var rest := ParseExpr(ts[1..], 0).1;
        if pos == |toks| { return 0; }
        var close := toks[pos];
        assert rest[0] == close && rest[1..] == toks[pos + 1..];
        pos := pos + 1;
        if close != RParen { return 0; }
      case _ => v, err := 0, true;
    }

    /** What the token just read joins to the value before it. */
    method Led(left: Vm.int32, tok: Token, ghost tree: Tree, ghost ts: seq<Token>) returns (v: Vm.int32)
      requires ts != [] && tok == ts[0] && Ready(ts[1..]) && left == Value(tree) && (Fails(tree) ==> err)
      modifies this
      ensures Ready(ParseLed(tree, ts).1) && v == Value(ParseLed(tree, ts).0)
      ensures err == (old(err) || Fails(ParseLed(tree, ts).0))
      decreases |ts|, 0
    {
      hide ParseExpr, ParseLoop, ParseNud;
      match tok
      case Op(op) =>
        var right := Expr(Power(tok), ts[1..]);
        if Undefined(op, left, right) {
          v, err := 0, true;
        } else {
          v := Apply(op, left, right);
        }
      case _ => v, err := 0, true;
    }
  }

  /** Evaluates a condition. Tokens behind the expression are not looked at. */
  method DoEval(toks: seq<Token>) returns (ok: bool, result: Vm.int32)
    ensures result == Value(ParseExpr(toks, 0).0)
    ensures ok <==> !Fails(ParseExpr(toks, 0).0)
  {
    var p := new Parser(toks);
    assert toks[0..] == toks;
    result := p.Expr(0, toks);
    ok := !p.err;
  }

  // ---------------------------------------------------------------- printing with parentheses

  /** A tree without parentheses. */
  predicate Plain(t: Tree) {
    match t
    case Lit(_) => true
    case Name => true
    case Un(_, a) => Plain(a)
    case Bin(_, l, r) => Plain(l) && Plain(r)
    case _ => false
  }

  function GroupIf(b: bool, t: Tree): Tree { if b then Group(t) else t }

  /** Puts parentheses where the binding powers need them. */
  function Parens(t: Tree): (p: Tree)
    requires Plain(t)
    ensures Clean(p)
  {
    match t
    case Un(u, a) => Un(u, GroupIf(LeftMin(Parens(a)) <= UnPower(u), Parens(a)))
    case Bin(op, l, r) =>
      Bin(op, GroupIf(RightMin(Parens(l)) < OpPower(op), Parens(l)), GroupIf(LeftMin(Parens(r)) <= OpPower(op), Parens(r)))
    case _ => t
  }

  function Strip(t: Tree): Tree {
    match t
    case Un(u, a) => Un(u, Strip(a))
    case Bin(op, l, r) => Bin(op, Strip(l), Strip(r))
    case Group(i) => Strip(i)
    case _ => t
  }

  lemma {:induction false} ParensGroup(t: Tree)
    requires Plain(t)
    ensures Grouped(Parens(t)) && Strip(Parens(t)) == t
    ensures Value(Parens(t)) == Value(t) && Fails(Parens(t)) == Fails(t)
  {
    hide OpPower, UnPower, Apply, ApplyUn;
    match t
    case Un(_, a) => ParensGroup(a);
    case Bin(_, l, r) =>
      ParensGroup(l);
      ParensGroup(r);
    case _ =>
  }

  /** Whoever prints an expression with the parentheses it needs gets the same expression back, and with it its
      value: the evaluator takes all tokens and leaves none. */
  lemma PrintedIsParsed(t: Tree)
    requires Plain(t)
    ensures ParseExpr(Text(Parens(t)), 0) == (Parens(t), [])
    ensures Strip(ParseExpr(Text(Parens(t)), 0).0) == t
    ensures Value(ParseExpr(Text(Parens(t)), 0).0) == Value(t)
    ensures Fails(ParseExpr(Text(Parens(t)), 0).0) == Fails(t)
  {
    hide ParseExpr, Text;
    ParensGroup(t);
    ParsesExactly(Text(Parens(t)), Parens(t));
  }

  /** `a p b q c`, without parentheses of its own. */
  function InARow(p: BinOp, q: BinOp, a: Tree, b: Tree, c: Tree): seq<Token>
    requires Clean(a) && Clean(b) && Clean(c)
  {
    Text(a) + ([Op(p)] + (Text(b) + ([Op(q)] + Text(c))))
  }

  lemma RowIsText(p: BinOp, q: BinOp, a: Tree, b: Tree, c: Tree)
    requires Clean(a) && Clean(b) && Clean(c)
    ensures InARow(p, q, a, b, c) == Text(Bin(q, Bin(p, a, b), c)) == Text(Bin(p, a, Bin(q, b, c)))
  {
    assert Text(Bin(p, a, b)) == Text(a) + ([Op(p)] + Text(b));
    assert Text(Bin(q, b, c)) == Text(b) + ([Op(q)] + Text(c));
  }

  /** Operators of equal power group to the left, whatever the operands are. */
  lemma LeftAssociative(p: BinOp, q: BinOp, a: Tree, b: Tree, c: Tree)
    requires OpPower(p) == OpPower(q) && Clean(a) && Clean(b) && Clean(c)
    requires Grouped(Bin(p, a, b)) && Grouped(Bin(q, b, c))
    ensures Grouped(Bin(q, Bin(p, a, b), c)) && !Grouped(Bin(p, a, Bin(q, b, c)))
    ensures ParseExpr(InARow(p, q, a, b, c), 0).0 == Bin(q, Bin(p, a, b), c)
  {
    hide ParseExpr, OpPower, Text, InARow;
    RowIsText(p, q, a, b, c);
    ParsesExactly(InARow(p, q, a, b, c), Bin(q, Bin(p, a, b), c));
  }

  /** Going down the left edge of a grouped tree the operators only get stronger. */
  lemma {:induction false} EdgesOrdered(t: Tree)
    requires Clean(t) && Grouped(t)
    ensures RightMin(t) <= LeftMin(t)
  {
    if t.Bin? { EdgesOrdered(t.l); }
  }

  /** The tree that a prefix operator and the tokens of `t` make: it goes down the left edge, behind the operators
      that do not bind tighter. */
  function Prefixed(u: UnOp, t: Tree): (p: Tree)
    requires Clean(t)
    ensures Clean(p)
  {
    if t.Bin? && OpPower(t.op) <= UnPower(u) then Bin(t.op, Prefixed(u, t.l), t.r) else Un(u, t)
  }

  lemma {:induction false} PrefixedGrouped(u: UnOp, t: Tree)
    requires Clean(t) && Grouped(t)
    ensures Grouped(Prefixed(u, t)) && RightMin(Prefixed(u, t)) >= Min(UnPower(u), RightMin(t))
    ensures Text(Prefixed(u, t)) == [UnToken(u)] + Text(t)
  {
    if t.Bin? && OpPower(t.op) <= UnPower(u) {
      PrefixedGrouped(u, t.l);
    } else if t.Bin? {
      EdgesOrdered(t.l);
    }
  }

  /** A prefix operator in front of any expression. */
  lemma PrefixFound(u: UnOp, t: Tree)
    requires Clean(t) && Grouped(t)
    ensures ParseExpr([UnToken(u)] + Text(t), 0) == (Prefixed(u, t), [])
  {
    hide ParseExpr, Text;
    PrefixedGrouped(u, t);
    ParsesExactly([UnToken(u)] + Text(t), Prefixed(u, t));
  }

  /** A sign binds as loosely as addition: it takes the whole of an operation exactly if that is a multiplication, a
      division or a remainder. C has it take the leftmost operand only. */
  lemma SignsBindLoosely(u: UnOp, op: BinOp, a: Tree, b: Tree)
    requires u == Pos || u == Negative
    requires Clean(a) && Clean(b) && Grouped(Bin(op, a, b))
    ensures ParseExpr([UnToken(u)] + Text(Bin(op, a, b)), 0) == (Un(u, Bin(op, a, b)), [])
       <==> op == Times || op == Over || op == Modulo
  {
    hide ParseExpr, Text;
    PrefixFound(u, Bin(op, a, b));
  }

  // ---------------------------------------------------------------- what passes without an error

  /** Some division in the tree is not defined. */
  predicate Divides(t: Tree) {
    match t
    case Un(_, a) => Divides(a)
    case Bin(op, l, r) => Divides(l) || Divides(r) || Undefined(op, Value(l), Value(r))
    case Group(i) => Divides(i)
    case Unclosed(i) => Divides(i)
    case Misclosed(i, _) => Divides(i)
    case _ => false
  }

  lemma {:induction false} FailsIf(t: Tree)
    ensures Fails(t) <==> !Lenient(t) || Divides(t)
  {
    match t
    case Un(_, a) => FailsIf(a);
    case Bin(_, l, r) =>
      FailsIf(l);
      FailsIf(r);
    case Group(i) => FailsIf(i);
    case Unclosed(i) => FailsIf(i);
    case Misclosed(i, _) => FailsIf(i);
    case _ =>
  }

  /** The tokens are the text of a tree without an undefined division, and tokens that go on with no operator. */
  ghost predicate PassesAs(ts: seq<Token>, t: Tree, rest: seq<Token>) {
    && Lenient(t) && Grouped(t) && !Divides(t)
    && ts == Text(t) + rest && Stops(rest, 0) && Follows(t, rest)
  }

  /** Which token lists the evaluation accepts, well-formed or not. */
  lemma PassesIf(ts: seq<Token>)
    ensures !Fails(ParseExpr(ts, 0).0) <==> exists t, rest :: PassesAs(ts, t, rest)
    ensures forall t, rest :: PassesAs(ts, t, rest) ==> ParseExpr(ts, 0) == (t, rest)
  {
    hide ParseExpr, Text, Grouped;
    var r := ParseExpr(ts, 0);
    FailsIf(r.0);
    if !Fails(r.0) {
      FindsExactly(ts, r.0, r.1);
      assert PassesAs(ts, r.0, r.1);
    }
    forall t, rest | PassesAs(ts, t, rest) ensures r == (t, rest) && !Fails(t) {
      FindsExactly(ts, t, rest);
      FailsIf(t);
    }
  }

  /** Some parenthesis has no partner. */
  predicate Open(t: Tree) {
    match t
    case Un(_, a) => Open(a)
    case Bin(_, l, r) => Open(l) || Open(r)
    case Group(i) => Open(i)
    case Unclosed(_) => true
    case Misclosed(_, _) => true
    case _ => false
  }

  /** The tokens stop where an operand should be. */
  predicate LastMissing(t: Tree) {
    match t
    case Un(_, a) => LastMissing(a)
    case Bin(_, _, r) => LastMissing(r)
    case Missing => true
    case _ => false
  }

  lemma {:induction false} CleanIf(t: Tree)
    requires Lenient(t) && Grouped(t)
    ensures Clean(t) <==> !Open(t) && !LastMissing(t)
    ensures LastMissing(t) ==> AtEnd(t)
  {
    match t
    case Un(_, a) => CleanIf(a);
    case Bin(_, l, r) =>
      CleanIf(l);
      CleanIf(r);
    case Group(i) => CleanIf(i);
    case _ =>
  }

  /** An accepted token list is no expression exactly if it has a parenthesis without a partner, misses its last
      operand, or goes on behind an expression. */
  lemma PassesMalformed(ts: seq<Token>)
    requires !Fails(ParseExpr(ts, 0).0)
    ensures var t, rest := ParseExpr(ts, 0).0, ParseExpr(ts, 0).1;
            (exists e :: Clean(e) && Grouped(e) && Text(e) == ts) <==> !Open(t) && !LastMissing(t) && rest == []
  {
    hide ParseExpr, Text, Grouped, Open, LastMissing;
    var t, rest := ParseExpr(ts, 0).0, ParseExpr(ts, 0).1;
    FailsIf(t);
    FindsExactly(ts, t, rest);
    CleanIf(t);
    assert rest == [] ==> Text(t) + rest == Text(t);
    forall e | Clean(e) && Grouped(e) && Text(e) == ts ensures (t, rest) == (e, []) { ParsesExactly(ts, e); }
  }

  /** An unclosed parenthesis counts as 0, with or without another token in the place of its partner; a missing
      operand counts as 0; and what follows an operand is not looked at. */
  lemma PassesSilently()
    ensures ParseExpr([LParen, Token.Num(1)], 0) == (Unclosed(Lit(1)), [])
    ensures ParseExpr([LParen, Token.Num(1), Token.Num(2)], 0) == (Misclosed(Lit(1), Token.Num(2)), [])
    ensures ParseExpr([Token.Num(1), Op(Plus)], 0) == (Bin(Plus, Lit(1), Missing), [])
    ensures ParseExpr([Token.Num(1), Token.Num(2)], 0) == (Lit(1), [Token.Num(2)])
    ensures forall t <- [Unclosed(Lit(1)), Misclosed(Lit(1), Token.Num(2)), Bin(Plus, Lit(1), Missing)] :: !Fails(t)
    ensures Value(Unclosed(Lit(1))) == 0 == Value(Misclosed(Lit(1), Token.Num(2)))
  {
    hide ParseExpr;
    FindsExactly([LParen, Token.Num(1)], Unclosed(Lit(1)), []);
    FindsExactly([LParen, Token.Num(1), Token.Num(2)], Misclosed(Lit(1), Token.Num(2)), []);
    FindsExactly([Token.Num(1), Op(Plus)], Bin(Plus, Lit(1), Missing), []);
    FindsExactly([Token.Num(1), Token.Num(2)], Lit(1), [Token.Num(2)]);
  }
}

/** The expressions of `#if`: tokens with binding powers, and the trees a top-down operator-precedence parser
    builds from them. */
module CondExpr {
  import Vm

  datatype BinOp = OrOr | AndAnd | BitOr | BitXor | BitAnd | Eq | Neq | Le | Ge | Less | Greater
                 | ShiftL | ShiftR | Plus | Minus | Times | Over | Modulo

  datatype UnOp = Tilde | Bang | Pos | Negative

  /** `Num` stands for integer and character literals, `Other` for what no expression can hold. */
  datatype Token = Num(v: Vm.int32) | Ident | Op(op: BinOp) | TildeTok | BangTok | LParen | RParen | Float | Other

  function OpPower(op: BinOp): (p: nat)
    ensures 16 <= p <= 8192
  {
    match op
    case OrOr => 16
    case AndAnd => 32
    case BitOr => 64
    case BitXor => 128
    case BitAnd => 256
    case Eq => 512
    case Neq => 512
    case Le => 1024
    case Ge => 1024
    case Less => 1024
    case Greater => 1024
    case ShiftL => 2048
    case ShiftR => 2048
    case Plus => 4096
    case Minus => 4096
    case Times => 8192
    case Over => 8192
    case Modulo => 8192
  }

  /** The binding power of a token. */
  function Power(t: Token): (p: nat)
    ensures p < TOP
  {
    match t
    case Op(op) => OpPower(op)
    case TildeTok => 16384
    case BangTok => 16384
    case LParen => 32768
    case _ => 0
  }

  function UnPower(u: UnOp): (p: nat)
    ensures 4096 <= p <= 16384
  {
    match u
    case Tilde => 16384
    case Bang => 16384
    case Pos => 4096
    case Negative => 4096
  }

  // ---------------------------------------------------------------- trees

  /** The last five stand for what is not an expression: an operand missing at the end, a parenthesis that is still
      open at the end, one with another token in the place of its partner, a token that starts no operand, and one
      that joins none. */
  datatype Tree = Lit(v: Vm.int32) | Name | Un(u: UnOp, arg: Tree) | Bin(op: BinOp, l: Tree, r: Tree) | Group(inner: Tree)
                | Missing | Unclosed(inner: Tree) | Misclosed(inner: Tree, tok: Token)
                | Bad(tok: Token) | BadJoin(l: Tree, tok: Token)

  /** An expression as it should be. */
  predicate Clean(t: Tree): (b: bool)
    ensures b ==> Lenient(t) && !AtEnd(t)
  {
    match t
    case Lit(_) => true
    case Name => true
    case Un(_, a) => Clean(a)
    case Bin(_, l, r) => Clean(l) && Clean(r)
    case Group(i) => Clean(i)
    case _ => false
  }

  /** What the parser lets pass: all but tokens that start or join nothing. */
  predicate Lenient(t: Tree) {
    match t
    case Un(_, a) => Lenient(a)
    case Bin(_, l, r) => Lenient(l) && Lenient(r)
    case Group(i) => Lenient(i)
    case Unclosed(i) => Lenient(i)
    case Misclosed(i, _) => Lenient(i)
    case Bad(_) => false
    case BadJoin(_, _) => false
    case _ => true
  }

  /** Whether the tree can only stand at the end of the tokens: on its right edge something is missing. */
  predicate AtEnd(t: Tree) {
    match t
    case Un(_, a) => AtEnd(a)
    case Bin(_, _, r) => AtEnd(r)
    case Missing => true
    case Unclosed(_) => true
    case _ => false
  }

  function UnToken(u: UnOp): Token {
    match u case Tilde => TildeTok case Bang => BangTok case Pos => Op(Plus) case Negative => Op(Minus)
  }

  /** The tokens of a tree. */
  function Text(t: Tree): (s: seq<Token>)
    requires Lenient(t)
    ensures s == [] ==> t == Missing
  {
    match t
    case Lit(v) => [Num(v)]
    case Name => [Ident]
    case Un(u, a) => [UnToken(u)] + Text(a)
    case Bin(op, l, r) => Text(l) + ([Op(op)] + Text(r))
    case Group(i) => [LParen] + (Text(i) + [RParen])
    case Missing => []
    case Unclosed(i) => [LParen] + Text(i)
    case Misclosed(i, tok) => [LParen] + (Text(i) + [tok])
  }

  const TOP: nat := 65536

  function Min(a: nat, b: nat): nat { if a <= b then a else b }

  /** The weakest operator on the left edge of a tree. */
  function LeftMin(t: Tree): (p: nat)
    ensures 0 < p <= TOP
  {
    match t case Bin(op, l, _) => Min(OpPower(op), LeftMin(l)) case _ => TOP
  }

  /** The weakest operator that still waits for its operand on the right edge of a tree. */
  function RightMin(t: Tree): (p: nat)
    ensures 0 < p <= TOP
  {
    match t
    case Bin(op, _, r) => Min(OpPower(op), RightMin(r))
    case Un(u, a) => Min(UnPower(u), RightMin(a))
    case _ => TOP
  }

  /** Parentheses stand wherever the binding powers need them: an operand on the right binds tighter than its
      operator, and no operator inside a left operand would take the operator's token. Operands are missing and
      parentheses are open at the very end only; a token in the place of a closing parenthesis is no operator. */
  predicate Grouped(t: Tree)
    requires Lenient(t)
  {
    match t
    case Lit(_) => true
    case Name => true
    case Un(u, a) => Grouped(a) && LeftMin(a) > UnPower(u)
    case Bin(op, l, r) =>
      Grouped(l) && Grouped(r) && LeftMin(r) > OpPower(op) && OpPower(op) <= RightMin(l) && !AtEnd(l)
    case Group(i) => Grouped(i) && !AtEnd(i)
    case Missing => true
    case Unclosed(i) => Grouped(i)
    case Misclosed(i, tok) => Grouped(i) && !AtEnd(i) && tok != RParen && Power(tok) == 0
  }

  // ---------------------------------------------------------------- the parser as a function

  /** An expression whose operators bind tighter than `rbp`, and the tokens behind it. */
  function ParseExpr(ts: seq<Token>, rbp: nat): (r: (Tree, seq<Token>))
    ensures |r.1| <= |ts| && (ts != [] ==> |r.1| < |ts|)
    decreases |ts|, 3
  {
    if ts == [] then (Missing, [])
    else
      var n := ParseNud(ts);
      ParseLoop(n.0, n.1, rbp)
  }

  /** What a token starts. */
  function ParseNud(ts: seq<Token>): (r: (Tree, seq<Token>))
    requires ts != []
    ensures |r.1| < |ts|
    decreases |ts|, 2
  {
    match ts[0]
    case Num(v) => (Lit(v), ts[1..])
    case Ident => (Name, ts[1..])
    case TildeTok => (var r := ParseExpr(ts[1..], Power(ts[0])); (Un(Tilde, r.0), r.1))
    case BangTok => (var r := ParseExpr(ts[1..], Power(ts[0])); (Un(Bang, r.0), r.1))
    case Op(op) =>
      if op == Plus then
        var r := ParseExpr(ts[1..], Power(ts[0]));
        (Un(Pos, r.0), r.1)
      else if op == Minus then
        var r := ParseExpr(ts[1..], Power(ts[0]));
        (Un(Negative, r.0), r.1)
      else (Bad(ts[0]), ts[1..])
    case LParen =>
      var r := ParseExpr(ts[1..], 0);
      if r.1 == [] then (Unclosed(r.0), [])
      else if r.1[0] == RParen then (Group(r.0), r.1[1..])
      else (Misclosed(r.0, r.1[0]), r.1[1..])
    case _ => (Bad(ts[0]), ts[1..])
  }

  function ParseLoop(left: Tree, ts: seq<Token>, rbp: nat): (r: (Tree, seq<Token>))
    ensures |r.1| <= |ts|
    decreases |ts|, 1
  {
    if ts == [] || Power(ts[0]) <= rbp then (left, ts)
    else
      var r := ParseLed(left, ts);
      ParseLoop(r.0, r.1, rbp)
  }

  /** What a token joins to the operand before it. */
  function ParseLed(left: Tree, ts: seq<Token>): (r: (Tree, seq<Token>))
    requires ts != []
    ensures |r.1| < |ts|
    decreases |ts|, 0
  {
    match ts[0]
    case Op(op) => (var r := ParseExpr(ts[1..], Power(ts[0])); (Bin(op, left, r.0), r.1))
    case _ => (BadJoin(left, ts[0]), ts[1..])
  }

  // ---------------------------------------------------------------- every grouped tree is found

  /** The tokens behind do not go on with an operator that binds tighter than `p`. */
  predicate Stops(rest: seq<Token>, p: nat) {
    rest == [] || Power(rest[0]) <= p
  }

  /** The tokens may stand behind the tree. */
  predicate Follows(t: Tree, rest: seq<Token>) { AtEnd(t) ==> rest == [] }

  lemma UnNud(u: UnOp, ts: seq<Token>)
    ensures ParseNud([UnToken(u)] + ts) == (Un(u, ParseExpr(ts, UnPower(u)).0), ParseExpr(ts, UnPower(u)).1)
  {
    assert ([UnToken(u)] + ts)[1..] == ts;
  }

  lemma OpLed(op: BinOp, left: Tree, ts: seq<Token>)
    ensures ParseLed(left, [Op(op)] + ts)
         == (Bin(op, left, ParseExpr(ts, OpPower(op)).0), ParseExpr(ts, OpPower(op)).1)
  {
    assert ([Op(op)] + ts)[1..] == ts;
  }

  lemma LoopStops(left: Tree, ts: seq<Token>, rbp: nat)
    requires Stops(ts, rbp)
    ensures ParseLoop(left, ts, rbp) == (left, ts)
  {
  }

  lemma LoopTakes(left: Tree, op: BinOp, ts: seq<Token>, rbp: nat)
    requires OpPower(op) > rbp
    ensures var r := ParseExpr(ts, OpPower(op));
            ParseLoop(left, [Op(op)] + ts, rbp) == ParseLoop(Bin(op, left, r.0), r.1, rbp)
  {
    OpLed(op, left, ts);
  }

  lemma ExprStarts(ts: seq<Token>, rbp: nat, t: Tree, rest: seq<Token>)
    requires ts != [] && ParseNud(ts) == (t, rest)
    ensures ParseExpr(ts, rbp) == ParseLoop(t, rest, rbp)
  {
  }

  lemma GroupNud(inner: Tree, ts: seq<Token>, rest: seq<Token>)
    requires ParseExpr(ts, 0) == (inner, [RParen] + rest)
    ensures ParseNud([LParen] + ts) == (Group(inner), rest)
  {
    assert ([LParen] + ts)[1..] == ts && ([RParen] + rest)[1..] == rest;
  }

  lemma OpenNud(inner: Tree, ts: seq<Token>)
    requires ParseExpr(ts, 0) == (inner, [])
    ensures ParseNud([LParen] + ts) == (Unclosed(inner), [])
  {
    assert ([LParen] + ts)[1..] == ts;
  }

  lemma MisclosedNud(inner: Tree, ts: seq<Token>, tok: Token, rest: seq<Token>)
    requires ParseExpr(ts, 0) == (inner, [tok] + rest) && tok != RParen
    ensures ParseNud([LParen] + ts) == (Misclosed(inner, tok), rest)
  {
    assert ([LParen] + ts)[1..] == ts && ([tok] + rest)[1..] == rest;
  }

  lemma TextBehind(t: Tree, rest: seq<Token>)
    requires Lenient(t)
    ensures t.Un? ==> Text(t) + rest == [UnToken(t.u)] + (Text(t.arg) + rest)
    ensures t.Bin? ==> Text(t) + rest == Text(t.l) + ([Op(t.op)] + (Text(t.r) + rest))
    ensures t.Group? ==> Text(t) + rest == [LParen] + (Text(t.inner) + ([RParen] + rest))
    ensures t.Unclosed? ==> Text(t) + rest == [LParen] + (Text(t.inner) + rest)
    ensures t.Misclosed? ==> Text(t) + rest == [LParen] + (Text(t.inner) + ([t.tok] + rest))
  {
  }

  /** A grouped tree is found in front of any tokens that do not go on with a tighter operator. */
  lemma {:induction false} FindsTree(t: Tree, rest: seq<Token>, rbp: nat)
    requires Lenient(t) && Grouped(t) && LeftMin(t) > rbp && Stops(rest, RightMin(t)) && Follows(t, rest)
    ensures ParseExpr(Text(t) + rest, rbp) == ParseLoop(t, rest, rbp)
  {
    hide ParseExpr, ParseLoop, ParseNud, ParseLed, OpPower, UnPower, UnToken;
    TextBehind(t, rest);
    match t
    case Lit(v) =>
      LeafNud(Num(v), rest);
      ExprStarts([Num(v)] + rest, rbp, t, rest);
    case Name =>
      LeafNud(Ident, rest);
      ExprStarts([Ident] + rest, rbp, t, rest);
    case Un(u, a) =>
      FindsTree(a, rest, UnPower(u));
      LoopStops(a, rest, UnPower(u));
      UnNud(u, Text(a) + rest);
      ExprStarts(Text(t) + rest, rbp, t, rest);
    case Bin(op, l, r) =>
      var tail := Text(r) + rest;
      FindsTree(l, [Op(op)] + tail, rbp);
      FindsTree(r, rest, OpPower(op));
      LoopStops(r, rest, OpPower(op));
      LoopTakes(l, op, tail, rbp);
    case Group(i) =>
      FindsTree(i, [RParen] + rest, 0);
      LoopStops(i, [RParen] + rest, 0);
      GroupNud(i, Text(i) + ([RParen] + rest), rest);
      ExprStarts(Text(t) + rest, rbp, t, rest);
    case Missing => NothingFound(rbp);
    case Unclosed(i) =>
      FindsTree(i, [], 0);
      LoopStops(i, [], 0);
      OpenNud(i, Text(i) + []);
      ExprStarts(Text(t) + rest, rbp, t, rest);
    case Misclosed(i, tok) =>
      FindsTree(i, [tok] + rest, 0);
      LoopStops(i, [tok] + rest, 0);
      MisclosedNud(i, Text(i) + ([tok] + rest), tok, rest);
      ExprStarts(Text(t) + rest, rbp, t, rest);
  }

  lemma NothingFound(rbp: nat)
    ensures ParseExpr([], rbp) == (Missing, []) == ParseLoop(Missing, [], rbp)
  {
  }

  lemma LeafNud(tok: Token, rest: seq<Token>)
    ensures tok.Num? ==> ParseNud([tok] + rest) == (Lit(tok.v), rest)
    ensures tok.Ident? ==> ParseNud([tok] + rest) == (Name, rest)
  {
    assert ([tok] + rest)[1..] == rest;
  }

  // ---------------------------------------------------------------- what is found is a grouped tree

  /** The tokens `ts` are the tree and `rest`, and the tree ends where it must. */
  ghost predicate Found(ts: seq<Token>, rbp: nat, t: Tree, rest: seq<Token>) {
    && Lenient(t) && Grouped(t) && LeftMin(t) > rbp && Stops(rest, Min(rbp, RightMin(t))) && Follows(t, rest)
    && ts == Text(t) + rest
  }

  /** An operand to go on with. */
  ghost predicate Operand(ts: seq<Token>, t: Tree, rest: seq<Token>) {
    && Lenient(t) && Grouped(t) && Stops(rest, RightMin(t)) && Follows(t, rest)
    && ts == Text(t) + rest
  }

  lemma {:induction false} ExprFound(ts: seq<Token>, rbp: nat)
    requires rbp < TOP && Lenient(ParseExpr(ts, rbp).0)
    ensures Found(ts, rbp, ParseExpr(ts, rbp).0, ParseExpr(ts, rbp).1)
    decreases |ts|, 3
  {
    if ts == [] { return; }
    var n := ParseNud(ts);
    LoopKeepsLenient(n.0, n.1, rbp);
    NudFound(ts);
    LoopFound(ts, n.0, n.1, rbp);
  }

  lemma {:induction false} LoopKeepsLenient(left: Tree, ts: seq<Token>, rbp: nat)
    ensures Lenient(ParseLoop(left, ts, rbp).0) ==> Lenient(left)
    decreases |ts|
  {
    if ts != [] && Power(ts[0]) > rbp {
      var r := ParseLed(left, ts);
      LoopKeepsLenient(r.0, r.1, rbp);
    }
  }

  lemma NudShape(ts: seq<Token>)
    requires ts != [] && ts[0] != LParen && Lenient(ParseNud(ts).0)
    ensures match ParseNud(ts).0
            case Un(u, a) => ts[0] == UnToken(u) && ParseExpr(ts[1..], UnPower(u)) == (a, ParseNud(ts).1)
            case Lit(v) => ts == [Num(v)] + ParseNud(ts).1
            case Name => ts == [Ident] + ParseNud(ts).1
            case _ => false
  {
    hide ParseExpr, ParseLoop, ParseLed;
    assert ts == [ts[0]] + ts[1..];
  }

  lemma ParenShape(ts: seq<Token>, inner: Tree, rest: seq<Token>)
    requires ts != [] && ts[0] == LParen && ParseExpr(ts[1..], 0) == (inner, rest)
    ensures rest == [] ==> ParseNud(ts) == (Unclosed(inner), [])
    ensures rest != [] ==> rest == [rest[0]] + rest[1..] && ParseNud(ts).1 == rest[1..]
    ensures rest != [] ==> ParseNud(ts).0 == if rest[0] == RParen then Group(inner) else Misclosed(inner, rest[0])
  {
    hide ParseExpr, ParseLoop, ParseLed;
  }

  lemma {:induction false} NudFound(ts: seq<Token>)
    requires ts != [] && Lenient(ParseNud(ts).0)
    ensures Operand(ts, ParseNud(ts).0, ParseNud(ts).1) && !ParseNud(ts).0.Bin?
    decreases |ts|, 2
  {
    hide ParseExpr, ParseLoop, ParseLed, ParseNud, Power, OpPower;
    assert ts == [ts[0]] + ts[1..];
    var t, rest := ParseNud(ts).0, ParseNud(ts).1;
    TextBehind(t, rest);
    if ts[0] == LParen {
      var r := ParseExpr(ts[1..], 0);
      ParenShape(ts, r.0, r.1);
      ExprFound(ts[1..], 0);
    } else {
      NudShape(ts);
      if t.Un? { ExprFound(ts[1..], UnPower(t.u)); }
    }
  }

  lemma {:induction false} LoopFound(all: seq<Token>, left: Tree, ts: seq<Token>, rbp: nat)
    requires Operand(all, left, ts) && LeftMin(left) > rbp && rbp < TOP && Lenient(ParseLoop(left, ts, rbp).0)
    ensures Found(all, rbp, ParseLoop(left, ts, rbp).0, ParseLoop(left, ts, rbp).1)
    decreases |ts|, 1
  {
    if ts != [] && Power(ts[0]) > rbp {
      var r := ParseLed(left, ts);
      LoopKeepsLenient(r.0, r.1, rbp);
      LedFound(all, left, ts, rbp);
      LoopFound(all, r.0, r.1, rbp);
    }
  }

  lemma {:induction false} LedFound(all: seq<Token>, left: Tree, ts: seq<Token>, rbp: nat)
    requires Operand(all, left, ts) && LeftMin(left) > rbp && ts != [] && Power(ts[0]) > rbp
    requires Lenient(ParseLed(left, ts).0)
    ensures Operand(all, ParseLed(left, ts).0, ParseLed(left, ts).1) && LeftMin(ParseLed(left, ts).0) > rbp
    decreases |ts|, 0
  {
    hide ParseExpr, ParseLoop, ParseNud, OpPower;
    var r := ParseExpr(ts[1..], Power(ts[0]));
    assert ts == [ts[0]] + ts[1..];
    ExprFound(ts[1..], Power(ts[0]));
    TextBehind(ParseLed(left, ts).0, r.1);
  }

  /** The parser finds a tree and leaves `rest` exactly if the tokens are that tree's text, parenthesised as the
      binding powers ask, and `rest`, which starts with no operator. */
  lemma FindsExactly(ts: seq<Token>, t: Tree, rest: seq<Token>)
    requires Lenient(t)
    ensures ParseExpr(ts, 0) == (t, rest)
       <==> Grouped(t) && ts == Text(t) + rest && Stops(rest, 0) && Follows(t, rest)
  {
    if Grouped(t) && ts == Text(t) + rest && Stops(rest, 0) && Follows(t, rest) {
      FindsTree(t, rest, 0);
      LoopStops(t, rest, 0);
    }
    if ParseExpr(ts, 0) == (t, rest) { ExprFound(ts, 0); }
  }

  /** The parser takes all tokens and finds an expression in them exactly if they are its text. So the text of a
      grouped tree belongs to no other. */
  lemma ParsesExactly(ts: seq<Token>, t: Tree)
    requires Clean(t)
    ensures ParseExpr(ts, 0) == (t, []) <==> Grouped(t) && Text(t) == ts
  {
    FindsExactly(ts, t, []);
    assert Text(t) + [] == Text(t);
  }
}

/** The instruction windows the optimisers replace, each with the replacement and the proof that it does the
    same, but for what it leaves dead. */
module Windows {
  import opened Vm
  import opened VmDead

  /** What a replaced window leaves different: the four bytes above the stack pointer, and some registers. */
  datatype Leaves = Leaves(slot: bool, regs: set<Reg>)

  const EXACT: Leaves := Leaves(false, {})
  const SLOT: Leaves := Leaves(true, {})

  function LeftDead(s: State, l: Leaves): Dead {
    Dead(if l.slot then Range(s.Get(SP), 4) else {}, l.regs)
  }

  /** From every state that runs the old window without fault, the new one runs too and ends the same but for
      what it leaves dead. */
  ghost predicate SameEffect(before: seq<Insn>, after: seq<Insn>, env: Env, l: Leaves) {
    forall s: State, s': State :: ExecAll(before, s, env) == Some(s') ==> ReachesToo(after, s, s', env, l)
  }

  ghost predicate ReachesToo(after: seq<Insn>, s: State, s': State, env: Env, l: Leaves) {
    var o := ExecAll(after, s, env);
    o.Some? && Related(s', o.value, LeftDead(s, l))
  }

  function Then(o: Option<State>, i: Insn, env: Env): Option<State> {
    match o case None => None case Some(s) => Exec(i, s, env)
  }

  lemma One(a: Insn, s: State, env: Env)
    ensures ExecAll([a], s, env) == Exec(a, s, env)
  {
  }

  lemma Snoc(xs: seq<Insn>, b: Insn, s: State, env: Env)
    ensures ExecAll(xs + [b], s, env) == Then(ExecAll(xs, s, env), b, env)
  {
    ExecAllAppend(xs, [b], s, env);
  }

  lemma Two(a: Insn, b: Insn, s: State, env: Env)
    ensures ExecAll([a, b], s, env) == Then(Exec(a, s, env), b, env)
  {
    assert [a, b] == [a] + [b];
    Snoc([a], b, s, env);
  }

  lemma Three(a: Insn, b: Insn, c: Insn, s: State, env: Env)
    ensures ExecAll([a, b, c], s, env) == Then(Then(Exec(a, s, env), b, env), c, env)
  {
    assert [a, b, c] == [a, b] + [c];
    Snoc([a, b], c, s, env);
    Two(a, b, s, env);
  }

  lemma Four(a: Insn, b: Insn, c: Insn, d: Insn, s: State, env: Env)
    ensures ExecAll([a, b, c, d], s, env) == Then(Then(Then(Exec(a, s, env), b, env), c, env), d, env)
  {
    assert [a, b, c, d] == [a, b, c] + [d];
    Snoc([a, b, c], d, s, env);
    Three(a, b, c, s, env);
  }

  lemma Six(a: Insn, b: Insn, c: Insn, d: Insn, e: Insn, f: Insn, s: State, env: Env)
    ensures ExecAll([a, b, c, d, e, f], s, env)
         == Then(Then(Then(Then(Then(Exec(a, s, env), b, env), c, env), d, env), e, env), f, env)
  {
    assert [a, b, c, d, e, f] == [a, b, c, d, e] + [f];
    assert [a, b, c, d, e] == [a, b, c, d] + [e];
    Snoc([a, b, c, d, e], f, s, env);
    Snoc([a, b, c, d], e, s, env);
    Four(a, b, c, d, s, env);
  }

  // ---------------------------------------------------------------- push, then pop

  /** A push, steps that keep stack pointer and memory, then a pop: the pop sees the pushed word. */
  lemma PushThenPop(s: State, x: int32, mid: State, r: Reg, end: State)
    requires ExecPush(s, x).Some? && mid.mem == ExecPush(s, x).value.mem && mid.Get(SP) == Wrap(s.Get(SP) + 4)
    requires ExecPop(mid, r) == Some(end)
    ensures end == mid.Set(SP, s.Get(SP)).Set(r, x)
    ensures SameMem(end.mem, s.mem, Range(s.Get(SP), 4))
  {
    Load32Store(s.mem, s.Get(SP), x);
  }

  function PushPopNew(r1: Reg, r2: Reg): seq<Insn> { if r1 == r2 then [] else [Mr(r2, r1)] }

  lemma PushPop(r1: Reg, r2: Reg, env: Env)
    ensures SameEffect([Push(r1), Pop(r2)], PushPopNew(r1, r2), env, SLOT)
  {
    forall s: State, s': State | ExecAll([Push(r1), Pop(r2)], s, env) == Some(s')
      ensures ReachesToo(PushPopNew(r1, r2), s, s', env, SLOT)
    {
      Two(Push(r1), Pop(r2), s, env);
      PushThenPop(s, s.Get(r1), Exec(Push(r1), s, env).value, r2, s');
      if r1 != r2 { One(Mr(r2, r1), s, env); }
    }
  }

  /** A copy straight back after a pop into another register changes nothing. */
  lemma PushPopBack(r1: Reg, r2: Reg, env: Env)
    requires r1 != r2
    ensures SameEffect([Push(r1), Pop(r2), Mr(r1, r2)], [Mr(r2, r1)], env, SLOT)
  {
    forall s: State, s': State | ExecAll([Push(r1), Pop(r2), Mr(r1, r2)], s, env) == Some(s')
      ensures ReachesToo([Mr(r2, r1)], s, s', env, SLOT)
    {
      Three(Push(r1), Pop(r2), Mr(r1, r2), s, env);
      var p := Exec(Push(r1), s, env).value;
      PushThenPop(s, s.Get(r1), p, r2, Exec(Pop(r2), p, env).value);
      One(Mr(r2, r1), s, env);
    }
  }

  /** A literal load between push and pop of the same register. */
  lemma PushLiPopSame(r: Reg, q: Reg, v: Operand, env: Env)
    requires r != q && q != SP
    ensures SameEffect([Push(r), Li(q, v), Pop(r)], [Li(q, v)], env, SLOT)
  {
    forall s: State, s': State | ExecAll([Push(r), Li(q, v), Pop(r)], s, env) == Some(s')
      ensures ReachesToo([Li(q, v)], s, s', env, SLOT)
    {
      Three(Push(r), Li(q, v), Pop(r), s, env);
      var p := Exec(Push(r), s, env).value;
      PushThenPop(s, s.Get(r), Exec(Li(q, v), p, env).value, r, s');
      One(Li(q, v), s, env);
    }
  }

  /** A literal load into the pushed register, then a pop into another. */
  lemma PushLiPopOther(r: Reg, q: Reg, v: Operand, env: Env)
    requires r != q && r != SP
    ensures SameEffect([Push(r), Li(r, v), Pop(q)], [Mr(q, r), Li(r, v)], env, SLOT)
  {
    forall s: State, s': State | ExecAll([Push(r), Li(r, v), Pop(q)], s, env) == Some(s')
      ensures ReachesToo([Mr(q, r), Li(r, v)], s, s', env, SLOT)
    {
      Three(Push(r), Li(r, v), Pop(q), s, env);
      var p := Exec(Push(r), s, env).value;
      PushThenPop(s, s.Get(r), Exec(Li(r, v), p, env).value, q, s');
      Two(Mr(q, r), Li(r, v), s, env);
    }
  }

  /** Whether the assembler's optimiser rewrites `push r1; li r2, v; pop r3`. */
  predicate PushLiPopApplies(r1: Reg, r2: Reg, r3: Reg) {
    (r1 == r3 && r1 != r2) || r1 == r2
  }

  function PushLiPopNew(r1: Reg, r2: Reg, r3: Reg, v: Operand): seq<Insn>
    requires PushLiPopApplies(r1, r2, r3)
  {
    if r1 == r3 && r1 != r2 then [Li(r2, v)] else [Mr(r3, r2), Li(r2, v)]
  }

  /** The rewrite is right exactly when the literal does not go to the stack pointer, or is so small that the
      pop must fault, and the three registers are not one and the same. */
  lemma PushLiPop(r1: Reg, r2: Reg, r3: Reg, v: Operand, env: Env)
    requires PushLiPopApplies(r1, r2, r3)
    ensures SameEffect([Push(r1), Li(r2, v), Pop(r3)], PushLiPopNew(r1, r2, r3, v), env, SLOT)
       <==> (r2 == SP ==> Value(v, env) < 4) && (r1 == r2 == r3 ==> r1 == SP)
  {
    if r2 == SP {
      if Value(v, env) < 4 {
        PopFaults(r1, r3, v, env);
      } else {
        StackLiteralDiffers(r1, r3, v, env);
      }
    } else if r1 == r2 && r2 == r3 {
      SameRegisterDiffers(r1, v, env);
    } else if r1 == r3 {
      PushLiPopSame(r1, r2, v, env);
    } else {
      PushLiPopOther(r1, r3, v, env);
    }
  }

  lemma PopFaults(r1: Reg, r3: Reg, v: Operand, env: Env)
    requires Value(v, env) < 4
    ensures forall s: State :: ExecAll([Push(r1), Li(SP, v), Pop(r3)], s, env) == None
  {
    forall s: State ensures ExecAll([Push(r1), Li(SP, v), Pop(r3)], s, env) == None {
      Three(Push(r1), Li(SP, v), Pop(r3), s, env);
    }
  }

  /** A state with room for a push at address 0 and a pop up to address `top`. */
  function Roomy(top: nat, r: Reg, x: int32): State {
    State([0, 0, 0, 0, 0, 0, 0], seq(top + 8, _ => 0), 0).Set(r, if r == SP then 0 else x)
  }

  lemma StackLiteralDiffers(r1: Reg, r3: Reg, v: Operand, env: Env)
    requires PushLiPopApplies(r1, SP, r3) && Value(v, env) >= 4
    ensures !SameEffect([Push(r1), Li(SP, v), Pop(r3)], PushLiPopNew(r1, SP, r3, v), env, SLOT)
  {
    var s, after := Roomy(Value(v, env), AX, 0), PushLiPopNew(r1, SP, r3, v);
    var old3 := ExecAll([Push(r1), Li(SP, v), Pop(r3)], s, env);
    Three(Push(r1), Li(SP, v), Pop(r3), s, env);
    if r1 == SP { Two(Mr(r3, SP), Li(SP, v), s, env); } else { One(Li(SP, v), s, env); }
    assert ExecAll(after, s, env).value.Get(SP) == Value(v, env);
    if r3 == SP {
      PushZero(s.mem, Value(v, env));
      assert old3.value.Get(SP) == 0;
    } else {
      assert old3.value.Get(SP) == Value(v, env) - 4;
    }
    assert !ReachesToo(after, s, old3.value, env, SLOT);
  }

  lemma {:induction false} ZeroLoad(m: seq<byte>, a: nat, n: nat)
    requires a + n <= |m| && forall i | 0 <= i < |m| :: m[i] == 0
    ensures Load(m, a, n) == 0 && Store(m, a, n, 0) == m
    decreases n
  {
    if n > 0 {
      ZeroLoad(m, a + 1, n - 1);
      assert m[a := 0] == m;
    }
  }

  lemma PushZero(m: seq<byte>, top: nat)
    requires top >= 4 && top + 8 == |m| && forall i | 0 <= i < |m| :: m[i] == 0
    ensures Load32(Store(m, 0, 4, 0), top - 4) == 0
  {
    ZeroLoad(m, 0, 4);
    ZeroLoad(m, top - 4, 4);
  }

  lemma SameRegisterDiffers(r: Reg, v: Operand, env: Env)
    requires r != SP
    ensures !SameEffect([Push(r), Li(r, v), Pop(r)], [Mr(r, r), Li(r, v)], env, SLOT)
  {
    var x: int32 := if Value(v, env) == 1 then 0 else 1;
    var s := Roomy(0, r, x);
    var p := ExecPush(s, x).value;
    var q := p.Set(r, Value(v, env));
    var s' := ExecPop(q, r).value;
    assert ExecAll([Push(r), Li(r, v), Pop(r)], s, env) == Some(s') by { Three(Push(r), Li(r, v), Pop(r), s, env); }
    PushThenPop(s, x, q, r, s');
    assert s'.Get(r) == x;
    SameRegisterResult(s, s', r, v, env);
  }

  lemma SameRegisterResult(s: State, s': State, r: Reg, v: Operand, env: Env)
    requires r != SP && s'.Get(r) != Value(v, env)
    ensures !ReachesToo([Mr(r, r), Li(r, v)], s, s', env, SLOT)
  {
    Two(Mr(r, r), Li(r, v), s, env);
  }

  function Negate(n: nat): Insn { Li(AX, Neg(n)) }

  lemma NegValue(n: nat)
    ensures Wrap(0 - Wrap(n)) == Wrap(0 - (n as int))
  {
  }

  function LnlOld(n: nat): seq<Insn> {
    [Push(AX), Li(AX, Num(n)), Li(BX, Num(0)), Alu(Sub, BX, AX), Mr(AX, BX), Pop(BX)]
  }

  lemma LoadNegative(n: nat, env: Env)
    ensures SameEffect(LnlOld(n), [Mr(BX, AX), Negate(n)], env, SLOT)
  {
    forall s: State, s': State | ExecAll(LnlOld(n), s, env) == Some(s')
      ensures ReachesToo([Mr(BX, AX), Negate(n)], s, s', env, SLOT)
    {
      Six(Push(AX), Li(AX, Num(n)), Li(BX, Num(0)), Alu(Sub, BX, AX), Mr(AX, BX), Pop(BX), s, env);
      var p := Exec(Push(AX), s, env).value;
      NegativeMiddle(p, n, env);
      PushThenPop(s, s.Get(AX), p.Set(AX, Wrap(0 - (n as int))).Set(BX, Wrap(0 - (n as int))), BX, s');
      Two(Mr(BX, AX), Negate(n), s, env);
    }
  }

  lemma NegativeMiddle(s: State, n: nat, env: Env)
    ensures var x := Wrap(0 - (n as int));
            Then(Then(Then(Exec(Li(AX, Num(n)), s, env), Li(BX, Num(0)), env), Alu(Sub, BX, AX), env), Mr(AX, BX), env)
            == Some(s.Set(AX, x).Set(BX, x))
  {
    NegValue(n);
    var x := Wrap(0 - (n as int));
    var t := s.Set(AX, Wrap(n)).Set(BX, 0).Set(BX, x).Set(AX, x);
    assert t.regs == s.Set(AX, x).Set(BX, x).regs;
  }

  function Lnl2Old(n: nat): seq<Insn> {
    [Li(AX, Num(n)), Li(BX, Num(0)), Alu(Sub, BX, AX), Mr(AX, BX)]
  }

  lemma LoadNegative2(n: nat, env: Env)
    ensures SameEffect(Lnl2Old(n), [Negate(n), Li(BX, Neg(n))], env, EXACT)
  {
    forall s: State, s': State | ExecAll(Lnl2Old(n), s, env) == Some(s')
      ensures ReachesToo([Negate(n), Li(BX, Neg(n))], s, s', env, EXACT)
    {
      Four(Li(AX, Num(n)), Li(BX, Num(0)), Alu(Sub, BX, AX), Mr(AX, BX), s, env);
      NegValue(n);
      Two(Negate(n), Li(BX, Neg(n)), s, env);
    }
  }

  // ---------------------------------------------------------------- copies

  function AxmarOld(n: nat, v: Operand): seq<Insn> {
    [Li(AX, Num(n)), Mr(BX, AX), Li(MAR, v), Mr(AX, MAR)]
  }

  lemma Axmar(n: nat, v: Operand, env: Env)
    ensures SameEffect(AxmarOld(n, v), [Li(BX, Num(n)), Li(MAR, v), Mr(AX, MAR)], env, EXACT)
  {
    forall s: State, s': State | ExecAll(AxmarOld(n, v), s, env) == Some(s')
      ensures ReachesToo([Li(BX, Num(n)), Li(MAR, v), Mr(AX, MAR)], s, s', env, EXACT)
    {
      Four(Li(AX, Num(n)), Mr(BX, AX), Li(MAR, v), Mr(AX, MAR), s, env);
      Three(Li(BX, Num(n)), Li(MAR, v), Mr(AX, MAR), s, env);
    }
  }

  lemma CopyBack(env: Env)
    ensures SameEffect([Mr(AX, BX), Mr(BX, AX)], [Mr(AX, BX)], env, EXACT)
  {
    forall s: State, s': State | ExecAll([Mr(AX, BX), Mr(BX, AX)], s, env) == Some(s')
      ensures ReachesToo([Mr(AX, BX)], s, s', env, EXACT)
    {
      Two(Mr(AX, BX), Mr(BX, AX), s, env);
      One(Mr(AX, BX), s, env);
    }
  }

  lemma ReadSwap(r: Reg, q: Reg, n: nat, env: Env)
    requires r != MAR && r != SP
    ensures SameEffect([MemRead(4, r), Mr(q, r), Li(r, Num(n))], [MemRead(4, q), Li(r, Num(n))], env, EXACT)
  {
    forall s: State, s': State | ExecAll([MemRead(4, r), Mr(q, r), Li(r, Num(n))], s, env) == Some(s')
      ensures ReachesToo([MemRead(4, q), Li(r, Num(n))], s, s', env, EXACT)
    {
      Three(MemRead(4, r), Mr(q, r), Li(r, Num(n)), s, env);
      Two(MemRead(4, q), Li(r, Num(n)), s, env);
    }
  }

  lemma LoadZero(r: Reg, env: Env)
    ensures SameEffect([Li(r, Num(0))], [Alu(Xor, r, r)], env, EXACT)
  {
    forall s: State, s': State | ExecAll([Li(r, Num(0))], s, env) == Some(s')
      ensures ReachesToo([Alu(Xor, r, r)], s, s', env, EXACT)
    {
      One(Li(r, Num(0)), s, env);
      One(Alu(Xor, r, r), s, env);
      XorZero(s.Get(r));
    }
  }

  // ---------------------------------------------------------------- comparisons

  predicate Symmetric(op: AluOp) { op == CmpEq || op == CmpNe || op == LOr || op == LAnd }

  predicate Ordering(op: AluOp) { op == Gt || op == Gte || op == Lt || op == Lte }

  lemma Compare(op: AluOp, env: Env)
    requires Symmetric(op)
    ensures SameEffect([Alu(op, BX, AX), Mr(AX, BX)], [Alu(op, AX, BX)], env, Leaves(false, {BX}))
  {
    forall s: State, s': State | ExecAll([Alu(op, BX, AX), Mr(AX, BX)], s, env) == Some(s')
      ensures ReachesToo([Alu(op, AX, BX)], s, s', env, Leaves(false, {BX}))
    {
      Two(Alu(op, BX, AX), Mr(AX, BX), s, env);
      One(Alu(op, AX, BX), s, env);
    }
  }

  function OrderOld(op: AluOp, n: nat): seq<Insn> {
    [Mr(BX, AX), Li(AX, Num(n)), Alu(op, BX, AX), Mr(AX, BX)]
  }

  lemma CompareOrder(op: AluOp, n: nat, env: Env)
    requires Ordering(op)
    ensures SameEffect(OrderOld(op, n), [Li(BX, Num(n)), Alu(op, AX, BX)], env, Leaves(false, {BX}))
  {
    forall s: State, s': State | ExecAll(OrderOld(op, n), s, env) == Some(s')
      ensures ReachesToo([Li(BX, Num(n)), Alu(op, AX, BX)], s, s', env, Leaves(false, {BX}))
    {
      Four(Mr(BX, AX), Li(AX, Num(n)), Alu(op, BX, AX), Mr(AX, BX), s, env);
      Two(Li(BX, Num(n)), Alu(op, AX, BX), s, env);
    }
  }

  // ---------------------------------------------------------------- literal operands

  predicate AddSub(op: AluOp) { op == Add || op == Sub }

  function ArithOld(op: AluOp, r: Reg, q: Reg, n: nat): seq<Insn> {
    [Li(r, Num(n)), Alu(op, q, r), Mr(r, q)]
  }

  function ArithNew(op: AluOp, r: Reg, q: Reg, n: nat): seq<Insn> {
    [AluI(op, q, Num(n)), Mr(r, q)]
  }

  /** Adding or subtracting a literal through a register: the replacement is right exactly when the register
      that takes the literal is not the one it is added to. */
  lemma LiteralArith(op: AluOp, r: Reg, q: Reg, n: nat, env: Env)
    requires AddSub(op)
    ensures SameEffect(ArithOld(op, r, q, n), ArithNew(op, r, q, n), env, EXACT) <==> r != q
  {
    if r != q {
      forall s: State, s': State | ExecAll(ArithOld(op, r, q, n), s, env) == Some(s')
        ensures ReachesToo(ArithNew(op, r, q, n), s, s', env, EXACT)
      {
        Three(Li(r, Num(n)), Alu(op, q, r), Mr(r, q), s, env);
        Two(AluI(op, q, Num(n)), Mr(r, q), s, env);
      }
    } else {
      var x: int32 := if Wrap(n) == 0 then 1 else 0;
      ArithDiffers(op, r, n, x, env);
    }
  }

  lemma WrapDiffers(a: int, b: int)
    requires a != b && -TWO32 < a - b < TWO32
    ensures Wrap(a) != Wrap(b)
  {
  }

  lemma ArithDiffers(op: AluOp, r: Reg, n: nat, x: int32, env: Env)
    requires AddSub(op) && x != Wrap(n) && (x == 0 || x == 1)
    ensures !SameEffect(ArithOld(op, r, r, n), ArithNew(op, r, r, n), env, EXACT)
  {
    var s := State([0, 0, 0, 0, 0, 0, 0], [], 0).Set(r, x);
    var v: int := Wrap(n);
    Three(Li(r, Num(n)), Alu(op, r, r), Mr(r, r), s, env);
    Two(AluI(op, r, Num(n)), Mr(r, r), s, env);
    var y: int, z: int := if op == Add then v + v else 0, if op == Add then x + v else x - v;
    WrapDiffers(y, z);
    var s', t := ExecAll(ArithOld(op, r, r, n), s, env), ExecAll(ArithNew(op, r, r, n), s, env);
    assert s'.Some? && s'.value.Get(r) == Wrap(y);
    assert t.Some? && t.value.Get(r) == Wrap(z);
    assert !ReachesToo(ArithNew(op, r, r, n), s, s'.value, env, EXACT);
  }
}

/** Machine states that differ only where nobody looks: a set of memory bytes and registers is dead while no
    instruction reads it before writing it. */
module VmDead {
  import opened Vm

  datatype Dead = Dead(mem: set<int>, regs: set<Reg>)

  const NONE: Dead := Dead({}, {})

  predicate Within(x: int, a: int, n: nat) { a <= x < a + n }

  function Range(a: int, n: nat): (r: set<int>)
    ensures forall x :: x in r <==> a <= x < a + n
  {
    set x | a <= x < a + n && Within(x, a, n)
  }

  ghost predicate SameMem(m: seq<byte>, k: seq<byte>, dead: set<int>) {
    |m| == |k| && forall a | 0 <= a < |m| && a !in dead :: m[a] == k[a]
  }

  ghost predicate SameRegs(s: State, t: State, dead: set<Reg>) {
    forall r: Reg | r !in dead :: s.Get(r) == t.Get(r)
  }

  /** The states agree everywhere but on the dead bytes and registers. */
  ghost predicate Related(s: State, t: State, d: Dead) {
    s.textEnd == t.textEnd && SameMem(s.mem, t.mem, d.mem) && SameRegs(s, t, d.regs)
  }

  // ---------------------------------------------------------------- what an instruction reads and writes

  function RegReads(i: Insn): set<Reg> {
    match i
    case Mr(_, src) => {src}
    case Li(_, _) => {}
    case Alu(op, r1, r2) => if op == Xor && r1 == r2 then {} else {r1, r2}
    case AluI(_, r1, _) => {r1}
    case PtrStack(_) => {SP}
    case Push(r) => {r, SP}
    case Pop(_) => {SP}
    case ZeroMem(_) => {MAR}
    case MemCpy(_, _) => {MAR}
    case MemWrite(_, r) => {r, MAR}
    case MemRead(_, _) => {MAR}
    case AssertLte(r, _) => {r}
    case Nop => {}
  }

  function RegWrites(i: Insn): set<Reg> {
    match i
    case Mr(dst, _) => {dst}
    case Li(r, _) => {r}
    case Alu(_, r1, _) => {r1}
    case AluI(_, r1, _) => {r1}
    case PtrStack(_) => {MAR}
    case Push(_) => {SP}
    case Pop(r) => {SP, r}
    case MemRead(_, r) => {r}
    case _ => {}
  }

  function MemReads(i: Insn, s: State): set<int> {
    match i
    case Pop(_) => Range(s.Get(SP) - 4, 4)
    case MemRead(n, _) => Range(s.Get(MAR), n)
    case _ => {}
  }

  function Size(n: int): nat { if n < 0 then 0 else n }

  function MemWrites(i: Insn, s: State, env: Env): set<int> {
    match i
    case Push(_) => Range(s.Get(SP), 4)
    case ZeroMem(v) => Range(s.Get(MAR), Size(Value(v, env)))
    case MemCpy(n, _) => if Width(Value(n, env)) then Range(s.Get(MAR), Size(Value(n, env))) else {}
    case MemWrite(n, _) => Range(s.Get(MAR), n)
    case _ => {}
  }

  /** The instruction reads nothing dead. */
  predicate Clean(i: Insn, s: State, d: Dead) {
    RegReads(i) !! d.regs && MemReads(i, s) !! d.mem
  }

  function After(i: Insn, s: State, env: Env, d: Dead): Dead {
    Dead(d.mem - MemWrites(i, s, env), d.regs - RegWrites(i))
  }

  // ---------------------------------------------------------------- memory

  lemma {:induction false} LoadSame(m: seq<byte>, k: seq<byte>, dead: set<int>, a: nat, n: nat)
    requires SameMem(m, k, dead) && a + n <= |m| && Range(a, n) !! dead
    ensures Load(m, a, n) == Load(k, a, n)
    decreases n
  {
    if n > 0 {
      assert a in Range(a, n);
      assert Range(a + 1, n - 1) <= Range(a, n);
      LoadSame(m, k, dead, a + 1, n - 1);
    }
  }

  lemma {:induction false} StoreSame(m: seq<byte>, k: seq<byte>, dead: set<int>, a: nat, n: nat, v: nat)
    requires SameMem(m, k, dead) && a + n <= |m|
    ensures SameMem(Store(m, a, n, v), Store(k, a, n, v), dead - Range(a, n))
    decreases n
  {
    if n > 0 {
      StoreSame(m[a := v % 256], k[a := v % 256], dead - {a}, a + 1, n - 1, v / 256);
      assert dead - Range(a, n) == dead - {a} - Range(a + 1, n - 1);
    }
  }

  lemma XorZero(x: int32)
    ensures Compute(Xor, x, x) == Some(0)
  {
    XorSelf(Unsigned(x), 32);
  }

  // ---------------------------------------------------------------- one instruction

  lemma SetCongruent(s: State, t: State, d: Dead, r: Reg, x: int32)
    requires Related(s, t, d)
    ensures Related(s.Set(r, x), t.Set(r, x), Dead(d.mem, d.regs - {r}))
  {
  }

  lemma StoreCongruent(s: State, t: State, d: Dead, n: int, v: nat, s': State)
    requires Related(s, t, d) && MAR !in d.regs && ExecStore(s, n, v) == Some(s')
    ensures ExecStore(t, n, v).Some?
    ensures Related(s', ExecStore(t, n, v).value, Dead(d.mem - Range(s.Get(MAR), Size(n)), d.regs))
  {
    assert s.Get(MAR) == t.Get(MAR);
    StoreSame(s.mem, t.mem, d.mem, s.Get(MAR), n, v);
    assert forall r: Reg :: s'.Get(r) == s.Get(r) && ExecStore(t, n, v).value.Get(r) == t.Get(r);
  }

  lemma PushCongruent(s: State, t: State, d: Dead, x: int32, s': State)
    requires Related(s, t, d) && SP !in d.regs && ExecPush(s, x) == Some(s')
    ensures ExecPush(t, x).Some?
    ensures Related(s', ExecPush(t, x).value, Dead(d.mem - Range(s.Get(SP), 4), d.regs - {SP}))
  {
    assert s.Get(SP) == t.Get(SP);
    StoreSame(s.mem, t.mem, d.mem, s.Get(SP), 4, Unsigned(x));
    var m, k := s.(mem := s'.mem), t.(mem := ExecPush(t, x).value.mem);
    assert forall r: Reg :: m.Get(r) == s.Get(r) && k.Get(r) == t.Get(r);
  }

  lemma PopCongruent(s: State, t: State, d: Dead, r: Reg, s': State)
    requires Related(s, t, d) && Clean(Pop(r), s, d) && ExecPop(s, r) == Some(s')
    ensures ExecPop(t, r).Some?
    ensures Related(s', ExecPop(t, r).value, Dead(d.mem, d.regs - {SP, r}))
  {
    assert s.Get(SP) == t.Get(SP);
    LoadSame(s.mem, t.mem, d.mem, s.Get(SP) - 4, 4);
    var x := Load32(s.mem, s.Get(SP) - 4);
    SetCongruent(s, t, d, SP, s.Get(SP) - 4);
    SetCongruent(s.Set(SP, s.Get(SP) - 4), t.Set(SP, s.Get(SP) - 4), Dead(d.mem, d.regs - {SP}), r, x);
    assert d.regs - {SP} - {r} == d.regs - {SP, r};
  }

  lemma LoadCongruent(s: State, t: State, d: Dead, n: nat, r: Reg, s': State)
    requires Related(s, t, d) && Width(n) && Clean(MemRead(n, r), s, d) && ExecLoad(s, n, r) == Some(s')
    ensures ExecLoad(t, n, r).Some?
    ensures Related(s', ExecLoad(t, n, r).value, Dead(d.mem, d.regs - {r}))
  {
    assert s.Get(MAR) == t.Get(MAR);
    LoadSame(s.mem, t.mem, d.mem, s.Get(MAR), n);
  }

  lemma AluCongruent(s: State, t: State, d: Dead, op: AluOp, r: Reg, b: int32, s': State)
    requires Related(s, t, d) && r !in d.regs && ExecAlu(s, op, r, b) == Some(s')
    ensures ExecAlu(t, op, r, b).Some?
    ensures Related(s', ExecAlu(t, op, r, b).value, Dead(d.mem, d.regs - {r}))
  {
    assert s.Get(r) == t.Get(r);
  }

  lemma XorCongruent(s: State, t: State, d: Dead, r: Reg)
    requires Related(s, t, d)
    ensures ExecAlu(s, Xor, r, s.Get(r)) == Some(s.Set(r, 0)) && ExecAlu(t, Xor, r, t.Get(r)) == Some(t.Set(r, 0))
    ensures Related(s.Set(r, 0), t.Set(r, 0), Dead(d.mem, d.regs - {r}))
  {
    XorZero(s.Get(r));
    XorZero(t.Get(r));
  }

  /** An instruction that reads nothing dead does the same in related states, and what it writes is no longer
      dead. */
  lemma StepCongruent(i: Insn, s: State, t: State, env: Env, d: Dead, s': State)
    requires Related(s, t, d) && Clean(i, s, d) && Exec(i, s, env) == Some(s')
    ensures Exec(i, t, env).Some? && Related(s', Exec(i, t, env).value, After(i, s, env, d))
  {
    match i
    case Mr(dst, src) => SetCongruent(s, t, d, dst, s.Get(src));
    case Li(r, v) => SetCongruent(s, t, d, r, Value(v, env));
    case Alu(op, r1, r2) =>
      if op == Xor && r1 == r2 {
        XorCongruent(s, t, d, r1);
      } else {
        assert s.Get(r2) == t.Get(r2);
        AluCongruent(s, t, d, op, r1, s.Get(r2), s');
      }
    case AluI(op, r1, v) => AluCongruent(s, t, d, op, r1, Value(v, env), s');
    case PtrStack(v) => SetCongruent(s, t, d, MAR, Wrap(s.Get(SP) - Value(v, env)));
    case Push(r) =>
      assert s.Get(r) == t.Get(r);
      PushCongruent(s, t, d, s.Get(r), s');
    case Pop(r) => PopCongruent(s, t, d, r, s');
    case ZeroMem(v) => StoreCongruent(s, t, d, Value(v, env), 0, s');
    case MemCpy(n, v) =>
      if Width(Value(n, env)) { StoreCongruent(s, t, d, Value(n, env), Unsigned(Value(v, env)), s'); }
    case MemWrite(n, r) =>
      assert s.Get(r) == t.Get(r);
      StoreCongruent(s, t, d, n, Unsigned(s.Get(r)), s');
    case MemRead(n, r) => LoadCongruent(s, t, d, n, r, s');
    case AssertLte(r, v) => assert s.Get(r) == t.Get(r);
    case Nop =>
  }
}

/** The virtual machine of the simulator: seven registers of 32 bits, byte-addressed memory with the text
    segment below `textEnd`. `Exec` is the effect of one instruction; `None` stands for a fault. */
module Vm {

  type byte = x: int | 0 <= x < 256

  const TWO31: int := 0x8000_0000
  const TWO32: int := 0x1_0000_0000

  type int32 = x: int | -TWO31 <= x < TWO31

  datatype Option<+T> = None | Some(value: T)

  datatype Reg = SP | MAR | AX | BX | CX | OP | DX {
    function Index(): (i: nat)
      ensures i < 7
    {
      match this case SP => 0 case MAR => 1 case AX => 2 case BX => 3 case CX => 4 case OP => 5 case DX => 6
    }
  }

  datatype AluOp = Add | Sub | Mul | Div | Mod | And | Or | Xor | Shl | Shr
                 | CmpEq | CmpNe | Gt | Lt | Gte | Lte | LAnd | LOr

  /** An immediate: digits, minus and digits, or a name the assembler resolves. */
  datatype Operand = Num(n: nat) | Neg(n: nat) | Name(name: string)

  datatype Insn =
    | Mr(dst: Reg, src: Reg)
    | Li(r: Reg, v: Operand)
    | Alu(op: AluOp, r1: Reg, r2: Reg)
    | AluI(op: AluOp, r1: Reg, v: Operand)
    | PtrStack(v: Operand)
    | Push(r: Reg)
    | Pop(r: Reg)
    | ZeroMem(v: Operand)
    | MemCpy(n: Operand, v: Operand)
    | MemWrite(width: nat, r: Reg)
    | MemRead(width: nat, r: Reg)
    | AssertLte(r: Reg, v: Operand)
    | Nop

  type Regs = s: seq<int32> | |s| == 7 witness [0, 0, 0, 0, 0, 0, 0]

  datatype State = State(regs: Regs, mem: seq<byte>, textEnd: nat) {
    function Get(r: Reg): int32 { regs[r.Index()] }

    function Set(r: Reg, v: int32): (s: State)
      ensures forall q: Reg :: s.Get(q) == if q == r then v else Get(q)
      ensures s.mem == mem && s.textEnd == textEnd
    {
      this.(regs := regs[r.Index() := v])
    }
  }

  /** What the assembler's names stand for. */
  type Env = string -> int32

  // ---------------------------------------------------------------- 32-bit arithmetic

  function Wrap(x: int): int32 {
    (x + TWO31) % TWO32 - TWO31
  }

  function Unsigned(x: int32): (u: nat)
    ensures u < TWO32
  {
    if x < 0 then x + TWO32 else x
  }

  function Signed(u: nat): int32
    requires u < TWO32
  {
    if u >= TWO31 then u - TWO32 else u
  }

  function Value(v: Operand, env: Env): int32 {
    match v
    case Num(n) => Wrap(n)
    case Neg(n) => Wrap(0 - (n as int))
    case Name(name) => env(name)
  }

  /** Division as in C: the quotient is cut off towards zero. */
  function Quot(a: int, b: int): int
    requires b != 0
  {
    var q := (if a < 0 then -a else a) / (if b < 0 then -b else b);
    if (a < 0) == (b < 0) then q else -q
  }

  /** Bit by bit, `f` of two bits at a time, on the low `n` bits. */
  function Bitwise(f: (bool, bool) -> bool, a: nat, b: nat, n: nat): nat {
    if n == 0 then 0
    else (if f(a % 2 == 1, b % 2 == 1) then 1 else 0) + 2 * Bitwise(f, a / 2, b / 2, n - 1)
  }

  lemma {:induction false} BitwiseBound(f: (bool, bool) -> bool, a: nat, b: nat, n: nat, top: nat)
    requires n <= 32 && top == Power(n)
    ensures Bitwise(f, a, b, n) < top
  {
    if n > 0 { BitwiseBound(f, a / 2, b / 2, n - 1, Power(n - 1)); }
  }

  function Power(n: nat): (p: nat) ensures p > 0 { if n == 0 then 1 else 2 * Power(n - 1) }

  lemma Power32()
    ensures Power(32) == TWO32
  {
    assert Power(8) == 256;
    assert Power(16) == 65536;
    assert Power(24) == 0x100_0000;
  }

  function Bits32(f: (bool, bool) -> bool, a: int32, b: int32): int32 {
    Power32();
    BitwiseBound(f, Unsigned(a), Unsigned(b), 32, Power(32));
    Signed(Bitwise(f, Unsigned(a), Unsigned(b), 32))
  }

  function Flag(b: bool): int32 { if b then 1 else 0 }

  /** The result of an operation; `None` where C leaves it undefined or the processor traps. */
  function Compute(op: AluOp, a: int32, b: int32): Option<int32> {
    match op
    case Add => Some(Wrap(a + b))
    case Sub => Some(Wrap(a - b))
    case Mul => Some(Wrap(a * b))
    case Div => if b == 0 || (a == -TWO31 && b == -1) then None else Some(Wrap(Quot(a, b)))
    case Mod => if b == 0 || (a == -TWO31 && b == -1) then None else Some(Wrap(a - b * Quot(a, b)))
    case And => Some(Bits32((x, y) => x && y, a, b))
    case Or => Some(Bits32((x, y) => x || y, a, b))
    case Xor => Some(Bits32((x, y) => x != y, a, b))
    case Shl => if 0 <= b < 32 then Some(Wrap(a * Power(b))) else None
    case Shr => if 0 <= b < 32 then Some(Wrap(a / Power(b))) else None
    case CmpEq => Some(Flag(a == b))
    case CmpNe => Some(Flag(a != b))
    case Gt => Some(Flag(a > b))
    case Lt => Some(Flag(a < b))
    case Gte => Some(Flag(a >= b))
    case Lte => Some(Flag(a <= b))
    case LAnd => Some(Flag(a != 0 && b != 0))
    case LOr => Some(Flag(a != 0 || b != 0))
  }

  lemma {:induction false} XorSelf(a: nat, n: nat)
    ensures Bitwise((x, y) => x != y, a, a, n) == 0
  {
    if n > 0 { XorSelf(a / 2, n - 1); }
  }

  // ---------------------------------------------------------------- memory

  /** The little-endian number in `n` bytes from `a` on. */
  function Load(mem: seq<byte>, a: nat, n: nat): nat
    requires a + n <= |mem|
    decreases n
  {
    if n == 0 then 0 else mem[a] + 256 * Load(mem, a + 1, n - 1)
  }

  function Store(mem: seq<byte>, a: nat, n: nat, v: nat): (m: seq<byte>)
    requires a + n <= |mem|
    ensures |m| == |mem|
    ensures forall i | 0 <= i < |mem| && !(a <= i < a + n) :: m[i] == mem[i]
    decreases n
  {
    if n == 0 then mem else Store(mem[a := v % 256], a + 1, n - 1, v / 256)
  }

  function Top(n: nat): nat { if n == 0 then 1 else 256 * Top(n - 1) }

  lemma {:induction false} LoadStore(mem: seq<byte>, a: nat, n: nat, v: nat)
    requires a + n <= |mem| && v < Top(n)
    ensures Load(Store(mem, a, n, v), a, n) == v
    decreases n
  {
    if n > 0 { LoadStore(mem[a := v % 256], a + 1, n - 1, v / 256); }
  }

  lemma {:induction false} LoadBound(mem: seq<byte>, a: nat, n: nat)
    requires a + n <= |mem|
    ensures Load(mem, a, n) < Top(n)
    decreases n
  {
    if n > 0 { LoadBound(mem, a + 1, n - 1); }
  }

  function Load32(mem: seq<byte>, a: nat): int32
    requires a + 4 <= |mem|
  {
    LoadBound(mem, a, 4);
    Signed(Load(mem, a, 4))
  }

  /** A word that was pushed is read back. */
  lemma Load32Store(mem: seq<byte>, a: nat, x: int32)
    requires a + 4 <= |mem|
    ensures Load32(Store(mem, a, 4, Unsigned(x)), a) == x
  {
    assert Top(4) == TWO32;
    LoadStore(mem, a, 4, Unsigned(x));
  }

  predicate CanRead(s: State, a: int, n: int) { a >= 0 && a + n < |s.mem| }

  predicate CanWrite(s: State, a: int, n: int) { a >= s.textEnd && a + n < |s.mem| }

  // ---------------------------------------------------------------- instructions

  function ExecPush(s: State, x: int32): Option<State> {
    var sp := s.Get(SP);
    if CanWrite(s, sp, 4) then
      Some(s.(mem := Store(s.mem, sp, 4, Unsigned(x))).Set(SP, Wrap(sp + 4)))
    else None
  }

  function ExecPop(s: State, r: Reg): Option<State> {
    var sp := s.Get(SP);
    if 4 <= sp <= |s.mem| then Some(s.Set(SP, sp - 4).Set(r, Load32(s.mem, sp - 4)))
    else None
  }

  function ExecStore(s: State, n: int, v: nat): Option<State> {
    var a := s.Get(MAR);
    if n >= 0 && CanWrite(s, a, n) then Some(s.(mem := Store(s.mem, a, n, v))) else None
  }

  function ExecLoad(s: State, n: nat, r: Reg): Option<State> {
    var a := s.Get(MAR);
    if CanRead(s, a, n) then
      Some(s.Set(r, if n == 4 then Load32(s.mem, a) else Wrap(Load(s.mem, a, n))))
    else None
  }

  predicate Width(n: int) { n == 1 || n == 2 || n == 4 }

  function ExecAlu(s: State, op: AluOp, r: Reg, b: int32): Option<State> {
    match Compute(op, s.Get(r), b)
    case None => None
    case Some(x) => Some(s.Set(r, x))
  }

  /** The effect of one instruction that does not jump. */
  function Exec(i: Insn, s: State, env: Env): Option<State> {
    match i
    case Mr(dst, src) => Some(s.Set(dst, s.Get(src)))
    case Li(r, v) => Some(s.Set(r, Value(v, env)))
    case Alu(op, r1, r2) => ExecAlu(s, op, r1, s.Get(r2))
    case AluI(op, r1, v) => ExecAlu(s, op, r1, Value(v, env))
    case PtrStack(v) => Some(s.Set(MAR, Wrap(s.Get(SP) - Value(v, env))))
    case Push(r) => ExecPush(s, s.Get(r))
    case Pop(r) => ExecPop(s, r)
    case ZeroMem(v) => ExecStore(s, Value(v, env), 0)
    case MemCpy(n, v) =>
      if Width(Value(n, env)) then ExecStore(s, Value(n, env), Unsigned(Value(v, env))) else Some(s)
    case MemWrite(n, r) => if Width(n) then ExecStore(s, n, Unsigned(s.Get(r))) else None
    case MemRead(n, r) => if Width(n) then ExecLoad(s, n, r) else None
    case AssertLte(r, v) => if s.Get(r) > Value(v, env) then None else Some(s)
    case Nop => Some(s)
  }

  function ExecAll(xs: seq<Insn>, s: State, env: Env): Option<State> {
    if xs == [] then Some(s)
    else
      match Exec(xs[0], s, env)
      case None => None
      case Some(s') => ExecAll(xs[1..], s', env)
  }

  lemma {:induction false} ExecAllAppend(xs: seq<Insn>, ys: seq<Insn>, s: State, env: Env)
    ensures ExecAll(xs + ys, s, env)
         == match ExecAll(xs, s, env) case None => None case Some(s') => ExecAll(ys, s', env)
  {
    if xs == [] {
      assert xs + ys == ys;
    } else {
      assert (xs + ys)[1..] == xs[1..] + ys;
      match Exec(xs[0], s, env)
      case None =>
      case Some(s') => ExecAllAppend(xs[1..], ys, s', env);
    }
  }
}

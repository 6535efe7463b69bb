/** The simulator's machine with its register file and memory updated in place. One step does what `Exec` says,
    and a step that faults leaves the machine as it was. */
module Machine {
  import opened Vm

  class Simulator {
    const registers: array<int32>
    const memory: array<byte>
    const textEnd: nat

    constructor (size: nat, textEnd: nat)
      ensures Valid() && fresh(registers) && fresh(memory) && memory.Length == size && this.textEnd == textEnd
      ensures forall r: Reg :: Contents().Get(r) == -1
    {
      registers := new int32[7](_ => -1);
      memory := new byte[size](_ => 0);
      this.textEnd := textEnd;
    }

    ghost predicate Valid()
      reads this
    {
      registers.Length == 7
    }

    ghost function Contents(): State
      reads this, registers, memory
      requires Valid()
    {
      State(registers[..], memory[..], textEnd)
    }

    method SetReg(r: Reg, v: int32)
      requires Valid()
      modifies registers
      ensures Contents() == old(Contents()).Set(r, v)
    {
      registers[r.Index()] := v;
    }

    /** The low `n` bytes of a number, least significant first. */
    method Write(off: nat, n: nat, v: nat)
      requires Valid() && off + n <= memory.Length
      modifies memory
      ensures memory[..] == Store(old(memory[..]), off, n, v)
    {
      var i, rest := 0, v;
      while i < n
        invariant 0 <= i <= n
        invariant Store(memory[..], off + i, n - i, rest) == Store(old(memory[..]), off, n, v)
      {
        ghost var was := memory[..];
        memory[off + i] := rest % 256;
        assert memory[..] == was[off + i := rest % 256];
        rest := rest / 256;
        i := i + 1;
      }
    }

    method Read(off: nat, n: nat) returns (v: nat)
      requires off + n <= memory.Length
      ensures v == Load(memory[..], off, n)
    {
      v := 0;
      var i := n;
      while i > 0
        invariant 0 <= i <= n && v == Load(memory[..], off + i, n - i)
      {
        i := i - 1;
        v := memory[off + i] + 256 * v;
      }
    }

    method Push(x: int32) returns (ok: bool)
      requires Valid()
      modifies registers, memory
      ensures match ExecPush(old(Contents()), x)
              case None => !ok && Contents() == old(Contents())
              case Some(s) => ok && Contents() == s
    {
      var sp := registers[SP.Index()];
      if sp < textEnd || sp + 4 >= memory.Length { return false; }
      Write(sp, 4, Unsigned(x));
      SetReg(SP, Wrap(sp + 4));
      ok := true;
    }

    method Pop(r: Reg) returns (ok: bool)
      requires Valid()
      modifies registers
      ensures match ExecPop(old(Contents()), r)
              case None => !ok && Contents() == old(Contents())
              case Some(s) => ok && Contents() == s
    {
      var sp := registers[SP.Index()];
      if sp < 4 || sp > memory.Length { return false; }
      var v := Read(sp - 4, 4);
      LoadBound(memory[..], sp - 4, 4);
      SetReg(SP, sp - 4);
      SetReg(r, Signed(v));
      ok := true;
    }

    method StoreAtMar(n: int, v: nat) returns (ok: bool)
      requires Valid()
      modifies memory
      ensures match ExecStore(old(Contents()), n, v)
              case None => !ok && Contents() == old(Contents())
              case Some(s) => ok && Contents() == s
    {
      var mar := registers[MAR.Index()];
      if n < 0 || mar < textEnd || mar + n >= memory.Length { return false; }
      Write(mar, n, v);
      ok := true;
    }

    method LoadAtMar(n: nat, r: Reg) returns (ok: bool)
      requires Valid()
      modifies registers
      ensures match ExecLoad(old(Contents()), n, r)
              case None => !ok && Contents() == old(Contents())
              case Some(s) => ok && Contents() == s
    {
      var mar := registers[MAR.Index()];
      if mar < 0 || mar + n >= memory.Length { return false; }
      var v := Read(mar, n);
      LoadBound(memory[..], mar, n);
      if n == 4 { SetReg(r, Signed(v)); } else { SetReg(r, Wrap(v)); }
      ok := true;
    }

    method Operate(op: AluOp, r: Reg, b: int32) returns (ok: bool)
      requires Valid()
      modifies registers
      ensures match ExecAlu(old(Contents()), op, r, b)
              case None => !ok && Contents() == old(Contents())
              case Some(s) => ok && Contents() == s
    {
      match Compute(op, registers[r.Index()], b)
      case None => ok := false;
      case Some(x) =>
        SetReg(r, x);
        ok := true;
    }

    /** One instruction. */
    method Step(i: Insn, env: Env) returns (ok: bool)
      requires Valid()
      modifies registers, memory
      ensures match Exec(i, old(Contents()), env)
              case None => !ok && Contents() == old(Contents())
              case Some(s) => ok && Contents() == s
    {
      hide Compute, ExecPush, ExecPop, ExecStore, ExecLoad, ExecAlu, Wrap;
      ok := true;
      match i
      case Mr(dst, src) => SetReg(dst, registers[src.Index()]);
      case Li(r, v) => SetReg(r, Value(v, env));
      case Alu(op, r1, r2) => ok := Operate(op, r1, registers[r2.Index()]);
      case AluI(op, r1, v) => ok := Operate(op, r1, Value(v, env));
      case PtrStack(v) => SetReg(MAR, Wrap(registers[SP.Index()] - Value(v, env)));
      case Push(r) => ok := Push(registers[r.Index()]);
      case Pop(r) => ok := Pop(r);
      case ZeroMem(v) => ok := StoreAtMar(Value(v, env), 0);
      case MemCpy(n, v) =>
        if Width(Value(n, env)) { ok := StoreAtMar(Value(n, env), Unsigned(Value(v, env))); }
      case MemWrite(n, r) =>
        if Width(n) { ok := StoreAtMar(n, Unsigned(registers[r.Index()])); } else { ok := false; }
      case MemRead(n, r) => if Width(n) { ok := LoadAtMar(n, r); } else { ok := false; }
      case AssertLte(r, v) => ok := registers[r.Index()] <= Value(v, env);
      case Nop =>
    }
  }
}

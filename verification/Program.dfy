/** Whole programs: lines with labels and jumps, cut into lines that stay and windows that are replaced. A run
    of the old program is followed by the new one, segment by segment. */
module Program {
  import opened Vm
  import opened VmDead
  import opened Windows

  /** A line of the text section. `Plain` stands for comments and blank lines. */
  datatype Line = Label(name: string) | Code(i: Insn) | Jmp(target: string) | Jz(target: string) | Jnz(target: string)
                | Ret | Plain(text: string)

  datatype Config = Config(pc: nat, s: State)

  // ---------------------------------------------------------------- running lines

  function LabelPos(prog: seq<Line>, l: string): (r: Option<nat>)
    ensures r.Some? ==> r.value < |prog|
  {
    if prog == [] then None
    else if prog[0] == Label(l) then Some(0)
    else match LabelPos(prog[1..], l) case None => None case Some(p) => Some(p + 1)
  }

  function Goto(prog: seq<Line>, l: string, s: State): Option<Config> {
    match LabelPos(prog, l) case None => None case Some(p) => Some(Config(p, s))
  }

  /** The return address of `ret` is not followed: the run ends there. */
  function Return(s: State): Option<State> {
    if 4 <= s.Get(SP) <= |s.mem| then Some(s.Set(SP, s.Get(SP) - 4)) else None
  }

  function Step(prog: seq<Line>, c: Config, env: Env): (r: Option<Config>)
    requires c.pc < |prog|
    ensures r.Some? ==> r.value.pc <= |prog|
  {
    match prog[c.pc]
    case Label(_) => Some(Config(c.pc + 1, c.s))
    case Plain(_) => Some(Config(c.pc + 1, c.s))
    case Code(i) => (match Exec(i, c.s, env) case None => None case Some(s') => Some(Config(c.pc + 1, s')))
    case Jmp(l) => Goto(prog, l, c.s)
    case Jz(l) => if c.s.Get(AX) == 0 then Goto(prog, l, c.s) else Some(Config(c.pc + 1, c.s))
    case Jnz(l) => if c.s.Get(AX) != 0 then Goto(prog, l, c.s) else Some(Config(c.pc + 1, c.s))
    case Ret => (match Return(c.s) case None => None case Some(s') => Some(Config(|prog|, s')))
  }

  /** At most `n` steps, fewer if the end is reached; `None` after a fault. */
  function Run(prog: seq<Line>, n: nat, c: Config, env: Env): Option<Config> {
    if n == 0 || c.pc >= |prog| then Some(c)
    else match Step(prog, c, env) case None => None case Some(c') => Run(prog, n - 1, c', env)
  }

  lemma {:induction false} RunAdd(prog: seq<Line>, m: nat, n: nat, c: Config, c': Config, env: Env)
    requires Run(prog, m, c, env) == Some(c')
    ensures Run(prog, m + n, c, env) == Run(prog, n, c', env)
  {
    if m == 0 || c.pc >= |prog| {
    } else {
      RunAdd(prog, m - 1, n, Step(prog, c, env).value, c', env);
    }
  }

  /** Some number of steps leads from `c` to `d` without a fault. */
  ghost predicate Reaches(prog: seq<Line>, c: Config, d: Config, env: Env) {
    exists n: nat :: Run(prog, n, c, env) == Some(d)
  }

  lemma ReachesBy(prog: seq<Line>, n: nat, c: Config, d: Config, env: Env)
    requires Run(prog, n, c, env) == Some(d)
    ensures Reaches(prog, c, d, env)
  {
  }

  lemma ReachesJoin(prog: seq<Line>, c: Config, d: Config, e: Config, env: Env)
    requires Reaches(prog, c, d, env) && Reaches(prog, d, e, env)
    ensures Reaches(prog, c, e, env)
  {
    var m: nat :| Run(prog, m, c, env) == Some(d);
    var n: nat :| Run(prog, n, d, env) == Some(e);
    RunAdd(prog, m, n, c, d, env);
    ReachesBy(prog, m + n, c, e, env);
  }

  function ToLines(xs: seq<Insn>): (ls: seq<Line>)
    ensures |ls| == |xs| && forall i | 0 <= i < |xs| :: ls[i] == Code(xs[i])
  {
    seq(|xs|, i requires 0 <= i < |xs| => Code(xs[i]))
  }

  /** A stretch of plain instructions runs like the list of them. */
  lemma {:induction false} RunCode(prog: seq<Line>, c: Config, xs: seq<Insn>, env: Env)
    requires c.pc + |xs| <= |prog| && prog[c.pc..c.pc + |xs|] == ToLines(xs)
    ensures Run(prog, |xs|, c, env)
         == match ExecAll(xs, c.s, env) case None => None case Some(s') => Some(Config(c.pc + |xs|, s'))
    decreases |xs|
  {
    hide Exec, LabelPos;
    if xs != [] {
      assert prog[c.pc] == ToLines(xs)[0];
      match Exec(xs[0], c.s, env)
      case None =>
      case Some(s') =>
        var d := Config(c.pc + 1, s');
        assert prog[d.pc..d.pc + |xs[1..]|] == ToLines(xs)[1..] == ToLines(xs[1..]);
        RunCode(prog, d, xs[1..], env);
    }
  }

  // ---------------------------------------------------------------- segments

  datatype Seg = Keep(line: Line) | Win(before: seq<Insn>, after: seq<Insn>, leaves: Leaves)

  datatype Side = Before | After

  function LinesOf(g: Seg, side: Side): seq<Line> {
    match g
    case Keep(line) => [line]
    case Win(before, after, _) => if side == Before then ToLines(before) else ToLines(after)
  }

  /** The program on one side. */
  function Lines(segs: seq<Seg>, side: Side): seq<Line> {
    if segs == [] then [] else LinesOf(segs[0], side) + Lines(segs[1..], side)
  }

  lemma {:induction false} LinesAppend(a: seq<Seg>, b: seq<Seg>, side: Side)
    ensures Lines(a + b, side) == Lines(a, side) + Lines(b, side)
  {
    if a == [] {
      assert a + b == b;
    } else {
      assert (a + b)[1..] == a[1..] + b;
      LinesAppend(a[1..], b, side);
    }
  }

  /** Where segment `k` starts. */
  function Offset(segs: seq<Seg>, side: Side, k: nat): nat
    requires k <= |segs|
  {
    if k == 0 then 0 else |LinesOf(segs[0], side)| + Offset(segs[1..], side, k - 1)
  }

  ghost predicate GoodSeg(g: Seg, env: Env) {
    g.Win? ==>
      && g.before != []
      && SameEffect(g.before, g.after, env, g.leaves)
      && (g.leaves.slot ==> g.before[0].Push?)
  }

  ghost predicate GoodSegs(segs: seq<Seg>, env: Env) {
    forall i | 0 <= i < |segs| :: GoodSeg(segs[i], env)
  }

  /** `xs` stands in `all` from position `p` on. */
  predicate LiesAt(all: seq<Line>, p: nat, xs: seq<Line>) {
    p + |xs| <= |all| && all[p..p + |xs|] == xs
  }

  lemma LiesAtHead(a: seq<Line>, b: seq<Line>)
    ensures LiesAt(a + b, 0, a)
  {
  }

  lemma LiesAtTail(a: seq<Line>, b: seq<Line>, p: nat, xs: seq<Line>)
    requires LiesAt(b, p, xs)
    ensures LiesAt(a + b, |a| + p, xs)
  {
    assert (a + b)[|a| + p..|a| + p + |xs|] == b[p..p + |xs|];
  }

  lemma {:induction false} OffsetStep(segs: seq<Seg>, side: Side, k: nat)
    requires k < |segs|
    ensures Offset(segs, side, k + 1) == Offset(segs, side, k) + |LinesOf(segs[k], side)|
  {
    if k == 0 {
      assert Offset(segs[1..], side, 0) == 0;
    } else {
      OffsetStep(segs[1..], side, k - 1);
    }
  }

  lemma {:induction false} SegLies(segs: seq<Seg>, side: Side, k: nat)
    requires k < |segs|
    ensures LiesAt(Lines(segs, side), Offset(segs, side, k), LinesOf(segs[k], side))
  {
    if k == 0 {
      LiesAtHead(LinesOf(segs[0], side), Lines(segs[1..], side));
    } else {
      SegLies(segs[1..], side, k - 1);
      LiesAtTail(LinesOf(segs[0], side), Lines(segs[1..], side), Offset(segs[1..], side, k - 1), LinesOf(segs[k], side));
    }
  }

  lemma {:induction false} OffsetEnd(segs: seq<Seg>, side: Side)
    ensures Offset(segs, side, |segs|) == |Lines(segs, side)|
  {
    if segs != [] { OffsetEnd(segs[1..], side); }
  }

  // ---------------------------------------------------------------- labels

  function SegLabel(segs: seq<Seg>, l: string): (r: Option<nat>)
    ensures r.Some? ==> r.value < |segs|
  {
    if segs == [] then None
    else if segs[0] == Keep(Label(l)) then Some(0)
    else match SegLabel(segs[1..], l) case None => None case Some(k) => Some(k + 1)
  }

  lemma {:induction false} LabelSkip(xs: seq<Line>, ys: seq<Line>, l: string)
    requires forall i | 0 <= i < |xs| :: xs[i] != Label(l)
    ensures LabelPos(xs + ys, l) == match LabelPos(ys, l) case None => None case Some(p) => Some(|xs| + p)
  {
    if xs == [] {
      assert xs + ys == ys;
    } else {
      assert (xs + ys)[1..] == xs[1..] + ys;
      LabelSkip(xs[1..], ys, l);
    }
  }

  lemma LabelElsewhere(g: Seg, side: Side, l: string)
    requires g != Keep(Label(l))
    ensures forall i | 0 <= i < |LinesOf(g, side)| :: LinesOf(g, side)[i] != Label(l)
  {
  }

  lemma LabelHere(segs: seq<Seg>, side: Side, l: string)
    requires segs != [] && segs[0] == Keep(Label(l))
    ensures LabelPos(Lines(segs, side), l) == Some(0) && SegLabel(segs, l) == Some(0)
  {
    assert Lines(segs, side)[0] == Label(l);
  }

  lemma LabelNext(segs: seq<Seg>, l: string)
    requires segs != [] && segs[0] != Keep(Label(l))
    ensures SegLabel(segs, l) == match SegLabel(segs[1..], l) case None => None case Some(k) => Some(k + 1)
  {
  }

  /** A label is at the start of the same segment on both sides. */
  lemma {:induction false} LabelAt(segs: seq<Seg>, side: Side, l: string)
    ensures LabelPos(Lines(segs, side), l)
         == match SegLabel(segs, l) case None => None case Some(k) => Some(Offset(segs, side, k))
  {
    hide LabelPos, SegLabel, LinesOf;
    if segs == [] {
      LabelNowhere(side, l);
    } else if segs[0] == Keep(Label(l)) {
      LabelHere(segs, side, l);
    } else {
      LabelElsewhere(segs[0], side, l);
      LabelSkip(LinesOf(segs[0], side), Lines(segs[1..], side), l);
      LabelNext(segs, l);
      LabelAt(segs[1..], side, l);
    }
  }

  lemma LabelNowhere(side: Side, l: string)
    ensures LabelPos(Lines([], side), l) == None && SegLabel([], l) == None
  {
  }

  // ---------------------------------------------------------------- runs over segments

  /** A run of the old program at a segment boundary, and what the replacements so far have left dead. */
  datatype SegConfig = SegConfig(k: nat, s: State, dead: Dead)

  function AfterAll(xs: seq<Insn>, s: State, env: Env, d: Dead): Dead {
    if xs == [] then d
    else
      match Exec(xs[0], s, env)
      case None => d
      case Some(s') => AfterAll(xs[1..], s', env, VmDead.After(xs[0], s, env, d))
  }

  predicate CleanAll(xs: seq<Insn>, s: State, env: Env, d: Dead) {
    xs == [] ||
    (Clean(xs[0], s, d) &&
     match Exec(xs[0], s, env)
     case None => true
     case Some(s') => CleanAll(xs[1..], s', env, VmDead.After(xs[0], s, env, d)))
  }

  function Union(d: Dead, e: Dead): Dead { Dead(d.mem + e.mem, d.regs + e.regs) }

  /** The next segment reads nothing dead. */
  predicate CleanSeg(g: Seg, s: State, env: Env, d: Dead) {
    match g
    case Win(before, _, _) => CleanAll(before, s, env, d)
    case Keep(Code(i)) => Clean(i, s, d)
    case Keep(Jz(_)) => AX !in d.regs
    case Keep(Jnz(_)) => AX !in d.regs
    case Keep(Ret) => SP !in d.regs && Range(s.Get(SP) - 4, 4) !! d.mem
    case Keep(_) => true
  }

  function SegGoto(segs: seq<Seg>, l: string, s: State, d: Dead): Option<SegConfig> {
    match SegLabel(segs, l) case None => None case Some(k) => Some(SegConfig(k, s, d))
  }

  /** One segment of the old program. */
  function SegStep(segs: seq<Seg>, c: SegConfig, env: Env): (r: Option<SegConfig>)
    requires c.k < |segs|
    ensures r.Some? ==> r.value.k <= |segs|
  {
    var next := SegConfig(c.k + 1, c.s, c.dead);
    match segs[c.k]
    case Win(before, _, l) =>
      (match ExecAll(before, c.s, env)
       case None => None
       case Some(s') => Some(SegConfig(c.k + 1, s', Union(AfterAll(before, c.s, env, c.dead), LeftDead(c.s, l)))))
    case Keep(Label(_)) => Some(next)
    case Keep(Plain(_)) => Some(next)
    case Keep(Code(i)) =>
      (match Exec(i, c.s, env)
       case None => None
       case Some(s') => Some(SegConfig(c.k + 1, s', VmDead.After(i, c.s, env, c.dead))))
    case Keep(Jmp(l)) => SegGoto(segs, l, c.s, c.dead)
    case Keep(Jz(l)) => if c.s.Get(AX) == 0 then SegGoto(segs, l, c.s, c.dead) else Some(next)
    case Keep(Jnz(l)) => if c.s.Get(AX) != 0 then SegGoto(segs, l, c.s, c.dead) else Some(next)
    case Keep(Ret) =>
      (match Return(c.s) case None => None case Some(s') => Some(SegConfig(|segs|, s', c.dead)))
  }

  function SegRun(segs: seq<Seg>, n: nat, c: SegConfig, env: Env): Option<SegConfig>
    requires c.k <= |segs|
  {
    if n == 0 || c.k == |segs| then Some(c)
    else match SegStep(segs, c, env) case None => None case Some(c') => SegRun(segs, n - 1, c', env)
  }

  function At(segs: seq<Seg>, side: Side, c: SegConfig, s: State): Config
    requires c.k <= |segs|
  {
    Config(Offset(segs, side, c.k), s)
  }

  // ---------------------------------------------------------------- one segment on one side

  /** The lines of segment `k` in the program. */
  lemma StepLines(segs: seq<Seg>, side: Side, k: nat)
    requires k < |segs|
    ensures var p, n := Offset(segs, side, k), |LinesOf(segs[k], side)|;
            && p + n == Offset(segs, side, k + 1) <= |Lines(segs, side)|
            && Lines(segs, side)[p..p + n] == LinesOf(segs[k], side)
  {
    OffsetStep(segs, side, k);
    SegLies(segs, side, k);
  }

  lemma KeptLine(segs: seq<Seg>, side: Side, k: nat)
    requires k < |segs| && segs[k].Keep?
    ensures Offset(segs, side, k) < |Lines(segs, side)| && Offset(segs, side, k + 1) == Offset(segs, side, k) + 1
    ensures Lines(segs, side)[Offset(segs, side, k)] == segs[k].line
  {
    StepLines(segs, side, k);
    var p := Offset(segs, side, k);
    assert Lines(segs, side)[p] == Lines(segs, side)[p..p + 1][0];
  }

  lemma GotoAgrees(segs: seq<Seg>, side: Side, l: string, t: State, d: Dead)
    ensures Goto(Lines(segs, side), l, t)
         == match SegGoto(segs, l, t, d) case None => None case Some(c) => Some(At(segs, side, c, t))
  {
    LabelAt(segs, side, l);
  }

  /** A kept line does on either side what the segment step says, from the state `t` of that side. */
  lemma KeepStep(segs: seq<Seg>, side: Side, c: SegConfig, env: Env)
    requires c.k < |segs| && segs[c.k].Keep?
    ensures Offset(segs, side, c.k) < |Lines(segs, side)|
    ensures Step(Lines(segs, side), At(segs, side, c, c.s), env)
         == match SegStep(segs, c, env) case None => None case Some(c') => Some(At(segs, side, c', c'.s))
  {
    hide Offset, Lines, Exec, SegLabel, LabelPos;
    KeptLine(segs, side, c.k);
    var line := segs[c.k].line;
    assert Lines(segs, side)[At(segs, side, c, c.s).pc] == line;
    if line.Jmp? || line.Jz? || line.Jnz? {
      GotoAgrees(segs, side, line.target, c.s, c.dead);
    } else {
      OffsetEnd(segs, side);
    }
  }

  lemma RunOne(prog: seq<Line>, c: Config, env: Env)
    requires c.pc < |prog|
    ensures Run(prog, 1, c, env) == Step(prog, c, env)
  {
    match Step(prog, c, env)
    case None =>
    case Some(c') => assert Run(prog, 0, c', env) == Some(c');
  }

  /** A window's lines run like its instructions. */
  lemma WinRun(segs: seq<Seg>, side: Side, k: nat, s: State, env: Env)
    requires k < |segs| && segs[k].Win?
    ensures Offset(segs, side, k) + |LinesOf(segs[k], side)| == Offset(segs, side, k + 1) <= |Lines(segs, side)|
    ensures Run(Lines(segs, side), |LinesOf(segs[k], side)|, Config(Offset(segs, side, k), s), env)
         == match ExecAll(if side == Before then segs[k].before else segs[k].after, s, env)
            case None => None case Some(s') => Some(Config(Offset(segs, side, k + 1), s'))
  {
    StepLines(segs, side, k);
    RunCode(Lines(segs, side), Config(Offset(segs, side, k), s),
            if side == Before then segs[k].before else segs[k].after, env);
  }

  /** One segment is so many steps of the old program. */
  lemma OldStep(segs: seq<Seg>, c: SegConfig, env: Env)
    requires c.k < |segs|
    ensures Offset(segs, Before, c.k) + |LinesOf(segs[c.k], Before)| <= |Lines(segs, Before)|
    ensures Run(Lines(segs, Before), |LinesOf(segs[c.k], Before)|, At(segs, Before, c, c.s), env)
         == match SegStep(segs, c, env) case None => None case Some(c') => Some(At(segs, Before, c', c'.s))
  {
    if segs[c.k].Win? {
      WinRun(segs, Before, c.k, c.s, env);
    } else {
      KeepStep(segs, Before, c, env);
      RunOne(Lines(segs, Before), At(segs, Before, c, c.s), env);
    }
  }

  // ---------------------------------------------------------------- the new side

  lemma {:induction false} AllCongruent(xs: seq<Insn>, s: State, t: State, env: Env, d: Dead, s': State)
    requires Related(s, t, d) && CleanAll(xs, s, env, d) && ExecAll(xs, s, env) == Some(s')
    ensures ExecAll(xs, t, env).Some? && Related(s', ExecAll(xs, t, env).value, AfterAll(xs, s, env, d))
  {
    if xs != [] {
      var u := Exec(xs[0], s, env).value;
      StepCongruent(xs[0], s, t, env, d, u);
      AllCongruent(xs[1..], u, Exec(xs[0], t, env).value, env, VmDead.After(xs[0], s, env, d), s');
    }
  }

  lemma RelatedUnion(s: State, t: State, u: State, d: Dead, e: Dead)
    requires Related(s, t, d) && Related(t, u, e)
    ensures Related(s, u, Union(d, e))
  {
  }

  lemma WindowCongruent(g: Seg, s: State, t: State, env: Env, d: Dead, s': State)
    requires g.Win? && GoodSeg(g, env) && Related(s, t, d) && CleanAll(g.before, s, env, d)
    requires ExecAll(g.before, s, env) == Some(s')
    ensures ExecAll(g.after, t, env).Some?
    ensures Related(s', ExecAll(g.after, t, env).value,
                    Union(AfterAll(g.before, s, env, d), LeftDead(s, g.leaves)))
  {
    AllCongruent(g.before, s, t, env, d, s');
    var t1 := ExecAll(g.before, t, env).value;
    assert ReachesToo(g.after, t, t1, env, g.leaves);
    if g.leaves.slot {
      assert SP in RegReads(g.before[0]);
      assert s.Get(SP) == t.Get(SP);
    }
    assert LeftDead(t, g.leaves) == LeftDead(s, g.leaves);
    RelatedUnion(s', t1, ExecAll(g.after, t, env).value, AfterAll(g.before, s, env, d), LeftDead(s, g.leaves));
  }

  /** The new program follows one segment of the old one. */
  lemma NewStep(segs: seq<Seg>, c: SegConfig, t: State, env: Env, c': SegConfig) returns (t': State)
    requires c.k < |segs| && GoodSeg(segs[c.k], env) && Related(c.s, t, c.dead)
    requires CleanSeg(segs[c.k], c.s, env, c.dead) && SegStep(segs, c, env) == Some(c')
    ensures Reaches(Lines(segs, After), At(segs, After, c, t), At(segs, After, c', t'), env)
    ensures Related(c'.s, t', c'.dead)
  {
    hide Run, ExecAll, Lines, Offset, Related, SameEffect, AfterAll, LeftDead, LiesAt;
    if segs[c.k].Win? {
      var g := segs[c.k];
      WindowCongruent(g, c.s, t, env, c.dead, c'.s);
      WinRun(segs, After, c.k, t, env);
      t' := ExecAll(g.after, t, env).value;
      ReachesBy(Lines(segs, After), |LinesOf(g, After)|, At(segs, After, c, t), At(segs, After, c', t'), env);
    } else {
      t' := KeptCongruent(segs, c, t, env, c');
      KeepStep(segs, After, c.(s := t), env);
      RunOne(Lines(segs, After), At(segs, After, c, t), env);
      ReachesBy(Lines(segs, After), 1, At(segs, After, c, t), At(segs, After, c', t'), env);
    }
  }

  lemma KeptCongruent(segs: seq<Seg>, c: SegConfig, t: State, env: Env, c': SegConfig) returns (t': State)
    requires c.k < |segs| && segs[c.k].Keep? && Related(c.s, t, c.dead)
    requires CleanSeg(segs[c.k], c.s, env, c.dead) && SegStep(segs, c, env) == Some(c')
    ensures var o := SegStep(segs, c.(s := t), env); o.Some? && o.value.k == c'.k && o.value.s == t'
    ensures Related(c'.s, t', c'.dead)
  {
    match segs[c.k].line
    case Code(i) =>
      StepCongruent(i, c.s, t, env, c.dead, c'.s);
      t' := Exec(i, t, env).value;
    case Ret =>
      assert c.s.Get(SP) == t.Get(SP);
      t' := t.Set(SP, t.Get(SP) - 4);
      SetCongruent(c.s, t, c.dead, SP, t.Get(SP) - 4);
    case Jz(_) =>
      assert c.s.Get(AX) == t.Get(AX);
      t' := t;
    case Jnz(_) =>
      assert c.s.Get(AX) == t.Get(AX);
      t' := t;
    case _ => t' := t;
  }

  // ---------------------------------------------------------------- whole runs

  /** No segment of the run reads anything a replacement left dead. */
  predicate AlwaysClean(segs: seq<Seg>, n: nat, c: SegConfig, env: Env)
    requires c.k <= |segs|
  {
    n == 0 || c.k == |segs| ||
    (CleanSeg(segs[c.k], c.s, env, c.dead) &&
     match SegStep(segs, c, env) case None => true case Some(c') => AlwaysClean(segs, n - 1, c', env))
  }

  /** No replaced window is empty. */
  predicate NoEmptyWindow(segs: seq<Seg>) {
    forall i | 0 <= i < |segs| && segs[i].Win? :: segs[i].before != []
  }

  /** The old program, at a segment boundary, ends in `end` within `n` steps. */
  predicate EndsIn(segs: seq<Seg>, n: nat, c: SegConfig, end: Config, env: Env) {
    && c.k <= |segs|
    && end.pc == |Lines(segs, Before)|
    && Run(Lines(segs, Before), n, At(segs, Before, c, c.s), env) == Some(end)
  }

  lemma LongEnough(segs: seq<Seg>, n: nat, c: SegConfig, end: Config, env: Env)
    requires c.k < |segs| && EndsIn(segs, n, c, end, env)
    ensures n >= |LinesOf(segs[c.k], Before)|
  {
    if n < |LinesOf(segs[c.k], Before)| {
      PartOfWindow(segs, c, n, env);
      assert false;
    }
  }

  lemma SegStepTo(segs: seq<Seg>, c: SegConfig, mid: Config, env: Env) returns (c': SegConfig)
    requires c.k < |segs|
    requires Run(Lines(segs, Before), |LinesOf(segs[c.k], Before)|, At(segs, Before, c, c.s), env) == Some(mid)
    ensures SegStep(segs, c, env) == Some(c') && c'.k <= |segs| && At(segs, Before, c', c'.s) == mid
  {
    OldStep(segs, c, env);
    c' := SegStep(segs, c, env).value;
  }

  /** A run that ends normally has run the whole of a segment before it goes on. */
  lemma OldRunStep(segs: seq<Seg>, n: nat, c: SegConfig, end: Config, env: Env) returns (c': SegConfig, n': nat)
    requires c.k < |segs| && NoEmptyWindow(segs) && EndsIn(segs, n, c, end, env)
    ensures SegStep(segs, c, env) == Some(c') && n' < n && EndsIn(segs, n', c', end, env)
  {
    LongEnough(segs, n, c, end, env);
    var mid;
    mid, n' := RunSplit(Lines(segs, Before), |LinesOf(segs[c.k], Before)|, n, At(segs, Before, c, c.s), end, env);
    c' := SegStepTo(segs, c, mid, env);
  }

  /** A run of the old program that ends normally passes from segment to segment. */
  lemma {:induction false} OldRun(segs: seq<Seg>, n: nat, c: SegConfig, end: Config, env: Env) returns (m: nat, d: Dead)
    requires NoEmptyWindow(segs) && EndsIn(segs, n, c, end, env)
    ensures SegRun(segs, m, c, env) == Some(SegConfig(|segs|, end.s, d))
  {
    if c.k == |segs| {
      m, d := OldRunDone(segs, n, c, end, env);
    } else {
      var c', n' := OldRunStep(segs, n, c, end, env);
      m, d := OldRun(segs, n', c', end, env);
      SegRunStep(segs, m, c, c', env);
      m := m + 1;
    }
  }

  lemma OldRunDone(segs: seq<Seg>, n: nat, c: SegConfig, end: Config, env: Env) returns (m: nat, d: Dead)
    requires c.k == |segs| && EndsIn(segs, n, c, end, env)
    ensures SegRun(segs, m, c, env) == Some(SegConfig(|segs|, end.s, d))
  {
    OffsetEnd(segs, Before);
    m, d := 0, c.dead;
  }

  lemma SegRunStep(segs: seq<Seg>, j: nat, c: SegConfig, c': SegConfig, env: Env)
    requires c.k < |segs| && SegStep(segs, c, env) == Some(c')
    ensures SegRun(segs, j + 1, c, env) == SegRun(segs, j, c', env)
  {
  }

  lemma {:induction false} RunSplit(prog: seq<Line>, m: nat, n: nat, c: Config, end: Config, env: Env)
    returns (mid: Config, rest: nat)
    requires m <= n && Run(prog, n, c, env) == Some(end)
    ensures rest == n - m && Run(prog, m, c, env) == Some(mid) && Run(prog, rest, mid, env) == Some(end)
  {
    rest := n - m;
    if m == 0 || c.pc >= |prog| {
      mid := c;
    } else {
      mid, rest := RunSplit(prog, m - 1, n - 1, Step(prog, c, env).value, end, env);
    }
  }

  /** Fewer steps than a segment has lines do not reach the end of the program. */
  lemma PartOfWindow(segs: seq<Seg>, c: SegConfig, n: nat, env: Env)
    requires c.k < |segs| && n < |LinesOf(segs[c.k], Before)|
    ensures Offset(segs, Before, c.k) + n < |Lines(segs, Before)|
    ensures var o := Run(Lines(segs, Before), n, At(segs, Before, c, c.s), env);
            o.Some? ==> o.value.pc < |Lines(segs, Before)|
  {
    StepLines(segs, Before, c.k);
    if segs[c.k].Win? {
      var p, xs := Offset(segs, Before, c.k), segs[c.k].before[..n];
      var prog := Lines(segs, Before);
      assert prog[p..p + n] == prog[p..p + |segs[c.k].before|][..n] == ToLines(xs);
      RunCode(prog, Config(p, c.s), xs, env);
    }
  }

  /** The new program follows a run over segments. */
  lemma {:induction false} NewRun(segs: seq<Seg>, n: nat, c: SegConfig, t: State, env: Env, c': SegConfig)
    returns (t': State)
    requires c.k <= |segs| && GoodSegs(segs, env) && Related(c.s, t, c.dead)
    requires AlwaysClean(segs, n, c, env) && SegRun(segs, n, c, env) == Some(c') && c'.k <= |segs|
    ensures Reaches(Lines(segs, After), At(segs, After, c, t), At(segs, After, c', t'), env)
    ensures Related(c'.s, t', c'.dead)
  {
    hide SegStep, CleanSeg, Lines, Offset, Related, SameEffect;
    if n == 0 || c.k == |segs| {
      t' := t;
      ReachesBy(Lines(segs, After), 0, At(segs, After, c, t), At(segs, After, c, t), env);
    } else {
      var c1 := SegStep(segs, c, env).value;
      assert AlwaysClean(segs, n - 1, c1, env) && SegRun(segs, n - 1, c1, env) == Some(c');
      var t1 := NewStep(segs, c, t, env, c1);
      t' := NewRun(segs, n - 1, c1, t1, env, c');
      ReachesJoin(Lines(segs, After), At(segs, After, c, t), At(segs, After, c1, t1), At(segs, After, c', t'), env);
    }
  }

  /** The program, started in `s`, ends normally in `sf`. */
  ghost predicate Ends(prog: seq<Line>, s: State, sf: State, env: Env) {
    Reaches(prog, Config(0, s), Config(|prog|, sf), env)
  }

  /** The old run from `s` to `sf`, segment by segment, leaves `d` dead and never reads what is dead. */
  ghost predicate LeavesDead(segs: seq<Seg>, s: State, sf: State, d: Dead, env: Env) {
    exists j: nat :: SegRun(segs, j, SegConfig(0, s, NONE), env) == Some(SegConfig(|segs|, sf, d))
  }

  ghost predicate NeverReadsDead(segs: seq<Seg>, s: State, env: Env) {
    forall i: nat :: AlwaysClean(segs, i, SegConfig(0, s, NONE), env)
  }

  /** Every run of the old program that ends normally, and never reads what replacements leave dead, is
      matched by a run of the new program that ends in the same state but for what is dead. */
  lemma Simulation(segs: seq<Seg>, s: State, sf: State, env: Env) returns (t: State, d: Dead)
    requires GoodSegs(segs, env) && Ends(Lines(segs, Before), s, sf, env) && NeverReadsDead(segs, s, env)
    ensures Ends(Lines(segs, After), s, t, env) && Related(sf, t, d) && LeavesDead(segs, s, sf, d, env)
  {
    var c := SegConfig(0, s, NONE);
    var n: nat :| Run(Lines(segs, Before), n, Config(0, s), env) == Some(Config(|Lines(segs, Before)|, sf));
    var j;
    j, d := OldRun(segs, n, c, Config(|Lines(segs, Before)|, sf), env);
    assert AlwaysClean(segs, j, c, env);
    t := NewRun(segs, j, c, s, env, SegConfig(|segs|, sf, d));
    OffsetEnd(segs, After);
  }

  // ---------------------------------------------------------------- exact replacements

  ghost predicate AllExact(segs: seq<Seg>) {
    forall i | 0 <= i < |segs| :: segs[i].Win? ==> segs[i].leaves == EXACT
  }

  lemma {:induction false} AfterAllNone(xs: seq<Insn>, s: State, env: Env)
    ensures AfterAll(xs, s, env, NONE) == NONE && CleanAll(xs, s, env, NONE)
  {
    if xs != [] {
      match Exec(xs[0], s, env)
      case None =>
      case Some(s') =>
        assert VmDead.After(xs[0], s, env, NONE) == NONE;
        AfterAllNone(xs[1..], s', env);
    }
  }

  lemma ExactStep(segs: seq<Seg>, c: SegConfig, env: Env)
    requires AllExact(segs) && c.k < |segs| && c.dead == NONE
    ensures CleanSeg(segs[c.k], c.s, env, c.dead)
    ensures SegStep(segs, c, env).Some? ==> SegStep(segs, c, env).value.dead == NONE
  {
    match segs[c.k]
    case Win(before, _, _) => AfterAllNone(before, c.s, env);
    case Keep(_) =>
  }

  lemma {:induction false} ExactClean(segs: seq<Seg>, n: nat, c: SegConfig, env: Env)
    requires AllExact(segs) && c.k <= |segs| && c.dead == NONE
    ensures AlwaysClean(segs, n, c, env)
    ensures SegRun(segs, n, c, env).Some? ==> SegRun(segs, n, c, env).value.dead == NONE
  {
    if n > 0 && c.k < |segs| {
      ExactStep(segs, c, env);
      match SegStep(segs, c, env)
      case None =>
      case Some(c') => ExactClean(segs, n - 1, c', env);
    }
  }

  lemma RelatedNone(s: State, t: State)
    requires Related(s, t, NONE)
    ensures s == t
  {
    assert s.mem == t.mem;
    forall i | 0 <= i < 7
      ensures s.regs[i] == t.regs[i]
    {
      var r := [SP, MAR, AX, BX, CX, OP, DX][i];
      assert s.Get(r) == t.Get(r);
    }
    assert s.regs == t.regs;
  }

  /** With exact replacements only, the new program ends in the very same state. */
  lemma ExactSimulation(segs: seq<Seg>, s: State, sf: State, env: Env)
    requires GoodSegs(segs, env) && AllExact(segs) && Ends(Lines(segs, Before), s, sf, env)
    ensures Ends(Lines(segs, After), s, sf, env)
  {
    var c := SegConfig(0, s, NONE);
    forall i: nat ensures AlwaysClean(segs, i, c, env) { ExactClean(segs, i, c, env); }
    var t, d := Simulation(segs, s, sf, env);
    var j: nat :| SegRun(segs, j, c, env) == Some(SegConfig(|segs|, sf, d));
    ExactClean(segs, j, c, env);
    RelatedNone(sf, t);
  }
}

/** The streaming optimiser: a matcher is fed line after line, holds back the lines of a window that may be
    complete later, and writes either the window's replacement or the lines as they were. */
module Matcher {
  import opened Vm
  import opened VmDead
  import opened Windows
  import opened Program

  datatype Rule = PushPopRule | CmpRule | LnlRule | Lnl2Rule | LlRule | Cmp2Rule | AxmarRule | MrSwapRule
                | ReadSwapRule | RlArithRule | Load0Rule

  // ---------------------------------------------------------------- the patterns

  predicate Gpr(r: Reg) { r == AX || r == BX || r == CX || r == DX }

  /** The number of lines in a window. */
  function Length(rule: Rule): (n: nat)
    ensures 1 <= n <= 6
  {
    match rule
    case PushPopRule => 2
    case CmpRule => 2
    case LnlRule => 6
    case Lnl2Rule => 4
    case LlRule => 3
    case Cmp2Rule => 4
    case AxmarRule => 4
    case MrSwapRule => 2
    case ReadSwapRule => 3
    case RlArithRule => 3
    case Load0Rule => 1
  }

  predicate LoadsNumber(i: Insn, r: Reg) { i.Li? && i.r == r && i.v.Num? }

  predicate Copies(i: Insn) { i.Mr? && Gpr(i.dst) && Gpr(i.src) }

  /** Whether an instruction fits line `k` of the window. */
  predicate Fits(rule: Rule, k: nat, i: Insn) {
    match rule
    case PushPopRule => if k == 0 then i.Push? else i.Pop?
    case CmpRule => if k == 0 then i.Alu? && Symmetric(i.op) && i.r1 == BX && i.r2 == AX else i == Mr(AX, BX)
    case LnlRule =>
      (match k
       case 0 => i == Push(AX)
       case 1 => LoadsNumber(i, AX)
       case 2 => i == Li(BX, Num(0))
       case 3 => i == Alu(Sub, BX, AX)
       case 4 => i == Mr(AX, BX)
       case _ => i == Pop(BX))
    case Lnl2Rule =>
      (match k
       case 0 => LoadsNumber(i, AX)
       case 1 => i == Li(BX, Num(0))
       case 2 => i == Alu(Sub, BX, AX)
       case _ => i == Mr(AX, BX))
    case LlRule => if k == 0 then i == Push(AX) else if k == 1 then LoadsNumber(i, AX) else i == Pop(BX)
    case Cmp2Rule =>
      (match k
       case 0 => i == Mr(BX, AX)
       case 1 => LoadsNumber(i, AX)
       case 2 => i.Alu? && Ordering(i.op) && i.r1 == BX && i.r2 == AX
       case _ => i == Mr(AX, BX))
    case AxmarRule =>
      (match k
       case 0 => LoadsNumber(i, AX)
       case 1 => i == Mr(BX, AX)
       case 2 => i.Li? && i.r == MAR
       case _ => i == Mr(AX, MAR))
    case MrSwapRule => if k == 0 then i == Mr(AX, BX) else i == Mr(BX, AX)
    case ReadSwapRule =>
      if k == 0 then i.MemRead? && i.width == 4 && Gpr(i.r)
      else if k == 1 then Copies(i) else i.Li? && Gpr(i.r) && i.v.Num?
    case RlArithRule =>
      if k == 0 then i.Li? && Gpr(i.r) && i.v.Num?
      else if k == 1 then i.Alu? && AddSub(i.op) && Gpr(i.r1) && Gpr(i.r2) else Copies(i)
    case Load0Rule => i.Li? && Gpr(i.r) && i.v == Num(0)
  }

  predicate FitsLine(rule: Rule, k: nat, line: Line) { line.Code? && Fits(rule, k, line.i) }

  predicate Window(rule: Rule, w: seq<Insn>) {
    |w| == Length(rule) && forall k | 0 <= k < |w| :: Fits(rule, k, w[k])
  }

  function Insns(ls: seq<Line>): (xs: seq<Insn>)
    requires forall k | 0 <= k < |ls| :: ls[k].Code?
    ensures |xs| == |ls| && forall k | 0 <= k < |ls| :: xs[k] == ls[k].i
    ensures ToLines(xs) == ls
  {
    seq(|ls|, k requires 0 <= k < |ls| => ls[k].i)
  }

  // ---------------------------------------------------------------- the replacements

  /** Two of the rules look at the captured registers before they replace anything. */
  predicate Fires(rule: Rule, w: seq<Insn>)
    requires Window(rule, w)
  {
    match rule
    case ReadSwapRule => w[0].r == w[1].src && w[0].r == w[2].r
    case RlArithRule => w[0].r == w[1].r2 && w[2].dst == w[0].r && w[1].r1 == w[2].src
    case _ => true
  }

  /** What is written in place of a window. */
  function Replacement(rule: Rule, w: seq<Insn>): seq<Insn>
    requires Window(rule, w)
  {
    if !Fires(rule, w) then w
    else
      match rule
      case PushPopRule => if w[0].r == w[1].r then [] else [Mr(w[1].r, w[0].r)]
      case CmpRule => [Alu(w[0].op, AX, BX)]
      case LnlRule => [Mr(BX, AX), Li(AX, Neg(w[1].v.n))]
      case Lnl2Rule => [Li(AX, Neg(w[0].v.n)), Li(BX, Neg(w[0].v.n))]
      case LlRule => [Mr(BX, AX), Li(AX, w[1].v)]
      case Cmp2Rule => [Li(BX, w[1].v), Alu(w[2].op, AX, BX)]
      case AxmarRule => [Li(BX, w[0].v), w[2], w[3]]
      case MrSwapRule => [w[0]]
      case ReadSwapRule => [MemRead(4, w[1].dst), Li(w[0].r, w[2].v)]
      case RlArithRule => [AluI(w[1].op, w[1].r1, w[0].v), w[2]]
      case Load0Rule => [Alu(Xor, w[0].r, w[0].r)]
  }

  /** What the counter of removed lines grows by. */
  function Gain(rule: Rule, w: seq<Insn>): nat
    requires Window(rule, w)
  {
    if !Fires(rule, w) then 0
    else
      match rule
      case PushPopRule => if w[0].r == w[1].r then 2 else 1
      case LnlRule => 4
      case Lnl2Rule => 2
      case Cmp2Rule => 2
      case _ => 1
  }

  function LeavesBy(rule: Rule): Leaves {
    match rule
    case PushPopRule => SLOT
    case LnlRule => SLOT
    case LlRule => SLOT
    case CmpRule => Leaves(false, {BX})
    case Cmp2Rule => Leaves(false, {BX})
    case _ => EXACT
  }

  /** A window that loads a literal into the register it then adds it to is replaced wrongly. */
  predicate Sound(rule: Rule, w: seq<Insn>)
    requires Window(rule, w)
  {
    rule.RlArithRule? && Fires(rule, w) ==> w[0].r != w[1].r1
  }

  /** Every replacement keeps what the window does, up to what the rule leaves dead, exactly when it is sound. */
  lemma ReplacementKeeps(rule: Rule, w: seq<Insn>, env: Env)
    requires Window(rule, w) && Fires(rule, w)
    ensures SameEffect(w, Replacement(rule, w), env, LeavesBy(rule)) <==> Sound(rule, w)
    ensures LeavesBy(rule).slot ==> w[0].Push?
  {
    match rule
    case PushPopRule =>
      assert w == [Push(w[0].r), Pop(w[1].r)];
      PushPop(w[0].r, w[1].r, env);
    case CmpRule =>
      assert w == [Alu(w[0].op, BX, AX), Mr(AX, BX)];
      Compare(w[0].op, env);
    case LnlRule =>
      assert w == LnlOld(w[1].v.n);
      LoadNegative(w[1].v.n, env);
    case Lnl2Rule =>
      assert w == Lnl2Old(w[0].v.n);
      LoadNegative2(w[0].v.n, env);
    case LlRule =>
      assert w == [Push(AX), Li(AX, w[1].v), Pop(BX)];
      PushLiPopOther(AX, BX, w[1].v, env);
    case Cmp2Rule =>
      assert w == OrderOld(w[2].op, w[1].v.n);
      CompareOrder(w[2].op, w[1].v.n, env);
    case AxmarRule =>
      assert w == AxmarOld(w[0].v.n, w[2].v);
      Axmar(w[0].v.n, w[2].v, env);
    case MrSwapRule =>
      assert w == [Mr(AX, BX), Mr(BX, AX)];
      CopyBack(env);
    case ReadSwapRule =>
      assert w == [MemRead(4, w[0].r), Mr(w[1].dst, w[0].r), Li(w[0].r, Num(w[2].v.n))];
      ReadSwap(w[0].r, w[1].dst, w[2].v.n, env);
    case RlArithRule =>
      assert w == ArithOld(w[1].op, w[0].r, w[1].r1, w[0].v.n);
      LiteralArith(w[1].op, w[0].r, w[1].r1, w[0].v.n, env);
    case Load0Rule =>
      assert w == [Li(w[0].r, Num(0))];
      LoadZero(w[0].r, env);
  }

  /** The counter grows by the lines that went away; only the load of zero is counted with no line gone. */
  lemma GainCounts(rule: Rule, w: seq<Insn>)
    requires Window(rule, w)
    ensures |w| == |Replacement(rule, w)| + Gain(rule, w) - (if rule == Load0Rule then 1 else 0)
  {
  }

  // ---------------------------------------------------------------- where the windows are

  /** How many lines from the start fit the window. */
  function Fitting(rule: Rule, input: seq<Line>, k: nat): (m: nat)
    requires k <= |input| && k <= Length(rule)
    requires forall j | 0 <= j < k :: FitsLine(rule, j, input[j])
    ensures k <= m <= |input| && m <= Length(rule)
    ensures forall j | 0 <= j < m :: FitsLine(rule, j, input[j])
    ensures m < Length(rule) && m < |input| ==> !FitsLine(rule, m, input[m])
    decreases |input| - k
  {
    if k < |input| && k < Length(rule) && FitsLine(rule, k, input[k]) then Fitting(rule, input, k + 1) else k
  }

  function KeepAll(ls: seq<Line>): (g: seq<Seg>)
    ensures |g| == |ls| && forall k | 0 <= k < |ls| :: g[k] == Keep(ls[k])
  {
    seq(|ls|, k requires 0 <= k < |ls| => Keep(ls[k]))
  }

  predicate WindowLines(rule: Rule, ls: seq<Line>) {
    |ls| == Length(rule) && forall j | 0 <= j < |ls| :: FitsLine(rule, j, ls[j])
  }

  /** The segments for lines that are decided: a whole window, or lines of which the last did not fit. */
  function Decided(rule: Rule, ls: seq<Line>): seq<Seg> {
    if WindowLines(rule, ls) && Fires(rule, Insns(ls)) then
      [Win(Insns(ls), Replacement(rule, Insns(ls)), LeavesBy(rule))]
    else KeepAll(ls)
  }

  /** How many lines are decided first: a whole window, or up to the first line that does not fit; 0 if all
      still fit. */
  function First(rule: Rule, input: seq<Line>): (n: nat)
    ensures n <= |input|
    ensures n == 0 ==> |input| < Length(rule) && forall j | 0 <= j < |input| :: FitsLine(rule, j, input[j])
  {
    var m := Fitting(rule, input, 0);
    if m == Length(rule) then m else if m == |input| then 0 else m + 1
  }

  /** The file from the left: a whole window is replaced; a line that does not fit is kept with all that was
      held back before it; lines that still fit when the file ends stay held back. */
  function Cut(rule: Rule, input: seq<Line>): seq<Seg>
    decreases |input|
  {
    var n := First(rule, input);
    if n == 0 then [] else Decided(rule, input[..n]) + Cut(rule, input[n..])
  }

  function HeldBack(rule: Rule, input: seq<Line>): (h: seq<Line>)
    ensures |h| < Length(rule) && forall j | 0 <= j < |h| :: FitsLine(rule, j, h[j])
    decreases |input|
  {
    var n := First(rule, input);
    if n == 0 then input else HeldBack(rule, input[n..])
  }

  lemma {:induction false} FittingMore(rule: Rule, input: seq<Line>, more: seq<Line>, k: nat)
    requires k <= |input| && k <= Length(rule)
    requires forall j | 0 <= j < k :: FitsLine(rule, j, input[j])
    requires Fitting(rule, input, k) == Length(rule) || Fitting(rule, input, k) < |input|
    ensures Fitting(rule, input + more, k) == Fitting(rule, input, k)
    decreases |input| - k
  {
    if k < |input| && k < Length(rule) {
      assert (input + more)[k] == input[k];
      if FitsLine(rule, k, input[k]) { FittingMore(rule, input, more, k + 1); }
    }
  }

  lemma FirstMore(rule: Rule, input: seq<Line>, more: seq<Line>)
    requires First(rule, input) > 0
    ensures First(rule, input + more) == First(rule, input)
  {
    FittingMore(rule, input, more, 0);
  }

  lemma CutFrom(rule: Rule, input: seq<Line>, part: seq<Line>, rest: seq<Line>)
    requires First(rule, input) == |part| > 0 && input == part + rest
    ensures Cut(rule, input) == Decided(rule, part) + Cut(rule, rest)
    ensures HeldBack(rule, input) == HeldBack(rule, rest)
  {
    assert input[..|part|] == part && input[|part|..] == rest;
  }

  lemma Regroup(all: seq<Seg>, a: seq<Seg>, b: seq<Seg>, bc: seq<Seg>, c: seq<Seg>)
    requires all == a + bc && bc == b + c
    ensures all == (a + b) + c
  {
  }

  lemma CutFromBoth(rule: Rule, part: seq<Line>, rest: seq<Line>, more: seq<Line>, tail: seq<Seg>)
    requires First(rule, part + rest) == |part| > 0
    requires Cut(rule, rest + more) == Cut(rule, rest) + tail
    ensures Cut(rule, part + rest + more) == Cut(rule, part + rest) + tail
    ensures HeldBack(rule, part + rest) == HeldBack(rule, rest)
    ensures HeldBack(rule, part + rest + more) == HeldBack(rule, rest + more)
  {
    hide Cut, HeldBack, Decided, First;
    FirstMore(rule, part + rest, more);
    CutFrom(rule, part + rest, part, rest);
    assert part + rest + more == part + (rest + more);
    CutFrom(rule, part + rest + more, part, rest + more);
    Regroup(Cut(rule, part + rest + more), Decided(rule, part), Cut(rule, rest), Cut(rule, rest + more), tail);
  }

  /** What is cut stays cut, and only what is held back matters for the rest of the file. */
  lemma {:induction false} CutGoesOn(rule: Rule, input: seq<Line>, more: seq<Line>)
    ensures Cut(rule, input + more) == Cut(rule, input) + Cut(rule, HeldBack(rule, input) + more)
    ensures HeldBack(rule, input + more) == HeldBack(rule, HeldBack(rule, input) + more)
    decreases |input|
  {
    hide Decided, First, Fitting, FitsLine;
    var n := First(rule, input);
    if n == 0 {
      assert Cut(rule, input) == [];
    } else {
      var rest := input[n..];
      CutGoesOn(rule, rest, more);
      assert input == input[..n] + rest;
      CutFromBoth(rule, input[..n], rest, more, Cut(rule, HeldBack(rule, rest) + more));
    }
  }

  /** When all lines but perhaps the last fit, a whole window or a misfit at the end decides all of them. */
  lemma {:induction false} FittingTo(rule: Rule, h: seq<Line>, line: Line, k: nat)
    requires k <= |h| < Length(rule) && forall j | 0 <= j < |h| :: FitsLine(rule, j, h[j])
    ensures Fitting(rule, h + [line], k) == if FitsLine(rule, |h|, line) then |h| + 1 else |h|
    decreases |h| - k
  {
    assert (h + [line])[k] == if k < |h| then h[k] else line;
    if k < |h| { FittingTo(rule, h, line, k + 1); }
  }

  lemma CutNothing(rule: Rule)
    ensures Cut(rule, []) == [] && HeldBack(rule, []) == []
  {
  }

  lemma CutAll(rule: Rule, ls: seq<Line>)
    requires First(rule, ls) == |ls| > 0
    ensures Cut(rule, ls) == Decided(rule, ls) && HeldBack(rule, ls) == []
  {
    assert ls[..|ls|] == ls && ls[|ls|..] == [];
    CutNothing(rule);
  }

  /** One more line that fits but does not complete a window: it is held back. */
  lemma LineHeldBack(rule: Rule, input: seq<Line>, line: Line)
    requires |HeldBack(rule, input)| + 1 < Length(rule) && FitsLine(rule, |HeldBack(rule, input)|, line)
    ensures HeldBack(rule, input + [line]) == HeldBack(rule, input) + [line]
    ensures Cut(rule, input + [line]) == Cut(rule, input)
  {
    CutGoesOn(rule, input, [line]);
    FittingTo(rule, HeldBack(rule, input), line, 0);
  }

  /** One more line that completes the window or does not fit: nothing is held back any more. */
  lemma LineDecides(rule: Rule, input: seq<Line>, line: Line)
    requires |HeldBack(rule, input)| + 1 == Length(rule) || !FitsLine(rule, |HeldBack(rule, input)|, line)
    ensures HeldBack(rule, input + [line]) == []
    ensures Cut(rule, input + [line]) == Cut(rule, input) + Decided(rule, HeldBack(rule, input) + [line])
  {
    CutGoesOn(rule, input, [line]);
    FittingTo(rule, HeldBack(rule, input), line, 0);
    CutAll(rule, HeldBack(rule, input) + [line]);
  }

  // ---------------------------------------------------------------- lines over segments

  lemma {:induction false} LinesKept(ls: seq<Line>, side: Side)
    ensures Lines(KeepAll(ls), side) == ls
  {
    if ls != [] {
      assert KeepAll(ls)[1..] == KeepAll(ls[1..]);
      LinesKept(ls[1..], side);
    }
  }

  lemma LinesOfOne(g: Seg, side: Side)
    ensures Lines([g], side) == LinesOf(g, side)
  {
    assert [g][1..] == [];
    assert LinesOf(g, side) + [] == LinesOf(g, side);
  }

  lemma LinesDecided(rule: Rule, ls: seq<Line>)
    ensures Lines(Decided(rule, ls), Before) == ls
    ensures Lines(Decided(rule, ls), After)
         == if WindowLines(rule, ls) then ToLines(Replacement(rule, Insns(ls))) else ls
  {
    if WindowLines(rule, ls) && Fires(rule, Insns(ls)) {
      var g := Win(Insns(ls), Replacement(rule, Insns(ls)), LeavesBy(rule));
      LinesOfOne(g, Before);
      LinesOfOne(g, After);
    } else {
      LinesKept(ls, Before);
      LinesKept(ls, After);
    }
  }

  lemma JoinThree(all: seq<Line>, n: nat, b: seq<Line>, c: seq<Line>)
    requires n <= |all| && b + c == all[n..]
    ensures (all[..n] + b) + c == all
  {
    assert (all[..n] + b) + c == all[..n] + (b + c);
  }

  /** The segments are the file, but for the lines held back. */
  lemma {:induction false} CutIsInput(rule: Rule, input: seq<Line>)
    ensures Lines(Cut(rule, input), Before) + HeldBack(rule, input) == input
    decreases |input|
  {
    var n := First(rule, input);
    if n > 0 {
      var rest := Cut(rule, input[n..]);
      CutIsInput(rule, input[n..]);
      LinesDecided(rule, input[..n]);
      LinesAppend(Decided(rule, input[..n]), rest, Before);
      JoinThree(input, n, Lines(rest, Before), HeldBack(rule, input[n..]));
    }
  }

  // ---------------------------------------------------------------- the counter

  /** How many segments are windows. */
  function Count(segs: seq<Seg>): nat {
    if segs == [] then 0 else (if segs[0].Win? then 1 else 0) + Count(segs[1..])
  }

  lemma {:induction false} CountAppend(a: seq<Seg>, b: seq<Seg>)
    ensures Count(a + b) == Count(a) + Count(b)
  {
    if a == [] {
      assert a + b == b;
    } else {
      assert (a + b)[1..] == a[1..] + b;
      CountAppend(a[1..], b);
    }
  }

  lemma {:induction false} CountKept(ls: seq<Line>)
    ensures Count(KeepAll(ls)) == 0
  {
    if ls != [] {
      assert KeepAll(ls)[1..] == KeepAll(ls[1..]);
      CountKept(ls[1..]);
    }
  }

  lemma CountDecided(rule: Rule, ls: seq<Line>)
    requires WindowLines(rule, ls) && rule == Load0Rule
    ensures Count(Decided(rule, ls)) == 1
  {
    assert Decided(rule, ls)[1..] == [];
  }

  // ---------------------------------------------------------------- the matcher

  class Stream {
    const rule: Rule
    var lineMatches: nat
    var savedLines: seq<Line>
    var out: seq<Line>
    var removed: nat
    /** All lines fed so far. */
    ghost var fed: seq<Line>

    constructor (r: Rule)
      ensures rule == r && Valid() && fed == []
    {
      rule, lineMatches, savedLines, out, removed, fed := r, 0, [], [], 0, [];
      new;
      CutNothing(r);
    }

    ghost predicate Valid()
      reads this
    {
      lineMatches == |savedLines| && InStep(rule, fed, savedLines, out, removed)
    }

    /** Takes one line, and keeps what was written in step with the lines fed. */
    method Feed(line: Line)
      requires Valid()
      modifies this
      ensures Valid() && fed == old(fed) + [line]
    {
      if FitsLine(rule, lineMatches, line) {
        savedLines := savedLines + [line];
        lineMatches := lineMatches + 1;
        if lineMatches == Length(rule) {
          WindowWritten(rule, fed, old(savedLines), line, out, removed);
          out := out + ToLines(Replacement(rule, Insns(savedLines)));
          removed := removed + Gain(rule, Insns(savedLines));
          lineMatches, savedLines := 0, [];
        } else {
          LineHeldBack(rule, fed, line);
        }
      } else {
        LinesWritten(rule, fed, savedLines, line, out, removed);
        out := out + (savedLines + [line]);
        lineMatches, savedLines := 0, [];
      }
      fed := fed + [line];
    }
  }

  /** What is held back, what was written and what was counted, after the lines `fed`. */
  predicate InStep(rule: Rule, fed: seq<Line>, saved: seq<Line>, out: seq<Line>, removed: nat) {
    && saved == HeldBack(rule, fed)
    && out == Lines(Cut(rule, fed), After)
    && removed == |fed| - |saved| - |out| + Extra(rule, Cut(rule, fed))
  }

  lemma DecidedWritten(rule: Rule, segs: seq<Seg>, ls: seq<Line>)
    ensures Lines(segs + Decided(rule, ls), After) == Lines(segs, After)
          + if WindowLines(rule, ls) then ToLines(Replacement(rule, Insns(ls))) else ls
  {
    LinesDecided(rule, ls);
    LinesAppend(segs, Decided(rule, ls), After);
  }

  lemma DecidedCounted(rule: Rule, segs: seq<Seg>, ls: seq<Line>)
    requires rule == Load0Rule || !WindowLines(rule, ls)
    ensures Count(segs + Decided(rule, ls)) == Count(segs) + if WindowLines(rule, ls) then 1 else 0
  {
    CountAppend(segs, Decided(rule, ls));
    if WindowLines(rule, ls) { CountDecided(rule, ls); } else { CountKept(ls); }
  }

  function Extra(rule: Rule, segs: seq<Seg>): nat { if rule == Load0Rule then Count(segs) else 0 }

  lemma WindowCounted(rule: Rule, segs: seq<Seg>, ls: seq<Line>)
    requires WindowLines(rule, ls)
    ensures Gain(rule, Insns(ls)) + Extra(rule, segs)
         == |ls| - |Replacement(rule, Insns(ls))| + Extra(rule, segs + Decided(rule, ls))
  {
    GainCounts(rule, Insns(ls));
    if rule == Load0Rule { DecidedCounted(rule, segs, ls); }
  }

  lemma WindowWritten(rule: Rule, fed: seq<Line>, saved: seq<Line>, line: Line, out: seq<Line>, removed: nat)
    requires InStep(rule, fed, saved, out, removed) && |saved| + 1 == Length(rule) && FitsLine(rule, |saved|, line)
    ensures WindowLines(rule, saved + [line])
    ensures var w := Insns(saved + [line]);
            InStep(rule, fed + [line], [], out + ToLines(Replacement(rule, w)), removed + Gain(rule, w))
  {
    LineDecides(rule, fed, line);
    DecidedWritten(rule, Cut(rule, fed), saved + [line]);
    WindowCounted(rule, Cut(rule, fed), saved + [line]);
  }

  lemma LinesWritten(rule: Rule, fed: seq<Line>, saved: seq<Line>, line: Line, out: seq<Line>, removed: nat)
    requires InStep(rule, fed, saved, out, removed) && !FitsLine(rule, |saved|, line)
    ensures InStep(rule, fed + [line], [], out + (saved + [line]), removed)
  {
    assert (saved + [line])[|saved|] == line;
    LineDecides(rule, fed, line);
    DecidedWritten(rule, Cut(rule, fed), saved + [line]);
    DecidedCounted(rule, Cut(rule, fed), saved + [line]);
  }

  // ---------------------------------------------------------------- whole files

  /** A pass over a file. Lines still held back at the end are not written. */
  method Optimize(rule: Rule, input: seq<Line>) returns (out: seq<Line>, removed: nat)
    ensures InStep(rule, input, HeldBack(rule, input), out, removed)
  {
    var m := new Stream(rule);
    for i := 0 to |input|
      invariant m.Valid() && m.rule == rule && m.fed == input[..i] && fresh(m)
    {
      assert input[..i + 1] == input[..i] + [input[i]];
      m.Feed(input[i]);
    }
    assert input[..|input|] == input;
    out, removed := m.out, m.removed;
  }

  ghost predicate ByRule(rule: Rule, g: Seg) {
    g.Win? ==>
      && Window(rule, g.before) && Fires(rule, g.before)
      && g.after == Replacement(rule, g.before)
      && g.leaves == LeavesBy(rule)
  }

  /** Segments are kept lines or windows of the rule with their replacement. */
  lemma {:induction false} CutByRule(rule: Rule, input: seq<Line>)
    ensures forall g | g in Cut(rule, input) :: ByRule(rule, g)
    decreases |input|
  {
    var n := First(rule, input);
    if n > 0 { CutByRule(rule, input[n..]); }
  }

  /** No window of the file loads its literal into the register it is then added to. */
  ghost predicate AllSound(rule: Rule, input: seq<Line>) {
    forall g | g in Cut(rule, input) && g.Win? && Window(rule, g.before) :: Sound(rule, g.before)
  }

  lemma CutIsGood(rule: Rule, input: seq<Line>, env: Env)
    requires AllSound(rule, input)
    ensures GoodSegs(Cut(rule, input), env)
  {
    CutByRule(rule, input);
    var segs := Cut(rule, input);
    forall i | 0 <= i < |segs| ensures GoodSeg(segs[i], env) {
      assert segs[i] in segs;
      if segs[i].Win? { ReplacementKeeps(rule, segs[i].before, env); }
    }
  }

  // ---------------------------------------------------------------- what is lost and what is missed

  /** The place of a line in the window, the window's length if it has none. */
  function Spot(rule: Rule, line: Line, from: nat): (k: nat)
    requires from <= Length(rule)
    ensures from <= k <= Length(rule)
    decreases Length(rule) - from
  {
    if from == Length(rule) || FitsLine(rule, from, line) then from else Spot(rule, line, from + 1)
  }

  /** No line fits two places of a window. */
  lemma FitsOnce(rule: Rule, j: nat, k: nat, line: Line)
    requires j < k < Length(rule)
    ensures !FitsLine(rule, j, line) || !FitsLine(rule, k, line)
  {
  }

  lemma {:induction false} SpotIs(rule: Rule, j: nat, line: Line, from: nat)
    requires from <= j < Length(rule) && FitsLine(rule, j, line)
    ensures Spot(rule, line, from) == j
    decreases j - from
  {
    hide FitsLine;
    if from < j {
      FitsOnce(rule, from, j, line);
      SpotIs(rule, j, line, from + 1);
    }
  }

  /** The beginning of a window, not the whole of it. */
  predicate Begins(rule: Rule, ls: seq<Line>) {
    0 < |ls| < Length(rule) && forall j | 0 <= j < |ls| :: FitsLine(rule, j, ls[j])
  }

  /** How many lines at the end are the beginning of a window: the place of the last line says how many they are. */
  function Tail(rule: Rule, input: seq<Line>): (m: nat)
    ensures m <= |input|
    ensures m > 0 ==> Begins(rule, input[|input| - m..])
  {
    if input == [] then 0
    else
      var m := Spot(rule, input[|input| - 1], 0) + 1;
      if m <= |input| && Begins(rule, input[|input| - m..]) then m else 0
  }

  lemma TailIs(rule: Rule, front: seq<Line>, h: seq<Line>)
    requires Begins(rule, h)
    ensures Tail(rule, front + h) == |h|
  {
    var input := front + h;
    SpotIs(rule, |h| - 1, h[|h| - 1], 0);
    assert input[|input| - |h|..] == h;
  }

  /** How many beginnings of windows stand at the end, one directly behind the other. */
  function Trailing(rule: Rule, input: seq<Line>): nat
    decreases |input|
  {
    var m := Tail(rule, input);
    if m == 0 then 0 else 1 + Trailing(rule, input[..|input| - m])
  }

  lemma TrailingMore(rule: Rule, front: seq<Line>, h: seq<Line>)
    requires Begins(rule, h)
    ensures Trailing(rule, front + h) == 1 + Trailing(rule, front)
  {
    TailIs(rule, front, h);
    assert (front + h)[..|front|] == front;
  }

  lemma HeldBegins(rule: Rule, input: seq<Line>)
    requires HeldBack(rule, input) != []
    ensures Begins(rule, HeldBack(rule, input)) && input != []
  {
    CutNothing(rule);
  }

  lemma HeldFromNext(rule: Rule, x: seq<Line>, line: Line, front: seq<Line>)
    requires x == front + HeldBack(rule, x) && HeldBack(rule, front) == []
    requires HeldBack(rule, x + [line]) != []
    ensures x + [line] == front + HeldBack(rule, x + [line])
  {
    hide HeldBack, FitsLine, Cut;
    if |HeldBack(rule, x)| + 1 == Length(rule) || !FitsLine(rule, |HeldBack(rule, x)|, line) {
      LineDecides(rule, x, line);
    } else {
      LineHeldBack(rule, x, line);
      Shift(front, HeldBack(rule, x), line, []);
    }
  }

  /** What is held back started with nothing held back. */
  lemma {:induction false} HeldFrom(rule: Rule, input: seq<Line>) returns (front: seq<Line>)
    requires HeldBack(rule, input) != []
    ensures input == front + HeldBack(rule, input) && HeldBack(rule, front) == []
    decreases |input|
  {
    hide HeldBack, FitsLine, Begins;
    HeldBegins(rule, input);
    var x, line := input[..|input| - 1], input[|input| - 1];
    assert input == x + [line];
    front := x;
    if HeldBack(rule, x) == [] {
      assert x + [] == x;
    } else {
      front := HeldFrom(rule, x);
    }
    HeldFromNext(rule, x, line, front);
  }

  /** The beginning of a window is held back. */
  lemma BeginningHeld(rule: Rule, front: seq<Line>, h: seq<Line>)
    requires HeldBack(rule, front) == [] && Begins(rule, h)
    ensures HeldBack(rule, front + h) == h
  {
    CutGoesOn(rule, front, h);
    assert [] + h == h;
    BeginningFits(rule, h, 0);
  }

  lemma {:induction false} BeginningFits(rule: Rule, h: seq<Line>, k: nat)
    requires Begins(rule, h) && k <= |h|
    ensures Fitting(rule, h, k) == |h|
    decreases |h| - k
  {
    if k < |h| { BeginningFits(rule, h, k + 1); }
  }

  lemma TrailingSplit(rule: Rule, input: seq<Line>) returns (front: seq<Line>, h: seq<Line>)
    requires Tail(rule, input) > 0
    ensures input == front + h && Begins(rule, h) && |h| == Tail(rule, input)
    ensures Trailing(rule, input) == 1 + Trailing(rule, front)
  {
    front, h := input[..|input| - Tail(rule, input)], input[|input| - Tail(rule, input)..];
  }

  lemma TrailingNone(rule: Rule, input: seq<Line>)
    ensures Tail(rule, input) == 0 <==> Trailing(rule, input) == 0
  {
  }

  /** The lines held back at the end of a file: a beginning of a window, unless it stands behind another one that is
      held back itself. */
  lemma {:induction false} HeldBackIs(rule: Rule, input: seq<Line>)
    ensures HeldBack(rule, input)
         == if Trailing(rule, input) % 2 == 0 then [] else input[|input| - Tail(rule, input)..]
    decreases |input|
  {
    hide HeldBack, Begins, Tail, Trailing;
    var held := HeldBack(rule, input);
    TrailingNone(rule, input);
    if held != [] {
      var front := HeldFrom(rule, input);
      HeldBegins(rule, input);
      HeldBackIs(rule, front);
      TrailingNone(rule, front);
      TrailingMore(rule, front, held);
      TailIs(rule, front, held);
    } else if Tail(rule, input) > 0 {
      var front, h := TrailingSplit(rule, input);
      HeldBackIs(rule, front);
      if HeldBack(rule, front) == [] { BeginningHeld(rule, front, h); }
    }
  }

  /** All lines of the file are still there, replaced or not, exactly if an even number of beginnings of windows stand
      at its end. */
  lemma NothingLost(rule: Rule, input: seq<Line>)
    ensures Lines(Cut(rule, input), Before) == input <==> Trailing(rule, input) % 2 == 0
  {
    hide Cut, HeldBack, Trailing, Tail;
    CutIsInput(rule, input);
    HeldBackIs(rule, input);
    var before := Lines(Cut(rule, input), Before);
    assert before + [] == before;
    TrailingNone(rule, input);
  }

  /** A file whose last line has no place in a window, or the last one, loses nothing. */
  lemma EndsOutside(rule: Rule, input: seq<Line>)
    requires input == [] || Spot(rule, input[|input| - 1], 0) >= Length(rule) - 1
    ensures Trailing(rule, input) == 0
  {
  }

  /** A file that ends inside a possible window loses those lines. */
  lemma LosesLastLine()
    ensures Lines(Cut(PushPopRule, [Code(Push(AX))]), After) == []
    ensures Trailing(PushPopRule, [Code(Push(AX))]) == 1
  {
    var input := [Code(Push(AX))];
    assert FitsLine(PushPopRule, 0, input[0]);
    assert Fitting(PushPopRule, input, 1) == 1;
    TrailingMore(PushPopRule, [], input);
    assert [] + input == input;
  }

  /** The file is cut so that the segment `g` stands for the lines from `p` on. */
  ghost predicate CutAt(segs: seq<Seg>, p: nat, g: Seg) {
    exists k :: 0 <= k < |segs| && segs[k] == g && |Lines(segs[..k], Before)| == p
  }

  lemma CutAtBy(segs: seq<Seg>, p: nat, g: Seg, a: seq<Seg>, b: seq<Seg>)
    requires segs == a + ([g] + b) && |Lines(a, Before)| == p
    ensures CutAt(segs, p, g)
  {
    assert segs[..|a|] == a && segs[|a|] == g;
  }

  lemma LaterCut(segs: seq<Seg>, k: nat, m: nat)
    requires k < m <= |segs|
    ensures |Lines(segs[..m], Before)| >= |Lines(segs[..k], Before)| + |LinesOf(segs[k], Before)|
  {
    hide Lines;
    assert segs[..m] == segs[..k] + ([segs[k]] + segs[k + 1..m]);
    LinesAppend(segs[..k], [segs[k]] + segs[k + 1..m], Before);
    LinesAppend([segs[k]], segs[k + 1..m], Before);
    LinesOfOne(segs[k], Before);
  }

  /** Only one segment starts at a line. */
  lemma CutOnce(segs: seq<Seg>, p: nat, g: Seg, g2: Seg)
    requires CutAt(segs, p, g) && CutAt(segs, p, g2)
    requires LinesOf(g, Before) != [] && LinesOf(g2, Before) != []
    ensures g == g2
  {
    hide Lines;
    var k :| 0 <= k < |segs| && segs[k] == g && |Lines(segs[..k], Before)| == p;
    var m :| 0 <= m < |segs| && segs[m] == g2 && |Lines(segs[..m], Before)| == p;
    if k < m { LaterCut(segs, k, m); }
    if m < k { LaterCut(segs, m, k); }
  }

  /** The window of the lines `w`, and what replaces it. */
  function WinOf(rule: Rule, w: seq<Line>): Seg
    requires WindowLines(rule, w)
  {
    Win(Insns(w), Replacement(rule, Insns(w)), LeavesBy(rule))
  }

  lemma {:induction false} WindowFits(rule: Rule, w: seq<Line>, rest: seq<Line>, k: nat)
    requires WindowLines(rule, w) && k <= |w|
    requires forall j | 0 <= j < k :: FitsLine(rule, j, (w + rest)[j])
    ensures Fitting(rule, w + rest, k) == Length(rule)
    decreases |w| - k
  {
    if k < |w| {
      assert (w + rest)[k] == w[k];
      WindowFits(rule, w, rest, k + 1);
    }
  }

  lemma CutWindow(rule: Rule, pre: seq<Line>, w: seq<Line>, post: seq<Line>)
    requires WindowLines(rule, w) && Fires(rule, Insns(w)) && HeldBack(rule, pre) == []
    ensures CutAt(Cut(rule, pre + (w + post)), |pre|, WinOf(rule, w))
  {
    hide Cut, HeldBack, Fires, Replacement, FitsLine, Lines;
    CutGoesOn(rule, pre, w + post);
    assert [] + (w + post) == w + post;
    WindowFits(rule, w, post, 0);
    CutFrom(rule, w + post, w, post);
    CutIsInput(rule, pre);
    assert pre + [] == pre;
    var g := WinOf(rule, w);
    CutAtBy(Cut(rule, pre + (w + post)), |pre|, g, Cut(rule, pre), Cut(rule, post));
  }

  lemma KeptLast(h: seq<Line>, line: Line)
    ensures KeepAll(h + [line]) == KeepAll(h) + [Keep(line)]
  {
  }

  lemma Shift<T>(a: seq<T>, b: seq<T>, x: T, c: seq<T>)
    ensures (a + (b + [x])) + c == (a + b) + ([x] + c)
  {
  }

  lemma NoWindow(rule: Rule, h: seq<Line>, line: Line)
    requires |h| < Length(rule) && !FitsLine(rule, |h|, line)
    ensures Decided(rule, h + [line]) == KeepAll(h) + [Keep(line)]
  {
    hide FitsLine;
    assert (h + [line])[|h|] == line;
    KeptLast(h, line);
  }

  /** Lines are held back when a window starts: its first line goes with them. */
  lemma KeepFirst(rule: Rule, pre: seq<Line>, line: Line, rest: seq<Line>)
    requires FitsLine(rule, 0, line) && HeldBack(rule, pre) != []
    ensures CutAt(Cut(rule, pre + ([line] + rest)), |pre|, Keep(line))
  {
    hide HeldBack, Cut, FitsLine, Lines, Decided, KeepAll, CutAt;
    var h := HeldBack(rule, pre);
    FitsOnce(rule, 0, |h|, line);
    LineDecides(rule, pre, line);
    NoWindow(rule, h, line);
    Shift(pre, [], line, rest);
    CutGoesOn(rule, pre + [line], rest);
    var segs, tail := Cut(rule, pre), Cut(rule, [] + rest);
    Shift(segs, KeepAll(h), Keep(line), tail);
    LinesKept(h, Before);
    LinesAppend(segs, KeepAll(h), Before);
    CutIsInput(rule, pre);
    assert pre + [] == pre && [] + [line] == [line];
    CutAtBy(Cut(rule, pre + ([line] + rest)), |pre|, Keep(line), segs + KeepAll(h), tail);
  }

  /** A window in the file is replaced exactly if an even number of beginnings of windows stand directly before it. */
  lemma WindowReplaced(rule: Rule, pre: seq<Line>, w: seq<Line>, post: seq<Line>)
    requires WindowLines(rule, w) && Fires(rule, Insns(w))
    ensures CutAt(Cut(rule, pre + (w + post)), |pre|, WinOf(rule, w)) <==> Trailing(rule, pre) % 2 == 0
  {
    hide Cut, Trailing, Tail, Fires, Replacement, FitsLine;
    HeldBackIs(rule, pre);
    if HeldBack(rule, pre) == [] {
      CutWindow(rule, pre, w, post);
      TrailingNone(rule, pre);
    } else {
      assert w + post == [w[0]] + (w[1..] + post);
      KeepFirst(rule, pre, w[0], w[1..] + post);
      var segs := Cut(rule, pre + (w + post));
      if CutAt(segs, |pre|, WinOf(rule, w)) { CutOnce(segs, |pre|, WinOf(rule, w), Keep(w[0])); }
    }
  }

  /** A line that breaks a possible window is not tried as the start of another: the pair behind `push ax` stays. */
  lemma NotTriedAgain()
    ensures var push, pair := [Code(Push(AX))], [Code(Push(BX)), Code(Pop(BX))];
            && WindowLines(PushPopRule, pair)
            && !CutAt(Cut(PushPopRule, push + (pair + [])), 1, WinOf(PushPopRule, pair))
  {
    hide Cut;
    var push, pair := [Code(Push(AX))], [Code(Push(BX)), Code(Pop(BX))];
    LosesLastLine();
    WindowReplaced(PushPopRule, push, pair, []);
  }

  // ---------------------------------------------------------------- a pass keeps runs

  /** A pass keeps what a program does. A run of the file that ends normally, without reading what replacements
      leave dead, is matched by a run of the optimised file, which ends the same but for what is dead. */
  lemma PassKeepsRuns(rule: Rule, input: seq<Line>, s: State, sf: State, env: Env) returns (t: State, d: Dead)
    requires Trailing(rule, input) % 2 == 0 && AllSound(rule, input)
    requires Ends(input, s, sf, env) && NeverReadsDead(Cut(rule, input), s, env)
    ensures Ends(Lines(Cut(rule, input), After), s, t, env)
    ensures Related(sf, t, d) && LeavesDead(Cut(rule, input), s, sf, d, env)
  {
    NothingLost(rule, input);
    CutIsGood(rule, input, env);
    t, d := Simulation(Cut(rule, input), s, sf, env);
  }

  /** The rules that leave nothing dead keep every run that ends normally, to the last register and byte. */
  lemma ExactPassKeepsRuns(rule: Rule, input: seq<Line>, s: State, sf: State, env: Env)
    requires LeavesBy(rule) == EXACT && Trailing(rule, input) % 2 == 0 && AllSound(rule, input)
    requires Ends(input, s, sf, env)
    ensures Ends(Lines(Cut(rule, input), After), s, sf, env)
  {
    NothingLost(rule, input);
    CutIsGood(rule, input, env);
    CutByRule(rule, input);
    forall i | 0 <= i < |Cut(rule, input)| && Cut(rule, input)[i].Win?
      ensures Cut(rule, input)[i].leaves == EXACT
    {
      assert ByRule(rule, Cut(rule, input)[i]);
    }
    ExactSimulation(Cut(rule, input), s, sf, env);
  }
}

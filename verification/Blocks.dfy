/** The assembler's own optimiser works on basic blocks in place: it marks instructions as gone, overwrites
    others, and a last pass drops the marked ones. */
module Blocks {
  import opened Vm
  import opened VmDead
  import opened Windows
  import opened Program

  /** An instruction of a block, or the mark of one that was removed. */
  datatype Slot = Gone | Has(line: Line)

  datatype BasicBlock = BasicBlock(name: Option<string>, insns: seq<Slot>)

  datatype Pass = PushPopPass | PushLiPopPass

  // ---------------------------------------------------------------- what is left of a block

  function LiveSlot(s: Slot): seq<Line> { match s case Gone => [] case Has(line) => [line] }

  function Live(slots: seq<Slot>): seq<Line> {
    if slots == [] then [] else LiveSlot(slots[0]) + Live(slots[1..])
  }

  lemma {:induction false} LiveAppend(a: seq<Slot>, b: seq<Slot>)
    ensures Live(a + b) == Live(a) + Live(b)
  {
    if a == [] {
      assert a + b == b;
    } else {
      assert (a + b)[1..] == a[1..] + b;
      LiveAppend(a[1..], b);
    }
  }

  // ---------------------------------------------------------------- windows of a block

  predicate IsPush(s: Slot) { s.Has? && s.line.Code? && s.line.i.Push? }
  predicate IsPop(s: Slot) { s.Has? && s.line.Code? && s.line.i.Pop? }
  predicate IsLi(s: Slot) { s.Has? && s.line.Code? && s.line.i.Li? }

  /** The length of the window that starts the slots, 0 if none does. */
  function Span(pass: Pass, s: seq<Slot>): (n: nat)
    ensures n <= |s| && forall k | 0 <= k < n :: s[k].Has? && s[k].line.Code?
  {
    match pass
    case PushPopPass =>
      if |s| < 2 || !IsPush(s[0]) || !IsPop(s[1]) then 0
      else if s[0].line.i.r != s[1].line.i.r && |s| > 2 && s[2] == Has(Code(Mr(s[0].line.i.r, s[1].line.i.r))) then 3
      else 2
    case PushLiPopPass =>
      if |s| >= 3 && IsPush(s[0]) && IsLi(s[1]) && IsPop(s[2])
         && PushLiPopApplies(s[0].line.i.r, s[1].line.i.r, s[2].line.i.r) then 3 else 0
  }

  function Insns(s: seq<Slot>): (xs: seq<Insn>)
    requires forall k | 0 <= k < |s| :: s[k].Has? && s[k].line.Code?
    ensures |xs| == |s| && forall k | 0 <= k < |s| :: xs[k] == s[k].line.i
  {
    seq(|s|, k requires 0 <= k < |s| => s[k].line.i)
  }

  /** The window at the start, with what replaces it. */
  function WindowAt(pass: Pass, s: seq<Slot>): Seg
    requires Span(pass, s) > 0
  {
    var w := Insns(s[..Span(pass, s)]);
    match pass
    case PushPopPass => Win(w, PushPopNew(w[0].r, w[1].r), SLOT)
    case PushLiPopPass => Win(w, PushLiPopNew(w[0].r, w[1].r, w[2].r, w[1].v), SLOT)
  }

  function KeepSlot(s: Slot): seq<Seg> { match s case Gone => [] case Has(line) => [Keep(line)] }

  /** A block from left to right: windows replaced, other instructions kept. */
  function BlockCut(pass: Pass, s: seq<Slot>): seq<Seg>
    decreases |s|
  {
    if s == [] then []
    else if Span(pass, s) == 0 then KeepSlot(s[0]) + BlockCut(pass, s[1..])
    else [WindowAt(pass, s)] + BlockCut(pass, s[Span(pass, s)..])
  }

  /** The literal does not go to the stack pointer of a window that pushes and pops, unless the pop faults
      anyway, and the three registers are not one and the same. */
  predicate SoundWindow(g: Seg, env: Env) {
    g.Win? && |g.before| == 3 && g.before[0].Push? && g.before[1].Li? && g.before[2].Pop? ==>
      && (g.before[1].r == SP ==> Value(g.before[1].v, env) < 4)
      && (g.before[0].r == g.before[1].r == g.before[2].r ==> g.before[0].r == SP)
  }

  /** A replaced window does what it did, but for the four bytes above the stack, exactly when it is sound. */
  lemma WindowKeeps(pass: Pass, s: seq<Slot>, env: Env)
    requires Span(pass, s) > 0
    ensures GoodSeg(WindowAt(pass, s), env) <==> SoundWindow(WindowAt(pass, s), env)
  {
    var w := WindowAt(pass, s).before;
    match pass
    case PushPopPass =>
      if |w| == 2 {
        assert w == [Push(w[0].r), Pop(w[1].r)];
        PushPop(w[0].r, w[1].r, env);
      } else {
        assert w == [Push(w[0].r), Pop(w[1].r), Mr(w[0].r, w[1].r)];
        PushPopBack(w[0].r, w[1].r, env);
      }
    case PushLiPopPass =>
      assert w == [Push(w[0].r), Li(w[1].r, w[1].v), Pop(w[2].r)];
      PushLiPop(w[0].r, w[1].r, w[2].r, w[1].v, env);
  }

  // ---------------------------------------------------------------- lines of a cut block

  lemma LinesPrepend(g: Seg, rest: seq<Seg>, side: Side)
    ensures Lines([g] + rest, side) == LinesOf(g, side) + Lines(rest, side)
  {
    assert ([g] + rest)[1..] == rest;
  }

  lemma LinesKeepSlot(s: Slot, side: Side)
    ensures Lines(KeepSlot(s), side) == LiveSlot(s)
  {
    if s.Has? { LinesPrepend(Keep(s.line), [], side); assert KeepSlot(s) == [Keep(s.line)] + []; }
  }

  lemma {:induction false} LiveCode(s: seq<Slot>)
    requires forall k | 0 <= k < |s| :: s[k].Has? && s[k].line.Code?
    ensures Live(s) == ToLines(Insns(s))
  {
    if s != [] {
      LiveCode(s[1..]);
      assert ToLines(Insns(s)) == [s[0].line] + ToLines(Insns(s[1..]));
    }
  }

  /** On its old side the cut is the block. */
  lemma {:induction false} CutIsBlock(pass: Pass, s: seq<Slot>)
    ensures Lines(BlockCut(pass, s), Before) == Live(s)
    decreases |s|
  {
    if s != [] {
      var n := Span(pass, s);
      if n == 0 {
        CutIsBlock(pass, s[1..]);
        LinesKeepSlot(s[0], Before);
        LinesAppend(KeepSlot(s[0]), BlockCut(pass, s[1..]), Before);
      } else {
        CutIsBlock(pass, s[n..]);
        LinesPrepend(WindowAt(pass, s), BlockCut(pass, s[n..]), Before);
        LiveCode(s[..n]);
        LiveAppend(s[..n], s[n..]);
        assert s == s[..n] + s[n..];
      }
    }
  }

  // ---------------------------------------------------------------- passes over one block

  lemma Regroup(all: seq<Line>, a: seq<Line>, b: seq<Line>, bc: seq<Line>, c: seq<Line>)
    requires all == a + bc && bc == b + c
    ensures all == (a + b) + c
  {
  }

  /** A slot that starts no window stays. */
  lemma CutKeep(pass: Pass, s: Slot, rest: seq<Slot>)
    requires Span(pass, [s] + rest) == 0
    ensures Lines(BlockCut(pass, [s] + rest), After) == Live([s]) + Lines(BlockCut(pass, rest), After)
  {
    assert ([s] + rest)[1..] == rest && [s][1..] == [];
    LinesKeepSlot(s, After);
    LinesAppend(KeepSlot(s), BlockCut(pass, rest), After);
    assert Live([s]) == LiveSlot(s) + [];
  }

  lemma CutWindow(pass: Pass, w: seq<Slot>, rest: seq<Slot>)
    requires Span(pass, w + rest) == |w| > 0
    ensures Lines(BlockCut(pass, w + rest), After)
         == ToLines(WindowAt(pass, w + rest).after) + Lines(BlockCut(pass, rest), After)
    ensures |Live(w)| == |w|
  {
    assert (w + rest)[|w|..] == rest && (w + rest)[..|w|] == w;
    LinesPrepend(WindowAt(pass, w + rest), BlockCut(pass, rest), After);
    LiveCode(w);
  }

  /** The slots `s` with those before `next` rewritten, as they stand in `r`. */
  ghost predicate Done(pass: Pass, s: seq<Slot>, r: seq<Slot>, next: nat, count: int) {
    && |r| == |s| && next <= |s|
    && r[next..] == s[next..]
    && Lines(BlockCut(pass, s), After) == Live(r[..next]) + Lines(BlockCut(pass, s[next..]), After)
    && count == |Live(s[..next])| - |Live(r[..next])|
  }

  lemma DoneStart(pass: Pass, s: seq<Slot>)
    ensures Done(pass, s, s, 0, 0)
  {
    assert s[0..] == s;
  }

  lemma Pieces(s: seq<Slot>, front: seq<Slot>, next: nat, put: seq<Slot>, n: nat)
    requires |front| == next && n == next + |put| <= |s|
    ensures s[next..] == s[next..n] + s[n..] && s[..n] == s[..next] + s[next..n]
    ensures (front + put + s[n..])[..n] == front + put && (front + put + s[n..])[n..] == s[n..]
  {
  }

  lemma LinesWindow(pass: Pass, all: seq<Line>, front: seq<Slot>, w: seq<Slot>, rest: seq<Slot>, put: seq<Slot>)
    requires Span(pass, w + rest) == |w| > 0 && Live(put) == ToLines(WindowAt(pass, w + rest).after)
    requires all == Live(front) + Lines(BlockCut(pass, w + rest), After)
    ensures all == Live(front + put) + Lines(BlockCut(pass, rest), After)
  {
    CutWindow(pass, w, rest);
    Regroup(all, Live(front), Live(put), Lines(BlockCut(pass, w + rest), After), Lines(BlockCut(pass, rest), After));
    LiveAppend(front, put);
  }

  /** A window was overwritten with its replacement. */
  lemma DoneWindow(pass: Pass, s: seq<Slot>, r: seq<Slot>, next: nat, count: int, r': seq<Slot>, put: seq<Slot>)
    requires Done(pass, s, r, next, count) && Span(pass, s[next..]) == |put| > 0
    requires r' == r[..next] + put + s[next + |put|..]
    requires Live(put) == ToLines(WindowAt(pass, s[next..]).after)
    ensures Done(pass, s, r', next + |put|, count + |put| - |Live(put)|)
  {
    hide Span, WindowAt, Live, Lines, BlockCut;
    var n := next + |put|;
    var w := s[next..n];
    Pieces(s, r[..next], next, put, n);
    LinesWindow(pass, Lines(BlockCut(pass, s), After), r[..next], w, s[n..], put);
    LiveAppend(r[..next], put);
    LiveAppend(s[..next], w);
    CutWindow(pass, w, s[n..]);
  }

  lemma DoneKeep(pass: Pass, s: seq<Slot>, r: seq<Slot>, next: nat, count: int)
    requires Done(pass, s, r, next, count) && next < |s| && Span(pass, s[next..]) == 0
    ensures Done(pass, s, r, next + 1, count)
  {
    hide Span, WindowAt, Live, Lines, BlockCut;
    var n := next + 1;
    var w, rest := [s[next]], s[n..];
    assert s[next..] == w + rest && s[..n] == s[..next] + w;
    CutKeep(pass, s[next], rest);
    Regroup(Lines(BlockCut(pass, s), After), Live(r[..next]), Live(w), Lines(BlockCut(pass, s[next..]), After),
            Lines(BlockCut(pass, rest), After));
    assert r[next] == r[next..][0] == s[next..][0];
    assert r[..n] == r[..next] + w && r[n..] == r[next..][1..] == rest;
    LiveAppend(r[..next], w);
    LiveAppend(s[..next], w);
  }

  lemma DoneEnd(pass: Pass, s: seq<Slot>, r: seq<Slot>, count: int)
    requires Done(pass, s, r, |s|, count)
    ensures Live(r) == Lines(BlockCut(pass, s), After) && count == |Live(s)| - |Live(r)|
  {
    assert r[..|s|] == r && s[..|s|] == s && s[|s|..] == [];
    assert Live(r) + [] == Live(r);
  }

  lemma LiveTwo(a: Slot, b: Slot)
    ensures Live([a, b]) == LiveSlot(a) + LiveSlot(b)
  {
    assert [a, b][1..] == [b] && [b][1..] == [];
    assert Live([b]) == LiveSlot(b) + [] == LiveSlot(b);
  }

  lemma LiveThree(a: Slot, b: Slot, c: Slot)
    ensures Live([a, b, c]) == LiveSlot(a) + LiveSlot(b) + LiveSlot(c)
  {
    assert [a, b, c][1..] == [b, c];
    LiveTwo(b, c);
  }

  function Copy(dst: Reg, src: Reg): Slot { Has(Code(Mr(dst, src))) }

  /** What the push/pop pass puts in place of a window. */
  function PushPopPut(s: seq<Slot>): (put: seq<Slot>)
    requires Span(PushPopPass, s) > 0
    ensures |put| == Span(PushPopPass, s)
  {
    var r1, r2 := s[0].line.i.r, s[1].line.i.r;
    if r1 == r2 then [Gone, Gone]
    else if Span(PushPopPass, s) == 3 then [Gone, Copy(r2, r1), Gone]
    else [Gone, Copy(r2, r1)]
  }

  /** The slots with `put` in place of those from `j` on. */
  predicate Overwritten(was: seq<Slot>, j: nat, put: seq<Slot>, r: seq<Slot>) {
    && |was| == |r| && j + |put| <= |r|
    && forall k | 0 <= k < |r| :: r[k] == if j <= k < j + |put| then put[k - j] else was[k]
  }

  lemma OverwrittenIs(was: seq<Slot>, s: seq<Slot>, j: nat, put: seq<Slot>, r: seq<Slot>)
    requires Overwritten(was, j, put, r) && |was| == |s| && was[j..] == s[j..]
    ensures r == was[..j] + put + s[j + |put|..]
  {
    assert forall k | j <= k < |s| :: was[k] == was[j..][k - j] == s[k];
  }

  // ---------------------------------------------------------------- push and pop

  /** The slots after the push/pop pass found a window at `j`. */
  function PushPopAt(r: seq<Slot>, j: nat): (r': seq<Slot>)
    requires j + 1 < |r| && IsPush(r[j]) && IsPop(r[j + 1])
    ensures |r'| == |r|
  {
    var r1, r2 := r[j].line.i.r, r[j + 1].line.i.r;
    if r1 == r2 then r[j := Gone][j + 1 := Gone]
    else
      var q := r[j + 1 := Copy(r2, r1)][j := Gone];
      if j + 2 < |r| && r[j + 2] == Copy(r1, r2) then q[j + 2 := Gone] else q
  }

  lemma PushPopPutLive(s: seq<Slot>)
    requires Span(PushPopPass, s) > 0
    ensures Live(PushPopPut(s)) == ToLines(WindowAt(PushPopPass, s).after)
  {
    var put := PushPopPut(s);
    if |put| == 2 { LiveTwo(put[0], put[1]); } else { LiveThree(put[0], put[1], put[2]); }
  }

  lemma PushPopOverwrites(s: seq<Slot>, r: seq<Slot>, j: nat)
    requires |r| == |s| && j + 1 < |r| && r[j..] == s[j..] && IsPush(r[j]) && IsPop(r[j + 1])
    ensures Span(PushPopPass, s[j..]) > 0 && Overwritten(r, j, PushPopPut(s[j..]), PushPopAt(r, j))
    ensures var put, r1, r2 := PushPopPut(s[j..]), r[j].line.i.r, r[j + 1].line.i.r;
            && (|put| > 2 <==> r1 != r2 && j + 2 < |r| && r[j + 2] == Copy(r1, r2))
            && |put| - |Live(put)| == (if r1 != r2 && |put| == 2 then 1 else 2)
            && forall k | j <= k < j + |put| :: !IsPush(PushPopAt(r, j)[k])
  {
    assert forall k | j <= k < |r| :: s[j..][k - j] == r[j..][k - j] == r[k];
    PushPopPutLive(s[j..]);
  }

  lemma DoneTail(pass: Pass, s: seq<Slot>, r: seq<Slot>, next: nat, count: int)
    requires Done(pass, s, r, next, count)
    ensures |r| == |s| && next <= |s| && r[next..] == s[next..]
  {
  }

  /** The push/pop pass has overwritten a window. */
  lemma PushPopDone(s: seq<Slot>, r: seq<Slot>, j: nat, count: int) returns (n: nat, gain: nat)
    requires Done(PushPopPass, s, r, j, count) && j + 1 < |r| && IsPush(r[j]) && IsPop(r[j + 1])
    ensures j + 2 <= n <= |s| && Done(PushPopPass, s, PushPopAt(r, j), n, count + gain)
    ensures forall k | j <= k < n :: !IsPush(PushPopAt(r, j)[k])
    ensures gain == if r[j].line.i.r != r[j + 1].line.i.r && n == j + 2 then 1 else 2
    ensures n > j + 2 <==> r[j].line.i.r != r[j + 1].line.i.r && j + 2 < |r|
                           && r[j + 2] == Copy(r[j].line.i.r, r[j + 1].line.i.r)
  {
    hide Span, WindowAt, Done, Live, PushPopAt, PushPopPut, BlockCut, Overwritten, Copy, Lines;
    DoneTail(PushPopPass, s, r, j, count);
    PushPopOverwrites(s, r, j);
    var put := PushPopPut(s[j..]);
    PushPopPutLive(s[j..]);
    OverwrittenIs(r, s, j, put, PushPopAt(r, j));
    DoneWindow(PushPopPass, s, r, j, count, PushPopAt(r, j), put);
    n, gain := j + |put|, |put| - |Live(put)|;
  }

  lemma PushPopKeep(s: seq<Slot>, r: seq<Slot>, j: nat, count: int)
    requires Done(PushPopPass, s, r, j, count) && j < |r|
    requires j + 1 == |r| || !IsPush(r[j]) || !IsPop(r[j + 1])
    ensures Done(PushPopPass, s, r, j + 1, count)
  {
    assert s[j..][0] == r[j..][0] == r[j];
    if j + 1 < |r| { assert s[j..][1] == r[j..][1] == r[j + 1]; }
    DoneKeep(PushPopPass, s, r, j, count);
  }

  method PushPopBlock(s: seq<Slot>) returns (r: seq<Slot>, count: int)
    ensures |r| == |s| && Live(r) == Lines(BlockCut(PushPopPass, s), After)
    ensures count == |Live(s)| - |Live(r)|
  {
    hide Span, WindowAt, Live, Lines, BlockCut;
    r, count := s, 0;
    var ni := |s|;
    ghost var next := 0;
    DoneStart(PushPopPass, s);
    if ni >= 2 {
      var j := 0;
      while j < ni - 1
        invariant 0 <= j <= ni - 1 && j <= next <= ni
        invariant Done(PushPopPass, s, r, next, count)
        invariant forall k | j <= k < next :: !IsPush(r[k])
      {
        if IsPush(r[j]) && IsPop(r[j + 1]) {
          ghost var gain;
          next, gain := PushPopDone(s, r, j, count);
          var r1, r2 := r[j].line.i.r, r[j + 1].line.i.r;
          if r1 == r2 {
            r := r[j := Gone][j + 1 := Gone];
            count := count + 2;
          } else {
            r := r[j + 1 := Copy(r2, r1)][j := Gone];
            count := count + 1;
            if j + 2 < ni && r[j + 2] == Copy(r1, r2) {
              r := r[j + 2 := Gone];
              count := count + 1;
            }
          }
        } else if j == next {
          PushPopKeep(s, r, j, count);
          next := j + 1;
        }
        j := j + 1;
      }
    }
    if next < ni {
      PushPopKeep(s, r, next, count);
    }
    DoneEnd(PushPopPass, s, r, count);
  }

  // ---------------------------------------------------------------- push, load, pop

  predicate LiPopHere(r: seq<Slot>, j: nat) {
    j + 2 < |r| && IsPush(r[j]) && IsLi(r[j + 1]) && IsPop(r[j + 2])
  }

  /** The slots after the push/load/pop pass found its three instructions at `j`. */
  function PushLiPopAt(r: seq<Slot>, j: nat): (r': seq<Slot>)
    requires LiPopHere(r, j)
    ensures |r'| == |r|
  {
    var r1, r2, r3 := r[j].line.i.r, r[j + 1].line.i.r, r[j + 2].line.i.r;
    if r1 == r3 && r1 != r2 then r[j := Gone][j + 2 := Gone]
    else if r1 == r2 then r[j := Copy(r3, r2)][j + 2 := Gone]
    else r
  }

  lemma PushLiPopDone(s: seq<Slot>, r: seq<Slot>, j: nat, count: int) returns (gain: nat)
    requires Done(PushLiPopPass, s, r, j, count) && LiPopHere(r, j)
    requires PushLiPopApplies(r[j].line.i.r, r[j + 1].line.i.r, r[j + 2].line.i.r)
    ensures Done(PushLiPopPass, s, PushLiPopAt(r, j), j + 3, count + gain)
    ensures forall k | j <= k < j + 3 :: !IsPush(PushLiPopAt(r, j)[k])
    ensures gain == if r[j].line.i.r == r[j + 1].line.i.r then 1 else 2
  {
    var put := PushLiPopPut(r, j);
    LiveThree(put[0], put[1], put[2]);
    PushLiPopWindow(s, r, j);
    hide Span, WindowAt, Live, Lines, BlockCut;
    OverwrittenIs(r, s, j, put, PushLiPopAt(r, j));
    DoneWindow(PushLiPopPass, s, r, j, count, PushLiPopAt(r, j), put);
    gain := 3 - |Live(put)|;
  }

  function PushLiPopPut(r: seq<Slot>, j: nat): (put: seq<Slot>)
    requires LiPopHere(r, j)
    ensures |put| == 3
  {
    [if r[j].line.i.r == r[j + 1].line.i.r then Copy(r[j + 2].line.i.r, r[j].line.i.r) else Gone, r[j + 1], Gone]
  }

  lemma PushLiPopWindow(s: seq<Slot>, r: seq<Slot>, j: nat)
    requires |r| == |s| && LiPopHere(r, j) && r[j..] == s[j..]
    requires PushLiPopApplies(r[j].line.i.r, r[j + 1].line.i.r, r[j + 2].line.i.r)
    ensures Span(PushLiPopPass, s[j..]) == 3 && Overwritten(r, j, PushLiPopPut(r, j), PushLiPopAt(r, j))
    ensures Live(PushLiPopPut(r, j)) == ToLines(WindowAt(PushLiPopPass, s[j..]).after)
  {
    assert forall k | j <= k < |r| :: s[j..][k - j] == r[j..][k - j] == r[k];
    var put := PushLiPopPut(r, j);
    LiveThree(put[0], put[1], put[2]);
  }

  lemma PushLiPopKeep(s: seq<Slot>, r: seq<Slot>, j: nat, count: int)
    requires Done(PushLiPopPass, s, r, j, count) && j < |r|
    requires LiPopHere(r, j) ==> !PushLiPopApplies(r[j].line.i.r, r[j + 1].line.i.r, r[j + 2].line.i.r)
    ensures Done(PushLiPopPass, s, r, j + 1, count)
  {
    assert forall k | j <= k < |r| :: s[j..][k - j] == r[j..][k - j] == r[k];
    DoneKeep(PushLiPopPass, s, r, j, count);
  }

  method PushLiPopBlock(s: seq<Slot>) returns (r: seq<Slot>, count: int)
    ensures |r| == |s| && Live(r) == Lines(BlockCut(PushLiPopPass, s), After)
    ensures count == |Live(s)| - |Live(r)|
  {
    hide Span, WindowAt, Live, Lines, BlockCut;
    r, count := s, 0;
    var ni := |s|;
    ghost var next := 0;
    DoneStart(PushLiPopPass, s);
    if ni >= 3 {
      var j := 0;
      while j < ni - 2
        invariant 0 <= j <= ni - 2 && j <= next <= ni
        invariant Done(PushLiPopPass, s, r, next, count)
        invariant forall k | j <= k < next :: !IsPush(r[k])
      {
        ghost var was, gain := r, 0;
        if IsPush(r[j]) && IsLi(r[j + 1]) && IsPop(r[j + 2]) {
          var r1, r2, r3 := r[j].line.i.r, r[j + 1].line.i.r, r[j + 2].line.i.r;
          if r1 == r3 && r1 != r2 {
            gain := PushLiPopDone(s, r, j, count);
            next := j + 3;
            r := r[j := Gone][j + 2 := Gone];
            count := count + 2;
          } else if r1 == r2 {
            gain := PushLiPopDone(s, r, j, count);
            next := j + 3;
            r := r[j := Copy(r3, r2)][j + 2 := Gone];
            count := count + 1;
          }
        }
        if next == j {
          PushLiPopKeep(s, r, j, count);
          next := j + 1;
        }
        j := j + 1;
      }
    }
    while next < ni
      invariant next <= ni && (next < ni ==> next + 2 >= ni) && Done(PushLiPopPass, s, r, next, count)
    {
      PushLiPopKeep(s, r, next, count);
      next := next + 1;
    }
    DoneEnd(PushLiPopPass, s, r, count);
  }

  // ---------------------------------------------------------------- dropping what is gone

  method Discard(s: seq<Slot>) returns (r: seq<Slot>)
    ensures Gone !in r && Live(r) == Live(s)
  {
    r := s;
    var j := 0;
    while j < |r|
      invariant 0 <= j <= |r| && Gone !in r[..j] && Live(r) == Live(s)
      decreases |r| - j
    {
      if r[j] == Gone {
        LiveDelete(r, j);
        r := r[..j] + r[j + 1..];
      } else {
        assert r[..j + 1] == r[..j] + [r[j]];
        j := j + 1;
      }
    }
    assert r[..j] == r;
  }

  lemma LiveDelete(r: seq<Slot>, j: nat)
    requires j < |r| && r[j] == Gone
    ensures Live(r[..j] + r[j + 1..]) == Live(r) && (r[..j] + r[j + 1..])[..j] == r[..j]
  {
    assert r == r[..j] + r[j..] && r[j..][1..] == r[j + 1..];
    LiveAppend(r[..j], r[j..]);
    LiveAppend(r[..j], r[j + 1..]);
    assert Live(r[j..]) == [] + Live(r[j + 1..]);
  }

  /** Where nothing is gone, the slots are the lines. */
  lemma {:induction false} LiveAll(s: seq<Slot>)
    requires Gone !in s
    ensures |Live(s)| == |s| && forall k | 0 <= k < |s| :: s[k] == Has(Live(s)[k])
  {
    if s != [] { LiveAll(s[1..]); }
  }

  // ---------------------------------------------------------------- all blocks

  function NameLine(b: BasicBlock): seq<Line> { match b.name case None => [] case Some(l) => [Label(l)] }

  /** The program text of the blocks. */
  function Text(blocks: seq<BasicBlock>): seq<Line> {
    if blocks == [] then [] else NameLine(blocks[0]) + Live(blocks[0].insns) + Text(blocks[1..])
  }

  function NameSeg(b: BasicBlock): seq<Seg> { match b.name case None => [] case Some(l) => [Keep(Label(l))] }

  /** The program cut block by block: no window reaches over the end of a block. */
  function ProgramCut(pass: Pass, blocks: seq<BasicBlock>): seq<Seg> {
    if blocks == [] then []
    else NameSeg(blocks[0]) + BlockCut(pass, blocks[0].insns) + ProgramCut(pass, blocks[1..])
  }

  lemma {:induction false} ProgramCutIsText(pass: Pass, blocks: seq<BasicBlock>)
    ensures Lines(ProgramCut(pass, blocks), Before) == Text(blocks)
  {
    if blocks != [] {
      var b := blocks[0];
      ProgramCutIsText(pass, blocks[1..]);
      CutIsBlock(pass, b.insns);
      LinesAppend(NameSeg(b), BlockCut(pass, b.insns), Before);
      LinesAppend(NameSeg(b) + BlockCut(pass, b.insns), ProgramCut(pass, blocks[1..]), Before);
    }
  }

  /** The blocks before and after a pass. */
  ghost predicate Passed(pass: Pass, before: seq<BasicBlock>, after: seq<BasicBlock>) {
    && |before| == |after|
    && forall i | 0 <= i < |before| ::
         && after[i].name == before[i].name
         && |after[i].insns| == |before[i].insns|
         && Live(after[i].insns) == Lines(BlockCut(pass, before[i].insns), After)
  }

  lemma {:induction false} PassedText(pass: Pass, before: seq<BasicBlock>, after: seq<BasicBlock>)
    requires Passed(pass, before, after)
    ensures Text(after) == Lines(ProgramCut(pass, before), After)
  {
    if before != [] {
      var b := before[0];
      PassedText(pass, before[1..], after[1..]);
      LinesAppend(NameSeg(b), BlockCut(pass, b.insns), After);
      LinesAppend(NameSeg(b) + BlockCut(pass, b.insns), ProgramCut(pass, before[1..]), After);
    }
  }

  /** Every window of every block is sound. */
  ghost predicate SoundProgram(pass: Pass, blocks: seq<BasicBlock>, env: Env) {
    forall g | g in ProgramCut(pass, blocks) :: SoundWindow(g, env)
  }

  lemma {:induction false} BlockCutGood(pass: Pass, s: seq<Slot>, env: Env)
    ensures forall g | g in BlockCut(pass, s) && SoundWindow(g, env) :: GoodSeg(g, env)
    decreases |s|
  {
    if s != [] {
      if Span(pass, s) == 0 {
        BlockCutGood(pass, s[1..], env);
      } else {
        WindowKeeps(pass, s, env);
        BlockCutGood(pass, s[Span(pass, s)..], env);
      }
    }
  }

  lemma {:induction false} ProgramCutGood(pass: Pass, blocks: seq<BasicBlock>, env: Env)
    ensures forall g | g in ProgramCut(pass, blocks) && SoundWindow(g, env) :: GoodSeg(g, env)
  {
    if blocks != [] {
      BlockCutGood(pass, blocks[0].insns, env);
      ProgramCutGood(pass, blocks[1..], env);
    }
  }

  /** A pass over all blocks keeps what the program does: a run that ends normally, without reading what the
      replacements leave dead, is matched by a run of the new text. */
  lemma PassKeepsRuns(pass: Pass, before: seq<BasicBlock>, after: seq<BasicBlock>, s: State, sf: State, env: Env)
    returns (t: State, d: Dead)
    requires Passed(pass, before, after) && SoundProgram(pass, before, env)
    requires Ends(Text(before), s, sf, env) && NeverReadsDead(ProgramCut(pass, before), s, env)
    ensures Ends(Text(after), s, t, env)
    ensures Related(sf, t, d) && LeavesDead(ProgramCut(pass, before), s, sf, d, env)
  {
    var segs := ProgramCut(pass, before);
    ProgramCutIsText(pass, before);
    PassedText(pass, before, after);
    ProgramCutGood(pass, before, env);
    assert GoodSegs(segs, env) by {
      forall i | 0 <= i < |segs| ensures GoodSeg(segs[i], env) { assert segs[i] in segs; }
    }
    t, d := Simulation(segs, s, sf, env);
  }

  lemma {:induction false} TextAppend(a: seq<BasicBlock>, b: seq<BasicBlock>)
    ensures Text(a + b) == Text(a) + Text(b)
  {
    if a == [] {
      assert a + b == b;
    } else {
      assert (a + b)[1..] == a[1..] + b;
      TextAppend(a[1..], b);
    }
  }

  /** The parsed file. The passes run over all its blocks, in place, and count the lines that went. */
  class Unit {
    var blocks: seq<BasicBlock>

    constructor (bs: seq<BasicBlock>)
      ensures blocks == bs
    {
      blocks := bs;
    }

    method OptPushPop() returns (count: int)
      modifies this
      ensures Passed(PushPopPass, old(blocks), blocks)
      ensures count == |Text(old(blocks))| - |Text(blocks)|
    {
      count := 0;
      var i := 0;
      while i < |blocks|
        invariant 0 <= i <= |blocks| && OnTheWay(PushPopPass, old(blocks), blocks, i, count)
      {
        var b := blocks[i];
        var insns, n := PushPopBlock(b.insns);
        OneMoreBlock(PushPopPass, old(blocks), blocks, i, b.(insns := insns), count, n);
        blocks := blocks[i := b.(insns := insns)];
        count := count + n;
        i := i + 1;
      }
      assert blocks[..i] == blocks && old(blocks)[..i] == old(blocks);
    }

    method OptPushLiPop() returns (count: int)
      modifies this
      ensures Passed(PushLiPopPass, old(blocks), blocks)
      ensures count == |Text(old(blocks))| - |Text(blocks)|
    {
      count := 0;
      var i := 0;
      while i < |blocks|
        invariant 0 <= i <= |blocks| && OnTheWay(PushLiPopPass, old(blocks), blocks, i, count)
      {
        var b := blocks[i];
        var insns, n := PushLiPopBlock(b.insns);
        OneMoreBlock(PushLiPopPass, old(blocks), blocks, i, b.(insns := insns), count, n);
        blocks := blocks[i := b.(insns := insns)];
        count := count + n;
        i := i + 1;
      }
      assert blocks[..i] == blocks && old(blocks)[..i] == old(blocks);
    }

    method DiscardRemoved()
      modifies this
      ensures Text(blocks) == Text(old(blocks)) && forall i | 0 <= i < |blocks| :: Gone !in blocks[i].insns
    {
      var i := 0;
      while i < |blocks|
        invariant 0 <= i <= |blocks| && Text(blocks) == Text(old(blocks))
        invariant forall k | 0 <= k < i :: Gone !in blocks[k].insns
      {
        var b := blocks[i];
        var insns := Discard(b.insns);
        SameText(blocks, i, b.(insns := insns));
        blocks := blocks[i := b.(insns := insns)];
        i := i + 1;
      }
    }
  }

  lemma SameText(blocks: seq<BasicBlock>, i: nat, b: BasicBlock)
    requires i < |blocks| && b.name == blocks[i].name && Live(b.insns) == Live(blocks[i].insns)
    ensures Text(blocks[i := b]) == Text(blocks)
  {
    TextOne(blocks, i);
    TextOne(blocks[i := b], i);
    assert blocks[i := b][..i] == blocks[..i] && blocks[i := b][i + 1..] == blocks[i + 1..];
  }

  lemma TextOne(blocks: seq<BasicBlock>, i: nat)
    requires i < |blocks|
    ensures Text(blocks) == Text(blocks[..i]) + (NameLine(blocks[i]) + Live(blocks[i].insns) + Text(blocks[i + 1..]))
  {
    assert blocks == blocks[..i] + blocks[i..] && blocks[i..][1..] == blocks[i + 1..];
    TextAppend(blocks[..i], blocks[i..]);
  }

  /** The first `i` blocks have been through the pass. */
  ghost predicate OnTheWay(pass: Pass, before: seq<BasicBlock>, now: seq<BasicBlock>, i: nat, count: int) {
    && i <= |before| == |now| && now[i..] == before[i..]
    && Passed(pass, before[..i], now[..i])
    && count == |Text(before[..i])| - |Text(now[..i])|
  }

  lemma TextSnoc(blocks: seq<BasicBlock>, b: BasicBlock)
    ensures |Text(blocks + [b])| == |Text(blocks)| + |NameLine(b)| + |Live(b.insns)|
  {
    TextAppend(blocks, [b]);
    assert [b][1..] == [];
  }

  lemma NextBlock(before: seq<BasicBlock>, now: seq<BasicBlock>, i: nat, b: BasicBlock)
    requires i < |before| == |now| && now[i..] == before[i..]
    ensures now[i] == before[i] && now[i := b][i + 1..] == before[i + 1..]
    ensures before[..i + 1] == before[..i] + [before[i]] && now[i := b][..i + 1] == now[..i] + [b]
  {
    assert now[i] == now[i..][0];
    assert now[i + 1..] == now[i..][1..];
  }

  lemma OneMoreBlock(pass: Pass, before: seq<BasicBlock>, now: seq<BasicBlock>, i: nat, b: BasicBlock,
                     count: int, n: int)
    requires i < |now| && OnTheWay(pass, before, now, i, count)
    requires b.name == now[i].name && |b.insns| == |now[i].insns|
    requires Live(b.insns) == Lines(BlockCut(pass, now[i].insns), After)
    requires n == |Live(now[i].insns)| - |Live(b.insns)|
    ensures OnTheWay(pass, before, now[i := b], i + 1, count + n)
  {
    hide Text, Live, Lines, BlockCut;
    NextBlock(before, now, i, b);
    TextSnoc(before[..i], before[i]);
    TextSnoc(now[..i], b);
  }
}

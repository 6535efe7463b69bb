/** The disassembler: one walk over the code, in step with sorted lists of functions, labels and fixups. */
module Disassembler {
  import opened ObjectCode

  /** An entry of the export table. */
  datatype Entry = Entry(name: string, isFunction: bool, at: nat)

  /** A script as read from its file, with the names the variables get. */
  datatype Object = Object(code: seq<int>, entries: seq<Entry>, imports: seq<string>, strings: seq<char>,
                           fixups: seq<Fixup>, varNames: map<int, string>)

  // ---------------------------------------------------------------- which scripts can be read back

  predicate IsOp(w: int) { 1 <= w <= 73 }

  /** The first word behind the instruction at `p`. */
  function After(code: seq<int>, p: nat): nat
    requires p < |code| && IsOp(code[p])
  {
    p + 1 + ArgCount(code[p])
  }

  /** `starts` are the instructions of the code, without gaps. */
  ghost predicate Instructions(code: seq<int>, starts: seq<nat>) {
    && (starts == [] <==> code == [])
    && (starts != [] ==> starts[0] == 0)
    && forall k | 0 <= k < |starts| ::
         && starts[k] < |code| && IsOp(code[starts[k]])
         && After(code, starts[k]) == if k + 1 < |starts| then starts[k + 1] else |code|
  }

  function Functions(entries: seq<Entry>): seq<Export> {
    if entries == [] then []
    else
      var rest := Functions(entries[..|entries| - 1]);
      var e := entries[|entries| - 1];
      if e.isFunction then rest + [Export(e.name, e.at)] else rest
  }

  function TargetOf(code: seq<int>, p: nat): int
    requires p + 1 < |code|
  {
    p + 2 + code[p + 1]
  }

  /** Where the jumps go. */
  ghost function Targets(code: seq<int>, starts: seq<nat>): set<int>
    requires Instructions(code, starts)
  {
    set k | 0 <= k < |starts| && IsJump(code[starts[k]]) && starts[k] + 1 < |code| :: TargetOf(code, starts[k])
  }

  predicate InOrder(funcs: seq<Export>) {
    forall i, j | 0 <= i < j < |funcs| :: funcs[i].at < funcs[j].at
  }

  /** Functions start with the instruction for their own address, and nothing else does. */
  ghost predicate FunctionsOk(code: seq<int>, starts: seq<nat>, funcs: seq<Export>)
    requires Instructions(code, starts)
  {
    && InOrder(funcs) && UniqueNames(funcs)
    && (forall f <- funcs :: f.at in starts && code[f.at] == THISADDR)
    && forall k | 0 <= k < |starts| && code[starts[k]] == THISADDR ::
         starts[k] + 1 < |code| && code[starts[k] + 1] == starts[k] && exists f <- funcs :: f.at == starts[k]
  }

  /** Jumps go to instructions that start no function. */
  ghost predicate JumpsOk(code: seq<int>, starts: seq<nat>)
    requires Instructions(code, starts)
  {
    forall t <- Targets(code, starts) :: t >= 0 && t in starts && code[t] != THISADDR
  }

  ghost predicate FixupOk(o: Object, vars: map<string, int>, f: Fixup)
    requires f.at < |o.code|
  {
    var w := o.code[f.at];
    match f.kind
    case StringFix => StringAt(o.strings, w).Some?
    case ImportFix => 0 <= w < |o.imports| && !Exported(Functions(o.entries), o.imports[w])
    case FunctionFix => exists e <- Functions(o.entries) :: e.at == w
    case GlobalData => w in o.varNames && o.varNames[w] in vars && vars[o.varNames[w]] == w
    case StackFix => true
    case DataData => false
  }

  /** Fixups of the code stand in its order, and on the second operand of `li` only. Fixups of the data may stand
      anywhere between them. */
  ghost predicate FixupsOk(o: Object, starts: seq<nat>, vars: map<string, int>)
    requires Instructions(o.code, starts)
  {
    && (forall i, j | 0 <= i < j < |o.fixups| && o.fixups[i].kind != DataData && o.fixups[j].kind != DataData ::
          o.fixups[i].at < o.fixups[j].at)
    && forall f <- o.fixups | f.kind != DataData ::
         2 <= f.at < |o.code| && f.at - 2 in starts && o.code[f.at - 2] == LI && FixupOk(o, vars, f)
  }

  ghost predicate Readable(o: Object, starts: seq<nat>, vars: map<string, int>) {
    && Instructions(o.code, starts)
    && FunctionsOk(o.code, starts, Functions(o.entries))
    && JumpsOk(o.code, starts)
    && FixupsOk(o, starts, vars)
  }

  /** The script without what only the disassembler needs. */
  function ScriptOf(o: Object): Script {
    Script(o.code, Functions(o.entries), o.imports, o.strings, set f | f in o.fixups && f.kind != DataData)
  }

  // ---------------------------------------------------------------- instructions stand apart

  lemma {:induction false} StartsGrow(code: seq<int>, starts: seq<nat>, i: nat, j: nat)
    requires Instructions(code, starts) && i < j < |starts|
    ensures After(code, starts[i]) <= starts[j]
    decreases j - i
  {
    if i + 1 < j { StartsGrow(code, starts, i + 1, j); }
  }

  /** No instruction starts inside of another. */
  lemma StartsApart(code: seq<int>, starts: seq<nat>, p: nat, q: nat)
    requires Instructions(code, starts) && p in starts && q in starts && p < q
    ensures After(code, p) <= q
  {
    var i :| 0 <= i < |starts| && starts[i] == p;
    var j :| 0 <= j < |starts| && starts[j] == q;
    if i < j { StartsGrow(code, starts, i, j); } else if j < i { StartsGrow(code, starts, j, i); }
  }

  lemma EndsInside(code: seq<int>, starts: seq<nat>, p: nat)
    requires Instructions(code, starts) && p in starts
    ensures p < |code| && IsOp(code[p]) && After(code, p) <= |code|
    ensures After(code, p) == |code| || After(code, p) in starts
  {
    var k :| 0 <= k < |starts| && starts[k] == p;
    assert After(code, starts[k]) == if k + 1 < |starts| then starts[k + 1] else |code|;
    if k + 1 < |starts| { assert starts[k + 1] in starts && starts[k + 1] < |code|; }
  }

  // ---------------------------------------------------------------- fixups in step

  /** Up to `cur` the fixups are for words before `at` or for the data; from there on those for the code are not. */
  predicate FixupsInStep(fixups: seq<Fixup>, cur: nat, at: nat) {
    && cur <= |fixups|
    && (forall i | 0 <= i < cur :: fixups[i].kind == DataData || fixups[i].at < at)
    && (forall i | cur <= i < |fixups| && fixups[i].kind != DataData :: fixups[i].at >= at)
  }

  predicate HasFixup(fixups: seq<Fixup>, at: nat) {
    exists f <- fixups :: f.kind != DataData && f.at == at
  }

  lemma NoFixupHere(fixups: seq<Fixup>, cur: nat, at: nat)
    requires FixupsInStep(fixups, cur, at) && !HasFixup(fixups, at)
    ensures FixupsInStep(fixups, cur, at + 1)
  {
    forall i | cur <= i < |fixups| && fixups[i].kind != DataData ensures fixups[i].at >= at + 1 {
      assert fixups[i] in fixups;
    }
  }

  /** Only the second operand of `li` has a fixup. */
  lemma FixupOnlyAtLi(o: Object, starts: seq<nat>, vars: map<string, int>, p: nat, q: nat)
    requires Instructions(o.code, starts) && FixupsOk(o, starts, vars) && p in starts
    requires p <= q < After(o.code, p) && HasFixup(o.fixups, q)
    ensures q == p + 2 && o.code[p] == LI
  {
    var s := q - 2;
    if s < p { StartsApart(o.code, starts, s, p); } else if p < s { StartsApart(o.code, starts, p, s); }
  }

  // ---------------------------------------------------------------- operands

  /** The names of all labels, which are their positions. */
  ghost function AllLabels(o: Object, starts: seq<nat>): map<nat, nat>
    requires Instructions(o.code, starts)
  {
    map t | t in Targets(o.code, starts) && t >= 0 :: t as nat := t as nat
  }

  /** The cell is right for the word at `q`, and has the fixup it should have. */
  ghost predicate CellRight(o: Object, starts: seq<nat>, vars: map<string, int>, c: Cell, q: nat)
    requires Instructions(o.code, starts) && q < |o.code|
  {
    && CellOk(ScriptOf(o), vars, AllLabels(o, starts), c, q, o.code[q])
    && forall k :: Fixup(k, q) in ScriptOf(o).fixups <==> KindOf(Functions(o.entries), c) == Some(k)
  }

  lemma WordRight(o: Object, starts: seq<nat>, vars: map<string, int>, q: nat)
    requires Instructions(o.code, starts) && q < |o.code| && !HasFixup(o.fixups, q)
    ensures CellRight(o, starts, vars, Word(o.code[q]), q)
  {
  }

  lemma TargetRight(o: Object, starts: seq<nat>, vars: map<string, int>, p: nat)
    requires Readable(o, starts, vars) && p in starts && IsJump(o.code[p])
    ensures p + 1 < |o.code| && TargetOf(o.code, p) >= 0
    ensures !HasFixup(o.fixups, p + 1) ==>
              CellRight(o, starts, vars, Target(TargetOf(o.code, p)), p + 1)
  {
    EndsInside(o.code, starts, p);
    var k :| 0 <= k < |starts| && starts[k] == p;
    assert TargetOf(o.code, p) in Targets(o.code, starts);
  }

  lemma {:induction false} StringHasNoZero(t: seq<char>, o: int)
    requires StringAt(t, o).Some?
    ensures NoZero(StringAt(t, o).value)
    decreases |t| - o
  {
    if t[o] != '\0' { StringHasNoZero(t, o + 1); }
  }

  /** What a fixup is printed as. */
  function FixupArg(o: Object, f: Fixup): Arg
    requires f.at < |o.code|
  {
    var w := o.code[f.at];
    match f.kind
    case StringFix => (match StringAt(o.strings, w) case Some(s) => Str(s) case None => Lit(w))
    case ImportFix => if 0 <= w < |o.imports| then Ref(o.imports[w]) else Lit(w)
    case FunctionFix => Ref(NameAt(Functions(o.entries), w))
    case GlobalData => if w in o.varNames then Var(o.varNames[w]) else Lit(w)
    case StackFix => Stack(w)
    case DataData => Lit(w)
  }

  /** The name of the first function at a position. */
  function NameAt(funcs: seq<Export>, at: int): string {
    if funcs == [] then [] else if funcs[0].at == at then funcs[0].name else NameAt(funcs[1..], at)
  }

  lemma {:induction false} NameFound(funcs: seq<Export>, at: int)
    requires exists e <- funcs :: e.at == at
    ensures at >= 0 && Export(NameAt(funcs, at), at) in funcs
  {
    if funcs[0].at != at { NameFound(funcs[1..], at); }
  }

  lemma OneFixup(fixups: seq<Fixup>, f: Fixup, g: Fixup)
    requires forall i, j | 0 <= i < j < |fixups| && fixups[i].kind != DataData && fixups[j].kind != DataData ::
               fixups[i].at < fixups[j].at
    requires f in fixups && g in fixups && f.kind != DataData && g.kind != DataData && f.at == g.at
    ensures f == g
  {
  }

  lemma FixupRight(o: Object, starts: seq<nat>, vars: map<string, int>, f: Fixup)
    requires Readable(o, starts, vars) && f in o.fixups && f.kind != DataData
    ensures f.at < |o.code| && ArgFits(LI, 1, FixupArg(o, f))
    ensures CellRight(o, starts, vars, CellOf(FixupArg(o, f)), f.at)
    ensures FixupArg(o, f).Str? ==> NoZero(FixupArg(o, f).s)
  {
    assert FixupOk(o, vars, f);
    var w := o.code[f.at];
    forall k ensures Fixup(k, f.at) in ScriptOf(o).fixups <==> k == f.kind {
      if Fixup(k, f.at) in ScriptOf(o).fixups { OneFixup(o.fixups, Fixup(k, f.at), f); }
    }
    match f.kind
    case StringFix => StringHasNoZero(o.strings, w);
    case FunctionFix => NameFound(Functions(o.entries), w);
    case _ =>
  }

  // ---------------------------------------------------------------- lines in step

  /** The lines are for the code before `at`. */
  ghost predicate CellsInStep(o: Object, starts: seq<nat>, vars: map<string, int>, lines: seq<Line>, at: nat)
    requires Instructions(o.code, starts)
  {
    && TextFits(lines) && |Spec(lines)| == at <= |o.code|
    && forall p | 0 <= p < at :: CellRight(o, starts, vars, Spec(lines)[p], p)
  }

  /** The labels before `at` stand at their positions, and the functions before it are there. */
  ghost predicate NamesInStep(o: Object, starts: seq<nat>, lines: seq<Line>, at: nat)
    requires Instructions(o.code, starts) && TextFits(lines)
  {
    && (forall n :: n in Labels(lines) <==> n in Targets(o.code, starts) && n < at)
    && (forall n <- Labels(lines) :: Labels(lines)[n] == n)
    && LabelsOnce(lines, at)
  }

  /** Labels are printed in the order of their positions, each once. */
  predicate LabelsOnce(lines: seq<Line>, at: nat) {
    && (forall i, j | 0 <= i < j < |lines| && lines[i].Label? && lines[j].Label? :: lines[i].n < lines[j].n)
    && (forall i | 0 <= i < |lines| && lines[i].Label? :: lines[i].n < at)
  }

  /** The first `m` functions are those before `at`. */
  predicate FunctionsInStep(funcs: seq<Export>, m: nat, at: nat) {
    && m <= |funcs|
    && (forall i | 0 <= i < m :: funcs[i].at < at)
    && (forall i | m <= i < |funcs| :: funcs[i].at >= at)
  }

  lemma CellsMore(o: Object, starts: seq<nat>, vars: map<string, int>, lines: seq<Line>, at: nat, line: Line)
    requires Instructions(o.code, starts) && CellsInStep(o, starts, vars, lines, at) && LineFits(line)
    requires at + |Cells(line, at)| <= |o.code|
    requires forall i | 0 <= i < |Cells(line, at)| :: CellRight(o, starts, vars, Cells(line, at)[i], at + i)
    ensures CellsInStep(o, starts, vars, lines + [line], at + |Cells(line, at)|)
  {
    hide Spec, Labels, Exports, CellRight, Cells, LineFits;
    SpecSnoc(lines, line);
    var spec := Spec(lines + [line]);
    forall p | 0 <= p < at + |Cells(line, at)| ensures CellRight(o, starts, vars, spec[p], p) {
      if p >= at { assert spec[p] == Cells(line, at)[p - at]; }
    }
  }

  /** A function's first line, with the instruction for its address. */
  lemma FunctionLine(o: Object, starts: seq<nat>, vars: map<string, int>, lines: seq<Line>, at: nat, name: string)
    requires Readable(o, starts, vars) && CellsInStep(o, starts, vars, lines, at)
    requires at in starts && o.code[at] == THISADDR
    ensures at + 1 < |o.code|
    ensures CellsInStep(o, starts, vars, lines + [Func(name)], at + 2)
    ensures CellsInStep(o, starts, vars, lines + [Func(name)] + [Ins(THISADDR, [Lit(o.code[at + 1])])], at + 2)
  {
    hide Spec, Labels, Exports, FixupsOk, JumpsOk;
    EndsInside(o.code, starts, at);
    var k :| 0 <= k < |starts| && starts[k] == at;
    if HasFixup(o.fixups, at) { FixupOnlyAtLi(o, starts, vars, at, at); }
    if HasFixup(o.fixups, at + 1) { FixupOnlyAtLi(o, starts, vars, at, at + 1); }
    WordRight(o, starts, vars, at);
    WordRight(o, starts, vars, at + 1);
    CellsMore(o, starts, vars, lines, at, Func(name));
    var self := Ins(THISADDR, [Lit(o.code[at + 1])]);
    assert LineFits(self) && Cells(self, at + 2) == [];
    CellsMore(o, starts, vars, lines + [Func(name)], at + 2, self);
  }

  lemma LabelLine(o: Object, starts: seq<nat>, vars: map<string, int>, lines: seq<Line>, at: nat)
    requires Instructions(o.code, starts) && CellsInStep(o, starts, vars, lines, at)
    requires NamesInStep(o, starts, lines, at) && at in Targets(o.code, starts)
    ensures CellsInStep(o, starts, vars, lines + [Label(at)], at)
    ensures NamesInStep(o, starts, lines + [Label(at)], at + 1)
    ensures Exports(lines + [Label(at)]) == Exports(lines)
  {
    hide Spec, Labels, Exports;
    CellsMore(o, starts, vars, lines, at, Label(at));
    SpecSnoc(lines, Label(at));
  }

  /** A line that is no label adds none. */
  lemma NoLabel(o: Object, starts: seq<nat>, lines: seq<Line>, at: nat, line: Line)
    requires Instructions(o.code, starts) && TextFits(lines) && NamesInStep(o, starts, lines, at)
    requires LineFits(line) && !line.Label?
    ensures TextFits(lines + [line]) && NamesInStep(o, starts, lines + [line], at)
    ensures Exports(lines + [line]) == Exports(lines) + if line.Func? then [Export(line.name, |Spec(lines)|)] else []
  {
    hide Spec, Labels, Exports, LineFits;
    SpecSnoc(lines, line);
  }

  /** Between the instruction at `p` and the next no jump goes. */
  lemma NoTargetsBetween(o: Object, starts: seq<nat>, vars: map<string, int>, lines: seq<Line>, p: nat, next: nat)
    requires Readable(o, starts, vars) && p in starts && p < |o.code| && IsOp(o.code[p]) && next == After(o.code, p)
    requires TextFits(lines) && NamesInStep(o, starts, lines, p + 1)
    ensures NamesInStep(o, starts, lines, next)
  {
    hide Labels, Spec, FunctionsOk, FixupsOk, After;
    forall t | t in Targets(o.code, starts) && p < t ensures t >= next { StartsApart(o.code, starts, p, t); }
    Later(o.code, p);
  }

  lemma Later(code: seq<int>, p: nat)
    requires p < |code| && IsOp(code[p])
    ensures After(code, p) > p
  {
  }

  /** Where no jump goes to `p`, its label is not missing. */
  lemma NoTargetHere(o: Object, starts: seq<nat>, lines: seq<Line>, p: nat)
    requires Instructions(o.code, starts) && TextFits(lines) && NamesInStep(o, starts, lines, p)
    requires p !in Targets(o.code, starts)
    ensures NamesInStep(o, starts, lines, p + 1)
  {
  }

  // ---------------------------------------------------------------- the walk

  predicate Sorted(s: seq<nat>) { forall i, j | 0 <= i < j < |s| :: s[i] <= s[j] }

  /** Stands for the sorting routine of the C library. */
  method Sort(s: seq<nat>) returns (r: seq<nat>)
    ensures Sorted(r) && |r| == |s| && forall x :: x in r <==> x in s
  {
    r := [];
    for i := 0 to |s|
      invariant Sorted(r) && |r| == i && forall x :: x in r <==> x in s[..i]
    {
      InsertSorts(r, s[i]);
      r := Insert(r, s[i]);
      assert s[..i + 1] == s[..i] + [s[i]];
    }
    assert s[..|s|] == s;
  }

  function Insert(s: seq<nat>, x: nat): seq<nat> {
    if s == [] || x <= s[0] then [x] + s else [s[0]] + Insert(s[1..], x)
  }

  lemma {:induction false} InsertSorts(s: seq<nat>, x: nat)
    requires Sorted(s)
    ensures Sorted(Insert(s, x)) && |Insert(s, x)| == |s| + 1
    ensures forall y :: y in Insert(s, x) <==> y == x || y in s
  {
    if s != [] && x > s[0] {
      var rest := Insert(s[1..], x);
      InsertSorts(s[1..], x);
      forall i | 0 <= i < |rest| ensures s[0] <= rest[i] {
        assert rest[i] in rest;
        if rest[i] != x {
          var j :| 0 <= j < |s[1..]| && s[1..][j] == rest[i];
          assert s[j + 1] == rest[i];
        }
      }
      assert s == [s[0]] + s[1..];
    }
  }

  /** The targets of all jumps, in order; a target of more than one jump is listed more than once. */
  method GetLabels(code: seq<int>, ghost starts: seq<nat>) returns (labels: seq<nat>)
    requires Instructions(code, starts) && JumpsOk(code, starts)
    ensures Sorted(labels) && forall t :: t in labels <==> t in Targets(code, starts)
  {
    labels := [];
    var insno := 0;
    ghost var k := 0;
    while insno < |code|
      invariant k <= |starts| && insno == if k < |starts| then starts[k] else |code|
      invariant forall t :: t in labels <==>
                  exists j :: 0 <= j < k && IsJump(code[starts[j]]) && starts[j] + 1 < |code| && t == TargetOf(code, starts[j])
      decreases |starts| - k
    {
      assert insno == starts[k] && insno in starts;
      EndsInside(code, starts, insno);
      var op := code[insno];
      if IsJump(op) {
        assert TargetOf(code, starts[k]) in Targets(code, starts);
        labels := labels + [TargetOf(code, insno)];
      }
      insno := insno + 1 + ArgCount(op);
      k := k + 1;
    }
    labels := Sort(labels);
  }

  /** The operand is right for the word at `q`, and of a kind the instruction takes there. */
  ghost predicate ArgRight(o: Object, starts: seq<nat>, vars: map<string, int>, op: Op, i: nat, a: Arg, q: nat)
    requires Instructions(o.code, starts) && q < |o.code|
  {
    ArgFits(op, i, a) && CellRight(o, starts, vars, CellOf(a), q) && (a.Str? ==> NoZero(a.s))
  }

  /** The next fixup is not for the word at `q`, so none is. */
  lemma NoMatch(fixups: seq<Fixup>, cur: nat, q: nat)
    requires FixupsInStep(fixups, cur, q)
    requires cur < |fixups| ==> fixups[cur].kind != DataData && fixups[cur].at != q
    requires forall i, j | 0 <= i < j < |fixups| && fixups[i].kind != DataData && fixups[j].kind != DataData ::
               fixups[i].at < fixups[j].at
    ensures !HasFixup(fixups, q)
  {
  }

  lemma Match(fixups: seq<Fixup>, cur: nat, q: nat)
    requires FixupsInStep(fixups, cur, q) && cur < |fixups| && fixups[cur].kind != DataData && fixups[cur].at == q
    requires forall i, j | 0 <= i < j < |fixups| && fixups[i].kind != DataData && fixups[j].kind != DataData ::
               fixups[i].at < fixups[j].at
    ensures HasFixup(fixups, q) && FixupsInStep(fixups, cur + 1, q + 1)
  {
    assert fixups[cur] in fixups;
  }

  /** Skips fixups of the data, and tells whether the next one is for the word at `q`. */
  method NextFixup(fixups: seq<Fixup>, cur: nat, q: nat) returns (found: bool, cur': nat)
    requires FixupsInStep(fixups, cur, q)
    requires forall i, j | 0 <= i < j < |fixups| && fixups[i].kind != DataData && fixups[j].kind != DataData ::
               fixups[i].at < fixups[j].at
    ensures found <==> HasFixup(fixups, q)
    ensures FixupsInStep(fixups, cur', q + 1)
    ensures found ==> cur' > 0 && fixups[cur' - 1].kind != DataData && fixups[cur' - 1].at == q
  {
    cur' := cur;
    while cur' < |fixups| && fixups[cur'].kind == DataData
      invariant FixupsInStep(fixups, cur', q)
    {
      cur' := cur' + 1;
    }
    found := cur' < |fixups| && fixups[cur'].at == q;
    if found {
      Match(fixups, cur', q);
      cur' := cur' + 1;
    } else {
      NoMatch(fixups, cur', q);
      NoFixupHere(fixups, cur', q);
    }
  }

  /** An operand that is no register. */
  method Operand(o: Object, op: Op, p: nat, l: nat, cur: nat, ghost starts: seq<nat>, ghost vars: map<string, int>)
    returns (a: Arg, cur': nat)
    requires Readable(o, starts, vars) && p in starts && op == o.code[p]
    requires RegCount(op) <= l < ArgCount(op) && After(o.code, p) <= |o.code|
    requires FixupsInStep(o.fixups, cur, p + 1 + l)
    ensures FixupsInStep(o.fixups, cur', p + 2 + l) && ArgRight(o, starts, vars, op, l, a, p + 1 + l)
  {
    hide FunctionsOk, JumpsOk, FixupArg, CellRight, FixupsInStep, HasFixup, FixupOk, Instructions;
    var q := p + 1 + l;
    var found;
    found, cur' := NextFixup(o.fixups, cur, q);
    if found {
      FixupOnlyAtLi(o, starts, vars, p, q);
      FixupRight(o, starts, vars, o.fixups[cur' - 1]);
      a := FixupArg(o, o.fixups[cur' - 1]);
    } else {
      WordRight(o, starts, vars, q);
      if IsJump(op) {
        TargetRight(o, starts, vars, p);
        a := Jump(q + 1 + o.code[q]);
      } else {
        a := Lit(o.code[q]);
      }
    }
  }

  /** The operands of the instruction at `p`, with those of a register copy the other way round. */
  method Operands(o: Object, op: Op, p: nat, cur: nat, ghost starts: seq<nat>, ghost vars: map<string, int>)
    returns (args: seq<Arg>, cur': nat)
    requires Readable(o, starts, vars) && p in starts && op == o.code[p] && After(o.code, p) <= |o.code|
    requires FixupsInStep(o.fixups, cur, p)
    ensures FixupsInStep(o.fixups, cur', After(o.code, p)) && |args| == ArgCount(op)
    ensures op != MR ==> forall l | 0 <= l < |args| :: ArgRight(o, starts, vars, op, l, args[l], p + 1 + l)
    ensures op == MR ==> args == [Reg(o.code[p + 2]), Reg(o.code[p + 1])]
                         && !HasFixup(o.fixups, p + 1) && !HasFixup(o.fixups, p + 2)
    ensures !HasFixup(o.fixups, p)
  {
    hide FunctionsOk, JumpsOk, FixupsOk, CellRight, FixupsInStep, HasFixup;
    if HasFixup(o.fixups, p) { FixupOnlyAtLi(o, starts, vars, p, p); }
    NoFixupHere(o.fixups, cur, p);
    cur', args := cur, [];
    if op == MR {
      if HasFixup(o.fixups, p + 1) { FixupOnlyAtLi(o, starts, vars, p, p + 1); }
      if HasFixup(o.fixups, p + 2) { FixupOnlyAtLi(o, starts, vars, p, p + 2); }
      NoFixupHere(o.fixups, cur', p + 1);
      NoFixupHere(o.fixups, cur', p + 2);
      return [Reg(o.code[p + 2]), Reg(o.code[p + 1])], cur';
    }
    var l := 0;
    while l < ArgCount(op)
      invariant 0 <= l <= ArgCount(op) && |args| == l && FixupsInStep(o.fixups, cur', p + 1 + l)
      invariant forall i | 0 <= i < l :: ArgRight(o, starts, vars, op, i, args[i], p + 1 + i)
    {
      var a;
      if l < RegCount(op) {
        a := Reg(o.code[p + 1 + l]);
        if HasFixup(o.fixups, p + 1 + l) { FixupOnlyAtLi(o, starts, vars, p, p + 1 + l); }
        NoFixupHere(o.fixups, cur', p + 1 + l);
        WordRight(o, starts, vars, p + 1 + l);
      } else {
        a, cur' := Operand(o, op, p, l, cur', starts, vars);
      }
      args := args + [a];
      l := l + 1;
    }
  }

  lemma InstructionLine(o: Object, starts: seq<nat>, vars: map<string, int>, lines: seq<Line>, p: nat, args: seq<Arg>)
    requires Instructions(o.code, starts) && CellsInStep(o, starts, vars, lines, p)
    requires p in starts && p < |o.code| && IsOp(o.code[p]) && After(o.code, p) <= |o.code| && !HasFixup(o.fixups, p)
    requires o.code[p] != THISADDR && |args| == ArgCount(o.code[p])
    requires o.code[p] != MR ==>
               forall l | 0 <= l < |args| :: ArgRight(o, starts, vars, o.code[p], l, args[l], p + 1 + l)
    requires o.code[p] == MR ==> args == [Reg(o.code[p + 2]), Reg(o.code[p + 1])]
                                 && !HasFixup(o.fixups, p + 1) && !HasFixup(o.fixups, p + 2)
    ensures LineFits(Ins(o.code[p], args)) && CellsInStep(o, starts, vars, lines + [Ins(o.code[p], args)], After(o.code, p))
  {
    hide CellRight, Spec, Instructions, CellsInStep;
    var line := Ins(o.code[p], args);
    WordRight(o, starts, vars, p);
    if o.code[p] == MR {
      WordRight(o, starts, vars, p + 1);
      WordRight(o, starts, vars, p + 2);
    }
    forall i | 0 <= i < |Cells(line, p)| ensures CellRight(o, starts, vars, Cells(line, p)[i], p + i) {
      if o.code[p] != MR && i > 0 { assert ArgRight(o, starts, vars, o.code[p], i - 1, args[i - 1], p + i); }
    }
    CellsMore(o, starts, vars, lines, p, line);
  }

  // ---------------------------------------------------------------- functions and labels in step

  /** Of the export table the first `cur` entries hold the first `m` functions. */
  ghost predicate EntriesInStep(entries: seq<Entry>, cur: nat, m: nat) {
    cur <= |entries| && m <= |Functions(entries)| && Functions(entries[..cur]) == Functions(entries)[..m]
  }

  lemma {:induction false} FunctionsPrefix(entries: seq<Entry>, c: nat)
    requires c <= |entries|
    ensures Functions(entries[..c]) <= Functions(entries)
    decreases |entries| - c
  {
    if c < |entries| {
      FunctionsPrefix(entries, c + 1);
      assert entries[..c + 1][..c] == entries[..c];
    } else {
      assert entries[..c] == entries;
    }
  }

  lemma NextEntry(entries: seq<Entry>, c: nat, m: nat)
    requires EntriesInStep(entries, c, m) && c < |entries|
    ensures !entries[c].isFunction ==> EntriesInStep(entries, c + 1, m)
    ensures entries[c].isFunction ==>
              && m < |Functions(entries)| && Functions(entries)[m] == Export(entries[c].name, entries[c].at)
              && EntriesInStep(entries, c + 1, m + 1)
  {
    FunctionsPrefix(entries, c + 1);
    assert entries[..c + 1][..c] == entries[..c] && entries[..c + 1][c] == entries[c];
  }

  lemma NoMoreEntries(entries: seq<Entry>, m: nat)
    requires EntriesInStep(entries, |entries|, m)
    ensures m == |Functions(entries)|
  {
    assert entries[..|entries|] == entries;
  }

  /** The next function in the table is the one that starts at `at`, if any does. */
  method NextFunction(o: Object, at: nat, cur: nat, ghost m: nat, ghost starts: seq<nat>, ghost vars: map<string, int>)
    returns (found: bool, cur': nat, ghost m': nat)
    requires Readable(o, starts, vars) && at in starts
    requires EntriesInStep(o.entries, cur, m) && FunctionsInStep(Functions(o.entries), m, at)
    ensures EntriesInStep(o.entries, cur', m') && FunctionsInStep(Functions(o.entries), m', at + 1)
    ensures at < |o.code| && (found <==> o.code[at] == THISADDR)
    ensures found ==> cur' > 0 && m' == m + 1 && Functions(o.entries)[m] == Export(o.entries[cur' - 1].name, at)
    ensures !found ==> m' == m
  {
    hide EntriesInStep, Functions, JumpsOk, FixupsOk;
    ghost var funcs := Functions(o.entries);
    cur', m' := cur, m;
    while cur' < |o.entries| && !o.entries[cur'].isFunction
      invariant EntriesInStep(o.entries, cur', m)
    {
      NextEntry(o.entries, cur', m);
      cur' := cur' + 1;
    }
    EndsInside(o.code, starts, at);
    ghost var k :| 0 <= k < |starts| && starts[k] == at;
    InStepBound(o.entries, cur', m);
    if cur' < |o.entries| {
      NextEntry(o.entries, cur', m);
      if o.entries[cur'].at == at {
        assert funcs[m] in funcs;
        found, cur', m' := true, cur' + 1, m + 1;
        return;
      }
    } else {
      NoMoreEntries(o.entries, m);
    }
    found := false;
    forall i | m <= i < |funcs| ensures funcs[i].at >= at + 1 {
      assert funcs[m].at != at;
    }
  }

  lemma InStepBound(entries: seq<Entry>, cur: nat, m: nat)
    requires EntriesInStep(entries, cur, m)
    ensures cur <= |entries| && m <= |Functions(entries)|
  {
  }

  predicate LabelsInStep(labels: seq<nat>, cur: nat, at: nat) {
    && cur <= |labels|
    && (forall i | 0 <= i < cur :: labels[i] < at)
    && (forall i | cur <= i < |labels| :: labels[i] >= at)
  }

  /** Skips all mentions of the label at `at`, and tells whether there are any. */
  method NextLabel(labels: seq<nat>, cur: nat, at: nat) returns (found: bool, cur': nat)
    requires Sorted(labels) && LabelsInStep(labels, cur, at)
    ensures LabelsInStep(labels, cur', at + 1) && (found <==> at in labels)
  {
    cur' := cur;
    found := cur' < |labels| && labels[cur'] == at;
    while cur' < |labels| && labels[cur'] == at
      invariant cur <= cur' <= |labels|
      invariant forall i | 0 <= i < cur' :: labels[i] < at + 1
    {
      cur' := cur' + 1;
    }
  }

  /** From the instruction at `p` on to the next one. */
  lemma LabelsNext(o: Object, starts: seq<nat>, labels: seq<nat>, cur: nat, p: nat)
    requires Instructions(o.code, starts) && JumpsOk(o.code, starts) && p in starts && LabelsInStep(labels, cur, p + 1)
    requires forall t :: t in labels <==> t in Targets(o.code, starts)
    requires p < |o.code| && IsOp(o.code[p])
    ensures LabelsInStep(labels, cur, After(o.code, p))
  {
    hide After, Targets;
    Later(o.code, p);
    forall i | cur <= i < |labels| ensures labels[i] >= After(o.code, p) {
      assert labels[i] in labels;
      StartsApart(o.code, starts, p, labels[i]);
    }
  }

  lemma FunctionsNext(o: Object, starts: seq<nat>, m: nat, p: nat)
    requires Instructions(o.code, starts) && FunctionsOk(o.code, starts, Functions(o.entries)) && p in starts
    requires FunctionsInStep(Functions(o.entries), m, p + 1) && p < |o.code| && IsOp(o.code[p])
    ensures FunctionsInStep(Functions(o.entries), m, After(o.code, p))
  {
    hide After, Functions;
    Later(o.code, p);
    var funcs := Functions(o.entries);
    forall i | m <= i < |funcs| ensures funcs[i].at >= After(o.code, p) {
      assert funcs[i] in funcs;
      StartsApart(o.code, starts, p, funcs[i].at);
    }
  }

  // ---------------------------------------------------------------- the whole script

  /** All that the walk has in step before the instruction at `at`. */
  ghost predicate InStep(o: Object, starts: seq<nat>, vars: map<string, int>, lines: seq<Line>, m: nat, at: nat)
    requires Instructions(o.code, starts)
  {
    && CellsInStep(o, starts, vars, lines, at) && NamesInStep(o, starts, lines, at)
    && m <= |Functions(o.entries)| && Exports(lines) == Functions(o.entries)[..m]
    && FunctionsInStep(Functions(o.entries), m, at)
  }

  /** A function's two lines. */
  lemma FunctionStep(o: Object, starts: seq<nat>, vars: map<string, int>, lines: seq<Line>, m: nat, at: nat,
                     name: string, args: seq<Arg>)
    requires Readable(o, starts, vars) && InStep(o, starts, vars, lines, m, at)
    requires at in starts && at < |o.code| && o.code[at] == THISADDR && |args| == 1
    requires At(o, at + 1) && ArgRight(o, starts, vars, THISADDR, 0, args[0], at + 1)
    requires m < |Functions(o.entries)| && Functions(o.entries)[m] == Export(name, at)
    requires FunctionsInStep(Functions(o.entries), m + 1, at + 1)
    ensures InStep(o, starts, vars, lines + [Func(name)] + [Ins(THISADDR, args)], m + 1, at + 2)
  {
    hide Spec, Labels, Exports, FixupsOk, Functions, LabelsOnce, CellsInStep;
    assert args == [Lit(o.code[at + 1])];
    FunctionLine(o, starts, vars, lines, at, name);
    InStepParts(o, starts, vars, lines, at);
    var self := Ins(THISADDR, args);
    NoTargetAtFunction(o, starts, at);
    NoTargetHere(o, starts, lines, at);
    NoLabel(o, starts, lines, at + 1, Func(name));
    NoLabel(o, starts, lines + [Func(name)], at + 1, self);
    NoTargetsBetween(o, starts, vars, lines + [Func(name)] + [self], at, at + 2);
    FunctionsNext(o, starts, m + 1, at);
  }

  predicate At(o: Object, q: nat) { q < |o.code| }

  lemma NoTargetAtFunction(o: Object, starts: seq<nat>, at: nat)
    requires Instructions(o.code, starts) && JumpsOk(o.code, starts) && at < |o.code| && o.code[at] == THISADDR
    ensures at !in Targets(o.code, starts)
  {
  }

  lemma InStepParts(o: Object, starts: seq<nat>, vars: map<string, int>, lines: seq<Line>, at: nat)
    requires Instructions(o.code, starts) && CellsInStep(o, starts, vars, lines, at)
    ensures TextFits(lines) && |Spec(lines)| == at
  {
  }

  /** Any other instruction, with the label before it if a jump goes there. */
  lemma InstructionStep(o: Object, starts: seq<nat>, vars: map<string, int>, lines: seq<Line>, m: nat, p: nat,
                        labelled: bool, args: seq<Arg>)
    requires Readable(o, starts, vars) && InStep(o, starts, vars, lines, m, p) && p in starts
    requires p < |o.code| && IsOp(o.code[p]) && After(o.code, p) <= |o.code| && !HasFixup(o.fixups, p)
    requires o.code[p] != THISADDR && |args| == ArgCount(o.code[p])
    requires o.code[p] != MR ==>
               forall l | 0 <= l < |args| :: ArgRight(o, starts, vars, o.code[p], l, args[l], p + 1 + l)
    requires o.code[p] == MR ==> args == [Reg(o.code[p + 2]), Reg(o.code[p + 1])]
                                 && !HasFixup(o.fixups, p + 1) && !HasFixup(o.fixups, p + 2)
    requires labelled <==> p in Targets(o.code, starts)
    requires FunctionsInStep(Functions(o.entries), m, p + 1)
    ensures InStep(o, starts, vars, (if labelled then lines + [Label(p)] else lines) + [Ins(o.code[p], args)], m,
                   After(o.code, p))
  {
    hide Spec, Labels, Exports, FixupsOk, FunctionsOk, JumpsOk, Functions, LabelsOnce, CellsInStep, ArgRight, Targets,
         HasFixup, Instructions, NamesInStep;
    var before := if labelled then lines + [Label(p)] else lines;
    InStepParts(o, starts, vars, lines, p);
    if labelled {
      LabelLine(o, starts, vars, lines, p);
    } else {
      NoTargetHere(o, starts, lines, p);
    }
    InStepParts(o, starts, vars, before, p);
    var line := Ins(o.code[p], args);
    InstructionLine(o, starts, vars, before, p, args);
    NoLabel(o, starts, before, p + 1, line);
    NoTargetsBetween(o, starts, vars, before + [line], p, After(o.code, p));
    FunctionsNext(o, starts, m, p);
  }

  /** Prints a script. The text is one whose code the script is: every operand means what its word means, each
      label that a jump goes to stands once, at its place, and each function at its start. */
  method Disassemble(o: Object, ghost starts: seq<nat>, ghost vars: map<string, int>) returns (lines: seq<Line>)
    requires Readable(o, starts, vars)
    ensures TextFits(lines) && Encodes(ScriptOf(o), vars, lines)
    ensures LabelsOnce(lines, |o.code|)
    ensures forall t :: t in Targets(o.code, starts) <==> t >= 0 && Label(t) in lines
    ensures Labels(lines) == AllLabels(o, starts)
  {
    hide FunctionsOk, JumpsOk, FixupsOk, CellRight, FixupsInStep, HasFixup, FixupOk, ArgRight, FunctionsInStep,
         LabelsInStep, EntriesInStep, Functions, Spec, Labels, Exports, InStep, Targets;
    var labels := GetLabels(o.code, starts);
    lines := [];
    var currInstr, currExp, currFixup, currLbl := 0, 0, 0, 0;
    ghost var k, m := 0, 0;
    NothingYet(o, starts, vars, labels);
    while currInstr < |o.code|
      invariant k <= |starts| && currInstr == if k < |starts| then starts[k] else |o.code|
      invariant InStep(o, starts, vars, lines, m, currInstr) && EntriesInStep(o.entries, currExp, m)
      invariant FixupsInStep(o.fixups, currFixup, currInstr) && LabelsInStep(labels, currLbl, currInstr)
      decreases |starts| - k
    {
      var p := currInstr;
      assert p == starts[k] && p in starts;
      EndsInside(o.code, starts, p);
      StepFunctions(o, starts, vars, lines, m, p);
      var isFunction, isLabel, args;
      ghost var m' := m;
      isFunction, currExp, m' := NextFunction(o, p, currExp, m, starts, vars);
      isLabel, currLbl := NextLabel(labels, currLbl, p);
      args, currFixup := Operands(o, o.code[p], p, currFixup, starts, vars);
      InStepBound(o.entries, currExp, m');
      if isFunction {
        FunctionStep(o, starts, vars, lines, m, p, o.entries[currExp - 1].name, args);
        NoTargetAtFunction(o, starts, p);
        lines := lines + [Func(o.entries[currExp - 1].name)];
      } else {
        InstructionStep(o, starts, vars, lines, m, p, isLabel, args);
      }
      if isLabel { lines := lines + [Label(p)]; }
      lines := lines + [Ins(o.code[p], args)];
      LabelsNext(o, starts, labels, currLbl, p);
      currInstr := p + 1 + ArgCount(o.code[p]);
      k, m := k + 1, m';
    }
    AllInStep(o, starts, vars, lines, m);
  }

  lemma NothingYet(o: Object, starts: seq<nat>, vars: map<string, int>, labels: seq<nat>)
    requires Readable(o, starts, vars) && forall t :: t in labels <==> t in Targets(o.code, starts)
    ensures InStep(o, starts, vars, [], 0, 0) && EntriesInStep(o.entries, 0, 0)
    ensures FixupsInStep(o.fixups, 0, 0) && LabelsInStep(labels, 0, 0)
    ensures starts == [] ==> |o.code| == 0
    ensures starts != [] ==> starts[0] == 0
  {
    assert o.entries[..0] == [];
  }

  lemma StepFunctions(o: Object, starts: seq<nat>, vars: map<string, int>, lines: seq<Line>, m: nat, p: nat)
    requires Instructions(o.code, starts) && InStep(o, starts, vars, lines, m, p)
    ensures FunctionsInStep(Functions(o.entries), m, p)
  {
  }

  lemma AllFunctions(o: Object, starts: seq<nat>, m: nat)
    requires Instructions(o.code, starts) && FunctionsOk(o.code, starts, Functions(o.entries))
    requires FunctionsInStep(Functions(o.entries), m, |o.code|)
    ensures m == |Functions(o.entries)|
  {
    if m < |Functions(o.entries)| {
      var f := Functions(o.entries)[m];
      assert f in Functions(o.entries);
      EndsInside(o.code, starts, f.at);
    }
  }

  lemma AllLabelsThere(o: Object, starts: seq<nat>, lines: seq<Line>)
    requires Instructions(o.code, starts) && JumpsOk(o.code, starts) && TextFits(lines)
    requires NamesInStep(o, starts, lines, |o.code|)
    ensures Labels(lines) == AllLabels(o, starts)
    ensures forall t :: t in Targets(o.code, starts) <==> t >= 0 && t in Labels(lines)
  {
    hide Labels, Targets;
    forall t | t in Targets(o.code, starts) ensures 0 <= t < |o.code| {
      EndsInside(o.code, starts, t);
    }
  }

  lemma AllCells(o: Object, starts: seq<nat>, vars: map<string, int>, lines: seq<Line>)
    requires Instructions(o.code, starts) && FixupsOk(o, starts, vars)
    requires CellsInStep(o, starts, vars, lines, |o.code|) && Labels(lines) == AllLabels(o, starts)
    requires Exports(lines) == Functions(o.entries)
    ensures Encodes(ScriptOf(o), vars, lines)
  {
    hide Spec, Labels, Exports, Functions, Targets;
    var s, spec := ScriptOf(o), Spec(lines);
    forall f ensures f in s.fixups <==> f in FixupsFor(s.exports, spec) {
      if f.at < |o.code| {
        assert CellRight(o, starts, vars, spec[f.at], f.at);
        FixupAt(s.exports, spec, f.at);
        assert Fixup(f.kind, f.at) == f;
      }
    }
    forall p | 0 <= p < |s.code| ensures CellOk(s, vars, Labels(lines), spec[p], p, s.code[p]) {
      assert CellRight(o, starts, vars, spec[p], p);
    }
  }

  lemma {:induction false} LabelsAreLines(lines: seq<Line>, n: nat)
    requires TextFits(lines)
    ensures n in Labels(lines) <==> Label(n) in lines
    decreases |lines|
  {
    if lines != [] {
      var front, last := lines[..|lines| - 1], lines[|lines| - 1];
      assert lines == front + [last];
      LabelsAreLines(front, n);
    }
  }

  lemma AllInStep(o: Object, starts: seq<nat>, vars: map<string, int>, lines: seq<Line>, m: nat)
    requires Readable(o, starts, vars) && InStep(o, starts, vars, lines, m, |o.code|)
    ensures TextFits(lines) && Encodes(ScriptOf(o), vars, lines) && LabelsOnce(lines, |o.code|)
    ensures forall t :: t in Targets(o.code, starts) <==> t >= 0 && Label(t) in lines
    ensures Labels(lines) == AllLabels(o, starts)
  {
    hide Spec, Labels, Exports, Functions, Targets, FixupsOk, FunctionsOk, JumpsOk, CellsInStep, Encodes;
    AllFunctions(o, starts, m);
    InStepParts(o, starts, vars, lines, |o.code|);
    AllLabelsThere(o, starts, lines);
    AllCells(o, starts, vars, lines);
    forall t: nat ensures t in Labels(lines) <==> Label(t) in lines { LabelsAreLines(lines, t); }
  }
}

/** Compiled scripts and their assembler text, and what it means that a script is the code for a text. */
module ObjectCode {

  datatype Option<+T> = None | Some(value: T)

  // ---------------------------------------------------------------- instructions

  type Op = n: nat | 1 <= n <= 73 witness 1

  const MR: Op := 3
  const LI: Op := 6
  const JZ: Op := 28
  const JMP: Op := 31
  const THISADDR: Op := 38
  const JNZ: Op := 70

  predicate IsJump(op: Op) { op == JZ || op == JMP || op == JNZ }

  function ArgCount(op: Op): (n: nat)
    ensures n <= 3
  {
    match op
    case 5 => 0 case 49 => 0 case 52 => 0 case 68 => 0 case 69 => 0
    case 28 => 1 case 31 => 1 case 35 => 1 case 36 => 1 case 38 => 1 case 39 => 1 case 51 => 1 case 63 => 1
    case 70 => 1 case 7 => 1 case 8 => 1 case 23 => 1 case 24 => 1 case 25 => 1 case 26 => 1 case 27 => 1
    case 29 => 1 case 30 => 1 case 33 => 1 case 34 => 1 case 37 => 1 case 42 => 1 case 45 => 1 case 47 => 1
    case 48 => 1 case 50 => 1 case 64 => 1 case 67 => 1 case 71 => 1
    case 72 => 3
    case _ => 2
  }

  /** The operands that are registers; they come first. */
  function RegCount(op: Op): (n: nat)
    ensures n <= ArgCount(op)
  {
    match op
    case 4 => 0 case 28 => 0 case 31 => 0 case 35 => 0 case 36 => 0 case 38 => 0 case 39 => 0 case 51 => 0
    case 63 => 0 case 70 => 0
    case 1 => 1 case 2 => 1 case 6 => 1 case 32 => 1 case 46 => 1 case 53 => 1 case 54 => 1 case 73 => 1 case 72 => 1
    case _ => ArgCount(op)
  }

  // ---------------------------------------------------------------- text

  /** An operand: a register, a number, a string, a variable, a stack offset, the name of a function, a label. */
  datatype Arg = Reg(r: int) | Lit(v: int) | Str(s: string) | Var(name: string) | Stack(v: int) | Ref(name: string)
               | Jump(n: nat)

  /** Labels are numbered; a function's name does not look like one. */
  datatype Line = Func(name: string) | Label(n: nat) | Ins(op: Op, args: seq<Arg>)

  /** Operands are of the kinds the parser makes of them. */
  predicate ArgFits(op: Op, i: nat, a: Arg) {
    if i < RegCount(op) then a.Reg?
    else if op == LI then a.Lit? || a.Str? || a.Var? || a.Stack? || a.Ref?
    else if IsJump(op) then a.Jump?
    else a.Lit?
  }

  predicate NoZero(s: string) { forall c <- s :: c != '\0' }

  predicate LineFits(line: Line) {
    line.Ins? ==>
      && |line.args| == ArgCount(line.op)
      && (forall i | 0 <= i < |line.args| :: ArgFits(line.op, i, line.args[i]))
      && (forall i | 0 <= i < |line.args| && line.args[i].Str? :: NoZero(line.args[i].s))
  }

  predicate TextFits(lines: seq<Line>) { forall line <- lines :: LineFits(line) }

  // ---------------------------------------------------------------- the code a text asks for

  /** A word of code: known, or to be found in a table. */
  datatype Cell = Word(w: int) | Text(s: string) | Variable(name: string) | StackAt(v: int) | Function(name: string)
                | Target(n: nat)

  function CellOf(a: Arg): Cell {
    match a
    case Reg(r) => Word(r)
    case Lit(v) => Word(v)
    case Str(s) => Text(s)
    case Var(name) => Variable(name)
    case Stack(v) => StackAt(v)
    case Ref(name) => Function(name)
    case Jump(n) => Target(n)
  }

  function CellsOf(args: seq<Arg>): (c: seq<Cell>)
    ensures |c| == |args| && forall i | 0 <= i < |args| :: c[i] == CellOf(args[i])
  {
    seq(|args|, i requires 0 <= i < |args| => CellOf(args[i]))
  }

  /** The words of a line at position `p`. A function starts with the instruction for its own address; where the
      text has that instruction it is skipped. A register copy has its operands the other way round. */
  function Cells(line: Line, p: nat): (c: seq<Cell>)
    requires LineFits(line)
  {
    match line
    case Func(_) => [Word(THISADDR), Word(p)]
    case Label(_) => []
    case Ins(op, args) =>
      if op == THISADDR then []
      else if op == MR then [Word(MR), CellOf(args[1]), CellOf(args[0])]
      else [Word(op)] + CellsOf(args)
  }

  function Spec(lines: seq<Line>): seq<Cell>
    requires TextFits(lines)
  {
    if lines == [] then []
    else
      var front := lines[..|lines| - 1];
      Spec(front) + Cells(lines[|lines| - 1], |Spec(front)|)
  }

  /** The position of each label; of two lines with the same label the first counts. */
  function Labels(lines: seq<Line>): map<nat, nat>
    requires TextFits(lines)
  {
    if lines == [] then map[]
    else
      var front, last := lines[..|lines| - 1], lines[|lines| - 1];
      if last.Label? && last.n !in Labels(front) then Labels(front)[last.n := |Spec(front)|] else Labels(front)
  }

  datatype Export = Export(name: string, at: nat)

  function Exports(lines: seq<Line>): seq<Export>
    requires TextFits(lines)
  {
    if lines == [] then []
    else
      var front, last := lines[..|lines| - 1], lines[|lines| - 1];
      Exports(front) + if last.Func? then [Export(last.name, |Spec(front)|)] else []
  }

  // ---------------------------------------------------------------- scripts

  datatype Kind = GlobalData | FunctionFix | StringFix | ImportFix | DataData | StackFix

  datatype Fixup = Fixup(kind: Kind, at: nat)

  /** A compiled script without its data. */
  datatype Script = Script(code: seq<int>, exports: seq<Export>, imports: seq<string>, strings: seq<char>,
                           fixups: set<Fixup>)

  /** The string that starts at offset `o` of the string section. */
  function StringAt(t: seq<char>, o: int): Option<string>
    decreases |t| - o
  {
    if o < 0 || o >= |t| then None
    else if t[o] == '\0' then Some([])
    else match StringAt(t, o + 1) case None => None case Some(s) => Some([t[o]] + s)
  }

  predicate Exported(exports: seq<Export>, name: string) { exists e <- exports :: e.name == name }

  /** The word `w` at position `p` is right for the cell. */
  predicate CellOk(s: Script, vars: map<string, int>, labels: map<nat, nat>, c: Cell, p: nat, w: int) {
    match c
    case Word(v) => w == v
    case Text(t) => StringAt(s.strings, w) == Some(t)
    case Variable(name) => name in vars && w == vars[name]
    case StackAt(v) => w == v
    case Function(name) =>
      if Exported(s.exports, name) then w >= 0 && Export(name, w) in s.exports
      else 0 <= w < |s.imports| && s.imports[w] == name
    case Target(n) => n in labels && p + 1 + w == labels[n]
  }

  function KindOf(exports: seq<Export>, c: Cell): Option<Kind> {
    match c
    case Text(_) => Some(StringFix)
    case Variable(_) => Some(GlobalData)
    case StackAt(_) => Some(StackFix)
    case Function(name) => Some(if Exported(exports, name) then FunctionFix else ImportFix)
    case _ => None
  }

  /** The script is the code for the text: every word says what its operand says, and the fixups tell just the
      words that the loader has to adjust. */
  ghost predicate Encodes(s: Script, vars: map<string, int>, lines: seq<Line>)
    requires TextFits(lines)
  {
    && |s.code| == |Spec(lines)|
    && s.exports == Exports(lines)
    && (forall p | 0 <= p < |s.code| :: CellOk(s, vars, Labels(lines), Spec(lines)[p], p, s.code[p]))
    && s.fixups == FixupsFor(s.exports, Spec(lines))
  }

  function FixupsFor(exports: seq<Export>, spec: seq<Cell>): set<Fixup> {
    set p | 0 <= p < |spec| && KindOf(exports, spec[p]).Some? :: Fixup(KindOf(exports, spec[p]).value, p)
  }

  // ---------------------------------------------------------------- the code is determined

  /** What an operand stands for once strings and imports are looked up. */
  datatype Meaning = Number(w: int) | TheString(s: Option<string>) | TheImport(name: Option<string>)

  function Resolve(s: Script, p: nat): Meaning
    requires p < |s.code|
  {
    var w := s.code[p];
    if Fixup(StringFix, p) in s.fixups then TheString(StringAt(s.strings, w))
    else if Fixup(ImportFix, p) in s.fixups then TheImport(if 0 <= w < |s.imports| then Some(s.imports[w]) else None)
    else Number(w)
  }

  predicate UniqueNames(exports: seq<Export>) {
    forall i, j | 0 <= i < j < |exports| :: exports[i].name != exports[j].name
  }

  lemma OneExport(exports: seq<Export>, name: string, a: nat, b: nat)
    requires UniqueNames(exports) && Export(name, a) in exports && Export(name, b) in exports
    ensures a == b
  {
    var i :| 0 <= i < |exports| && exports[i] == Export(name, a);
    var j :| 0 <= j < |exports| && exports[j] == Export(name, b);
  }

  /** Two scripts for one text have the same code and fixups, once string and import operands are looked up. */
  lemma SameCode(s: Script, t: Script, vars: map<string, int>, lines: seq<Line>)
    requires TextFits(lines) && Encodes(s, vars, lines) && Encodes(t, vars, lines) && UniqueNames(s.exports)
    ensures |s.code| == |t.code| && s.exports == t.exports && s.fixups == t.fixups
    ensures forall p | 0 <= p < |s.code| :: Resolve(s, p) == Resolve(t, p)
  {
    forall p | 0 <= p < |s.code| ensures Resolve(s, p) == Resolve(t, p) {
      var c := Spec(lines)[p];
      assert CellOk(s, vars, Labels(lines), c, p, s.code[p]) && CellOk(t, vars, Labels(lines), c, p, t.code[p]);
      FixupAt(s.exports, Spec(lines), p);
      if c.Function? && Exported(s.exports, c.name) { OneExport(s.exports, c.name, s.code[p], t.code[p]); }
    }
  }

  lemma FixupAt(exports: seq<Export>, spec: seq<Cell>, p: nat)
    requires p < |spec|
    ensures forall k :: Fixup(k, p) in FixupsFor(exports, spec) <==> KindOf(exports, spec[p]) == Some(k)
  {
  }

  // ---------------------------------------------------------------- one line more

  lemma SpecSnoc(lines: seq<Line>, line: Line)
    requires TextFits(lines) && LineFits(line)
    ensures TextFits(lines + [line]) && Spec(lines + [line]) == Spec(lines) + Cells(line, |Spec(lines)|)
    ensures Labels(lines + [line])
         == if line.Label? && line.n !in Labels(lines) then Labels(lines)[line.n := |Spec(lines)|] else Labels(lines)
    ensures Exports(lines + [line]) == Exports(lines) + if line.Func? then [Export(line.name, |Spec(lines)|)] else []
  {
    assert (lines + [line])[..|lines|] == lines;
  }
}

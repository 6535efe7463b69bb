/** The assembler: one pass over the text with places left open for labels and functions, then the patches. */
module Assembler {
  import opened ObjectCode

  // ---------------------------------------------------------------- what the tables must hold

  /** Strings with a known offset are in the string section. */
  predicate StringsOk(t: seq<char>, offsets: map<string, nat>) {
    (t != [] ==> t[|t| - 1] == '\0') && forall s <- offsets :: StringAt(t, offsets[s]) == Some(s)
  }

  lemma {:induction false} StringAppended(t: seq<char>, o: int, more: seq<char>)
    requires StringAt(t, o).Some?
    ensures StringAt(t + more, o) == StringAt(t, o)
    decreases |t| - o
  {
    assert (t + more)[o] == t[o];
    if t[o] != '\0' { StringAppended(t, o + 1, more); }
  }

  lemma {:induction false} StringFound(t: seq<char>, s: string)
    requires NoZero(s)
    ensures StringAt(t + s + ['\0'], |t|) == Some(s)
    decreases |s|
  {
    var all := t + s + ['\0'];
    if s == [] {
      assert all[|t|] == '\0';
    } else {
      assert all == (t + [s[0]]) + s[1..] + ['\0'];
      assert NoZero(s[1..]) by { forall c | c in s[1..] ensures c != '\0' { assert c in s; } }
      StringFound(t + [s[0]], s[1..]);
      assert all[|t|] == s[0] && s[0] in s && s == [s[0]] + s[1..];
    }
  }

  /** A word of the first pass: right already, or listed to be patched. */
  predicate CellDone(strings: seq<char>, vars: map<string, int>, labelRefs: seq<(nat, nat)>,
                     functionRefs: seq<(string, nat)>, c: Cell, p: nat, w: int) {
    match c
    case Word(v) => w == v
    case Text(t) => StringAt(strings, w) == Some(t)
    case Variable(name) => name in vars && w == vars[name]
    case StackAt(v) => w == v
    case Function(name) => (name, p) in functionRefs
    case Target(n) => (n, p) in labelRefs
  }

  predicate RefsOk(spec: seq<Cell>, labelRefs: seq<(nat, nat)>, functionRefs: seq<(string, nat)>) {
    && (forall r <- labelRefs :: r.1 < |spec| && spec[r.1] == Target(r.0))
    && (forall r <- functionRefs :: r.1 < |spec| && spec[r.1] == Function(r.0))
  }

  /** The fixups of the first pass: strings, variables and stack offsets. */
  predicate PlainFix(c: Cell) { c.Text? || c.Variable? || c.StackAt? }

  function PlainFixups(spec: seq<Cell>): set<Fixup> {
    set p | 0 <= p < |spec| && PlainFix(spec[p]) :: Fixup(KindOf([], spec[p]).value, p)
  }

  /** Everything the first pass has put down for the words `spec`. */
  ghost predicate Emitted(spec: seq<Cell>, code: seq<int>, strings: seq<char>, vars: map<string, int>,
                          labelRefs: seq<(nat, nat)>, functionRefs: seq<(string, nat)>, fixups: set<Fixup>) {
    && |code| == |spec|
    && (forall p | 0 <= p < |spec| :: CellDone(strings, vars, labelRefs, functionRefs, spec[p], p, code[p]))
    && RefsOk(spec, labelRefs, functionRefs)
    && fixups == PlainFixups(spec)
  }

  /** One word more. */
  lemma EmitCell(spec: seq<Cell>, code: seq<int>, strings: seq<char>, vars: map<string, int>,
                 labelRefs: seq<(nat, nat)>, functionRefs: seq<(string, nat)>, fixups: set<Fixup>,
                 c: Cell, w: int, newLabels: seq<(nat, nat)>, newFunctions: seq<(string, nat)>, newFixups: set<Fixup>)
    requires Emitted(spec, code, strings, vars, labelRefs, functionRefs, fixups)
    requires CellDone(strings, vars, newLabels, newFunctions, c, |code|, w)
    requires newLabels == if c.Target? then labelRefs + [(c.n, |code|)] else labelRefs
    requires newFunctions == if c.Function? then functionRefs + [(c.name, |code|)] else functionRefs
    requires newFixups == if PlainFix(c) then fixups + {Fixup(KindOf([], c).value, |code|)} else fixups
    ensures Emitted(spec + [c], code + [w], strings, vars, newLabels, newFunctions, newFixups)
  {
    var spec', code' := spec + [c], code + [w];
    forall p | 0 <= p < |spec'|
      ensures CellDone(strings, vars, newLabels, newFunctions, spec'[p], p, code'[p])
    {
      if p < |spec| { assert CellDone(strings, vars, labelRefs, functionRefs, spec[p], p, code[p]); }
    }
    FixupsSnoc(spec, c);
  }

  lemma FixupsSnoc(spec: seq<Cell>, c: Cell)
    ensures PlainFixups(spec + [c])
         == if PlainFix(c) then PlainFixups(spec) + {Fixup(KindOf([], c).value, |spec|)} else PlainFixups(spec)
  {
    forall f ensures f in PlainFixups(spec + [c])
                 <==> f in PlainFixups(spec) || (PlainFix(c) && f == Fixup(KindOf([], c).value, |spec|))
    {
      if f in PlainFixups(spec) { assert (spec + [c])[f.at] == spec[f.at]; }
      if f in PlainFixups(spec + [c]) { assert f.at < |spec| ==> (spec + [c])[f.at] == spec[f.at]; }
      assert (spec + [c])[|spec|] == c;
    }
  }

  /** More strings do not harm. */
  lemma MoreStrings(spec: seq<Cell>, code: seq<int>, strings: seq<char>, vars: map<string, int>,
                    labelRefs: seq<(nat, nat)>, functionRefs: seq<(string, nat)>, fixups: set<Fixup>, more: seq<char>)
    requires Emitted(spec, code, strings, vars, labelRefs, functionRefs, fixups)
    ensures Emitted(spec, code, strings + more, vars, labelRefs, functionRefs, fixups)
  {
    forall p | 0 <= p < |spec|
      ensures CellDone(strings + more, vars, labelRefs, functionRefs, spec[p], p, code[p])
    {
      assert CellDone(strings, vars, labelRefs, functionRefs, spec[p], p, code[p]);
      if spec[p].Text? { StringAppended(strings, code[p], more); }
    }
  }

  // ---------------------------------------------------------------- which texts can be assembled

  /** The names and labels a text needs are there, and no function is there twice. */
  predicate Assemblable(lines: seq<Line>, vars: map<string, int>)
    requires TextFits(lines)
  {
    && UniqueNames(Exports(lines))
    && forall c <- Spec(lines) ::
         && (c.Variable? ==> c.name in vars)
         && (c.Target? ==> c.n in Labels(lines) && Labels(lines)[c.n] < |Spec(lines)|)
  }

  lemma {:induction false} Prefix(lines: seq<Line>, k: nat)
    requires TextFits(lines) && k <= |lines|
    ensures TextFits(lines[..k]) && Spec(lines[..k]) <= Spec(lines) && Exports(lines[..k]) <= Exports(lines)
    decreases |lines| - k
  {
    hide Spec, Exports, Labels, LineFits, Cells;
    assert TextFits(lines[..k]) by {
      forall x | x in lines[..k] ensures LineFits(x) { assert x in lines; }
    }
    if k < |lines| {
      Prefix(lines, k + 1);
      assert lines[..k + 1] == lines[..k] + [lines[k]];
      SpecSnoc(lines[..k], lines[k]);
    } else {
      assert lines[..k] == lines;
    }
  }

  // ---------------------------------------------------------------- the assembler

  class Asm {
    const vars: map<string, int>
    var code: seq<int>
    var labelMap: map<nat, nat>
    var labelRefs: seq<(nat, nat)>
    var functionRefs: seq<(string, nat)>
    var exports: seq<Export>
    var exportMap: map<string, nat>
    var imports: seq<string>
    var importMap: map<string, nat>
    var strings: seq<char>
    var stringMap: map<string, nat>
    var fixups: set<Fixup>
    /** The words put down so far, and the lines they are for. */
    ghost var spec: seq<Cell>
    ghost var lines: seq<Line>

    constructor (vars: map<string, int>)
      ensures this.vars == vars && FirstPass() && AtLine() && lines == []
    {
      this.vars := vars;
      code, labelRefs, functionRefs, exports, imports, strings := [], [], [], [], [], [];
      labelMap, exportMap, importMap, stringMap, fixups := map[], map[], map[], map[], {};
      spec, lines := [], [];
    }

    ghost predicate FirstPass()
      reads this
    {
      && Emitted(spec, code, strings, vars, labelRefs, functionRefs, fixups)
      && StringsOk(strings, stringMap)
      && ExportsOk(exports, exportMap)
      && imports == [] && importMap == map[]
    }

    /** Between two lines. */
    ghost predicate AtLine()
      reads this
    {
      && TextFits(lines) && spec == Spec(lines) && labelMap == Labels(lines) && exports == Exports(lines)
    }

    method AddLabel(n: nat)
      modifies this`labelMap
      ensures labelMap == if n in old(labelMap) then old(labelMap) else old(labelMap)[n := |code|]
    {
      if n !in labelMap { labelMap := labelMap[n := |code|]; }
    }

    method AddExport(name: string) returns (ok: bool)
      requires ExportsOk(exports, exportMap)
      modifies this`exports, this`exportMap
      ensures ok <==> !Exported(old(exports), name)
      ensures ok ==> ExportsOk(exports, exportMap) && exports == old(exports) + [Export(name, |code|)]
    {
      ok := name !in exportMap;
      if ok {
        exportMap := exportMap[name := |exports|];
        exports := exports + [Export(name, |code|)];
      }
    }

    /** The offset of a string, which is added if it is new. */
    method AddOrGetString(s: string) returns (o: nat)
      requires FirstPass() && NoZero(s)
      modifies this`strings, this`stringMap
      ensures FirstPass() && StringAt(strings, o) == Some(s)
      ensures old(strings) <= strings && (s in old(stringMap) ==> strings == old(strings))
    {
      if s in stringMap { return stringMap[s]; }
      o := |strings|;
      StringFound(strings, s);
      forall u | u in stringMap ensures StringAt(strings + (s + ['\0']), stringMap[u]) == Some(u) {
        StringAppended(strings, stringMap[u], s + ['\0']);
      }
      MoreStrings(spec, code, strings, vars, labelRefs, functionRefs, fixups, s + ['\0']);
      assert strings + s + ['\0'] == strings + (s + ['\0']);
      strings := strings + (s + ['\0']);
      stringMap := stringMap[s := o];
    }

    /** Writes the word for a cell that needs no table. */
    method Emit(c: Cell, w: int)
      requires FirstPass()
      requires match c
               case Word(v) => w == v
               case StackAt(v) => w == v
               case Variable(name) => name in vars && w == vars[name]
               case Text(s) => StringAt(strings, w) == Some(s)
               case _ => true
      modifies this`code, this`labelRefs, this`functionRefs, this`fixups, this`spec
      ensures FirstPass() && spec == old(spec) + [c]
    {
      hide StringAt, StringsOk, ExportsOk, RefsOk;
      EmitCell(spec, code, strings, vars, labelRefs, functionRefs, fixups, c, w,
               if c.Target? then labelRefs + [(c.n, |code|)] else labelRefs,
               if c.Function? then functionRefs + [(c.name, |code|)] else functionRefs,
               if PlainFix(c) then fixups + {Fixup(KindOf([], c).value, |code|)} else fixups);
      match c {
        case Word(_) =>
        case Text(_) => fixups := fixups + {Fixup(StringFix, |code|)};
        case Variable(_) => fixups := fixups + {Fixup(GlobalData, |code|)};
        case StackAt(_) => fixups := fixups + {Fixup(StackFix, |code|)};
        case Function(name) => functionRefs := functionRefs + [(name, |code|)];
        case Target(n) => labelRefs := labelRefs + [(n, |code|)];
      }
      code := code + [w];
      spec := spec + [c];
    }

    /** Writes an operand. Only a variable nobody declared stops the assembler. */
    method EmitArg(a: Arg) returns (ok: bool)
      requires FirstPass() && (a.Str? ==> NoZero(a.s))
      modifies this`code, this`labelRefs, this`functionRefs, this`fixups, this`spec, this`strings, this`stringMap
      ensures ok <==> (a.Var? ==> a.name in vars)
      ensures ok ==> FirstPass() && spec == old(spec) + [CellOf(a)]
    {
      ok := true;
      match a
      case Reg(r) => Emit(Word(r), r);
      case Lit(v) => Emit(Word(v), v);
      case Str(s) =>
        var o := AddOrGetString(s);
        Emit(Text(s), o);
      case Var(name) =>
        if name !in vars { return false; }
        Emit(Variable(name), vars[name]);
      case Stack(v) => Emit(StackAt(v), v);
      case Ref(name) => Emit(Function(name), 0);
      case Jump(n) => Emit(Target(n), 0);
    }

    /** Writes the operands of an instruction in their order. */
    method EmitArgs(args: seq<Arg>) returns (ok: bool)
      requires FirstPass() && forall i | 0 <= i < |args| && args[i].Str? :: NoZero(args[i].s)
      modifies this`code, this`labelRefs, this`functionRefs, this`fixups, this`spec, this`strings, this`stringMap
      ensures ok <==> forall i | 0 <= i < |args| && args[i].Var? :: args[i].name in vars
      ensures ok ==> FirstPass() && spec == old(spec) + CellsOf(args)
    {
      hide Emitted, StringsOk, ExportsOk;
      var i := 0;
      while i < |args|
        invariant 0 <= i <= |args| && FirstPass() && spec == old(spec) + CellsOf(args)[..i]
        invariant forall j | 0 <= j < i && args[j].Var? :: args[j].name in vars
      {
        ok := EmitArg(args[i]);
        if !ok { return; }
        assert CellsOf(args)[..i + 1] == CellsOf(args)[..i] + [CellOf(args[i])];
        i := i + 1;
      }
      ok := true;
    }

    /** An instruction; the one that starts a function is skipped. */
    method Instruction(op: Op, args: seq<Arg>) returns (ok: bool)
      requires FirstPass() && LineFits(Ins(op, args))
      modifies this`code, this`labelRefs, this`functionRefs, this`fixups, this`spec, this`strings, this`stringMap
      ensures ok <==> forall i | 0 <= i < |args| && args[i].Var? :: args[i].name in vars
      ensures ok ==> FirstPass() && spec == old(spec) + Cells(Ins(op, args), |old(spec)|)
    {
      hide Emitted, StringsOk, ExportsOk, CellOf;
      if op == THISADDR { return true; }
      Emit(Word(op), op);
      if op == MR {
        ok := EmitArgs([args[1], args[0]]);
        assert CellsOf([args[1], args[0]]) == [CellOf(args[1]), CellOf(args[0])];
      } else {
        ok := EmitArgs(args);
      }
    }

    /** A function starts with the instruction for its own address. */
    method StartFunction(name: string) returns (ok: bool)
      requires FirstPass()
      modifies this`code, this`labelRefs, this`functionRefs, this`fixups, this`spec, this`exports, this`exportMap
      ensures ok <==> !Exported(old(exports), name)
      ensures ok ==> FirstPass() && exports == old(exports) + [Export(name, |old(spec)|)]
      ensures ok ==> spec == old(spec) + [Word(THISADDR), Word(|old(spec)|)]
    {
      hide Emitted, StringsOk, ExportsOk, Exported;
      SameLength();
      var pos := |code|;
      ok := AddExport(name);
      if !ok { return; }
      Emit(Word(THISADDR), THISADDR);
      Emit(Word(pos), pos);
    }

    /** Reads one line of the text. */
    method Read(line: Line) returns (ok: bool)
      requires FirstPass() && AtLine() && LineFits(line)
      modifies this
      ensures ok <==> LineNames(old(exports), vars, line)
      ensures ok ==> FirstPass() && AtLine() && lines == old(lines) + [line]
    {
      hide Emitted, StringsOk, ExportsOk, Spec, Labels, Exports, Exported, LineFits;
      ok := true;
      SpecSnoc(lines, line);
      SameLength();
      match line {
        case Label(n) => AddLabel(n);
        case Func(name) => ok := StartFunction(name);
        case Ins(op, args) => ok := Instruction(op, args);
      }
      if ok { lines := lines + [line]; }
    }

    /** Writes the distance to its label behind every jump, counted from the next instruction. */
    method PatchLabels() returns (ok: bool)
      requires FirstPass() && AtLine()
      modifies this`code
      ensures ok <==> TargetsFound(spec, labelMap)
      ensures ok ==> JumpsRight(spec, labelMap, code) && SameBut(spec, old(code), code, true, false)
    {
      hide StringsOk, ExportsOk, Spec, Labels, Exports;
      var i := 0;
      while i < |labelRefs|
        invariant 0 <= i <= |labelRefs|
        invariant SameBut(spec, old(code), code, true, false)
        invariant forall k | 0 <= k < i :: RefRight(labelMap, code, labelRefs[k].0, labelRefs[k].1)
      {
        var (n, p) := labelRefs[i];
        assert labelRefs[i] in labelRefs;
        if n !in labelMap || labelMap[n] >= |code| {
          assert spec[p] == Target(n);
          return false;
        }
        var found: int, next: int := labelMap[n], p + 1;
        code := code[p := found - next];
        i := i + 1;
      }
      ok := true;
      forall p | 0 <= p < |spec| && spec[p].Target?
        ensures RefRight(labelMap, code, spec[p].n, p)
      {
        assert CellDone(strings, vars, labelRefs, functionRefs, spec[p], p, old(code)[p]);
        var k :| 0 <= k < |labelRefs| && labelRefs[k] == (spec[p].n, p);
      }
    }

    /** Every function that is called but not part of the script becomes an import. */
    method GenerateImportTable()
      requires FirstPass() || (imports == [] && importMap == map[] && ExportsOk(exports, exportMap))
      modifies this`imports, this`importMap
      ensures ImportsOk(exports, imports, importMap) && ImportedOnce(imports, importMap)
      ensures forall r <- functionRefs :: Exported(exports, r.0) || r.0 in importMap
    {
      hide Emitted, StringsOk;
      var i := 0;
      while i < |functionRefs|
        invariant 0 <= i <= |functionRefs| && ImportsOk(exports, imports, importMap)
        invariant ImportedOnce(imports, importMap)
        invariant forall k | 0 <= k < i :: Exported(exports, functionRefs[k].0) || functionRefs[k].0 in importMap
      {
        var name := functionRefs[i].0;
        if name !in exportMap && name !in importMap {
          assert !Exported(exports, name);
          importMap := importMap[name := |imports|];
          imports := imports + [name];
        }
        i := i + 1;
      }
    }

    /** Writes the import or the position of its function into every reference. */
    method PatchFunctions()
      requires |code| == |spec| && RefsOk(spec, labelRefs, functionRefs)
      requires ExportsOk(exports, exportMap) && ImportsOk(exports, imports, importMap)
      requires forall r <- functionRefs :: Exported(exports, r.0) || r.0 in importMap
      modifies this`code, this`fixups
      ensures SameBut(spec, old(code), code, false, true)
      ensures forall r <- functionRefs :: FunctionRight(exports, imports, code, r.0, r.1)
      ensures fixups == old(fixups) + RefFixups(exports, functionRefs)
    {
      var i := 0;
      assert functionRefs[..0] == [];
      while i < |functionRefs|
        invariant 0 <= i <= |functionRefs| && SameBut(spec, old(code), code, false, true)
        invariant forall k | 0 <= k < i :: FunctionRight(exports, imports, code, functionRefs[k].0, functionRefs[k].1)
        invariant fixups == old(fixups) + RefFixups(exports, functionRefs[..i])
      {
        var (name, p) := functionRefs[i];
        assert functionRefs[i] in functionRefs;
        ghost var before := code;
        if name in importMap {
          fixups := fixups + {Fixup(ImportFix, p)};
          code := code[p := importMap[name]];
        } else {
          fixups := fixups + {Fixup(FunctionFix, p)};
          code := code[p := exports[exportMap[name]].at];
          ExportFound(exports, exportMap, name);
        }
        StillRight(functionRefs, i, exports, imports, spec, before, code);
        assert functionRefs[..i + 1][..i] == functionRefs[..i];
        i := i + 1;
      }
      assert functionRefs[..i] == functionRefs;
    }

    lemma SameLength()
      requires FirstPass()
      ensures |code| == |spec|
    {
    }
  }

  // ---------------------------------------------------------------- patches

  predicate TargetsFound(spec: seq<Cell>, labels: map<nat, nat>) {
    forall p | 0 <= p < |spec| && spec[p].Target? :: spec[p].n in labels && labels[spec[p].n] < |spec|
  }

  predicate RefRight(labels: map<nat, nat>, code: seq<int>, n: nat, p: nat) {
    n in labels && p < |code| && p + 1 + code[p] == labels[n] < |code|
  }

  predicate JumpsRight(spec: seq<Cell>, labels: map<nat, nat>, code: seq<int>) {
    forall p | 0 <= p < |spec| && spec[p].Target? :: RefRight(labels, code, spec[p].n, p)
  }

  /** The code changed only where jumps or function references are. */
  predicate SameBut(spec: seq<Cell>, before: seq<int>, code: seq<int>, jumps: bool, functions: bool) {
    && |before| == |code| == |spec|
    && forall p | 0 <= p < |spec| && !(jumps && spec[p].Target?) && !(functions && spec[p].Function?) ::
         code[p] == before[p]
  }

  /** The import table has the names of the index, and no name of the script itself. */
  predicate ImportsOk(exports: seq<Export>, imports: seq<string>, index: map<string, nat>) {
    forall name <- index :: index[name] < |imports| && imports[index[name]] == name && !Exported(exports, name)
  }

  /** The index has all imports, so the table has each name once. */
  predicate ImportedOnce(imports: seq<string>, index: map<string, nat>) {
    forall i | 0 <= i < |imports| :: imports[i] in index && index[imports[i]] == i
  }

  predicate FunctionRight(exports: seq<Export>, imports: seq<string>, code: seq<int>, name: string, p: nat) {
    p < |code| &&
    if Exported(exports, name) then code[p] >= 0 && Export(name, code[p]) in exports
    else 0 <= code[p] < |imports| && imports[code[p]] == name
  }

  lemma ExportFound(exports: seq<Export>, index: map<string, nat>, name: string)
    requires ExportsOk(exports, index) && Exported(exports, name)
    ensures name in index && Export(name, exports[index[name]].at) in exports
  {
  }

  /** A patch in one place leaves the others right: a place has only one name. */
  lemma StillRight(refs: seq<(string, nat)>, i: nat, exports: seq<Export>, imports: seq<string>, spec: seq<Cell>,
                   before: seq<int>, code: seq<int>)
    requires i < |refs| && |before| == |code| == |spec|
    requires forall r <- refs :: r.1 < |spec| && spec[r.1] == Cell.Function(r.0)
    requires refs[i].1 < |code| && code == before[refs[i].1 := code[refs[i].1]]
    requires FunctionRight(exports, imports, code, refs[i].0, refs[i].1)
    requires forall k | 0 <= k < i :: FunctionRight(exports, imports, before, refs[k].0, refs[k].1)
    ensures forall k | 0 <= k < i + 1 :: FunctionRight(exports, imports, code, refs[k].0, refs[k].1)
  {
    forall k | 0 <= k < i + 1 ensures FunctionRight(exports, imports, code, refs[k].0, refs[k].1) {
      assert refs[k] in refs && refs[i] in refs;
    }
  }

  function RefFixups(exports: seq<Export>, refs: seq<(string, nat)>): set<Fixup> {
    if refs == [] then {}
    else
      var (name, p) := refs[|refs| - 1];
      RefFixups(exports, refs[..|refs| - 1]) + {Fixup(if Exported(exports, name) then FunctionFix else ImportFix, p)}
  }

  /** The names a line needs, and those it must not bring twice. */
  predicate LineNames(exports: seq<Export>, vars: map<string, int>, line: Line) {
    match line
    case Func(name) => !Exported(exports, name)
    case Label(_) => true
    case Ins(_, args) => forall i | 0 <= i < |args| && args[i].Var? :: args[i].name in vars
  }

  predicate ExportsOk(exports: seq<Export>, index: map<string, nat>) {
    && UniqueNames(exports)
    && (forall name <- index :: index[name] < |exports| && exports[index[name]].name == name)
    && (forall e <- exports :: e.name in index)
  }

  lemma {:induction false} RefFixupsAre(exports: seq<Export>, refs: seq<(string, nat)>, f: Fixup)
    ensures f in RefFixups(exports, refs)
       <==> exists k :: 0 <= k < |refs| && f == Fixup(if Exported(exports, refs[k].0) then FunctionFix else ImportFix, refs[k].1)
    decreases |refs|
  {
    if refs != [] {
      var n := |refs| - 1;
      RefFixupsAre(exports, refs[..n], f);
      assert forall k | 0 <= k < n :: refs[..n][k] == refs[k];
    }
  }

  /** The fixups of both passes are those of the text. */
  lemma AllFixups(spec: seq<Cell>, code: seq<int>, strings: seq<char>, vars: map<string, int>,
                  labelRefs: seq<(nat, nat)>, functionRefs: seq<(string, nat)>, fixups: set<Fixup>, exports: seq<Export>)
    requires Emitted(spec, code, strings, vars, labelRefs, functionRefs, fixups)
    ensures fixups + RefFixups(exports, functionRefs) == FixupsFor(exports, spec)
  {
    forall f ensures f in fixups + RefFixups(exports, functionRefs) <==> f in FixupsFor(exports, spec) {
      RefFixupsAre(exports, functionRefs, f);
      if f.at < |spec| {
        FixupAt(exports, spec, f.at);
        assert CellDone(strings, vars, labelRefs, functionRefs, spec[f.at], f.at, code[f.at]);
        if spec[f.at].Function? {
          var k :| 0 <= k < |functionRefs| && functionRefs[k] == (spec[f.at].name, f.at);
        }
      }
      if k: nat :| k < |functionRefs| && functionRefs[k].1 == f.at {
        assert functionRefs[k] in functionRefs;
      }
    }
  }

  // ---------------------------------------------------------------- the whole text

  /** A line that cannot be read makes the text one that cannot be assembled. */
  lemma BadLine(lines: seq<Line>, vars: map<string, int>, k: nat)
    requires TextFits(lines) && k < |lines| && TextFits(lines[..k])
    requires !LineNames(Exports(lines[..k]), vars, lines[k])
    ensures !Assemblable(lines, vars)
  {
    hide Spec, Labels, Exports;
    Prefix(lines, k + 1);
    assert lines[..k + 1] == lines[..k] + [lines[k]];
    SpecSnoc(lines[..k], lines[k]);
    match lines[k]
    case Func(name) => TwiceExported(Exports(lines[..k]), name, |Spec(lines[..k])|, Exports(lines));
    case Ins(op, args) =>
      var i :| 0 <= i < |args| && args[i].Var? && args[i].name !in vars;
      assert ArgFits(op, i, args[i]);
      assert Cells(lines[k], |Spec(lines[..k])|)[1 + i] == CellOf(args[i]);
      var at := |Spec(lines[..k])| + 1 + i;
      assert Spec(lines[..k + 1])[at] == CellOf(args[i]);
      assert Spec(lines)[at] == CellOf(args[i]);
  }

  lemma TwiceExported(exports: seq<Export>, name: string, at: nat, all: seq<Export>)
    requires Exported(exports, name) && exports + [Export(name, at)] <= all
    ensures !UniqueNames(all)
  {
    var i :| 0 <= i < |exports| && exports[i].name == name;
    assert all[i] == exports[i] && all[|exports|] == Export(name, at);
  }

  /** With all words patched the script encodes the text. */
  lemma PatchedEncodes(lines: seq<Line>, vars: map<string, int>, first: seq<int>, middle: seq<int>, s: Script,
                       labelRefs: seq<(nat, nat)>, functionRefs: seq<(string, nat)>, fixups: set<Fixup>)
    requires TextFits(lines) && s.exports == Exports(lines)
    requires Emitted(Spec(lines), first, s.strings, vars, labelRefs, functionRefs, fixups)
    requires JumpsRight(Spec(lines), Labels(lines), middle) && SameBut(Spec(lines), first, middle, true, false)
    requires SameBut(Spec(lines), middle, s.code, false, true)
    requires forall r <- functionRefs :: FunctionRight(s.exports, s.imports, s.code, r.0, r.1)
    requires s.fixups == fixups + RefFixups(s.exports, functionRefs)
    ensures Encodes(s, vars, lines)
  {
    hide Spec, Labels, Exports, StringAt;
    var spec := Spec(lines);
    AllFixups(spec, first, s.strings, vars, labelRefs, functionRefs, fixups, s.exports);
    forall p | 0 <= p < |s.code| ensures CellOk(s, vars, Labels(lines), spec[p], p, s.code[p]) {
      assert CellDone(s.strings, vars, labelRefs, functionRefs, spec[p], p, first[p]);
      match spec[p]
      case Function(name) => assert FunctionRight(s.exports, s.imports, s.code, name, p);
      case Target(n) => assert RefRight(Labels(lines), middle, n, p);
      case _ =>
    }
  }

  /** Assembles a text. It works exactly for texts whose names and labels are there, and yields their code. */
  method Assemble(lines: seq<Line>, vars: map<string, int>) returns (ok: bool, s: Script)
    requires TextFits(lines)
    ensures ok <==> Assemblable(lines, vars)
    ensures ok ==> Encodes(s, vars, lines)
  {
    hide Emitted, StringsOk, Spec, Labels, Exports, Encodes, Assemblable, LineNames, LineFits, ImportsOk;
    var a := new Asm(vars);
    s := Script([], [], [], [], {});
    var k := 0;
    while k < |lines|
      invariant 0 <= k <= |lines| && fresh(a) && a.vars == vars
      invariant a.FirstPass() && a.AtLine() && a.lines == lines[..k]
    {
      assert lines[..k + 1] == lines[..k] + [lines[k]];
      assert lines[k] in lines;
      ghost var exported := a.exports;
      ok := a.Read(lines[k]);
      if !ok {
        BadLine(lines, vars, k);
        return;
      }
      k := k + 1;
    }
    assert lines[..k] == lines;
    ghost var first, plain := a.code, a.fixups;
    AssemblableIf(lines, vars, a.code, a.strings, a.labelRefs, a.functionRefs, a.fixups);
    ok := a.PatchLabels();
    if !ok { return; }
    ghost var middle := a.code;
    a.GenerateImportTable();
    RefsStand(Spec(lines), first, a.strings, vars, a.labelRefs, a.functionRefs, plain);
    a.PatchFunctions();
    s := Script(a.code, a.exports, a.imports, a.strings, a.fixups);
    PatchedEncodes(lines, vars, first, middle, s, a.labelRefs, a.functionRefs, plain);
  }

  lemma RefsStand(spec: seq<Cell>, code: seq<int>, strings: seq<char>, vars: map<string, int>,
                  labelRefs: seq<(nat, nat)>, functionRefs: seq<(string, nat)>, fixups: set<Fixup>)
    requires Emitted(spec, code, strings, vars, labelRefs, functionRefs, fixups)
    ensures |code| == |spec| && RefsOk(spec, labelRefs, functionRefs)
  {
  }

  lemma AssemblableIf(lines: seq<Line>, vars: map<string, int>, code: seq<int>, strings: seq<char>,
                      labelRefs: seq<(nat, nat)>, functionRefs: seq<(string, nat)>, fixups: set<Fixup>)
    requires TextFits(lines) && UniqueNames(Exports(lines))
    requires Emitted(Spec(lines), code, strings, vars, labelRefs, functionRefs, fixups)
    ensures Assemblable(lines, vars) <==> TargetsFound(Spec(lines), Labels(lines))
  {
    hide Spec, Labels, Exports, StringAt;
    var spec := Spec(lines);
    forall c | c in spec ensures c.Variable? ==> c.name in vars {
      var p :| 0 <= p < |spec| && spec[p] == c;
      assert CellDone(strings, vars, labelRefs, functionRefs, spec[p], p, code[p]);
    }
    if TargetsFound(spec, Labels(lines)) {
      forall c | c in spec && c.Target? ensures c.n in Labels(lines) && Labels(lines)[c.n] < |spec| {
        var p :| 0 <= p < |spec| && spec[p] == c;
      }
    }
  }
}

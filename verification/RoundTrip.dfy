/** Scripts printed and assembled again. */
module RoundTrip {
  import opened ObjectCode
  import opened Assembler
  import opened Disassembler

  /** What the disassembler prints can be assembled. */
  lemma PrintedIsAssemblable(o: Object, starts: seq<nat>, vars: map<string, int>, lines: seq<Line>)
    requires Readable(o, starts, vars) && TextFits(lines) && Encodes(ScriptOf(o), vars, lines)
    requires Labels(lines) == AllLabels(o, starts)
    ensures Assemblable(lines, vars)
  {
    hide Spec, Labels, Exports, Functions, FixupsOk, Targets;
    var s, spec := ScriptOf(o), Spec(lines);
    forall c | c in spec
      ensures c.Variable? ==> c.name in vars
      ensures c.Target? ==> c.n in Labels(lines) && Labels(lines)[c.n] < |spec|
    {
      var p :| 0 <= p < |spec| && spec[p] == c;
      assert CellOk(s, vars, Labels(lines), spec[p], p, s.code[p]);
      if c.Target? {
        assert c.n in Targets(o.code, starts);
        EndsInside(o.code, starts, c.n);
      }
    }
  }

  /** What is assembled from the printed text has the same code, once strings and imports are looked up, the same
      functions and the same fixups. */
  lemma ReassembledIsSame(o: Object, starts: seq<nat>, vars: map<string, int>, lines: seq<Line>, s: Script)
    requires Readable(o, starts, vars) && TextFits(lines)
    requires Encodes(ScriptOf(o), vars, lines) && Encodes(s, vars, lines)
    ensures |s.code| == |o.code| && s.exports == Functions(o.entries) && s.fixups == ScriptOf(o).fixups
    ensures forall p | 0 <= p < |o.code| :: Resolve(s, p) == Resolve(ScriptOf(o), p)
  {
    SameCode(ScriptOf(o), s, vars, lines);
  }

  /** A readable script survives being printed and assembled. */
  method Reassemble(o: Object, ghost starts: seq<nat>, vars: map<string, int>) returns (s: Script)
    requires Readable(o, starts, vars)
    ensures |s.code| == |o.code| && s.exports == Functions(o.entries) && s.fixups == ScriptOf(o).fixups
    ensures forall p | 0 <= p < |o.code| :: Resolve(s, p) == Resolve(ScriptOf(o), p)
  {
    var lines := Disassemble(o, starts, vars);
    PrintedIsAssemblable(o, starts, vars, lines);
    var ok;
    ok, s := Assemble(lines, vars);
    ReassembledIsSame(o, starts, vars, lines, s);
  }
}

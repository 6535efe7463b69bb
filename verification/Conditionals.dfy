/** Conditional groups: three counters stand in for the stack of open `#if`s. */
module Conditionals {

  /** A condition carries the value it would have. `Line` is text, `Pragma` is passed on wherever it stands. */
  datatype Event = If(v: int) | Elif(v: int) | Else | Endif | Line(x: int) | Pragma(x: int)

  /** What the preprocessor does: text it emits, and conditions it evaluates. */
  datatype Act = Emit(x: int) | Eval(v: int)

  datatype Counters = Counters(level: int, active: int, satisfied: int)

  // ---------------------------------------------------------------- the counters

  /** `set_level`: goes to level `x` with the outcome `v` of its condition, -1 for no outcome. */
  function SetLevel(c: Counters, x: int, v: int): Counters {
    var active := if c.active > x then x else c.active;
    var satisfied := if c.satisfied > x then x else c.satisfied;
    if v == -1 then Counters(x, active, satisfied)
    else if v != 0 then Counters(x, x, x)
    else Counters(x, if active == x then x - 1 else active, satisfied)
  }

  /** A branch after the first: taken if the group is waiting for one and `v` holds. */
  function NextBranch(c: Counters, v: int): Counters {
    if c.active == c.level - 1 && c.satisfied < c.level then
      if v != 0 then Counters(c.level, c.level, c.level) else c
    else if c.active == c.level then Counters(c.level, c.active - 1, c.satisfied)
    else c
  }

  predicate Waiting(c: Counters) { c.active == c.level - 1 && c.satisfied < c.level }

  function Step(c: Counters, e: Event): Counters {
    match e
    case If(v) => SetLevel(c, c.level + 1, if c.active == c.level then v else 0)
    case Elif(v) => NextBranch(c, v)
    case Else => NextBranch(c, 1)
    case Endif => SetLevel(c, c.level - 1, -1)
    case Line(_) => c
    case Pragma(_) => c
  }

  function Acts(c: Counters, e: Event): seq<Act> {
    match e
    case If(v) => if c.active == c.level then [Eval(v)] else []
    case Elif(v) => if Waiting(c) then [Eval(v)] else []
    case Line(x) => if c.level > c.active then [] else [Emit(x)]
    case Pragma(x) => [Emit(x)]
    case _ => []
  }

  function RunTo(c: Counters, es: seq<Event>): Counters
    decreases es
  {
    if es == [] then c else RunTo(Step(c, es[0]), es[1..])
  }

  /** What is done at each of the lines. */
  function RunActs(c: Counters, es: seq<Event>): (t: seq<seq<Act>>)
    ensures |t| == |es|
    decreases es
  {
    if es == [] then [] else [Acts(c, es[0])] + RunActs(Step(c, es[0]), es[1..])
  }

  function Join(t: seq<seq<Act>>): seq<Act> { if t == [] then [] else t[0] + Join(t[1..]) }

  lemma {:induction false} RunAppend(c: Counters, a: seq<Event>, b: seq<Event>)
    ensures RunTo(c, a + b) == RunTo(RunTo(c, a), b)
    ensures RunActs(c, a + b) == RunActs(c, a) + RunActs(RunTo(c, a), b)
    decreases a
  {
    if a == [] {
      assert a + b == b;
    } else {
      assert (a + b)[1..] == a[1..] + b && (a + b)[0] == a[0];
      RunAppend(Step(c, a[0]), a[1..], b);
    }
  }

  // ---------------------------------------------------------------- groups and what they mean

  datatype Items = Nil | Text(x: int, rest: Items) | Pass(x: int, rest: Items)
                 | Group(v: int, body: Items, alts: Alts, rest: Items)

  /** The further branches of a group. */
  datatype Alts = End | ElifBranch(v: int, body: Items, more: Alts) | ElseBranch(body: Items, more: Alts)

  function Print(i: Items): seq<Event> {
    match i
    case Nil => []
    case Text(x, rest) => [Line(x)] + Print(rest)
    case Pass(x, rest) => [Pragma(x)] + Print(rest)
    case Group(v, body, alts, rest) => [If(v)] + Print(body) + PrintAlts(alts) + [Endif] + Print(rest)
  }

  function PrintAlts(a: Alts): seq<Event> {
    match a
    case End => []
    case ElifBranch(v, body, more) => [Elif(v)] + Print(body) + PrintAlts(more)
    case ElseBranch(body, more) => [Else] + Print(body) + PrintAlts(more)
  }

  /** A first condition counts as true unless it is 0 or, by the way the counters take it, -1. */
  predicate Holds(v: int) { v != 0 && v != -1 }

  function DoIf(b: bool, a: Act): seq<Act> { if b then [a] else [] }

  /** What the items do, line by line, where all groups around are in their chosen branch (`on`), or not. */
  function Meaning(i: Items, on: bool): (t: seq<seq<Act>>)
    ensures |t| == |Print(i)|
  {
    match i
    case Nil => []
    case Text(x, rest) => [DoIf(on, Emit(x))] + Meaning(rest, on)
    case Pass(x, rest) => [[Emit(x)]] + Meaning(rest, on)
    case Group(v, body, alts, rest) =>
      [DoIf(on, Eval(v))] + Meaning(body, on && Holds(v)) + AltsMeaning(alts, on && !Holds(v)) + [[]] + Meaning(rest, on)
  }

  /** The further branches, while none was chosen yet and one may be (`open`): the first that holds is chosen,
      and no condition behind it is evaluated. */
  function AltsMeaning(a: Alts, open: bool): (t: seq<seq<Act>>)
    ensures |t| == |PrintAlts(a)|
  {
    match a
    case End => []
    case ElifBranch(v, body, more) =>
      [DoIf(open, Eval(v))] + Meaning(body, open && v != 0) + AltsMeaning(more, open && v == 0)
    case ElseBranch(body, more) => [[]] + Meaning(body, open) + AltsMeaning(more, false)
  }

  // ---------------------------------------------------------------- the simulation

  /** At any point of well-nested directives. */
  predicate Nested(c: Counters) {
    0 <= c.active <= c.satisfied <= c.active + 1 && c.satisfied <= c.level
  }

  predicate On(c: Counters) { c.active == c.level }

  /** The counters inside a group that is open at the counters `c` outside: before its branch is chosen, in the
      chosen branch, after it, or not considered at all. */
  predicate Inside(c: Counters, d: Counters, open: bool, on: bool) {
    && d.level == c.level + 1
    && if !On(c) then d.active == c.active && d.satisfied == c.satisfied && !open && !on
       else if on then d == Counters(c.level + 1, c.level + 1, c.level + 1) && !open
       else d.active == c.level && d.satisfied == if open then c.level else c.level + 1
  }

  lemma {:induction false} ItemsRun(i: Items, c: Counters)
    requires Nested(c)
    ensures RunTo(c, Print(i)) == c && RunActs(c, Print(i)) == Meaning(i, On(c))
    decreases i
  {
    match i
    case Nil =>
    case Text(x, rest) =>
      ItemsRun(rest, c);
    case Pass(x, rest) =>
      ItemsRun(rest, c);
    case Group(v, body, alts, rest) =>
      var d := Step(c, If(v));
      ItemsRun(body, d);
      AltsRun(alts, c, d, On(c) && !Holds(v), On(c) && Holds(v));
      ItemsRun(rest, c);
      GroupRuns(c, v, Print(body), PrintAlts(alts), Print(rest));
  }

  /** The end of a group brings back the counters from before it. */
  lemma GroupEnds(c: Counters, d: Counters, open: bool, on: bool)
    requires Nested(c) && Inside(c, d, open, on)
    ensures Step(d, Endif) == c
  {
  }

  lemma {:induction false} AltsRun(a: Alts, c: Counters, d: Counters, open: bool, on: bool)
    requires Nested(c) && Inside(c, d, open, on) && Nested(d)
    ensures Step(RunTo(d, PrintAlts(a)), Endif) == c
    ensures RunActs(d, PrintAlts(a)) == AltsMeaning(a, open)
    decreases a
  {
    hide NextBranch, SetLevel, Nested, Inside, RunTo, Meaning, Print;
    AltsNone(d);
    match a
    case End => GroupEnds(c, d, open, on);
    case ElifBranch(v, body, more) =>
      var e := Step(d, Elif(v));
      BranchStarts(c, d, open, on, v);
      ItemsRun(body, e);
      AltsRun(more, c, e, open && v == 0, open && v != 0);
      BranchRuns(d, Elif(v), Print(body), PrintAlts(more));
    case ElseBranch(body, more) =>
      var e := Step(d, Else);
      BranchStarts(c, d, open, on, 1);
      ItemsRun(body, e);
      AltsRun(more, c, e, false, open);
      BranchRuns(d, Else, Print(body), PrintAlts(more));
  }

  lemma AltsNone(d: Counters)
    ensures RunTo(d, []) == d && RunActs(d, []) == []
  {
  }

  lemma BranchStarts(c: Counters, d: Counters, open: bool, on: bool, v: int)
    requires Nested(c) && Inside(c, d, open, on)
    ensures var e := NextBranch(d, v);
            Inside(c, e, open && v == 0, open && v != 0) && Nested(e) && On(e) == (open && v != 0)
    ensures Waiting(d) == open
  {
  }

  lemma BranchRuns(d: Counters, e: Event, body: seq<Event>, more: seq<Event>)
    requires RunTo(Step(d, e), body) == Step(d, e)
    ensures RunTo(d, [e] + body + more) == RunTo(Step(d, e), more)
    ensures RunActs(d, [e] + body + more) == [Acts(d, e)] + RunActs(Step(d, e), body) + RunActs(Step(d, e), more)
  {
    assert [e] + body + more == [e] + (body + more);
    RunAppend(Step(d, e), body, more);
  }

  lemma GroupRuns(c: Counters, v: int, body: seq<Event>, alts: seq<Event>, rest: seq<Event>)
    requires RunTo(Step(c, If(v)), body) == Step(c, If(v))
    requires Step(RunTo(Step(c, If(v)), alts), Endif) == c
    ensures RunTo(c, [If(v)] + body + alts + [Endif] + rest) == RunTo(c, rest)
    ensures RunActs(c, [If(v)] + body + alts + [Endif] + rest)
         == [Acts(c, If(v))] + RunActs(Step(c, If(v)), body) + RunActs(Step(c, If(v)), alts) + [[]] + RunActs(c, rest)
  {
    var d := Step(c, If(v));
    assert [If(v)] + body + alts + [Endif] + rest == ([If(v)] + body + alts) + ([Endif] + rest);
    BranchRuns(c, If(v), body, alts);
    RunAppend(c, [If(v)] + body + alts, [Endif] + rest);
  }

  /** Well-nested directives do what the groups mean, and leave the counters as they were. */
  lemma DirectivesMeanGroups(i: Items)
    ensures RunActs(Counters(0, 0, 0), Print(i)) == Meaning(i, true)
    ensures RunTo(Counters(0, 0, 0), Print(i)) == Counters(0, 0, 0)
  {
    ItemsRun(i, Counters(0, 0, 0));
  }

  // ---------------------------------------------------------------- at every point

  /** Any directives that close no more groups than they open, and have no further branch outside of a group. */
  predicate Balanced(es: seq<Event>, depth: nat) {
    es == [] ||
    match es[0]
    case If(_) => Balanced(es[1..], depth + 1)
    case Endif => depth > 0 && Balanced(es[1..], depth - 1)
    case Elif(_) => depth > 0 && Balanced(es[1..], depth)
    case Else => depth > 0 && Balanced(es[1..], depth)
    case _ => Balanced(es[1..], depth)
  }

  /** The counters keep in bounds at every point of a file. */
  lemma {:induction false} AlwaysNested(c: Counters, es: seq<Event>)
    requires Nested(c) && Balanced(es, c.level)
    ensures Nested(RunTo(c, es))
    decreases es
  {
    if es != [] { AlwaysNested(Step(c, es[0]), es[1..]); }
  }

  // ---------------------------------------------------------------- the counters in place

  class Preprocessor {
    var ifLevel: int
    var ifLevelActive: int
    var ifLevelSatisfied: int
    var acts: seq<Act>

    constructor ()
      ensures Contents() == Counters(0, 0, 0) && acts == []
    {
      ifLevel, ifLevelActive, ifLevelSatisfied, acts := 0, 0, 0, [];
    }

    function Contents(): Counters
      reads this
    {
      Counters(ifLevel, ifLevelActive, ifLevelSatisfied)
    }

    method GoToLevel(x: int, v: int)
      modifies this
      ensures Contents() == SetLevel(old(Contents()), x, v) && acts == old(acts)
    {
      if ifLevelActive > x { ifLevelActive := x; }
      if ifLevelSatisfied > x { ifLevelSatisfied := x; }
      if v != -1 {
        if v != 0 {
          ifLevelActive := x;
        } else if ifLevelActive == x {
          ifLevelActive := x - 1;
        }
        if v != 0 && ifLevelActive == x { ifLevelSatisfied := x; }
      }
      ifLevel := x;
    }

    method Handle(e: Event)
      modifies this
      ensures Contents() == Step(old(Contents()), e) && acts == old(acts) + Acts(old(Contents()), e)
    {
      match e
      case If(v) =>
        if ifLevelActive == ifLevel {
          acts := acts + [Eval(v)];
          GoToLevel(ifLevel + 1, v);
        } else {
          GoToLevel(ifLevel + 1, 0);
        }
      case Elif(v) =>
        if ifLevelActive == ifLevel - 1 && ifLevelSatisfied < ifLevel {
          acts := acts + [Eval(v)];
          if v != 0 { ifLevelActive, ifLevelSatisfied := ifLevel, ifLevel; }
        } else if ifLevelActive == ifLevel {
          ifLevelActive := ifLevelActive - 1;
        }
      case Else =>
        if ifLevelActive == ifLevel - 1 && ifLevelSatisfied < ifLevel {
          ifLevelActive, ifLevelSatisfied := ifLevel, ifLevel;
        } else if ifLevelActive == ifLevel {
          ifLevelActive := ifLevelActive - 1;
        }
      case Endif => GoToLevel(ifLevel - 1, -1);
      case Line(x) => if ifLevel <= ifLevelActive { acts := acts + [Emit(x)]; }
      case Pragma(x) => acts := acts + [Emit(x)];
    }
  }

  method Preprocess(es: seq<Event>) returns (acts: seq<Act>)
    ensures acts == Join(RunActs(Counters(0, 0, 0), es))
  {
    hide Step, Acts;
    var p := new Preprocessor();
    var i := 0;
    while i < |es|
      invariant 0 <= i <= |es| && fresh(p)
      invariant p.acts + Join(RunActs(p.Contents(), es[i..])) == Join(RunActs(Counters(0, 0, 0), es))
    {
      assert es[i..] == [es[i]] + es[i + 1..];
      p.Handle(es[i]);
      i := i + 1;
    }
    acts := p.acts;
  }

  // ---------------------------------------------------------------- where C's rules differ

  /** What the groups mean by the rules of C: a condition holds if it is not 0. */
  function CMeaning(i: Items, on: bool): (t: seq<seq<Act>>)
    ensures |t| == |Print(i)|
  {
    match i
    case Nil => []
    case Text(x, rest) => [DoIf(on, Emit(x))] + CMeaning(rest, on)
    case Pass(x, rest) => [DoIf(on, Emit(x))] + CMeaning(rest, on)
    case Group(v, body, alts, rest) =>
      [DoIf(on, Eval(v))] + CMeaning(body, on && v != 0) + CAltsMeaning(alts, on && v == 0) + [[]] + CMeaning(rest, on)
  }

  function CAltsMeaning(a: Alts, open: bool): (t: seq<seq<Act>>)
    ensures |t| == |PrintAlts(a)|
  {
    match a
    case End => []
    case ElifBranch(v, body, more) =>
      [DoIf(open, Eval(v))] + CMeaning(body, open && v != 0) + CAltsMeaning(more, open && v == 0)
    case ElseBranch(body, more) => [[]] + CMeaning(body, open) + CAltsMeaning(more, false)
  }

  predicate OnlyPragmas(i: Items) { i.Nil? || (i.Pass? && OnlyPragmas(i.rest)) }

  /** No pragma stands where nothing should be emitted. A group whose first condition is -1, where it counts, has only
      pragmas in its first branch, no further condition, and nothing in the branch that is taken instead. */
  predicate AsInC(i: Items, on: bool) {
    match i
    case Nil => true
    case Text(_, rest) => AsInC(rest, on)
    case Pass(_, rest) => on && AsInC(rest, on)
    case Group(v, body, alts, rest) =>
      && (if on && v == -1 then OnlyPragmas(body) && SameOpen(alts)
          else AsInC(body, on && v != 0) && AltsAsInC(alts, on && v == 0))
      && AsInC(rest, on)
  }

  predicate AltsAsInC(a: Alts, open: bool) {
    match a
    case End => true
    case ElifBranch(v, body, more) => AsInC(body, open && v != 0) && AltsAsInC(more, open && v == 0)
    case ElseBranch(body, more) => AsInC(body, open) && AltsAsInC(more, false)
  }

  /** Further branches that are open to the preprocessor and closed by the rules of C, with no difference. */
  predicate SameOpen(a: Alts) {
    match a
    case End => true
    case ElifBranch(_, _, _) => false
    case ElseBranch(body, more) => body.Nil? && AltsAsInC(more, false)
  }

  lemma SplitLine<T>(x: T, a: seq<T>, x2: T, a2: seq<T>)
    ensures [x] + a == [x2] + a2 <==> x == x2 && a == a2
  {
    if [x] + a == [x2] + a2 {
      var l := [x] + a;
      assert l[0] == x && l[1..] == a;
      assert l[0] == x2 && l[1..] == a2;
    }
  }

  lemma SplitSame<T>(x: T, a: seq<T>, b: seq<T>, x2: T, a2: seq<T>, b2: seq<T>)
    requires |a| == |a2|
    ensures [x] + a + b == [x2] + a2 + b2 <==> x == x2 && a == a2 && b == b2
  {
    if [x] + a + b == [x2] + a2 + b2 {
      var l := [x] + a + b;
      assert l[0] == x && l[1..1 + |a|] == a && l[1 + |a|..] == b;
      assert l[0] == x2 && l[1..1 + |a|] == a2 && l[1 + |a|..] == b2;
    }
  }

  lemma SplitGroup<T>(x: T, a: seq<T>, b: seq<T>, y: T, c: seq<T>, a2: seq<T>, b2: seq<T>, c2: seq<T>)
    requires |a| == |a2| && |b| == |b2|
    ensures [x] + a + b + [y] + c == [x] + a2 + b2 + [y] + c2 <==> a == a2 && b == b2 && c == c2
  {
    assert [x] + a + b + [y] + c == [x] + a + (b + [y] + c);
    assert [x] + a2 + b2 + [y] + c2 == [x] + a2 + (b2 + [y] + c2);
    SplitSame(x, a, b + [y] + c, x, a2, b2 + [y] + c2);
    if b + [y] + c == b2 + [y] + c2 {
      var l := b + [y] + c;
      assert l[..|b|] == b && l[|b| + 1..] == c;
      assert l[..|b|] == b2 && l[|b| + 1..] == c2;
    }
  }

  /** The items do at every line what the rules of C say, exactly if they are as described. */
  lemma {:induction false} SameAsC(i: Items, on: bool)
    ensures Meaning(i, on) == CMeaning(i, on) <==> AsInC(i, on)
    decreases i
  {
    hide Print;
    match i
    case Nil =>
    case Text(x, rest) =>
      SameAsC(rest, on);
      SplitLine(DoIf(on, Emit(x)), Meaning(rest, on), DoIf(on, Emit(x)), CMeaning(rest, on));
    case Pass(x, rest) =>
      SameAsC(rest, on);
      SplitLine([Emit(x)], Meaning(rest, on), DoIf(on, Emit(x)), CMeaning(rest, on));
    case Group(v, body, alts, rest) =>
      SameAsC(rest, on);
      if on && v == -1 {
        SameWithout(body);
        SameClosed(alts);
      } else {
        SameAsC(body, on && v != 0);
        AltsSameAsC(alts, on && v == 0);
      }
      SplitGroup(DoIf(on, Eval(v)), Meaning(body, on && Holds(v)), AltsMeaning(alts, on && !Holds(v)), [],
                 Meaning(rest, on), CMeaning(body, on && v != 0), CAltsMeaning(alts, on && v == 0), CMeaning(rest, on));
  }

  lemma {:induction false} AltsSameAsC(a: Alts, open: bool)
    ensures AltsMeaning(a, open) == CAltsMeaning(a, open) <==> AltsAsInC(a, open)
    decreases a
  {
    hide Print, PrintAlts;
    match a
    case End =>
    case ElifBranch(v, body, more) =>
      SameAsC(body, open && v != 0);
      AltsSameAsC(more, open && v == 0);
      SplitSame(DoIf(open, Eval(v)), Meaning(body, open && v != 0), AltsMeaning(more, open && v == 0),
                DoIf(open, Eval(v)), CMeaning(body, open && v != 0), CAltsMeaning(more, open && v == 0));
    case ElseBranch(body, more) =>
      SameAsC(body, open);
      AltsSameAsC(more, false);
      SplitSame([], Meaning(body, open), AltsMeaning(more, false), [], CMeaning(body, open), CAltsMeaning(more, false));
  }

  /** Items that do the same left out by the preprocessor as taken by the rules of C. */
  lemma {:induction false} SameWithout(i: Items)
    ensures Meaning(i, false) == CMeaning(i, true) <==> OnlyPragmas(i)
  {
    hide Print;
    match i
    case Nil =>
    case Text(x, rest) => assert Meaning(i, false)[0] == [] != CMeaning(i, true)[0];
    case Pass(x, rest) =>
      SameWithout(rest);
      SplitLine([Emit(x)], Meaning(rest, false), DoIf(true, Emit(x)), CMeaning(rest, true));
    case Group(v, body, alts, rest) => assert Meaning(i, false)[0] == [] != CMeaning(i, true)[0];
  }

  /** Items that do the same taken by the preprocessor as left out by the rules of C: none. */
  lemma SameWith(i: Items)
    ensures Meaning(i, true) == CMeaning(i, false) <==> i.Nil?
  {
    if !i.Nil? { assert Meaning(i, true)[0] != [] == CMeaning(i, false)[0]; }
  }

  lemma {:induction false} SameClosed(a: Alts)
    ensures AltsMeaning(a, true) == CAltsMeaning(a, false) <==> SameOpen(a)
    decreases a
  {
    hide Print, PrintAlts;
    match a
    case End =>
    case ElifBranch(v, body, more) => assert AltsMeaning(a, true)[0] != [] == CAltsMeaning(a, false)[0];
    case ElseBranch(body, more) =>
      SameWith(body);
      AltsSameAsC(more, false);
      SplitSame([], Meaning(body, true), AltsMeaning(more, false), [], CMeaning(body, false), CAltsMeaning(more, false));
  }

  /** A file of well-nested directives is handled at every line as C has it, exactly if it is as described. */
  lemma FileAsInC(i: Items)
    ensures RunActs(Counters(0, 0, 0), Print(i)) == CMeaning(i, true) <==> AsInC(i, true)
  {
    hide RunActs, Meaning, CMeaning, AsInC;
    DirectivesMeanGroups(i);
    SameAsC(i, true);
  }

  /** In a group with one line, text is treated as in C exactly if the condition is not -1, and a pragma exactly if it
      is not 0: the preprocessor leaves the text of `#if -1` out, and passes pragmas on from branches it leaves out. */
  lemma DiffersFromC(v: int, x: int)
    ensures RunActs(Counters(0, 0, 0), [If(v), Line(x), Endif]) == CMeaning(Group(v, Text(x, Nil), End, Nil), true)
       <==> v != -1
    ensures RunActs(Counters(0, 0, 0), [If(v), Pragma(x), Endif]) == CMeaning(Group(v, Pass(x, Nil), End, Nil), true)
       <==> v != 0
  {
    hide RunActs, CMeaning;
    assert AsInC(Nil, true) && AsInC(Nil, false) && OnlyPragmas(Nil);
    FileAsInC(Group(v, Text(x, Nil), End, Nil));
    FileAsInC(Group(v, Pass(x, Nil), End, Nil));
    assert Print(Text(x, Nil)) == [Line(x)] && Print(Pass(x, Nil)) == [Pragma(x)] && PrintAlts(End) == [];
    assert Print(Group(v, Text(x, Nil), End, Nil)) == [If(v), Line(x), Endif];
    assert Print(Group(v, Pass(x, Nil), End, Nil)) == [If(v), Pragma(x), Endif];
  }
}

/** The `reenter`, `yield` and `fork` macros written out: nested `for`, `if` and `switch` statements whose
    `case` labels, `break` and `goto` carry control in and out of a coroutine body.

    A small language with these statements is given a step semantics, coroutine bodies are expanded into
    it as the macros expand them, and every call of the expansion is proved to do what `Machine` does. */
module CoroutineMacros {
  import opened Memory
  import opened Coroutines

  datatype Target = Terminate | BailOut

  /** What an `if` of the macros asks of `_coro_value`. */
  datatype Test = NonZero | Is(v: int)

  /** `switch (_coro_value)` and `switch (_coro_value ? 0 : 1)`. */
  datatype Selector = OnValue | OnZero

  datatype Code =
    | Nop
    | Act(a: nat)
    | Set(v: int)
    | Then(s1: Code, s2: Code)
    | IfVar(t: Test, s1: Code, s2: Code)
    | IfCond(c: nat, s1: Code, s2: Code)
    | WhileCond(c: nat, b: Code)
    | DoWhileCond(b: Code, c: nat)
    | Forever(step: Code, b: Code)
    | Break
    | CaseLabel(v: int, s: Code)
    | Switch(sel: Selector, b: Code)
    | Label(l: Target, s: Code)
    | Goto(l: Target)
    | LeaveFunction

  // ---- the expansion ----

  /** `if (_coro_value) goto ...; else` inside a `for (;;)` of its own, behind a `case` label. */
  function Guarded(v: int, l: Target, s: Code): Code {
    CaseLabel(v, IfVar(NonZero, Goto(l), s))
  }

  /** The inner `switch` of a yield: its statement is run from `case 0`; falling out of the statement meets
      `case 1`, a `break` in it meets `case -1`. */
  function YieldStatement(s: Code): Code {
    Forever(Nop, Guarded(-1, Terminate, Forever(Nop, Guarded(1, BailOut, CaseLabel(0, s)))))
  }

  function YieldLoop(n: int, s: Code): Code {
    IfVar(Is(0), Then(CaseLabel(n, Nop), Break), Switch(OnZero, YieldStatement(s)))
  }

  /** `ASIO_CORO_YIELD_IMPL(n) s`. */
  function YieldCode(n: int, s: Code): Code {
    Then(Set(n), Forever(Nop, YieldLoop(n, s)))
  }

  function ForkLoop(n: int, s: Code): Code {
    IfVar(Is(n), Then(CaseLabel(-n, Nop), Break), s)
  }

  /** `ASIO_CORO_FORK_IMPL(n) s`. */
  function ForkCode(n: int, s: Code): Code {
    Then(Set(-n), Forever(Set(n), ForkLoop(n, s)))
  }

  function Expand(s: Stmt): Code {
    match s
    case Skip => Nop
    case Do(a) => Act(a)
    case Seq(s1, s2) => Then(Expand(s1), Expand(s2))
    case If(c, s1, s2) => IfCond(c, Expand(s1), Expand(s2))
    case While(c, b) => WhileCond(c, Expand(b))
    case DoWhile(b, c) => DoWhileCond(Expand(b), c)
    case Yield(n, a) => YieldCode(n, Act(a))
    case YieldBreak(n) => YieldCode(n, Break)
    case Fork(n, a) => ForkCode(n, Act(a))
    case Return => LeaveFunction
  }

  const BAIL := Then(Goto(BailOut), Label(BailOut, Break))
  const TERMINATE := Then(Goto(Terminate), Then(Label(Terminate, Set(-1)), BAIL))

  /** `ASIO_CORO_REENTER(c) body`. */
  function ReenterCode(body: Stmt): Code {
    Switch(OnValue, CaseLabel(-1, IfVar(NonZero, TERMINATE, CaseLabel(0, Expand(body)))))
  }

  // ---- the semantics ----

  /** What is still to be done: a statement to run, a loop to go round again, the end of a `switch`. */
  datatype Frame = Run(s: Code) | Again(step: Code, b: Code) | AgainWhile(c: nat, b: Code) | EndSwitch

  datatype Stack = Empty | Push(top: Frame, rest: Stack)

  /** `break`: out of the innermost loop or `switch`. */
  function BreakFrom(k: Stack): Stack {
    match k
    case Empty => Empty
    case Push(Run(_), rest) => BreakFrom(rest)
    case Push(_, rest) => rest
  }

  /** A jump to `case v` of the `switch` around `s`; the labels of an inner `switch` are its own. */
  function FindCase(s: Code, v: int, k: Stack): Option<Stack> {
    match s
    case CaseLabel(u, s1) => if u == v then Some(Push(Run(s1), k)) else FindCase(s1, v, k)
    case Then(s1, s2) =>
      if FindCase(s1, v, Push(Run(s2), k)).Some? then FindCase(s1, v, Push(Run(s2), k)) else FindCase(s2, v, k)
    case IfVar(_, s1, s2) => if FindCase(s1, v, k).Some? then FindCase(s1, v, k) else FindCase(s2, v, k)
    case IfCond(_, s1, s2) => if FindCase(s1, v, k).Some? then FindCase(s1, v, k) else FindCase(s2, v, k)
    case WhileCond(c, b) => FindCase(b, v, Push(AgainWhile(c, b), k))
    case DoWhileCond(b, c) => FindCase(b, v, Push(AgainWhile(c, b), k))
    case Forever(step, b) => FindCase(b, v, Push(Again(step, b), k))
    case Label(_, s1) => FindCase(s1, v, k)
    case _ => None
  }

  /** A `goto` to a label anywhere in the function. */
  function FindLabel(s: Code, l: Target, k: Stack): Option<Stack> {
    match s
    case Label(l1, s1) => if l1 == l then Some(Push(Run(s1), k)) else FindLabel(s1, l, k)
    case Then(s1, s2) =>
      if FindLabel(s1, l, Push(Run(s2), k)).Some? then FindLabel(s1, l, Push(Run(s2), k)) else FindLabel(s2, l, k)
    case IfVar(_, s1, s2) => if FindLabel(s1, l, k).Some? then FindLabel(s1, l, k) else FindLabel(s2, l, k)
    case IfCond(_, s1, s2) => if FindLabel(s1, l, k).Some? then FindLabel(s1, l, k) else FindLabel(s2, l, k)
    case WhileCond(c, b) => FindLabel(b, l, Push(AgainWhile(c, b), k))
    case DoWhileCond(b, c) => FindLabel(b, l, Push(AgainWhile(c, b), k))
    case Forever(step, b) => FindLabel(b, l, Push(Again(step, b), k))
    case CaseLabel(_, s1) => FindLabel(s1, l, k)
    case Switch(_, b) => FindLabel(b, l, Push(EndSwitch, k))
    case _ => None
  }

  /** A running function: `value` and `modified` are those of its `coroutine_ref`. */
  datatype Exec<S> = Exec(k: Stack, store: S, value: int, modified: bool)

  function Jump(target: Option<Stack>, otherwise: Stack): Stack {
    if target.Some? then target.value else otherwise
  }

  function Holds(t: Test, value: int): bool {
    match t
    case NonZero => value != 0
    case Is(v) => value == v
  }

  function Selected(sel: Selector, value: int): int {
    match sel
    case OnValue => value
    case OnZero => if value != 0 then 0 else 1
  }

  function ExecStep<S>(w: World<S>, program: Code, x: Exec<S>): (Exec<S>, seq<nat>) {
    match x.k
    case Empty => (x, [])
    case Push(EndSwitch, k) => (x.(k := k), [])
    case Push(Again(step, b), k) => (x.(k := Push(Run(step), Push(Run(Forever(step, b)), k))), [])
    case Push(AgainWhile(c, b), k) => (x.(k := Push(Run(WhileCond(c, b)), k)), [])
    case Push(Run(s), k) =>
      match s
      case Nop => (x.(k := k), [])
      case Act(a) => (x.(k := k, store := w.act(a, x.store)), [a])
      case Set(v) => (x.(k := k, value := v, modified := true), [])
      case Then(s1, s2) => (x.(k := Push(Run(s1), Push(Run(s2), k))), [])
      case IfVar(t, s1, s2) => (x.(k := Push(Run(if Holds(t, x.value) then s1 else s2), k)), [])
      case IfCond(c, s1, s2) => (x.(k := Push(Run(if w.test(c, x.store, x.value < 0) then s1 else s2), k)), [])
      case WhileCond(c, b) =>
        (if w.test(c, x.store, x.value < 0) then x.(k := Push(Run(b), Push(AgainWhile(c, b), k))) else x.(k := k), [])
      case DoWhileCond(b, c) => (x.(k := Push(Run(b), Push(AgainWhile(c, b), k))), [])
      case Forever(step, b) => (x.(k := Push(Run(b), Push(Again(step, b), k))), [])
      case Break => (x.(k := BreakFrom(k)), [])
      case CaseLabel(_, s1) => (x.(k := Push(Run(s1), k)), [])
      case Switch(sel, b) => (x.(k := Jump(FindCase(b, Selected(sel, x.value), Push(EndSwitch, k)), k)), [])
      case Label(_, s1) => (x.(k := Push(Run(s1), k)), [])
      case Goto(l) => (x.(k := Jump(FindLabel(program, l, Empty), Empty)), [])
      case LeaveFunction => (x.(k := Empty), [])
  }

  function ExecRun<S>(w: World<S>, program: Code, x: Exec<S>, n: nat): (Exec<S>, seq<nat>)
    decreases n
  {
    if n == 0 then (x, [])
    else
      var (x1, e1) := ExecStep(w, program, x);
      var (x2, e2) := ExecRun(w, program, x1, n - 1);
      (x2, e1 + e2)
  }

  /** `x` comes to `y`, performing the statements `e` on the way. */
  ghost predicate Reaches<S>(w: World<S>, program: Code, x: Exec<S>, y: Exec<S>, e: seq<nat>) {
    exists n: nat :: ExecRun(w, program, x, n) == (y, e)
  }

  lemma Stay<S>(w: World<S>, program: Code, x: Exec<S>)
    ensures Reaches(w, program, x, x, [])
  {
    assert ExecRun(w, program, x, 0) == (x, []);
  }

  /** A step and then whatever follows it. */
  lemma Go<S>(w: World<S>, program: Code, x: Exec<S>, y: Exec<S>, z: Exec<S>, e: seq<nat>)
    requires ExecStep(w, program, x).0 == y && Reaches(w, program, y, z, e)
    ensures Reaches(w, program, x, z, ExecStep(w, program, x).1 + e)
    ensures ExecStep(w, program, x).1 == [] ==> Reaches(w, program, x, z, e)
  {
    var n: nat :| ExecRun(w, program, y, n) == (z, e);
    assert ExecRun(w, program, x, n + 1) == (z, ExecStep(w, program, x).1 + e);
    assert [] + e == e;
  }

  lemma {:induction false} ExecSplit<S>(w: World<S>, program: Code, x: Exec<S>, i: nat, j: nat)
    ensures var (y, e) := ExecRun(w, program, x, i);
      var (z, f) := ExecRun(w, program, y, j);
      ExecRun(w, program, x, i + j) == (z, e + f)
    decreases i
  {
    if i == 0 {
      assert [] + ExecRun(w, program, x, j).1 == ExecRun(w, program, x, j).1;
    } else {
      var (x1, e1) := ExecStep(w, program, x);
      ExecSplit(w, program, x1, i - 1, j);
      var (y, e) := ExecRun(w, program, x1, i - 1);
      Assoc(e1, e, ExecRun(w, program, y, j).1);
    }
  }

  lemma Chain<S>(w: World<S>, program: Code, x: Exec<S>, y: Exec<S>, e: seq<nat>, z: Exec<S>, f: seq<nat>)
    requires Reaches(w, program, x, y, e) && Reaches(w, program, y, z, f)
    ensures Reaches(w, program, x, z, e + f)
  {
    var i: nat :| ExecRun(w, program, x, i) == (y, e);
    var j: nat :| ExecRun(w, program, y, j) == (z, f);
    ExecSplit(w, program, x, i, j);
  }

  // ---- the jumps of the macros ----

  function InnerLoop(s: Code): Code {
    Guarded(1, BailOut, CaseLabel(0, s))
  }

  function OuterLoop(s: Code): Code {
    Guarded(-1, Terminate, Forever(Nop, InnerLoop(s)))
  }

  /** What surrounds the statement of a yield while it runs. */
  function AroundStatement(n: int, s: Code, k: Stack): Stack {
    Push(Again(Nop, InnerLoop(s)), Push(Again(Nop, OuterLoop(s)), Push(EndSwitch, Push(Again(Nop, YieldLoop(n, s)), k))))
  }

  /** The inner `switch` of a yield jumps past both guards to the statement. */
  lemma InnerSwitch(n: int, s: Code, k: Stack)
    ensures FindCase(YieldStatement(s), 0, Push(EndSwitch, Push(Again(Nop, YieldLoop(n, s)), k)))
         == Some(Push(Run(s), AroundStatement(n, s, k)))
  {
    var k0 := Push(EndSwitch, Push(Again(Nop, YieldLoop(n, s)), k));
    var k1 := Push(Again(Nop, OuterLoop(s)), k0);
    var k2 := Push(Again(Nop, InnerLoop(s)), k1);
    assert FindCase(CaseLabel(0, s), 0, k2) == Some(Push(Run(s), k2));
    assert FindCase(IfVar(NonZero, Goto(BailOut), CaseLabel(0, s)), 0, k2) == Some(Push(Run(s), k2));
    assert FindCase(InnerLoop(s), 0, k2) == Some(Push(Run(s), k2));
    assert FindCase(Forever(Nop, InnerLoop(s)), 0, k1) == Some(Push(Run(s), k2));
    assert FindCase(IfVar(NonZero, Goto(Terminate), Forever(Nop, InnerLoop(s))), 0, k1) == Some(Push(Run(s), k2));
    assert FindCase(OuterLoop(s), 0, k1) == Some(Push(Run(s), k2));
  }

  lemma GotoTargets(body: Stmt)
    ensures FindLabel(ReenterCode(body), BailOut, Empty) == Some(Push(Run(Break), Push(EndSwitch, Empty)))
    ensures FindLabel(ReenterCode(body), Terminate, Empty)
         == Some(Push(Run(Set(-1)), Push(Run(BAIL), Push(EndSwitch, Empty))))
  {
    var k := Push(EndSwitch, Empty);
    assert FindLabel(BAIL, BailOut, k) == Some(Push(Run(Break), k)) by {
      assert FindLabel(Goto(BailOut), BailOut, Push(Run(Label(BailOut, Break)), k)) == None;
    }
    var t := Then(Label(Terminate, Set(-1)), BAIL);
    assert FindLabel(Label(Terminate, Set(-1)), BailOut, Push(Run(BAIL), k)) == None;
    assert FindLabel(t, BailOut, k) == Some(Push(Run(Break), k));
    assert FindLabel(t, Terminate, k) == Some(Push(Run(Set(-1)), Push(Run(BAIL), k)));
    assert FindLabel(TERMINATE, BailOut, k) == Some(Push(Run(Break), k));
    assert FindLabel(TERMINATE, Terminate, k) == Some(Push(Run(Set(-1)), Push(Run(BAIL), k)));
    var choice := IfVar(NonZero, TERMINATE, CaseLabel(0, Expand(body)));
    assert FindLabel(choice, BailOut, k) == FindLabel(TERMINATE, BailOut, k);
    assert FindLabel(choice, Terminate, k) == FindLabel(TERMINATE, Terminate, k);
    assert forall l :: FindLabel(CaseLabel(-1, choice), l, k) == FindLabel(choice, l, k);
  }

  lemma BailOutEnds<S>(w: World<S>, body: Stmt, x: Exec<S>)
    requires x.k.Push? && x.k.top == Run(Goto(BailOut))
    ensures Reaches(w, ReenterCode(body), x, x.(k := Empty), [])
  {
    var p := ReenterCode(body);
    GotoTargets(body);
    hide FindLabel, ReenterCode, Reaches;
    var x1 := x.(k := Push(Run(Break), Push(EndSwitch, Empty)));
    Stay(w, p, x.(k := Empty));
    Go(w, p, x1, x.(k := Empty), x.(k := Empty), []);
    Go(w, p, x, x1, x.(k := Empty), []);
  }

  lemma TerminateEnds<S>(w: World<S>, body: Stmt, x: Exec<S>)
    requires x.k.Push? && x.k.top == Run(Goto(Terminate))
    ensures Reaches(w, ReenterCode(body), x, Exec(Empty, x.store, -1, true), [])
  {
    var p := ReenterCode(body);
    GotoTargets(body);
    var end := Push(EndSwitch, Empty);
    var x1 := x.(k := Push(Run(Set(-1)), Push(Run(BAIL), end)));
    var x2 := Exec(Push(Run(BAIL), end), x.store, -1, true);
    var x3 := x2.(k := Push(Run(Goto(BailOut)), Push(Run(Label(BailOut, Break)), end)));
    hide FindLabel, ReenterCode, Reaches;
    BailOutEnds(w, body, x3);
    Go(w, p, x2, x3, x2.(k := Empty), []);
    Go(w, p, x1, x2, x2.(k := Empty), []);
    Go(w, p, x, x1, x2.(k := Empty), []);
  }

  /** Going round a guarded loop with a non-zero value jumps to its target. */
  lemma GuardJumps<S>(w: World<S>, p: Code, v: int, l: Target, s: Code, k: Stack, x: Exec<S>, z: Exec<S>)
    requires x.k == Push(Again(Nop, Guarded(v, l, s)), k) && x.value != 0
    requires Reaches(w, p, x.(k := Push(Run(Goto(l)), Push(Again(Nop, Guarded(v, l, s)), k))), z, [])
    ensures Reaches(w, p, x, z, [])
  {
    hide Reaches;
    var loop := Guarded(v, l, s);
    var x1 := x.(k := Push(Run(Nop), Push(Run(Forever(Nop, loop)), k)));
    var x2 := x.(k := Push(Run(Forever(Nop, loop)), k));
    var x3 := x.(k := Push(Run(loop), x.k));
    var x4 := x.(k := Push(Run(IfVar(NonZero, Goto(l), s)), x.k));
    var x5 := x.(k := Push(Run(Goto(l)), x.k));
    Go(w, p, x4, x5, z, []);
    Go(w, p, x3, x4, z, []);
    Go(w, p, x2, x3, z, []);
    Go(w, p, x1, x2, z, []);
    Go(w, p, x, x1, z, []);
  }

  /** From a yield to its statement, with the value saved. */
  lemma YieldStarts<S>(w: World<S>, p: Code, n: int, s: Code, k: Stack, x: Exec<S>, z: Exec<S>, e: seq<nat>)
    requires n > 0 && x.k == Push(Run(YieldCode(n, s)), k)
    requires Reaches(w, p, Exec(Push(Run(s), AroundStatement(n, s, k)), x.store, n, true), z, e)
    ensures Reaches(w, p, x, z, e)
  {
    InnerSwitch(n, s, k);
    hide Reaches, FindCase, AroundStatement;
    var loop := YieldLoop(n, s);
    var x1 := x.(k := Push(Run(Set(n)), Push(Run(Forever(Nop, loop)), k)));
    var x2 := Exec(Push(Run(Forever(Nop, loop)), k), x.store, n, true);
    var x3 := x2.(k := Push(Run(loop), Push(Again(Nop, loop), k)));
    var x4 := x2.(k := Push(Run(Switch(OnZero, YieldStatement(s))), Push(Again(Nop, loop), k)));
    var x5 := x2.(k := Push(Run(s), AroundStatement(n, s, k)));
    Go(w, p, x4, x5, z, e);
    Go(w, p, x3, x4, z, e);
    Go(w, p, x2, x3, z, e);
    Go(w, p, x1, x2, z, e);
    Go(w, p, x, x1, z, e);
  }

  /** `yield statement` saves its number, runs the statement and leaves the function. */
  lemma YieldLeaves<S>(w: World<S>, body: Stmt, n: int, a: nat, k: Stack, x: Exec<S>)
    requires n > 0 && x.k == Push(Run(YieldCode(n, Act(a))), k)
    ensures Reaches(w, ReenterCode(body), x, Exec(Empty, w.act(a, x.store), n, true), [a])
  {
    var p, around := ReenterCode(body), AroundStatement(n, Act(a), k);
    var x1 := Exec(Push(Run(Act(a)), around), x.store, n, true);
    var x2 := Exec(around, w.act(a, x.store), n, true);
    var z := x2.(k := Empty);
    hide Reaches, ReenterCode;
    BailOutEnds(w, body, x2.(k := Push(Run(Goto(BailOut)), around)));
    GuardJumps(w, p, 1, BailOut, CaseLabel(0, Act(a)), around.rest, x2, z);
    Go(w, p, x1, x2, z, []);
    assert [a] + [] == [a];
    YieldStarts(w, p, n, Act(a), k, x, z, [a]);
  }

  /** `yield return e` saves its number, evaluates `e` and returns from the function, keeping the number. */
  lemma YieldReturnLeaves<S>(w: World<S>, p: Code, n: int, a: nat, k: Stack, x: Exec<S>)
    requires n > 0 && x.k == Push(Run(YieldCode(n, Then(Act(a), LeaveFunction))), k)
    ensures Reaches(w, p, x, Exec(Empty, w.act(a, x.store), n, true), [a])
  {
    hide Reaches;
    var s := Then(Act(a), LeaveFunction);
    var around := AroundStatement(n, s, k);
    var x1 := Exec(Push(Run(s), around), x.store, n, true);
    var x2 := x1.(k := Push(Run(Act(a)), Push(Run(LeaveFunction), around)));
    var x3 := Exec(Push(Run(LeaveFunction), around), w.act(a, x.store), n, true);
    var z := x3.(k := Empty);
    Stay(w, p, z);
    Go(w, p, x3, z, z, []);
    Go(w, p, x2, x3, z, []);
    assert [a] + [] == [a];
    Go(w, p, x1, x2, z, [a]);
    YieldStarts(w, p, n, s, k, x, z, [a]);
  }

  /** `yield break` leaves the function with the value -1: the `break` ends the inner loop, and the outer one
      goes round to `case -1`. */
  lemma YieldBreakLeaves<S>(w: World<S>, body: Stmt, n: int, k: Stack, x: Exec<S>)
    requires n > 0 && x.k == Push(Run(YieldCode(n, Break)), k)
    ensures Reaches(w, ReenterCode(body), x, Exec(Empty, x.store, -1, true), [])
  {
    var p, around := ReenterCode(body), AroundStatement(n, Break, k);
    var x1 := Exec(Push(Run(Break), around), x.store, n, true);
    var x2 := x1.(k := around.rest);
    var z := Exec(Empty, x.store, -1, true);
    hide Reaches, ReenterCode;
    TerminateEnds(w, body, x2.(k := Push(Run(Goto(Terminate)), around.rest)));
    GuardJumps(w, p, -1, Terminate, Forever(Nop, InnerLoop(Break)), around.rest.rest, x2, z);
    Go(w, p, x1, x2, z, []);
    YieldStarts(w, p, n, Break, k, x, z, []);
  }

  /** `fork statement` runs the statement under the negated number, saves the number itself and goes on. */
  lemma ForkGoesOn<S>(w: World<S>, p: Code, n: int, a: nat, k: Stack, x: Exec<S>)
    requires n > 1 && x.k == Push(Run(ForkCode(n, Act(a))), k)
    ensures Reaches(w, p, x, Exec(k, w.act(a, x.store), n, true), [a])
  {
    hide Reaches;
    var loop, t := ForkLoop(n, Act(a)), w.act(a, x.store);
    var again := Push(Again(Set(n), loop), k);
    var x1 := x.(k := Push(Run(Set(-n)), Push(Run(Forever(Set(n), loop)), k)));
    var x2 := Exec(Push(Run(Forever(Set(n), loop)), k), x.store, -n, true);
    var x3 := x2.(k := Push(Run(loop), again));
    var x4 := x2.(k := Push(Run(Act(a)), again));
    var x5 := Exec(again, t, -n, true);
    var x6 := x5.(k := Push(Run(Set(n)), Push(Run(Forever(Set(n), loop)), k)));
    var x7 := Exec(Push(Run(Forever(Set(n), loop)), k), t, n, true);
    var x8 := x7.(k := Push(Run(loop), again));
    var x9 := x7.(k := Push(Run(Then(CaseLabel(-n, Nop), Break)), again));
    var x10 := x7.(k := Push(Run(CaseLabel(-n, Nop)), Push(Run(Break), again)));
    var z := x7.(k := k);
    LabelFallsThrough(w, p, -n, again, x10, z);
    Go(w, p, x9, x10, z, []);
    Go(w, p, x8, x9, z, []);
    Go(w, p, x7, x8, z, []);
    Go(w, p, x6, x7, z, []);
    Go(w, p, x5, x6, z, []);
    Go(w, p, x4, x5, z, []);
    assert [a] + [] == [a];
    Go(w, p, x3, x4, z, [a]);
    Go(w, p, x2, x3, z, [a]);
    Go(w, p, x1, x2, z, [a]);
    Go(w, p, x, x1, z, [a]);
  }

  /** `case v: ; break;` at the resume point of a yield or fork leaves the loop of its macro. */
  lemma LabelFallsThrough<S>(w: World<S>, p: Code, v: int, k: Stack, x: Exec<S>, z: Exec<S>)
    requires k.Push? && k.top.Again? && z == x.(k := k.rest)
    requires x.k == Push(Run(CaseLabel(v, Nop)), Push(Run(Break), k)) || x.k == Push(Run(Nop), Push(Run(Break), k))
    ensures Reaches(w, p, x, z, [])
  {
    hide Reaches;
    var x1 := x.(k := Push(Run(Nop), Push(Run(Break), k)));
    var x2 := x.(k := Push(Run(Break), k));
    Stay(w, p, z);
    Go(w, p, x2, z, z, []);
    Go(w, p, x1, x2, z, []);
    if x != x1 {
      Go(w, p, x, x1, z, []);
    }
  }

  // ---- the machine and the expansion ----

  /** A frame that still has `s` to run: the statement itself, or a loop about to go round again. */
  ghost predicate Shows(s: Stmt, f: Frame) {
    f == Run(Expand(s)) || (s.While? && f == AgainWhile(s.c, Expand(s.body)))
  }

  ghost predicate ShowsAll(k: seq<Stmt>, st: Stack) {
    if k == [] then st == Push(EndSwitch, Empty)
    else st.Push? && Shows(k[0], st.top) && ShowsAll(k[1..], st.rest)
  }

  lemma ShowsPush(s: Stmt, k: seq<Stmt>, f: Frame, st: Stack)
    requires Shows(s, f) && ShowsAll(k, st)
    ensures ShowsAll([s] + k, Push(f, st))
  {
    assert ([s] + k)[1..] == k;
  }

  /** A jump to a resume point, with `k` to run once the macro's loop has been left. */
  ghost predicate Lands(o: Option<Stack>, k: seq<Stmt>) {
    && o.Some? && o.value.Push? && o.value.top == Run(Nop)
    && o.value.rest.Push? && o.value.rest.top == Run(Break)
    && o.value.rest.rest.Push? && o.value.rest.rest.top.Again?
    && ShowsAll(k, o.value.rest.rest.rest)
  }

  lemma FindInYield(n: int, s: Code, v: int, k: Stack)
    ensures FindCase(YieldCode(n, s), v, k)
         == if v == n then Some(Push(Run(Nop), Push(Run(Break), Push(Again(Nop, YieldLoop(n, s)), k)))) else None
  {
    var k1 := Push(Again(Nop, YieldLoop(n, s)), k);
    var resume := Then(CaseLabel(n, Nop), Break);
    assert FindCase(CaseLabel(n, Nop), v, Push(Run(Break), k1))
        == if v == n then Some(Push(Run(Nop), Push(Run(Break), k1))) else None;
    assert FindCase(resume, v, k1) == FindCase(CaseLabel(n, Nop), v, Push(Run(Break), k1));
    assert FindCase(YieldLoop(n, s), v, k1) == FindCase(resume, v, k1);
    assert FindCase(Forever(Nop, YieldLoop(n, s)), v, k) == FindCase(YieldLoop(n, s), v, k1);
  }

  lemma FindInFork(n: int, a: nat, v: int, k: Stack)
    ensures FindCase(ForkCode(n, Act(a)), v, k)
         == if v == -n then Some(Push(Run(Nop), Push(Run(Break), Push(Again(Set(n), ForkLoop(n, Act(a))), k)))) else None
  {
    var k1 := Push(Again(Set(n), ForkLoop(n, Act(a))), k);
    var resume := Then(CaseLabel(-n, Nop), Break);
    assert FindCase(CaseLabel(-n, Nop), v, Push(Run(Break), k1))
        == if v == -n then Some(Push(Run(Nop), Push(Run(Break), k1))) else None;
    assert FindCase(resume, v, k1) == FindCase(CaseLabel(-n, Nop), v, Push(Run(Break), k1));
    assert FindCase(ForkLoop(n, Act(a)), v, k1) == FindCase(resume, v, k1);
    assert FindCase(Forever(Set(n), ForkLoop(n, Act(a))), v, k) == FindCase(ForkLoop(n, Act(a)), v, k1);
  }

  /** The outer `switch` finds a label in the expansion of a statement exactly when the statement has one, and
      then what it leaves to run is what `CaseTarget` says. */
  lemma {:induction false} JumpLands(s: Stmt, v: int, k: seq<Stmt>, st: Stack)
    requires ShowsAll(k, st)
    ensures CaseTarget(s, v) == None ==> FindCase(Expand(s), v, st) == None
    ensures CaseTarget(s, v).Some? ==> Lands(FindCase(Expand(s), v, st), CaseTarget(s, v).value + k)
    decreases s, 1
  {
    if s.Yield? || s.YieldBreak? || s.Fork? {
      ResumePointLands(s, v, k, st);
    } else {
      JumpLandsInside(s, v, k, st);
    }
  }

  lemma ResumePointLands(s: Stmt, v: int, k: seq<Stmt>, st: Stack)
    requires ShowsAll(k, st) && (s.Yield? || s.YieldBreak? || s.Fork?)
    ensures CaseTarget(s, v) == None ==> FindCase(Expand(s), v, st) == None
    ensures CaseTarget(s, v).Some? ==> Lands(FindCase(Expand(s), v, st), CaseTarget(s, v).value + k)
  {
    assert [] + k == k;
    match s
    case Yield(n, a) => FindInYield(n, Act(a), v, st);
    case YieldBreak(n) => FindInYield(n, Break, v, st);
    case Fork(n, a) => FindInFork(n, a, v, st);
  }

  lemma {:induction false} JumpLandsInside(s: Stmt, v: int, k: seq<Stmt>, st: Stack)
    requires ShowsAll(k, st) && !s.Yield? && !s.YieldBreak? && !s.Fork?
    ensures CaseTarget(s, v) == None ==> FindCase(Expand(s), v, st) == None
    ensures CaseTarget(s, v).Some? ==> Lands(FindCase(Expand(s), v, st), CaseTarget(s, v).value + k)
    decreases s, 0
  {
    hide Lands, ShowsAll, YieldCode, ForkCode;
    match s
    case Seq(s1, s2) =>
      ShowsPush(s2, k, Run(Expand(s2)), st);
      JumpLands(s1, v, [s2] + k, Push(Run(Expand(s2)), st));
      JumpLands(s2, v, k, st);
      if CaseTarget(s1, v).Some? {
        Assoc(CaseTarget(s1, v).value, [s2], k);
      }
    case If(_, s1, s2) =>
      JumpLands(s1, v, k, st);
      JumpLands(s2, v, k, st);
    case While(c, b) =>
      ShowsPush(s, k, AgainWhile(c, Expand(b)), st);
      JumpLands(b, v, [s] + k, Push(AgainWhile(c, Expand(b)), st));
      if CaseTarget(b, v).Some? {
        Assoc(CaseTarget(b, v).value, [s], k);
      }
    case DoWhile(b, c) =>
      ShowsPush(While(c, b), k, AgainWhile(c, Expand(b)), st);
      JumpLands(b, v, [While(c, b)] + k, Push(AgainWhile(c, Expand(b)), st));
      if CaseTarget(b, v).Some? {
        Assoc(CaseTarget(b, v).value, [While(c, b)], k);
      }
    case _ =>
  }

  /** The running function stands where the machine stands; a suspended machine is a function that has
      ended, seen after the destructor of its `coroutine_ref`. */
  ghost predicate Stands<S>(x: Exec<S>, m: Machine<S>) {
    match m
    case Running(k, store, value, modified) =>
      ShowsAll(k, x.k) && x.store == store && x.value == value && x.modified == modified
    case Suspended(_, _) => x.k == Empty && Leave(x.store, x.value, x.modified) == m
  }

  /** Every step of the machine inside a body is some steps of the expansion, with the same effect. */
  lemma StepExpands<S>(w: World<S>, body: Stmt, m: Machine<S>, x: Exec<S>) returns (y: Exec<S>)
    requires WellNumbered(body) && Reachable(body, m) && m.Running? && Stands(x, m)
    ensures Reaches(w, ReenterCode(body), x, y, MachineStep(w, body, m).1) && Stands(y, MachineStep(w, body, m).0)
  {
    var p := ReenterCode(body);
    hide Reaches, ReenterCode, FindCase, FindLabel, CaseTarget;
    if m.k == [] {
      y := x.(k := Empty);
      Stay(w, p, y);
      Go(w, p, x, y, y, []);
    } else {
      var s, rest, st := m.k[0], m.k[1..], x.k.rest;
      assert m.k == [s] + rest;
      NumberPositive(body, s, rest);
      match s
      case Yield(n, a) =>
        YieldLeaves(w, body, n, a, st, x);
        y := Exec(Empty, w.act(a, x.store), n, true);
      case YieldBreak(n) =>
        YieldBreakLeaves(w, body, n, st, x);
        y := Exec(Empty, x.store, -1, true);
      case Fork(n, a) =>
        ForkGoesOn(w, p, n, a, st, x);
        y := Exec(st, w.act(a, x.store), n, true);
      case While(c, b) =>
        y := WhileExpands(w, p, body, m, x, s, rest);
      case _ =>
        y := PlainExpands(w, p, body, m, x, s, rest);
    }
  }

  /** The statements that are expanded into themselves take one step on both sides. */
  lemma PlainExpands<S>(w: World<S>, p: Code, body: Stmt, m: Machine<S>, x: Exec<S>, s: Stmt, rest: seq<Stmt>)
    returns (y: Exec<S>)
    requires m.Running? && Stands(x, m) && m.k == [s] + rest
    requires !s.Yield? && !s.YieldBreak? && !s.Fork? && !s.While?
    ensures Reaches(w, p, x, y, MachineStep(w, body, m).1) && Stands(y, MachineStep(w, body, m).0)
  {
    hide *;
    y := ExecStep(w, p, x).0;
    PlainSteps(w, p, body, m, x, s, rest);
    Stay(w, p, y);
    Go(w, p, x, y, y, []);
    assert ExecStep(w, p, x).1 + [] == ExecStep(w, p, x).1;
  }

  lemma PlainSteps<S>(w: World<S>, p: Code, body: Stmt, m: Machine<S>, x: Exec<S>, s: Stmt, rest: seq<Stmt>)
    requires m.Running? && Stands(x, m) && m.k == [s] + rest
    requires !s.Yield? && !s.YieldBreak? && !s.Fork? && !s.While?
    ensures ExecStep(w, p, x).1 == MachineStep(w, body, m).1
    ensures Stands(ExecStep(w, p, x).0, MachineStep(w, body, m).0)
  {
    hide FindCase, FindLabel, CaseTarget, BreakFrom, YieldCode, ForkCode, ShowsAll, Shows;
    assert m.k[0] == s && m.k[1..] == rest;
    TopShows(s, rest, m.k, x.k);
    PartsShow(s, rest, x.k.rest);
  }

  lemma TopShows(s: Stmt, rest: seq<Stmt>, k: seq<Stmt>, st: Stack)
    requires ShowsAll(k, st) && k == [s] + rest
    ensures st.Push? && ShowsAll(rest, st.rest) && (!s.While? ==> st.top == Run(Expand(s)))
  {
  }

  lemma PartsShow(s: Stmt, rest: seq<Stmt>, st: Stack)
    requires ShowsAll(rest, st)
    ensures s.Seq? ==> ShowsAll([s.s1, s.s2] + rest, Push(Run(Expand(s.s1)), Push(Run(Expand(s.s2)), st)))
    ensures s.If? ==> ShowsAll([s.thn] + rest, Push(Run(Expand(s.thn)), st))
    ensures s.If? ==> ShowsAll([s.els] + rest, Push(Run(Expand(s.els)), st))
    ensures s.DoWhile? ==> ShowsAll([s.body, While(s.c, s.body)] + rest,
                                    Push(Run(Expand(s.body)), Push(AgainWhile(s.c, Expand(s.body)), st)))
  {
    match s
    case Seq(s1, s2) =>
      ShowsPush(s2, rest, Run(Expand(s2)), st);
      ShowsPush(s1, [s2] + rest, Run(Expand(s1)), Push(Run(Expand(s2)), st));
      assert [s1] + ([s2] + rest) == [s1, s2] + rest;
    case If(_, s1, s2) =>
      ShowsPush(s1, rest, Run(Expand(s1)), st);
      ShowsPush(s2, rest, Run(Expand(s2)), st);
    case DoWhile(b, c) =>
      ShowsPush(While(c, b), rest, AgainWhile(c, Expand(b)), st);
      ShowsPush(b, [While(c, b)] + rest, Run(Expand(b)), Push(AgainWhile(c, Expand(b)), st));
      assert [b] + ([While(c, b)] + rest) == [b, While(c, b)] + rest;
    case _ =>
  }

  /** A loop tests its condition at once, or after going round again. */
  lemma WhileExpands<S>(w: World<S>, p: Code, body: Stmt, m: Machine<S>, x: Exec<S>, s: Stmt, rest: seq<Stmt>)
    returns (y: Exec<S>)
    requires m.Running? && Stands(x, m) && m.k == [s] + rest && s.While?
    ensures Reaches(w, p, x, y, []) && Stands(y, MachineStep(w, body, m).0) && MachineStep(w, body, m).1 == []
  {
    hide Reaches;
    var b, st := Expand(s.body), x.k.rest;
    var x1 := x.(k := Push(Run(WhileCond(s.c, b)), st));
    assert m.k[1..] == rest;
    if w.test(s.c, x.store, x.value < 0) {
      y := x.(k := Push(Run(b), Push(AgainWhile(s.c, b), st)));
      ShowsPush(s, rest, AgainWhile(s.c, b), st);
      ShowsPush(s.body, m.k, Run(b), Push(AgainWhile(s.c, b), st));
    } else {
      y := x.(k := st);
    }
    Stay(w, p, y);
    Go(w, p, x1, y, y, []);
    if x != x1 {
      Go(w, p, x, x1, y, []);
    }
  }

  /** The function at the moment of a call. */
  function Call<S>(body: Stmt, store: S, value: int): Exec<S> {
    Exec(Push(Run(ReenterCode(body)), Empty), store, value, false)
  }

  /** The outer `switch`: a call with any saved value comes to where reentering puts the machine. */
  lemma CallEnters<S>(w: World<S>, body: Stmt, store: S, value: int) returns (y: Exec<S>)
    requires WellNumbered(body)
    ensures Reaches(w, ReenterCode(body), Call(body, store, value), y, [])
    ensures Stands(y, MachineStep(w, body, Suspended(value, store)).0)
  {
    var p, x := ReenterCode(body), Call(body, store, value);
    var end := Push(EndSwitch, Empty);
    var choice := IfVar(NonZero, TERMINATE, CaseLabel(0, Expand(body)));
    OuterSwitch(body, value, end);
    if value == -1 {
      var x1 := x.(k := Push(Run(choice), end));
      var x2 := x.(k := Push(Run(TERMINATE), end));
      var x3 := x.(k := Push(Run(Goto(Terminate)), Push(Run(Then(Label(Terminate, Set(-1)), BAIL)), end)));
      y := Exec(Empty, store, -1, true);
      hide Reaches, FindLabel;
      TerminateEnds(w, body, x3);
      Go(w, p, x2, x3, y, []);
      Go(w, p, x1, x2, y, []);
      Go(w, p, x, x1, y, []);
    } else if value == 0 {
      y := x.(k := Push(Run(Expand(body)), end));
      ShowsPush(body, [], Run(Expand(body)), end);
      assert [body] + [] == [body];
      Stay(w, p, y);
      Go(w, p, x, y, y, []);
    } else {
      JumpLands(body, value, [], end);
      var target := FindCase(Expand(body), value, end);
      if target == None {
        y := x.(k := Empty);
        Stay(w, p, y);
        Go(w, p, x, y, y, []);
      } else {
        var k := CaseTarget(body, value).value;
        assert k + [] == k;
        y := x.(k := target.value.rest.rest.rest);
        hide Reaches;
        LabelFallsThrough(w, p, value, target.value.rest.rest, x.(k := target.value), y);
        Go(w, p, x, x.(k := target.value), y, []);
      }
    }
  }

  lemma OuterSwitch(body: Stmt, value: int, k: Stack)
    ensures var choice := IfVar(NonZero, TERMINATE, CaseLabel(0, Expand(body)));
      FindCase(CaseLabel(-1, choice), value, k)
         == if value == -1 then Some(Push(Run(choice), k))
            else if value == 0 then Some(Push(Run(Expand(body)), k))
            else FindCase(Expand(body), value, k)
  {
    var choice := IfVar(NonZero, TERMINATE, CaseLabel(0, Expand(body)));
    assert FindCase(BAIL, value, k) == None by {
      assert FindCase(Label(BailOut, Break), value, k) == FindCase(Break, value, k);
    }
    var t := Then(Label(Terminate, Set(-1)), BAIL);
    assert FindCase(Label(Terminate, Set(-1)), value, Push(Run(BAIL), k)) == FindCase(Set(-1), value, Push(Run(BAIL), k));
    assert FindCase(t, value, k) == None;
    assert FindCase(TERMINATE, value, k) == None;
    assert FindCase(choice, value, k) == FindCase(CaseLabel(0, Expand(body)), value, k);
  }

  /** While the machine stays inside the body, the expansion keeps up with it. */
  lemma {:induction false} StayExpands<S>(w: World<S>, body: Stmt, m: Machine<S>, x: Exec<S>, n: nat) returns (y: Exec<S>)
    requires WellNumbered(body) && Reachable(body, m) && Stands(x, m) && m.Running?
    requires n > 0 ==> StaysInside(w, body, m, n - 1)
    ensures Reaches(w, ReenterCode(body), x, y, RunMachine(w, body, m, n).1) && Stands(y, RunMachine(w, body, m, n).0)
    decreases n
  {
    var p := ReenterCode(body);
    hide Reaches, Stands, Reachable, MachineStep, ReenterCode;
    if n == 0 {
      y := x;
      NoSteps(w, body, m);
      Stay(w, p, x);
    } else {
      var (m1, e1) := MachineStep(w, body, m);
      var x1 := StepExpands(w, body, m, x);
      StepReachable(w, body, m);
      if n == 1 {
        y := x1;
        OneStep(w, body, m);
      } else {
        y := StayExpands(w, body, m1, x1, n - 1);
        Chain(w, p, x, x1, e1, y, RunMachine(w, body, m1, n - 1).1);
      }
    }
  }

  /** The macros do what the machine does: a call of the expanded function with any saved value follows the
      machine for as long as it stays inside the body, and when the machine leaves, the function ends with
      the same statements performed, the same state, and the same value saved by the destructor. */
  lemma CallExpands<S>(w: World<S>, body: Stmt, store: S, value: int, n: nat) returns (y: Exec<S>)
    requires WellNumbered(body) && n > 0
    requires n > 1 ==> StaysInside(w, body, MachineStep(w, body, Suspended(value, store)).0, n - 2)
    ensures var (m, e) := RunMachine(w, body, Suspended(value, store), n);
      Reaches(w, ReenterCode(body), Call(body, store, value), y, e) && Stands(y, m)
  {
    var p, m0: Machine<S> := ReenterCode(body), Suspended(value, store);
    var m1 := MachineStep(w, body, m0).0;
    hide Reaches, Stands, Reachable, ReenterCode, CaseTarget;
    var x1 := CallEnters(w, body, store, value);
    FirstStep(w, body, m0);
    if n == 1 {
      y := x1;
    } else {
      assert Reachable(body, m0) by { SuspendedReachable(body, m0); }
      StepReachable(w, body, m0);
      y := StayExpands(w, body, m1, x1, n - 1);
      RunSplit(w, body, m0, 1, n - 1);
      Chain(w, p, Call(body, store, value), x1, [], y, RunMachine(w, body, m1, n - 1).1);
    }
  }

  lemma SuspendedReachable<S>(body: Stmt, m: Machine<S>)
    requires m.Suspended?
    ensures Reachable(body, m)
  {
  }

  /** A call ends in one way only. */
  lemma EndIsUnique<S>(w: World<S>, program: Code, x: Exec<S>, y: Exec<S>, e: seq<nat>, z: Exec<S>, f: seq<nat>)
    requires Reaches(w, program, x, y, e) && y.k == Empty && Reaches(w, program, x, z, f) && z.k == Empty
    ensures y == z && e == f
  {
    var i: nat :| ExecRun(w, program, x, i) == (y, e);
    var j: nat :| ExecRun(w, program, x, j) == (z, f);
    if i <= j {
      ExecSplit(w, program, x, i, j - i);
      EndedStays(w, program, y, j - i);
      assert e + [] == e;
    } else {
      ExecSplit(w, program, x, j, i - j);
      EndedStays(w, program, z, i - j);
      assert f + [] == f;
    }
  }

  lemma {:induction false} EndedStays<S>(w: World<S>, program: Code, x: Exec<S>, n: nat)
    requires x.k == Empty
    ensures ExecRun(w, program, x, n) == (x, [])
    decreases n
  {
    if n > 0 {
      EndedStays(w, program, x, n - 1);
      assert ExecStep(w, program, x) == (x, []);
      var none: seq<nat> := [];
      assert none + none == none;
    }
  }

  /** Every call that leaves the body ends the expanded function, and however that function ends, it is with
      the machine's effects, state and saved value. */
  lemma CallAgrees<S>(w: World<S>, body: Stmt, store: S, value: int, n: nat, z: Exec<S>, f: seq<nat>)
    requires WellNumbered(body) && n > 0 && RunMachine(w, body, Suspended(value, store), n).0.Suspended?
    requires n > 1 ==> StaysInside(w, body, MachineStep(w, body, Suspended(value, store)).0, n - 2)
    ensures exists y, e :: Reaches(w, ReenterCode(body), Call(body, store, value), y, e) && y.k == Empty
    ensures Reaches(w, ReenterCode(body), Call(body, store, value), z, f) && z.k == Empty ==>
              RunMachine(w, body, Suspended(value, store), n) == (Leave(z.store, z.value, z.modified), f)
  {
    var x := Call(body, store, value);
    var y := CallExpands(w, body, store, value, n);
    var (m, e) := RunMachine(w, body, Suspended(value, store), n);
    assert Reaches(w, ReenterCode(body), x, y, e) && y.k == Empty;
    if Reaches(w, ReenterCode(body), x, z, f) && z.k == Empty {
      EndIsUnique(w, ReenterCode(body), x, y, e, z, f);
    }
  }
}

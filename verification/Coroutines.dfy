/** Stackless coroutines: `reenter`, `yield` and `fork`, which jump into the middle of a statement
    through a `switch` on one saved integer.

    `Machine` runs a body the way the macros do, leaving at every yield and jumping back in through a
    case label. `Straight` runs the same body once from start to end with its yields as plain
    statements. The two are proved to do the same. */
module Coroutines {
  import opened Memory

  /** A coroutine body. `a` names the statement of a `yield` or `fork` or a plain statement, `c` a
      condition; `n` is the number the macro gives its label. `yield return e` is a `Yield` whose
      statement returns. */
  datatype Stmt =
    | Skip
    | Do(a: nat)
    | Seq(s1: Stmt, s2: Stmt)
    | If(c: nat, thn: Stmt, els: Stmt)
    | While(c: nat, body: Stmt)
    | DoWhile(body: Stmt, c: nat)
    | Yield(n: int, a: nat)
    | YieldBreak(n: int)
    | Fork(n: int, a: nat)
    | Return

  /** What statements do to the program's state, which lives outside the body's local variables, and
      what conditions say of it. A condition may ask `is_child()`. */
  datatype World<!S> = World(act: (nat, S) -> S, test: (nat, S, bool) -> bool)

  function YieldNumbers(s: Stmt): set<int> {
    match s
    case Yield(n, _) => {n}
    case YieldBreak(n) => {n}
    case Seq(s1, s2) => YieldNumbers(s1) + YieldNumbers(s2)
    case If(_, s1, s2) => YieldNumbers(s1) + YieldNumbers(s2)
    case While(_, b) => YieldNumbers(b)
    case DoWhile(b, _) => YieldNumbers(b)
    case _ => {}
  }

  function ForkNumbers(s: Stmt): set<int> {
    match s
    case Fork(n, _) => {n}
    case Seq(s1, s2) => ForkNumbers(s1) + ForkNumbers(s2)
    case If(_, s1, s2) => ForkNumbers(s1) + ForkNumbers(s2)
    case While(_, b) => ForkNumbers(b)
    case DoWhile(b, _) => ForkNumbers(b)
    case _ => {}
  }

  function Numbers(s: Stmt): set<int> {
    YieldNumbers(s) + ForkNumbers(s)
  }

  /** Every yield and fork has a number of its own, and none gives rise to the labels 0 and -1. */
  predicate WellNumbered(s: Stmt) {
    match s
    case Yield(n, _) => n > 0
    case YieldBreak(n) => n > 0
    case Fork(n, _) => n > 1
    case Seq(s1, s2) => WellNumbered(s1) && WellNumbered(s2) && Numbers(s1) !! Numbers(s2)
    case If(_, s1, s2) => WellNumbered(s1) && WellNumbered(s2) && Numbers(s1) !! Numbers(s2)
    case While(_, b) => WellNumbered(b)
    case DoWhile(b, _) => WellNumbered(b)
    case _ => true
  }

  // ---- straight through ----

  /** The statements still to run, the state, and whether the coroutine is the child of a fork. */
  datatype Straight<S> = Straight(k: seq<Stmt>, store: S, child: bool)

  /** One step of a run in which a yield only runs its statement. */
  function StraightStep<S>(w: World<S>, c: Straight<S>): (Straight<S>, seq<nat>) {
    if c.k == [] then (c, [])
    else
      var rest := c.k[1..];
      match c.k[0]
      case Skip => (c.(k := rest), [])
      case Do(a) => (c.(k := rest, store := w.act(a, c.store)), [a])
      case Seq(s1, s2) => (c.(k := [s1, s2] + rest), [])
      case If(t, s1, s2) => (c.(k := [if w.test(t, c.store, c.child) then s1 else s2] + rest), [])
      case While(t, b) => (if w.test(t, c.store, c.child) then c.(k := [b] + c.k) else c.(k := rest), [])
      case DoWhile(b, t) => (c.(k := [b, While(t, b)] + rest), [])
      case Yield(_, a) => (Straight(rest, w.act(a, c.store), false), [a])
      case Fork(_, a) => (Straight(rest, w.act(a, c.store), false), [a])
      case YieldBreak(_) => (c.(k := []), [])
      case Return => (c.(k := []), [])
  }

  /** `n` steps, and the statements they perform. */
  function RunStraight<S>(w: World<S>, c: Straight<S>, n: nat): (Straight<S>, seq<nat>)
    decreases n
  {
    if n == 0 then (c, [])
    else
      var (c1, e1) := StraightStep(w, c);
      var (c2, e2) := RunStraight(w, c1, n - 1);
      (c2, e1 + e2)
  }

  lemma OneStraightStep<S>(w: World<S>, c: Straight<S>)
    ensures RunStraight(w, c, 1) == StraightStep(w, c)
  {
    var (d, e) := StraightStep(w, c);
    assert RunStraight(w, d, 0) == (d, []);
    assert e + [] == e;
  }

  /** The straight-through run keeps the laws of the statements it runs. */
  lemma StraightLaws<S>(w: World<S>, s1: Stmt, s2: Stmt, t: nat, k: seq<Stmt>, store: S, child: bool)
    ensures RunStraight(w, Straight([Seq(s1, s2)] + k, store, child), 1)
         == (Straight([s1] + ([s2] + k), store, child), [])
    ensures RunStraight(w, Straight([If(t, s1, s2)] + k, store, child), 1)
         == (Straight([if w.test(t, store, child) then s1 else s2] + k, store, child), [])
    ensures RunStraight(w, Straight([DoWhile(s1, t)] + k, store, child), 1)
         == RunStraight(w, Straight([Seq(s1, While(t, s1))] + k, store, child), 1)
  {
    hide RunStraight;
    OneStraightStep(w, Straight([Seq(s1, s2)] + k, store, child));
    OneStraightStep(w, Straight([If(t, s1, s2)] + k, store, child));
    OneStraightStep(w, Straight([DoWhile(s1, t)] + k, store, child));
    OneStraightStep(w, Straight([Seq(s1, While(t, s1))] + k, store, child));
    assert [s1, s2] + k == [s1] + ([s2] + k);
  }

  /** A `while` is an `if` around its body and itself. */
  lemma WhileUnrolls<S>(w: World<S>, s: Stmt, t: nat, k: seq<Stmt>, store: S, child: bool)
    ensures RunStraight(w, Straight([While(t, s)] + k, store, child), 1)
         == RunStraight(w, Straight([If(t, Seq(s, While(t, s)), Skip)] + k, store, child), 2)
  {
    var c := Straight([While(t, s)] + k, store, child);
    var once := Straight([If(t, Seq(s, c.k[0]), Skip)] + k, store, child);
    var chosen := StraightStep(w, once).0;
    OneStraightStep(w, c);
    OneStraightStep(w, chosen);
    assert RunStraight(w, once, 2) == (RunStraight(w, chosen, 1).0, [] + RunStraight(w, chosen, 1).1);
    assert [s, c.k[0]] + k == [s] + c.k;
  }

  // ---- through the switch ----

  /** What runs after a jump to `case v` inside `s`: the code after the label, and around it the rest of
      every enclosing statement. */
  function CaseTarget(s: Stmt, v: int): Option<seq<Stmt>> {
    match s
    case Yield(n, _) => if v == n then Some([]) else None
    case YieldBreak(n) => if v == n then Some([]) else None
    case Fork(n, _) => if v == -n then Some([]) else None
    case Seq(s1, s2) =>
      (match CaseTarget(s1, v)
       case Some(k) => Some(k + [s2])
       case None => CaseTarget(s2, v))
    case If(_, s1, s2) => if CaseTarget(s1, v).Some? then CaseTarget(s1, v) else CaseTarget(s2, v)
    case While(_, b) => if CaseTarget(b, v).Some? then Some(CaseTarget(b, v).value + [s]) else None
    case DoWhile(b, t) => if CaseTarget(b, v).Some? then Some(CaseTarget(b, v).value + [While(t, b)]) else None
    case _ => None
  }

  /** Between calls only the saved value exists. During a call `modified` is the flag of the
      `coroutine_ref`. */
  datatype Machine<S> =
    | Suspended(value: int, store: S)
    | Running(k: seq<Stmt>, store: S, value: int, modified: bool)

  /** Control leaves the body: the destructor of the `coroutine_ref` runs. */
  function Leave<S>(store: S, value: int, modified: bool): Machine<S> {
    Suspended(if modified then value else -1, store)
  }

  /** One step of the macros; a step of a suspended coroutine is a call that reenters it. */
  function MachineStep<S>(w: World<S>, body: Stmt, m: Machine<S>): (Machine<S>, seq<nat>) {
    match m
    case Suspended(v, store) =>
      if v == -1 then (m, [])
      else if v == 0 then (Running([body], store, 0, false), [])
      else (match CaseTarget(body, v)
            case Some(k) => (Running(k, store, v, false), [])
            case None => (Leave(store, v, false), []))
    case Running(k, store, value, modified) =>
      if k == [] then (Leave(store, value, modified), [])
      else
        var rest := k[1..];
        match k[0]
        case Skip => (m.(k := rest), [])
        case Do(a) => (m.(k := rest, store := w.act(a, store)), [a])
        case Seq(s1, s2) => (m.(k := [s1, s2] + rest), [])
        case If(t, s1, s2) => (m.(k := [if w.test(t, store, value < 0) then s1 else s2] + rest), [])
        case While(t, b) => (if w.test(t, store, value < 0) then m.(k := [b] + k) else m.(k := rest), [])
        case DoWhile(b, t) => (m.(k := [b, While(t, b)] + rest), [])
        case Yield(n, a) => (Leave(w.act(a, store), n, true), [a])
        case Fork(n, a) => (Running(rest, w.act(a, store), n, true), [a])
        case YieldBreak(_) => (Leave(store, -1, true), [])
        case Return => (Leave(store, value, modified), [])
  }

  function RunMachine<S>(w: World<S>, body: Stmt, m: Machine<S>, n: nat): (Machine<S>, seq<nat>)
    decreases n
  {
    if n == 0 then (m, [])
    else
      var (m1, e1) := MachineStep(w, body, m);
      var (m2, e2) := RunMachine(w, body, m1, n - 1);
      (m2, e1 + e2)
  }

  // ---- labels ----

  /** The case labels of a body: its yield numbers and its negated fork numbers. */
  lemma {:induction false} CaseLabels(s: Stmt, v: int)
    requires WellNumbered(s)
    ensures CaseTarget(s, v).Some? <==> v in YieldNumbers(s) || -v in ForkNumbers(s)
    ensures v in YieldNumbers(s) ==> v > 0
    ensures v in ForkNumbers(s) ==> v > 1 && v !in YieldNumbers(s)
  {
    match s
    case Seq(s1, s2) => CaseLabels(s1, v); CaseLabels(s2, v); CaseLabels(s1, -v); CaseLabels(s2, -v);
    case If(_, s1, s2) => CaseLabels(s1, v); CaseLabels(s2, v);
    case While(_, b) => CaseLabels(b, v);
    case DoWhile(b, _) => CaseLabels(b, v);
    case _ =>
  }

  /** A label of one of two parts with no number in common is no label of the other. */
  lemma LabelsApart(s1: Stmt, s2: Stmt, v: int)
    requires WellNumbered(s1) && WellNumbered(s2) && Numbers(s1) !! Numbers(s2)
    ensures !(CaseTarget(s1, v).Some? && CaseTarget(s2, v).Some?)
  {
    CaseLabels(s1, v);
    CaseLabels(s2, v);
    CaseLabels(s1, -v);
    CaseLabels(s2, -v);
  }

  // ---- every saved value selects its continuation ----

  /** The jump of the body to any label inside `s` runs what the jump of `s` runs, and then `rest`. */
  ghost predicate InContext(body: Stmt, s: Stmt, rest: seq<Stmt>) {
    WellNumbered(s) &&
    forall v: int :: CaseTarget(s, v).Some? ==> CaseTarget(body, v) == Some(CaseTarget(s, v).value + rest)
  }

  /** `k` is a list of statements that a run of the body can have before it. */
  ghost predicate Follows(body: Stmt, k: seq<Stmt>) {
    k == [] || (Follows(body, k[1..]) && InContext(body, k[0], k[1..]))
  }

  lemma FollowsCons(body: Stmt, s: Stmt, k: seq<Stmt>)
    requires Follows(body, k) && InContext(body, s, k)
    ensures Follows(body, [s] + k)
  {
    assert ([s] + k)[1..] == k;
  }

  /** The parts of a statement in its place, each with what runs after it. */
  lemma PartsInContext(body: Stmt, s: Stmt, rest: seq<Stmt>)
    requires Follows(body, rest) && InContext(body, s, rest)
    ensures s.Seq? ==> Follows(body, [s.s2] + rest) && InContext(body, s.s1, [s.s2] + rest)
    ensures s.If? ==> InContext(body, s.thn, rest) && InContext(body, s.els, rest)
    ensures s.While? ==> Follows(body, [s] + rest) && InContext(body, s.body, [s] + rest)
    ensures s.DoWhile? ==> Follows(body, [While(s.c, s.body)] + rest)
    ensures s.DoWhile? ==> InContext(body, s.body, [While(s.c, s.body)] + rest)
  {
    match s
    case Seq(s1, s2) =>
      forall v: int | CaseTarget(s2, v).Some?
        ensures CaseTarget(body, v) == Some(CaseTarget(s2, v).value + rest)
      {
        LabelsApart(s1, s2, v);
        assert CaseTarget(s, v).Some?;
      }
      FollowsCons(body, s2, rest);
      forall v: int | CaseTarget(s1, v).Some?
        ensures CaseTarget(body, v) == Some(CaseTarget(s1, v).value + ([s2] + rest))
      {
        assert CaseTarget(s, v).Some?;
        Assoc(CaseTarget(s1, v).value, [s2], rest);
      }
    case If(_, s1, s2) =>
      forall v: int
        ensures CaseTarget(s1, v).Some? ==> CaseTarget(body, v) == Some(CaseTarget(s1, v).value + rest)
        ensures CaseTarget(s2, v).Some? ==> CaseTarget(body, v) == Some(CaseTarget(s2, v).value + rest)
      {
        LabelsApart(s1, s2, v);
        assert CaseTarget(s, v).Some? <==> CaseTarget(s1, v).Some? || CaseTarget(s2, v).Some?;
      }
    case While(_, b) =>
      FollowsCons(body, s, rest);
      LoopInContext(body, s, b, s, rest);
    case DoWhile(b, t) =>
      LoopInContext(body, s, b, While(t, b), rest);
      forall v: int | CaseTarget(While(t, b), v).Some?
        ensures CaseTarget(body, v) == Some(CaseTarget(While(t, b), v).value + rest)
      {
        assert CaseTarget(s, v) == CaseTarget(While(t, b), v);
      }
      FollowsCons(body, While(t, b), rest);
    case _ =>
  }

  lemma LoopInContext(body: Stmt, s: Stmt, b: Stmt, again: Stmt, rest: seq<Stmt>)
    requires InContext(body, s, rest) && WellNumbered(b)
    requires forall v: int :: CaseTarget(b, v).Some? ==> CaseTarget(s, v) == Some(CaseTarget(b, v).value + [again])
    ensures InContext(body, b, [again] + rest)
  {
    forall v: int | CaseTarget(b, v).Some?
      ensures CaseTarget(body, v) == Some(CaseTarget(b, v).value + ([again] + rest))
    {
      assert CaseTarget(s, v).Some?;
      Assoc(CaseTarget(b, v).value, [again], rest);
    }
  }

  /** A jump lands where a run can be. */
  lemma {:induction false} TargetFollows(body: Stmt, s: Stmt, rest: seq<Stmt>, v: int)
    requires Follows(body, rest) && InContext(body, s, rest) && CaseTarget(s, v).Some?
    ensures Follows(body, CaseTarget(s, v).value + rest)
  {
    PartsInContext(body, s, rest);
    match s
    case Seq(s1, s2) =>
      if CaseTarget(s1, v).Some? {
        TargetFollows(body, s1, [s2] + rest, v);
        Assoc(CaseTarget(s1, v).value, [s2], rest);
      } else {
        TargetFollows(body, s2, rest, v);
      }
    case If(_, s1, s2) =>
      if CaseTarget(s1, v).Some? {
        TargetFollows(body, s1, rest, v);
      } else {
        TargetFollows(body, s2, rest, v);
      }
    case While(_, b) =>
      TargetFollows(body, b, [s] + rest, v);
      Assoc(CaseTarget(b, v).value, [s], rest);
    case DoWhile(b, t) =>
      TargetFollows(body, b, [While(t, b)] + rest, v);
      Assoc(CaseTarget(b, v).value, [While(t, b)], rest);
    case _ =>
      assert [] + rest == rest;
  }

  /** What every reachable machine satisfies. Only a fork can leave `modified` set while the body runs,
      and then the saved value is that fork's number. */
  ghost predicate Reachable<S>(body: Stmt, m: Machine<S>) {
    m.Running? ==> Follows(body, m.k) && (m.modified ==> m.value in ForkNumbers(body))
  }

  lemma StepReachable<S>(w: World<S>, body: Stmt, m: Machine<S>)
    requires WellNumbered(body) && Reachable(body, m)
    ensures Reachable(body, MachineStep(w, body, m).0)
  {
    if m.Suspended? {
      BodyInContext(body);
      if m.value != 0 && CaseTarget(body, m.value).Some? {
        TargetFollows(body, body, [], m.value);
        assert CaseTarget(body, m.value).value + [] == CaseTarget(body, m.value).value;
      }
    } else if m.k != [] {
      hide CaseTarget, InContext;
      PartsFollow(body, m.k[0], m.k[1..], m.k);
      if m.k[0].Fork? {
        ForkInBody(body, m.k[0], m.k[1..]);
      }
    }
  }

  /** Every list of statements a step can leave is one a run can have before it. */
  lemma PartsFollow(body: Stmt, s: Stmt, rest: seq<Stmt>, k: seq<Stmt>)
    requires Follows(body, rest) && InContext(body, s, rest) && k == [s] + rest
    ensures s.Seq? ==> Follows(body, [s.s1, s.s2] + rest)
    ensures s.If? ==> Follows(body, [s.thn] + rest) && Follows(body, [s.els] + rest)
    ensures s.While? ==> Follows(body, [s.body] + k)
    ensures s.DoWhile? ==> Follows(body, [s.body, While(s.c, s.body)] + rest)
  {
    hide CaseTarget, InContext, Follows;
    PartsInContext(body, s, rest);
    match s
    case Seq(s1, s2) =>
      FollowsCons(body, s1, [s2] + rest);
      assert [s1] + ([s2] + rest) == [s1, s2] + rest;
    case If(_, s1, s2) =>
      FollowsCons(body, s1, rest);
      FollowsCons(body, s2, rest);
    case While(_, b) =>
      FollowsCons(body, b, [s] + rest);
    case DoWhile(b, t) =>
      FollowsCons(body, b, [While(t, b)] + rest);
      assert [b] + ([While(t, b)] + rest) == [b, While(t, b)] + rest;
    case _ =>
  }

  lemma ForkInBody(body: Stmt, s: Stmt, rest: seq<Stmt>)
    requires WellNumbered(body) && InContext(body, s, rest) && s.Fork?
    ensures s.n in ForkNumbers(body)
  {
    assert CaseTarget(s, -s.n).Some?;
    CaseLabels(body, -s.n);
  }

  lemma BodyInContext(body: Stmt)
    requires WellNumbered(body)
    ensures Follows(body, []) && InContext(body, body, []) && Follows(body, [body])
  {
    forall v: int | CaseTarget(body, v).Some?
      ensures CaseTarget(body, v) == Some(CaseTarget(body, v).value + [])
    {
      assert CaseTarget(body, v).value + [] == CaseTarget(body, v).value;
    }
    FollowsCons(body, body, []);
  }

  lemma {:induction false} RunReachable<S>(w: World<S>, body: Stmt, m: Machine<S>, n: nat)
    requires WellNumbered(body) && Reachable(body, m)
    ensures Reachable(body, RunMachine(w, body, m, n).0)
    decreases n
  {
    if n > 0 {
      StepReachable(w, body, m);
      RunReachable(w, body, MachineStep(w, body, m).0, n - 1);
    }
  }

  /** Wherever any number of calls has led: the value a yield saves selects exactly the code after that
      yield, and the value a fork hands to the child selects exactly the code after that fork, where the
      parent goes on. */
  lemma SavedValueSelectsContinuation<S>(w: World<S>, body: Stmt, start: int, store: S, n: nat)
    requires WellNumbered(body)
    ensures var m := RunMachine(w, body, Suspended(start, store), n).0;
      m.Running? && m.k != [] ==>
        (m.k[0].Yield? ==> CaseTarget(body, m.k[0].n) == Some(m.k[1..])) &&
        (m.k[0].Fork? ==> CaseTarget(body, -m.k[0].n) == Some(m.k[1..]) &&
                          MachineStep(w, body, m).0.k == m.k[1..])
  {
    var m := RunMachine(w, body, Suspended(start, store), n).0;
    RunReachable(w, body, Suspended(start, store), n);
    if m.Running? && m.k != [] {
      var s := m.k[0];
      assert [] + m.k[1..] == m.k[1..];
      if s.Yield? {
        assert CaseTarget(s, s.n) == Some([]);
      } else if s.Fork? {
        assert CaseTarget(s, -s.n) == Some([]);
      }
    }
  }

  /** A copy made while a fork runs its statement is a suspended coroutine that stands for the rest of
      the body, run as a child. */
  lemma ForkedCopyIsChild<S>(w: World<S>, body: Stmt, m: Machine<S>)
    requires WellNumbered(body) && Reachable(body, m) && m.Running? && m.k != [] && m.k[0].Fork?
    ensures var n, store := m.k[0].n, w.act(m.k[0].a, m.store);
      && Same(Erase(body, Suspended(-n, store)), Straight(m.k[1..], store, true))
      && MachineStep(w, body, m).0 == Running(m.k[1..], store, n, true)
  {
    var s := m.k[0];
    assert CaseTarget(s, -s.n) == Some([]);
    assert [] + m.k[1..] == m.k[1..];
  }

  // ---- resumption preserves meaning ----

  /** The straight-through run that a machine stands for. */
  function Erase<S>(body: Stmt, m: Machine<S>): Straight<S> {
    match m
    case Running(k, store, value, _) => Straight(k, store, value < 0)
    case Suspended(v, store) =>
      if v == -1 then Straight([], store, false)
      else if v == 0 then Straight([body], store, false)
      else (match CaseTarget(body, v)
            case Some(k) => Straight(k, store, v < 0)
            case None => Straight([], store, false))
  }

  /** The same run; once nothing is left to do it no longer matters who was a child. */
  ghost predicate Same<S>(c: Straight<S>, d: Straight<S>) {
    c.k == d.k && c.store == d.store && (c.k != [] ==> c.child == d.child)
  }

  /** One step of the machine is a call or a return, which does nothing, or the next step of the
      straight-through run, with the same effect. It never idles twice while there is work to do. */
  lemma StepSimulates<S>(w: World<S>, body: Stmt, m: Machine<S>, c: Straight<S>)
    requires WellNumbered(body) && Reachable(body, m) && Same(Erase(body, m), c)
    ensures var (m', e) := MachineStep(w, body, m);
      if m.Running? && m.k != [] then
        Same(Erase(body, m'), StraightStep(w, c).0) && e == StraightStep(w, c).1
      else
        Same(Erase(body, m'), c) && e == [] && (m.Suspended? && c.k != [] ==> m'.Running?)
  {
    hide CaseTarget, InContext;
    if m.Running? {
      LeaveErases(body, m.store, m.value, m.modified);
      if m.k != [] {
        NumberPositive(body, m.k[0], m.k[1..]);
        if m.k[0].Yield? {
          YieldErases(body, m.k[0], m.k[1..], w.act(m.k[0].a, m.store));
        }
      }
    }
  }

  lemma NumberPositive(body: Stmt, s: Stmt, rest: seq<Stmt>)
    requires InContext(body, s, rest)
    ensures s.Yield? || s.Fork? ==> s.n > 0
  {
  }

  lemma LeaveErases<S>(body: Stmt, store: S, value: int, modified: bool)
    requires WellNumbered(body) && (modified ==> value in ForkNumbers(body))
    ensures Erase(body, Leave(store, value, modified)) == Straight([], store, false)
    ensures modified ==> value > 1 && CaseTarget(body, value) == None
  {
    if modified {
      CaseLabels(body, value);
      CaseLabels(body, -value);
    }
  }

  lemma YieldErases<S>(body: Stmt, s: Stmt, rest: seq<Stmt>, store: S)
    requires InContext(body, s, rest) && s.Yield?
    ensures Erase(body, Leave(store, s.n, true)) == Straight(rest, store, false)
  {
    assert CaseTarget(s, s.n) == Some([]);
    assert [] + rest == rest;
  }

  /** Soundness: after any number of steps, through any number of calls, the coroutine has performed
      exactly the statements of some number of steps of the straight-through run, in the same order, and
      stands at the same place with the same state. */
  lemma {:induction false} ReentryIsSound<S>(w: World<S>, body: Stmt, m: Machine<S>, c: Straight<S>, n: nat)
    returns (j: nat)
    requires WellNumbered(body) && Reachable(body, m) && Same(Erase(body, m), c)
    ensures j <= n
    ensures Same(Erase(body, RunMachine(w, body, m, n).0), RunStraight(w, c, j).0)
    ensures RunMachine(w, body, m, n).1 == RunStraight(w, c, j).1
    decreases n
  {
    hide MachineStep, StraightStep, CaseTarget, Reachable, Erase, Same;
    if n == 0 {
      j := 0;
    } else {
      StepReachable(w, body, m);
      StepSimulates(w, body, m, c);
      var (m', e) := MachineStep(w, body, m);
      if m.Running? && m.k != [] {
        j := ReentryIsSound(w, body, m', StraightStep(w, c).0, n - 1);
        j := j + 1;
      } else {
        j := ReentryIsSound(w, body, m', c, n - 1);
      }
    }
  }

  /** Completeness: every step of the straight-through run is reached by calling again and again. */
  lemma {:induction false} ReentryIsComplete<S>(w: World<S>, body: Stmt, m: Machine<S>, c: Straight<S>, j: nat)
    returns (n: nat)
    requires WellNumbered(body) && Reachable(body, m) && Same(Erase(body, m), c)
    ensures n <= 2 * j
    ensures Same(Erase(body, RunMachine(w, body, m, n).0), RunStraight(w, c, j).0)
    ensures RunMachine(w, body, m, n).1 == RunStraight(w, c, j).1
    decreases j
  {
    hide MachineStep, StraightStep, RunMachine, RunStraight, Reachable, Same, Erase, CaseTarget;
    if j == 0 || c.k == [] {
      n := 0;
      NoSteps(w, body, m);
      DoneStaysDone(w, c, j);
    } else {
      var k := Progress(w, body, m, c);
      n := ReentryIsComplete(w, body, RunMachine(w, body, m, k).0, StraightStep(w, c).0, j - 1);
      Compose(w, body, m, c, j, k, n);
      n := k + n;
    }
  }

  lemma NoSteps<S>(w: World<S>, body: Stmt, m: Machine<S>)
    ensures RunMachine(w, body, m, 0) == (m, [])
  {
  }

  lemma Compose<S>(w: World<S>, body: Stmt, m: Machine<S>, c: Straight<S>, j: nat, k: nat, n: nat)
    requires j > 0 && RunMachine(w, body, m, k).1 == StraightStep(w, c).1
    requires RunMachine(w, body, RunMachine(w, body, m, k).0, n).1 == RunStraight(w, StraightStep(w, c).0, j - 1).1
    ensures RunMachine(w, body, m, k + n).0 == RunMachine(w, body, RunMachine(w, body, m, k).0, n).0
    ensures RunMachine(w, body, m, k + n).1 == RunStraight(w, c, j).1
    ensures RunStraight(w, c, j).0 == RunStraight(w, StraightStep(w, c).0, j - 1).0
  {
    hide MachineStep, StraightStep;
    RunSplit(w, body, m, k, n);
  }

  /** A step, or a call and a step, makes the next step of the straight-through run. */
  lemma Progress<S>(w: World<S>, body: Stmt, m: Machine<S>, c: Straight<S>) returns (k: nat)
    requires WellNumbered(body) && Reachable(body, m) && Same(Erase(body, m), c) && c.k != []
    ensures k <= 2 && Reachable(body, RunMachine(w, body, m, k).0)
    ensures Same(Erase(body, RunMachine(w, body, m, k).0), StraightStep(w, c).0)
    ensures RunMachine(w, body, m, k).1 == StraightStep(w, c).1
  {
    hide MachineStep, StraightStep, CaseTarget, Reachable;
    StepReachable(w, body, m);
    StepSimulates(w, body, m, c);
    OneStep(w, body, m);
    if m.Running? {
      k := 1;
    } else {
      var m1 := MachineStep(w, body, m).0;
      StepReachable(w, body, m1);
      StepSimulates(w, body, m1, c);
      OneMoreStep(w, body, m, 1, m1, []);
      assert [] + MachineStep(w, body, m1).1 == MachineStep(w, body, m1).1;
      k := 2;
    }
  }

  lemma OneStep<S>(w: World<S>, body: Stmt, m: Machine<S>)
    ensures RunMachine(w, body, m, 1) == MachineStep(w, body, m)
  {
    var (m1, e1) := MachineStep(w, body, m);
    assert RunMachine(w, body, m1, 0) == (m1, []);
    assert e1 + [] == e1;
  }

  lemma {:induction false} DoneStaysDone<S>(w: World<S>, c: Straight<S>, j: nat)
    requires c.k == [] || j == 0
    ensures RunStraight(w, c, j) == (c, [])
    decreases j
  {
    if j > 0 {
      DoneStaysDone(w, c, j - 1);
      assert RunStraight(w, c, j).1 == [] + RunStraight(w, c, j - 1).1;
    }
  }

  /** From a fresh coroutine: when the body run straight through ends, the coroutine reaches the terminal
      value -1, having performed the same statements and with the same state. */
  lemma CompletesTogether<S>(w: World<S>, body: Stmt, store: S, j: nat) returns (n: nat)
    requires WellNumbered(body) && RunStraight(w, Straight([body], store, false), j).0.k == []
    ensures var (c, e) := RunStraight(w, Straight([body], store, false), j);
      RunMachine(w, body, Suspended(0, store), n) == (Suspended(-1, c.store), e)
  {
    var c0 := Straight([body], store, false);
    var m0: Machine<S> := Suspended(0, store);
    n := ReentryIsComplete(w, body, m0, c0, j);
    var (m, e) := RunMachine(w, body, m0, n);
    RunReachable(w, body, m0, n);
    DoneTerminates(w, body, m);
    RunSplit(w, body, m0, n, 2);
    assert e + [] == e;
    n := n + 2;
  }

  /** With nothing left to run, at most a return and one more call make the value -1. */
  lemma DoneTerminates<S>(w: World<S>, body: Stmt, m: Machine<S>)
    requires WellNumbered(body) && Reachable(body, m) && Erase(body, m).k == []
    ensures RunMachine(w, body, m, 2) == (Suspended(-1, m.store), [])
  {
    var m1 := MachineStep(w, body, m).0;
    if m.Running? {
      LeaveErases(body, m.store, m.value, m.modified);
    }
    assert MachineStep(w, body, m1) == (Suspended(-1, m.store), []);
    assert RunMachine(w, body, m1, 1) == (MachineStep(w, body, m1).0, [] + []);
    assert RunMachine(w, body, m, 2).1 == MachineStep(w, body, m).1 + RunMachine(w, body, m1, 1).1;
  }

  lemma {:induction false} RunSplit<S>(w: World<S>, body: Stmt, m: Machine<S>, i: nat, j: nat)
    ensures var (m1, e1) := RunMachine(w, body, m, i);
      var (m2, e2) := RunMachine(w, body, m1, j);
      RunMachine(w, body, m, i + j) == (m2, e1 + e2)
    decreases i
  {
    if i == 0 {
      assert [] + RunMachine(w, body, m, j).1 == RunMachine(w, body, m, j).1;
    } else {
      var (m1, e1) := MachineStep(w, body, m);
      RunSplit(w, body, m1, i - 1, j);
      var (m2, e2) := RunMachine(w, body, m1, i - 1);
      Assoc(e1, e2, RunMachine(w, body, m2, j).1);
    }
  }

  // ---- implicit termination ----

  /** How many forks run in `n` steps. */
  function ForksRun<S>(w: World<S>, body: Stmt, m: Machine<S>, n: nat): nat
    decreases n
  {
    if n == 0 then 0
    else (if m.Running? && m.k != [] && m.k[0].Fork? then 1 else 0) + ForksRun(w, body, MachineStep(w, body, m).0, n - 1)
  }

  /** The call goes on for `n` steps without leaving the body. */
  ghost predicate StaysInside<S>(w: World<S>, body: Stmt, m: Machine<S>, n: nat)
    decreases n
  {
    m.Running? && (n > 0 ==> StaysInside(w, body, MachineStep(w, body, m).0, n - 1))
  }

  lemma {:induction false} ModifiedMeansForked<S>(w: World<S>, body: Stmt, m: Machine<S>, n: nat)
    requires StaysInside(w, body, m, n)
    ensures RunMachine(w, body, m, n).0.Running?
    ensures RunMachine(w, body, m, n).0.modified <==> m.modified || ForksRun(w, body, m, n) > 0
    decreases n
  {
    if n > 0 {
      ModifiedMeansForked(w, body, MachineStep(w, body, m).0, n - 1);
    }
  }

  /** A coroutine whose body is left without a yield is complete exactly when no fork has run since it was
      last reentered. Otherwise it is not, and one more call, which does nothing else, completes it. */
  lemma ImplicitTerminationIff<S>(w: World<S>, body: Stmt, value: int, store: S, n: nat)
    requires WellNumbered(body)
    requires var m1 := MachineStep(w, body, Suspended(value, store)).0; StaysInside(w, body, m1, n)
    requires var last := RunMachine(w, body, MachineStep(w, body, Suspended(value, store)).0, n).0;
      last.Running? && (last.k == [] || last.k[0].Return?)
    ensures var m1 := MachineStep(w, body, Suspended(value, store)).0;
      var left := RunMachine(w, body, m1, n + 1).0;
      && left.Suspended?
      && (left.value == -1 <==> ForksRun(w, body, m1, n) == 0)
      && MachineStep(w, body, left) == (Suspended(-1, left.store), [])
  {
    hide MachineStep, RunMachine, CaseTarget, ForksRun;
    var m0: Machine<S> := Suspended(value, store);
    var m1 := MachineStep(w, body, m0).0;
    ReentersUnmodified(w, body, value, store);
    StepReachable(w, body, m0);
    RunReachable(w, body, m1, n);
    ModifiedMeansForked(w, body, m1, n);
    var last := RunMachine(w, body, m1, n).0;
    RunSplit(w, body, m1, n, 1);
    OneStep(w, body, last);
    LeavingImplicitly(w, body, last);
  }

  lemma ReentersUnmodified<S>(w: World<S>, body: Stmt, value: int, store: S)
    ensures var m := MachineStep(w, body, Suspended(value, store)).0; m.Running? ==> !m.modified
  {
  }

  /** Leaving without a yield is completion unless the reference was assigned to, and then the next call
      completes the coroutine. */
  lemma LeavingImplicitly<S>(w: World<S>, body: Stmt, last: Machine<S>)
    requires WellNumbered(body) && Reachable(body, last) && last.Running?
    requires last.k == [] || last.k[0].Return?
    ensures var left := MachineStep(w, body, last).0;
      && left.Suspended?
      && (left.value == -1 <==> !last.modified)
      && MachineStep(w, body, left) == (Suspended(-1, left.store), [])
  {
    if last.modified {
      CaseLabels(body, last.value);
      CaseLabels(body, -last.value);
    }
  }

  /** A body that only forks: after the call the coroutine is not complete, and the next call completes it. */
  lemma ForkedBodyExample<S>(w: World<S>, store: S)
    ensures var body, t := Fork(2, 0), w.act(0, store);
      && WellNumbered(body)
      && RunMachine(w, body, Suspended(0, store), 3) == (Suspended(2, t), [0])
      && MachineStep(w, body, Suspended(2, t)) == (Suspended(-1, t), [])
  {
    var body, m0: Machine<S> := Fork(2, 0), Suspended(0, store);
    var m1, m2 := Running([body], store, 0, false), Running([], w.act(0, store), 2, true);
    FirstStep(w, body, m0);
    assert MachineStep(w, body, m1) == (m2, [0]) by {
      assert [body][1..] == [];
    }
    OneMoreStep(w, body, m0, 1, m1, []);
    assert [] + [0] == [0] && [0] + [] == [0];
    OneMoreStep(w, body, m0, 2, m2, [0]);
  }

  // ---- the classes and the macros ----

  class Coroutine {
    var value: int

    constructor ()
      ensures value == 0 && IsParent() && !IsComplete()
    {
      value := 0;
    }

    predicate IsChild()
      reads this
    {
      value < 0
    }

    predicate IsParent()
      reads this
    {
      !IsChild()
    }

    predicate IsComplete()
      reads this
    {
      value == -1
    }
  }

  class CoroutineRef {
    const coroutine: Coroutine
    var modified: bool

    constructor (c: Coroutine)
      ensures coroutine == c && !modified
    {
      coroutine, modified := c, false;
    }

    method Assign(v: int)
      modifies this, coroutine
      ensures modified && coroutine.value == v
    {
      modified := true;
      coroutine.value := v;
    }

    /** The `switch` of `reenter`: the statements to run from the label of the saved value. A completed
        coroutine is marked as terminated once more, and an unknown value matches no label. */
    method Switch(body: Stmt) returns (k: Option<seq<Stmt>>)
      requires !modified
      modifies this, coroutine
      ensures coroutine.value == old(coroutine.value)
      ensures modified <==> coroutine.value == -1
      ensures k == if coroutine.value == -1 then None
                   else if coroutine.value == 0 then Some([body])
                   else CaseTarget(body, coroutine.value)
    {
      if coroutine.value == -1 {
        Assign(-1);
        return None;
      }
      k := if coroutine.value == 0 then Some([body]) else CaseTarget(body, coroutine.value);
    }

    /** The destructor. */
    method Destroy()
      modifies coroutine
      ensures coroutine.value == if modified then old(coroutine.value) else -1
    {
      if !modified {
        coroutine.value := -1;
      }
    }
  }

  /** `is_complete()` is true exactly when calling again changes nothing, for ever. */
  lemma CompleteIffCallsIdle<S>(c: Coroutine, w: World<S>, body: Stmt, store: S)
    requires WellNumbered(body)
    ensures c.IsComplete() <==> MachineStep(w, body, Suspended(c.value, store)) == (Suspended(c.value, store), [])
    ensures c.IsComplete() ==> forall n: nat :: RunMachine(w, body, Suspended(c.value, store), n) == (Suspended(c.value, store), [])
  {
    if c.IsComplete() {
      forall n: nat
        ensures RunMachine(w, body, Suspended(c.value, store), n) == (Suspended(c.value, store), [])
      {
        CompleteStays(w, body, store, n);
      }
    }
  }

  lemma {:induction false} CompleteStays<S>(w: World<S>, body: Stmt, store: S, n: nat)
    ensures RunMachine(w, body, Suspended(-1, store), n) == (Suspended(-1, store), [])
    ensures !StaysInside(w, body, MachineStep(w, body, Suspended(-1, store)).0, n)
    decreases n
  {
    if n > 0 {
      CompleteStays(w, body, store, n - 1);
      var none: seq<nat> := [];
      assert none + none == none;
    }
  }

  /** A coroutine that calls from a fresh one have brought to `is_complete()` has run its body straight
      through to the end. */
  lemma CompleteMeansEnded<S>(c: Coroutine, w: World<S>, body: Stmt, store: S, n: nat) returns (j: nat)
    requires WellNumbered(body) && c.IsComplete()
    requires var m := RunMachine(w, body, Suspended(0, store), n).0; m.Suspended? && m.value == c.value
    ensures var (m, e) := RunMachine(w, body, Suspended(0, store), n);
      var (d, f) := RunStraight(w, Straight([body], store, false), j);
      d.k == [] && d.store == m.store && f == e
  {
    j := ReentryIsSound(w, body, Suspended(0, store), Straight([body], store, false), n);
  }

  lemma FirstStep<S>(w: World<S>, body: Stmt, m: Machine<S>)
    requires m.Suspended?
    ensures RunMachine(w, body, m, 1) == (MachineStep(w, body, m).0, [])
    ensures MachineStep(w, body, m).0.Running? ==> StaysInside(w, body, MachineStep(w, body, m).0, 0)
  {
    OneStep(w, body, m);
  }

  lemma OneMoreStep<S>(w: World<S>, body: Stmt, m0: Machine<S>, n: nat, m: Machine<S>, e: seq<nat>)
    requires RunMachine(w, body, m0, n) == (m, e)
    ensures RunMachine(w, body, m0, n + 1) == (MachineStep(w, body, m).0, e + MachineStep(w, body, m).1)
  {
    RunSplit(w, body, m0, n, 1);
    OneStep(w, body, m);
  }

  lemma {:induction false} StaysOneMore<S>(w: World<S>, body: Stmt, m: Machine<S>, n: nat)
    requires StaysInside(w, body, m, n) && RunMachine(w, body, m, n + 1).0.Running?
    ensures StaysInside(w, body, m, n + 1)
    decreases n
  {
    if n > 0 {
      StaysOneMore(w, body, MachineStep(w, body, m).0, n - 1);
    }
  }

  lemma StaysInsideNext<S>(w: World<S>, body: Stmt, m0: Machine<S>, n: nat, next: Machine<S>)
    requires n >= 1 && StaysInside(w, body, MachineStep(w, body, m0).0, n - 1)
    requires RunMachine(w, body, m0, n + 1).0 == next && next.Running?
    ensures StaysInside(w, body, MachineStep(w, body, m0).0, n)
  {
    StaysOneMore(w, body, MachineStep(w, body, m0).0, n - 1);
  }

  /** One call of a function whose body is `reenter (c) body`, cut off after `bound` steps inside the
      body. A call that leaves is one stay of the machine inside the body, with the machine's effects and
      the machine's saved value. */
  method Reenter<S>(c: Coroutine, w: World<S>, body: Stmt, store: S, bound: nat)
    returns (left: bool, last: S, events: seq<nat>, steps: nat)
    modifies c
    ensures left ==>
      RunMachine(w, body, Suspended(old(c.value), store), steps) == (Suspended(c.value, last), events)
    ensures !left ==> steps == bound + 1
    ensures 1 <= steps <= bound + 1
    ensures old(c.IsComplete()) && left ==> c.IsComplete() && last == store && events == []
    ensures old(c.IsComplete()) ==> left
    ensures left && steps > 1 ==>
      StaysInside(w, body, MachineStep(w, body, Suspended(old(c.value), store)).0, steps - 2)
    ensures !left ==> StaysInside(w, body, MachineStep(w, body, Suspended(old(c.value), store)).0, steps - 1)
  {
    hide RunMachine, StaysInside, CaseTarget;
    ghost var m0: Machine<S> := Suspended(c.value, store);
    ghost var m1 := MachineStep(w, body, m0).0;
    FirstStep(w, body, m0);
    var r := new CoroutineRef(c);
    last, events, steps := store, [], 1;
    var entry := r.Switch(body);
    left := entry == None;
    var k := if left then [] else entry.value;
    while !left && steps <= bound
      invariant 1 <= steps <= bound + 1 && r.coroutine == c && fresh(r)
      invariant RunMachine(w, body, m0, steps)
             == (if left then Leave(last, c.value, r.modified) else Running(k, last, c.value, r.modified), events)
      invariant !left ==> StaysInside(w, body, m1, steps - 1)
      invariant left && steps > 1 ==> StaysInside(w, body, m1, steps - 2)
    {
      ghost var m := Running(k, last, c.value, r.modified);
      OneMoreStep(w, body, m0, steps, m, events);
      ghost var next := MachineStep(w, body, m).0;
      if next.Running? {
        StaysInsideNext(w, body, m0, steps, next);
      }
      assert events + [] == events;
      steps := steps + 1;
      if k == [] {
        left := true;
      } else {
        var s, rest := k[0], k[1..];
        match s {
          case Skip =>
            k := rest;
          case Do(a) =>
            last, events, k := w.act(a, last), events + [a], rest;
          case Seq(s1, s2) =>
            k := [s1, s2] + rest;
          case If(t, s1, s2) =>
            k := [if w.test(t, last, c.IsChild()) then s1 else s2] + rest;
          case While(t, b) =>
            k := if w.test(t, last, c.IsChild()) then [b] + k else rest;
          case DoWhile(b, t) =>
            k := [b, While(t, b)] + rest;
          case Yield(n, a) =>
            r.Assign(n);
            last, events, left := w.act(a, last), events + [a], true;
          case YieldBreak(n) =>
            r.Assign(n);
            r.Assign(-1);
            left := true;
          case Fork(n, a) =>
            r.Assign(-n);
            last, events, k := w.act(a, last), events + [a], rest;
            r.Assign(n);
          case Return =>
            left := true;
        }
      }
    }
    if left {
      r.Destroy();
    }
    CompleteStays(w, body, store, steps);
  }
}

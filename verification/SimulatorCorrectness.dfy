/** The simulator computes the reference semantics: on every run of every rule set whose
    emitted code keeps the order of the source, reads no register at port 1 after
    writing it there, and writes no register at port 0 after a fast failure may have
    left a read of it recorded. */
module SimulatorCorrectness {
  import opened BitVectors
  import opened Primitives
  import opened Syntax
  import opened Logs
  import opened Semantics
  import opened Histories
  import opened Effects
  import opened CallOrder
  import opened Emission
  import opened Cuttlesim
  import opened SimulatorSync
  import opened Stops
  import opened EmissionCorrectness
  import Oraat = OneRuleAtATime

  // ----- emitted code compiles -----

  /** Registers' kinds cover every access in the code of a rule whose histories they fit. */
  lemma {:induction false} CodeCompiles(kinds: seq<Kind>, h: HistoryMap, scope: Scope, k: nat, t: Target, a: Action, vars: nat)
    requires KindsFit(kinds, After(h, a)) && Scoped(a, |h|, vars)
    ensures Compiles(kinds, Emit(h, scope, k, t, a).code)
    decreases a, 2
  {
    hide KindsFit, BelowAll, Resolve, Declaring;
    match a
    case Assign(x, _, ex) => CodeCompiles(kinds, h, scope, k, Into(Some(x), Resolve(scope, x), true), ex, vars);
    case Seq(_, _) => SeqCompiles(kinds, h, scope, k, t, a, vars);
    case Bind(_, _, _, _) => BindCompiles(kinds, h, scope, k, t, a, vars);
    case If(_, _, _) => IfCompiles(kinds, h, scope, k, t, a, vars);
    case Read(p, idx) => AccessCompiles(kinds, h, idx, Reading(p));
    case Write(p, idx, value) =>
      AccessCompiles(kinds, After(h, value), idx, Writing(p));
      CodeCompiles(kinds, h, scope, k + 1, Into(None, k, false), value, vars);
    case Unop(fn, arg) =>
      if fn.IgnoreBits? {
        CodeCompiles(kinds, h, scope, k, NoTarget, arg, vars);
      } else {
        CodeCompiles(kinds, h, scope, k + 1, Into(None, k, false), arg, vars);
      }
    case Binop(_, _, _) => BinopCompiles(kinds, h, scope, k, t, a, vars);
    case ExternalCall(_, arg) => CodeCompiles(kinds, h, scope, k + 1, Into(None, k, false), arg, vars);
    case InternalCall(_, _, _) => CallCompiles(kinds, h, scope, k, t, a, vars);
    case APos(a) => CodeCompiles(kinds, h, scope, k, t, a, vars);
    case _ =>
  }

  lemma {:induction false} SeqCompiles(kinds: seq<Kind>, h: HistoryMap, scope: Scope, k: nat, t: Target, a: Action, vars: nat)
    requires a.Seq? && KindsFit(kinds, After(h, a)) && Scoped(a, |h|, vars)
    ensures Compiles(kinds, Emit(h, scope, k, t, a).code)
    decreases a, 1
  {
    FitsBefore(kinds, After(h, a.r1), a.r2);
    CodeCompiles(kinds, h, scope, k, NoTarget, a.r1, vars);
    CodeCompiles(kinds, After(h, a.r1), scope, Emit(h, scope, k, NoTarget, a.r1).next, t, a.r2, vars);
  }

  lemma {:induction false} BinopCompiles(kinds: seq<Kind>, h: HistoryMap, scope: Scope, k: nat, t: Target, a: Action, vars: nat)
    requires a.Binop? && KindsFit(kinds, After(h, a)) && Scoped(a, |h|, vars)
    ensures Compiles(kinds, Emit(h, scope, k, t, a).code)
    decreases a, 1
  {
    hide KindsFit, BelowAll, Declaring, Emit;
    FitsBefore(kinds, After(h, a.arg1), a.arg2);
    var reused := t.Into? && Reuses(a.fn2);
    var (k1, t1) := (if reused then k else k + 1, if reused then t else Into(None, k, false));
    var e1 := Emit(h, scope, k1, t1, a.arg1);
    CodeCompiles(kinds, h, scope, k1, t1, a.arg1, vars);
    CodeCompiles(kinds, After(h, a.arg1), if reused then Declaring(scope, t, e1.declared) else scope, e1.next + 1,
                 Into(None, e1.next, false), a.arg2, vars);
    BinopCode(Spot([], [], scope, {}, k), h, t, a);
    var e2 := Emit(After(h, a.arg1), if reused then Declaring(scope, t, e1.declared) else scope, e1.next + 1,
                   Into(None, e1.next, false), a.arg2);
    ThenCompiles(kinds, e1.code, e2.code);
    if InPlace(a.fn2) {
      var x := if t.Into? then Reached(Declaring(scope, t, true), Declared(t)) else e2.next;
      FieldCompiles(kinds, a.fn2, x, TextOf(e1.res), TextOf(e2.res));
      ThenCompiles(kinds, Then(e1.code, e2.code), SetField(a.fn2, x, TextOf(e1.res), TextOf(e2.res)));
    }
  }

  lemma FieldCompiles(kinds: seq<Kind>, fn: Fbits2, x: nat, whole: Expr, part: Expr)
    ensures Compiles(kinds, SetField(fn, x, whole, part))
  {
  }

  lemma {:induction false} BindCompiles(kinds: seq<Kind>, h: HistoryMap, scope: Scope, k: nat, t: Target, a: Action, vars: nat)
    requires a.Bind? && KindsFit(kinds, After(h, a)) && Scoped(a, |h|, vars)
    ensures Compiles(kinds, Emit(h, scope, k, t, a).code)
    decreases a, 1
  {
    hide KindsFit, BelowAll, Declaring, Emit;
    var (x, ex, body, scope') := (a.name, a.ex, a.body, Declaring(scope, t, true));
    FitsBefore(kinds, After(h, ex), body);
    BindingCompiles(kinds, h, scope', k, x, ex, vars);
    var b := EmitBinding(h, scope', k, x, ex);
    CodeCompiles(kinds, After(h, ex), [(x, k)] + scope', b.next, Declared(t), body, vars + 1);
    BindCode(Spot([], [], scope, {}, k), h, t, a);
    var e := Emit(After(h, ex), [(x, k)] + scope', b.next, Declared(t), body);
    AssignCompiles(kinds, [(x, k)] + scope', Declared(t), e.res);
    ThenCompiles(kinds, e.code, AssignTo([(x, k)] + scope', Declared(t), e.res).0);
    ThenCompiles(kinds, b.code, Then(e.code, AssignTo([(x, k)] + scope', Declared(t), e.res).0));
  }

  lemma {:induction false} IfCompiles(kinds: seq<Kind>, h: HistoryMap, scope: Scope, k: nat, t: Target, a: Action, vars: nat)
    requires a.If? && KindsFit(kinds, After(h, a)) && Scoped(a, |h|, vars)
    ensures Compiles(kinds, Emit(h, scope, k, t, a).code)
    decreases a, 1
  {
    hide KindsFit, BelowAll, Declaring, Emit;
    var (h', scope', t') := (After(h, a.cond), Declaring(scope, t, true), Declared(t));
    FitsBranch(kinds, After(h', a.tbranch), After(h', a.fbranch));
    FitsBefore(kinds, h', a.tbranch);
    var sp1 := Spot([], [], scope', {}, k);
    var e := EmitTemp(h, sp1, a.cond);
    var e1 := Emit(h', scope', e.next, t', a.tbranch);
    var e2 := Emit(h', scope', e1.next, t', a.fbranch);
    CodeCompiles(kinds, h, scope', k + 1, Into(None, k, false), a.cond, vars);
    CodeCompiles(kinds, h', scope', e.next, t', a.tbranch, vars);
    CodeCompiles(kinds, h', scope', e1.next, t', a.fbranch, vars);
    AssignCompiles(kinds, scope', t', e1.res);
    AssignCompiles(kinds, scope', t', e2.res);
    IfCode(Spot([], [], scope, {}, k), h, t, a);
    BranchCompiles(kinds, e.code, TextOf(e.res), FinishCode(h', sp1.(k := e.next), t', a.tbranch), FinishCode(h', sp1.(k := e1.next), t', a.fbranch));
  }

  lemma {:induction false} CallCompiles(kinds: seq<Kind>, h: HistoryMap, scope: Scope, k: nat, t: Target, a: Action, vars: nat)
    requires a.InternalCall? && KindsFit(kinds, After(h, a)) && Scoped(a, |h|, vars)
    ensures Compiles(kinds, Emit(h, scope, k, t, a).code)
    decreases a, 1
  {
    hide KindsFit, BelowAll, Emit, EmitArgs;
    var (args, body) := (a.args, a.body);
    FitsBefore(kinds, AfterArgs(h, args), body);
    ArgsCompile(kinds, h, scope, k, args, vars);
    CodeCompiles(kinds, AfterArgs(h, args), Params(args, 1), ArgCount(args) + 1, Into(None, 0, true), body, ArgCount(args));
    var e := Emit(AfterArgs(h, args), Params(args, 1), ArgCount(args) + 1, Into(None, 0, true), body);
    AssignCompiles(kinds, Params(args, 1), Into(None, 0, true), e.res);
    ThenCompiles(kinds, e.code, AssignTo(Params(args, 1), Into(None, 0, true), e.res).0);
    var f := EmitFunction(AfterArgs(h, args), args, body);
    assert f == Then(e.code, AssignTo(Params(args, 1), Into(None, 0, true), e.res).0);
    var eArgs := EmitArgs(h, scope, k, args);
    CallIntoCompiles(kinds, Dst(scope, t), eArgs.1, f);
    ThenCompiles(kinds, eArgs.0, CallInto(Dst(scope, t), eArgs.1, f));
    CallCode(Spot([], [], scope, {}, k), h, t, a);
  }

  lemma AssignCompiles(kinds: seq<Kind>, scope: Scope, t: Target, res: Option<Expr>)
    ensures Compiles(kinds, AssignTo(scope, t, res).0)
  {
  }

  lemma CallIntoCompiles(kinds: seq<Kind>, dst: Option<nat>, texts: seq<Expr>, f: Code)
    requires Compiles(kinds, f)
    ensures Compiles(kinds, CallInto(dst, texts, f))
  {
  }

  lemma ThenCompiles(kinds: seq<Kind>, c1: Code, c2: Code)
    requires Compiles(kinds, c1) && Compiles(kinds, c2)
    ensures Compiles(kinds, Then(c1, c2))
  {
  }

  lemma BranchCompiles(kinds: seq<Kind>, c: Code, e: Expr, c1: Code, c2: Code)
    requires Compiles(kinds, c) && Compiles(kinds, c1) && Compiles(kinds, c2)
    ensures Compiles(kinds, Then(c, Branch(e, c1, c2)))
  {
  }

  lemma {:induction false} FitsBefore(kinds: seq<Kind>, h: HistoryMap, a: Action)
    requires KindsFit(kinds, After(h, a))
    ensures KindsFit(kinds, h)
  {
    AfterBelow(h, a);
    BelowFits(kinds, h, After(h, a));
  }

  lemma {:induction false} FitsBranch(kinds: seq<Kind>, x: HistoryMap, y: HistoryMap)
    requires |x| == |y| && KindsFit(kinds, JoinMaps(x, y))
    ensures KindsFit(kinds, x) && KindsFit(kinds, y)
  {
    JoinBelow(x, y);
    BelowFits(kinds, x, JoinMaps(x, y));
    BelowFits(kinds, y, JoinMaps(x, y));
  }

  lemma {:induction false} AccessCompiles(kinds: seq<Kind>, h: HistoryMap, idx: nat, e: Access)
    requires idx < |h| && KindsFit(kinds, UpdateMap(h, idx, e))
    ensures idx < |kinds| && Supports(kinds[idx], e) && KindsFit(kinds, h)
  {
    assert KindFits(kinds[idx], UpdateHistory(h[idx], e));
    assert forall i :: 0 <= i < |h| ==> KindFits(kinds[i], UpdateMap(h, idx, e)[i]);
    BelowFits(kinds, h, UpdateMap(h, idx, e));
  }

  lemma {:induction false} BindingCompiles(kinds: seq<Kind>, h: HistoryMap, scope: Scope, k: nat, x: string, ex: Action, vars: nat)
    requires KindsFit(kinds, After(h, ex)) && Scoped(ex, |h|, vars)
    ensures Compiles(kinds, EmitBinding(h, scope, k, x, ex).code)
    decreases ex, 3
  {
    hide KindsFit, Emit;
    if Mentions(x, ex) {
      var t := Into(None, k + 1, false);
      CodeCompiles(kinds, h, scope, k + 2, t, ex, vars);
      var e := Emit(h, scope, k + 2, t, ex);
      AssignCompiles(kinds, scope, t.(declared := e.declared), e.res);
      ThenCompiles(kinds, e.code, AssignTo(scope, t.(declared := e.declared), e.res).0);
    } else {
      var t := Into(Some(x), k, false);
      CodeCompiles(kinds, h, scope, k + 1, t, ex, vars);
      var e := Emit(h, scope, k + 1, t, ex);
      AssignCompiles(kinds, Declaring(scope, t, e.declared), t.(declared := e.declared), e.res);
    }
  }

  lemma {:induction false} ArgsCompile(kinds: seq<Kind>, h: HistoryMap, scope: Scope, k: nat, args: Args, vars: nat)
    requires KindsFit(kinds, AfterArgs(h, args)) && ScopedArgs(args, |h|, vars)
    ensures Compiles(kinds, EmitArgs(h, scope, k, args).0)
    decreases args
  {
    match args
    case NoArgs =>
    case MoreArgs(_, _, arg, rest) =>
      AfterArgsBelow(After(h, arg), rest);
      BelowFits(kinds, After(h, arg), AfterArgs(h, args));
      CodeCompiles(kinds, h, scope, k + 1, Into(None, k, false), arg, vars);
      ArgsCompile(kinds, After(h, arg), scope, Emit(h, scope, k + 1, Into(None, k, false), arg).next, rest, vars);
  }

  lemma AppendBelow(H: HistoryMap, h: HistoryMap)
    requires |H| == |h|
    ensures BelowAll(H, AppendMaps(H, h)) && BelowAll(h, AppendMaps(H, h))
  {
  }

  lemma {:induction false} RuleCompiles(sim: Sim, rl: RuleName, H: HistoryMap)
    requires Scoped(sim.rules(rl), |sim.kinds|, 0) && |H| == |sim.kinds|
    requires KindsFit(sim.kinds, AppendMaps(H, RuleHistories(|sim.kinds|, sim.rules(rl))))
    ensures sim.Runs(rl)
  {
    var hf := RuleHistories(|sim.kinds|, sim.rules(rl));
    AppendBelow(H, hf);
    BelowFits(sim.kinds, hf, AppendMaps(H, hf));
    CodeCompiles(sim.kinds, EmptyMap(|sim.kinds|), [], 0, NoTarget, sim.rules(rl), 0);
  }

  /** Every rule of the scheduler is emitted with accesses that exist for the kinds
      that the analysis assigns. */
  lemma {:induction false} SchedulerCompiles(sim: Sim, H: HistoryMap, s: Scheduler)
    requires ScopedRules(sim.rules, |sim.kinds|) && |H| == |sim.kinds|
    requires KindsFit(sim.kinds, SchedulerHistories(sim.rules, H, s))
    ensures sim.RunsAll(s)
    decreases s
  {
    hide KindsFit, BelowAll, AppendMaps, JoinMaps, Sim.Runs;
    match s
    case Done =>
    case SPos(s) => SchedulerCompiles(sim, H, s);
    case Cons(rl, s1) =>
      NextFits(sim, H, rl, s1);
      RuleCompiles(sim, rl, H);
      SchedulerCompiles(sim, Next(sim, H, rl), s1);
    case Try(rl, s1, s2) =>
      FitsBranch(sim.kinds, SchedulerHistories(sim.rules, Next(sim, H, rl), s1), SchedulerHistories(sim.rules, Next(sim, H, rl), s2));
      NextFits(sim, H, rl, s1);
      RuleCompiles(sim, rl, H);
      SchedulerCompiles(sim, Next(sim, H, rl), s1);
      SchedulerCompiles(sim, Next(sim, H, rl), s2);
  }

  /** The scheduler's histories after one more rule. */
  function Next(sim: Sim, H: HistoryMap, rl: RuleName): (H': HistoryMap)
    ensures |H'| == |H|
  {
    AppendMaps(H, RuleHistories(|H|, sim.rules(rl)))
  }

  lemma {:induction false} NextFits(sim: Sim, H: HistoryMap, rl: RuleName, s: Scheduler)
    requires KindsFit(sim.kinds, SchedulerHistories(sim.rules, Next(sim, H, rl), s))
    ensures KindsFit(sim.kinds, Next(sim, H, rl))
  {
    SchedulerBelow(sim.rules, Next(sim, H, rl), s);
    BelowFits(sim.kinds, Next(sim, H, rl), SchedulerHistories(sim.rules, Next(sim, H, rl), s));
  }

  // ----- rules -----

  /** What is asked of a rule's text; nothing here depends on other rules. */
  predicate SafeRule(rule: Action) {
    && Accepted([], rule) && Ordered(None, rule) && CaptureFree(rule) && CallsIndependent(rule)
    && ReadsFresh(FirstToLast, {}, rule)
  }

  /** The leftovers of a rule that the semantics or the simulator does not fire. */
  ghost function FailedLeft(sim: Sim, rl: RuleName, r: RegFile, L: Log, Y: set<nat>, Z: set<nat>): set<nat>
    requires Scoped(sim.rules(rl), |r|, 0) && |L| == |r| == |sim.kinds|
  {
    LeftAt(sim.kinds, sim.RuleOf(rl).hf, L, Y, Z, StopLog(r, sim.sigma, [], L, Empty(|r|), sim.rules(rl), EmptyMap(|r|), Z))
  }

  /** The simulator's rule against the semantics', from a state that stands for `L`:
      it fires exactly when the semantics fires it without a port-0 write to a
      register with a leftover read; and these are the leftovers after it. */
  ghost predicate RuleMatches(sim: Sim, rl: RuleName, r: RegFile, L: Log, st: State, o: Option<Log>, fired: bool, st': State)
    requires Scoped(sim.rules(rl), |r|, 0) && |L| == |r|
    requires WellShaped(sim.kinds, st) && |L| == |sim.kinds| && (o.Some? ==> |o.value| == |L|)
  {
    var (Y, Z) := (Leftover(sim.kinds, st.total, L), Leftover(sim.kinds, st.log, L));
    && fired == (o.Some? && !Blocked(Z, o.value))
    && WellShaped(sim.kinds, st')
    && (fired ==>
          var L' := App(o.value, L);
          && Settled(sim.kinds, st', r, L')
          && Leftover(sim.kinds, st'.total, L') == AfterCommit(sim.kinds, sim.RuleOf(rl).hf, L', Y, Z)
          && Leftover(sim.kinds, st'.log, L') == Unread(L', Z))
    && (!fired ==>
          && Settled(sim.kinds, st', r, L)
          && Leftover(sim.kinds, st'.total, L) == Y && Leftover(sim.kinds, st'.log, L) == FailedLeft(sim, rl, r, L, Y, Z))
  }

  lemma {:induction false} StartReady(sim: Sim, rl: RuleName, r: RegFile, L: Log, H: HistoryMap, st: State)
    requires Settled(sim.kinds, st, r, L) && DescribesAll(H, L) && sim.Runs(rl)
    requires SafeRule(sim.rules(rl)) && Scoped(sim.rules(rl), |r|, 0)
    requires KindsFit(sim.kinds, Next(sim, H, rl))
    ensures var pt := Point(sim.RuleOf(rl), r, L, H, Leftover(sim.kinds, st.total, L), Leftover(sim.kinds, st.log, L));
            var now := Now(EmptyMap(|r|), {}, Empty(|r|), st, {}, [], map[]);
            && pt.Valid() && pt.At(EmptyMap(|r|), Empty(|r|), st)
            && Ready(pt, Spot([], [], [], {}, 0), now, NoTarget, None, sim.rules(rl))
  {
    var rule := sim.rules(rl);
    var pt := Point(sim.RuleOf(rl), r, L, H, Leftover(sim.kinds, st.total, L), Leftover(sim.kinds, st.log, L));
    StartPoint(sim, rl, r, L, H, st);
    AfterBelow(EmptyMap(|r|), rule);
    BelowRefl(pt.ru.hf);
    SafeFits(rule);
  }

  lemma {:induction false} SafeFits(rule: Action)
    requires SafeRule(rule)
    ensures Fits(None, {}, {}, [], rule)
  {
  }

  lemma {:induction false} StartPoint(sim: Sim, rl: RuleName, r: RegFile, L: Log, H: HistoryMap, st: State)
    requires Settled(sim.kinds, st, r, L) && DescribesAll(H, L)
    requires KindsFit(sim.kinds, Next(sim, H, rl))
    ensures var pt := Point(sim.RuleOf(rl), r, L, H, Leftover(sim.kinds, st.total, L), Leftover(sim.kinds, st.log, L));
            pt.Valid() && pt.At(EmptyMap(|r|), Empty(|r|), st)
  {
    EmptyDescribes(|r|);
    AppEmpty(L);
    AfterBelow(EmptyMap(|r|), sim.rules(rl));
    NothingWritten(Leftover(sim.kinds, st.log, L), |r|);
  }

  lemma NothingWritten(Z: set<nat>, n: nat)
    ensures !Blocked(Z, Empty(n))
  {
  }

  lemma BelowRefl(x: HistoryMap)
    ensures BelowAll(x, x)
  {
  }

  lemma {:induction false} RuleAgrees(sim: Sim, rl: RuleName, r: RegFile, L: Log, H: HistoryMap, st: State)
    requires Settled(sim.kinds, st, r, L) && DescribesAll(H, L) && |L| == |r| && sim.Runs(rl)
    requires SafeRule(sim.rules(rl)) && Scoped(sim.rules(rl), |r|, 0)
    requires KindsFit(sim.kinds, Next(sim, H, rl))
    ensures var (o, res) := (InterpRule(r, sim.sigma, L, sim.rules(rl)), ExecRule(sim, rl, st));
            && RuleMatches(sim, rl, r, L, st, o, res.0, res.1)
            && DescribesAll(Next(sim, H, rl), L)
            && (o.Some? ==> DescribesAll(Next(sim, H, rl), App(o.value, L)))
  {
    var rule := sim.rules(rl);
    var pt := Point(sim.RuleOf(rl), r, L, H, Leftover(sim.kinds, st.total, L), Leftover(sim.kinds, st.log, L));
    var now := Now(EmptyMap(|r|), {}, Empty(|r|), st, {}, [], map[]);
    StartReady(sim, rl, r, L, H, st);
    EmitCorrect(pt, Spot([], [], [], {}, 0), now, NoTarget, None, rule);
    RuleEnds(sim, rl, r, L, H, st, pt, now);
    RuleDescribes(r, sim.sigma, rule, H, L);
    AppendDescribes(H, L, RuleHistories(|r|, rule), Empty(|r|));
  }

  lemma {:induction false} RuleEnds(sim: Sim, rl: RuleName, r: RegFile, L: Log, H: HistoryMap, st: State, pt: Point, now: Now)
    requires Settled(sim.kinds, st, r, L) && |L| == |r| && sim.Runs(rl) && Scoped(sim.rules(rl), |r|, 0)
    requires pt == Point(sim.RuleOf(rl), r, L, H, Leftover(sim.kinds, st.total, L), Leftover(sim.kinds, st.log, L))
    requires now == Now(EmptyMap(|r|), {}, Empty(|r|), st, {}, [], map[]) && pt.Valid() && WellShaped(sim.kinds, st)
    requires Correct(pt, Spot([], [], [], {}, 0), now, NoTarget, None, sim.rules(rl))
    ensures var (o, res) := (InterpRule(r, sim.sigma, L, sim.rules(rl)), ExecRule(sim, rl, st));
            RuleMatches(sim, rl, r, L, st, o, res.0, res.1)
  {
    hide Settled, Point.Valid, Point.At, Blocked, Leftover, RunCode, InterpAction, Emit, After, StopLog, LeftAt, Compiles;
    hide Scoped;
    var rule := sim.rules(rl);
    var code := Emit(now.h, [], 0, NoTarget, rule).code;
    ExecIsRun(sim, rl, st);
    SemIsInterp(sim, rl, r, L, pt, now);
    var o := InterpAction(r, sim.sigma, [], L, Empty(|r|), rule);
    if !Gone(pt, o) {
      CommitSettles(pt, After(now.h, rule), o.log, Exec(pt.ru, st, map[], code).st);
    } else {
      StopSettled(pt, StopLeft(pt, now.h, now.G, now.l, rule), Exec(pt.ru, st, map[], code).st);
      UnreadLeftover(sim.kinds, st.total, L);
    }
  }

  lemma StopSettled(pt: Point, X: set<nat>, st: State)
    requires pt.StopOk(X, st)
    ensures |pt.L| == |pt.ru.kinds| && Settled(pt.ru.kinds, st, pt.r, pt.L)
    ensures Leftover(pt.ru.kinds, st.log, pt.L) == X && Leftover(pt.ru.kinds, st.total, pt.L) == Unread(pt.L, pt.Y)
  {
  }

  lemma UnreadLeftover(kinds: seq<Kind>, lg: LogT, L: Log)
    requires Shaped(kinds, lg) && |L| == |kinds|
    ensures Unread(L, Leftover(kinds, lg, L)) == Leftover(kinds, lg, L)
  {
  }

  lemma {:induction false} ExecIsRun(sim: Sim, rl: RuleName, st: State)
    requires WellShaped(sim.kinds, st) && sim.Runs(rl)
    ensures ExecRule(sim, rl, st) ==
            match Exec(sim.RuleOf(rl), st, map[], Emit(EmptyMap(|sim.kinds|), [], 0, NoTarget, sim.rules(rl)).code)
            case Stopped(st) => (false, st)
            case Running(st, _) => (true, Commit(sim.kinds, sim.RuleOf(rl).hf, st))
  {
  }

  lemma {:induction false} SemIsInterp(sim: Sim, rl: RuleName, r: RegFile, L: Log, pt: Point, now: Now)
    requires |L| == |r| && Scoped(sim.rules(rl), |r|, 0) && pt.ru == sim.RuleOf(rl) && pt.r == r && pt.L == L
    requires now.G == [] && now.l == Empty(|r|)
    ensures Sem(pt, now.G, now.l, sim.rules(rl)) == InterpAction(r, sim.sigma, [], L, Empty(|r|), sim.rules(rl))
  {
  }

  // ----- schedulers: the same rules fire exactly when no leftover read is in the way -----

  /** The log after a rule has been tried. */
  function NextLog(r: RegFile, sigma: ExtFun, rules: Rules, L: Log, rl: RuleName): (L': Log)
    requires ScopedRules(rules, |r|) && |L| == |r|
    ensures |L'| == |r|
  {
    var o := InterpRule(r, sigma, L, rules(rl));
    if o.Some? then App(o.value, L) else L
  }

  /** If the semantics fires the rule, none of the leftover reads `Z` refuses one of its writes. */
  ghost predicate RuleFree(sim: Sim, r: RegFile, L: Log, rl: RuleName, Z: set<nat>)
    requires ScopedRules(sim.rules, |r|) && |L| == |r|
  {
    var o := InterpRule(r, sim.sigma, L, sim.rules(rl));
    o.Some? ==> !Blocked(Z, o.value)
  }

  /** The leftovers once the rule has been tried, in the cycle's copy and in the rule's. */
  ghost function Carried(sim: Sim, r: RegFile, L: Log, rl: RuleName, Y: set<nat>, Z: set<nat>): (set<nat>, set<nat>)
    requires ScopedRules(sim.rules, |r|) && |L| == |r| == |sim.kinds|
  {
    var o := InterpRule(r, sim.sigma, L, sim.rules(rl));
    assert Scoped(sim.rules(rl), |r|, 0);
    if o.Some? then (AfterCommit(sim.kinds, sim.RuleOf(rl).hf, App(o.value, L), Y, Z), Unread(App(o.value, L), Z))
    else (Y, FailedLeft(sim, rl, r, L, Y, Z))
  }

  /** So it is for every rule of a scheduler run of the semantics that carries the
      leftover reads along; no state of the simulator is needed to tell. */
  ghost predicate Unblocked(sim: Sim, s: Scheduler, r: RegFile, L: Log, Y: set<nat>, Z: set<nat>)
    requires ScopedRules(sim.rules, |r|) && |L| == |r| == |sim.kinds|
    decreases s
  {
    match s
    case Done => true
    case Cons(rl, s) =>
      var (Y', Z') := Carried(sim, r, L, rl, Y, Z);
      RuleFree(sim, r, L, rl, Z) && Unblocked(sim, s, r, NextLog(r, sim.sigma, sim.rules, L, rl), Y', Z')
    case Try(rl, s1, s2) =>
      var (Y', Z') := Carried(sim, r, L, rl, Y, Z);
      RuleFree(sim, r, L, rl, Z) &&
      (if InterpRule(r, sim.sigma, L, sim.rules(rl)).Some?
       then Unblocked(sim, s1, r, NextLog(r, sim.sigma, sim.rules, L, rl), Y', Z')
       else Unblocked(sim, s2, r, L, Y', Z'))
    case SPos(s) => Unblocked(sim, s, r, L, Y, Z)
  }

  /** The same, from the leftovers of a state. */
  ghost predicate UnblockedFrom(sim: Sim, s: Scheduler, r: RegFile, L: Log, st: State)
    requires ScopedRules(sim.rules, |r|) && |L| == |r| == |sim.kinds| && WellShaped(sim.kinds, st)
  {
    Unblocked(sim, s, r, L, Leftover(sim.kinds, st.total, L), Leftover(sim.kinds, st.log, L))
  }

  /** For each rule tried, whether the simulator fired it. */
  function SimFired(sim: Sim, s: Scheduler, st: State): seq<bool>
    requires WellShaped(sim.kinds, st) && sim.RunsAll(s)
    decreases s
  {
    match s
    case Done => []
    case Cons(rl, s) => [ExecRule(sim, rl, st).0] + SimFired(sim, s, ExecRule(sim, rl, st).1)
    case Try(rl, s1, s2) =>
      var (fired, st) := ExecRule(sim, rl, st);
      [fired] + SimFired(sim, if fired then s1 else s2, st)
    case SPos(s) => SimFired(sim, s, st)
  }

  /** For each rule tried, whether the semantics fired it. */
  function Fired(r: RegFile, sigma: ExtFun, rules: Rules, L: Log, s: Scheduler): seq<bool>
    requires ScopedRules(rules, |r|) && |L| == |r|
    decreases s
  {
    match s
    case Done => []
    case Cons(rl, s) => [InterpRule(r, sigma, L, rules(rl)).Some?] + Fired(r, sigma, rules, NextLog(r, sigma, rules, L, rl), s)
    case Try(rl, s1, s2) =>
      var fired := InterpRule(r, sigma, L, rules(rl)).Some?;
      [fired] + Fired(r, sigma, rules, NextLog(r, sigma, rules, L, rl), if fired then s1 else s2)
    case SPos(s) => Fired(r, sigma, rules, L, s)
  }

  ghost predicate SafeRules(rules: Rules, s: Scheduler) {
    forall rl :: rl in Oraat.SchedulerRules(s) ==> SafeRule(rules(rl))
  }

  /** Everything that a run of the scheduler starts from. */
  ghost predicate Prepared(sim: Sim, s: Scheduler, r: RegFile, L: Log, H: HistoryMap, st: State) {
    && |r| == |L| == |H| == |sim.kinds| && ScopedRules(sim.rules, |r|) && SafeRules(sim.rules, s)
    && WellShaped(sim.kinds, st) && Settled(sim.kinds, st, r, L) && DescribesAll(H, L) && sim.RunsAll(s)
    && KindsFit(sim.kinds, SchedulerHistories(sim.rules, H, s))
  }

  /** The simulator fires the same rules as the semantics if and only if no leftover
      read refuses a write that the semantics makes; and then it ends in a state that
      stands for the semantics' log. */
  lemma {:induction false} SchedulerAgrees(sim: Sim, s: Scheduler, r: RegFile, L: Log, H: HistoryMap, st: State)
    requires Prepared(sim, s, r, L, H, st)
    ensures SimFired(sim, s, st) == Fired(r, sim.sigma, sim.rules, L, s) <==> UnblockedFrom(sim, s, r, L, st)
    ensures UnblockedFrom(sim, s, r, L, st) ==>
              Settled(sim.kinds, ExecScheduler(sim, s, st), r, InterpScheduler(r, sim.sigma, sim.rules, L, s))
    decreases s, 1
  {
    match s
    case Done =>
    case SPos(s1) => SchedulerAgrees(sim, s1, r, L, H, st);
    case Cons(rl, s1) => TryAgrees(sim, s, rl, s1, s1, r, L, H, st);
    case Try(rl, s1, s2) => TryAgrees(sim, s, rl, s1, s2, r, L, H, st);
  }

  lemma {:induction false} PreparedFirst(sim: Sim, s: Scheduler, rl: RuleName, s1: Scheduler, s2: Scheduler, r: RegFile, L: Log, H: HistoryMap, st: State)
    requires (s == Cons(rl, s1) && s2 == s1) || s == Try(rl, s1, s2)
    requires Prepared(sim, s, r, L, H, st)
    ensures SafeRule(sim.rules(rl)) && sim.Runs(rl) && sim.RunsAll(s1) && sim.RunsAll(s2) && KindsFit(sim.kinds, Next(sim, H, rl))
    ensures KindsFit(sim.kinds, SchedulerHistories(sim.rules, Next(sim, H, rl), s1))
    ensures KindsFit(sim.kinds, SchedulerHistories(sim.rules, Next(sim, H, rl), s2))
    ensures SafeRules(sim.rules, s1) && SafeRules(sim.rules, s2)
  {
    hide KindsFit, Settled, WellShaped, DescribesAll, SafeRule, Sim.Runs, AppendMaps, JoinMaps;
    if s.Try? {
      FitsBranch(sim.kinds, SchedulerHistories(sim.rules, Next(sim, H, rl), s1), SchedulerHistories(sim.rules, Next(sim, H, rl), s2));
    }
    NextFits(sim, H, rl, s1);
    assert rl in Oraat.SchedulerRules(s);
    forall x | x in Oraat.SchedulerRules(s1) || x in Oraat.SchedulerRules(s2) ensures SafeRule(sim.rules(x)) {
      assert x in Oraat.SchedulerRules(s);
    }
  }

  lemma {:induction false} TryAgrees(sim: Sim, s: Scheduler, rl: RuleName, s1: Scheduler, s2: Scheduler, r: RegFile, L: Log, H: HistoryMap, st: State)
    requires (s == Cons(rl, s1) && s2 == s1) || s == Try(rl, s1, s2)
    requires Prepared(sim, s, r, L, H, st)
    ensures SimFired(sim, s, st) == Fired(r, sim.sigma, sim.rules, L, s) <==> UnblockedFrom(sim, s, r, L, st)
    ensures UnblockedFrom(sim, s, r, L, st) ==>
              Settled(sim.kinds, ExecScheduler(sim, s, st), r, InterpScheduler(r, sim.sigma, sim.rules, L, s))
    decreases s, 0
  {
    hide KindsFit, Settled, WellShaped, DescribesAll, SafeRule, Blocked, Leftover, ExecRule, InterpRule;
    hide SchedulerHistories;
    PreparedFirst(sim, s, rl, s1, s2, r, L, H, st);
    assert Scoped(sim.rules(rl), |r|, 0);
    RuleAgrees(sim, rl, r, L, H, st);
    var (fired, st') := ExecRule(sim, rl, st);
    var o := InterpRule(r, sim.sigma, L, sim.rules(rl));
    var rest := if o.Some? then s1 else s2;
    if fired == o.Some? {
      SchedulerAgrees(sim, rest, r, NextLog(r, sim.sigma, sim.rules, L, rl), Next(sim, H, rl), st');
      SameTail(fired, SimFired(sim, rest, st'), Fired(r, sim.sigma, sim.rules, NextLog(r, sim.sigma, sim.rules, L, rl), rest));
    } else {
      assert SimFired(sim, s, st)[0] == fired && Fired(r, sim.sigma, sim.rules, L, s)[0] == o.Some?;
    }
  }

  lemma SameTail(x: bool, xs: seq<bool>, ys: seq<bool>)
    ensures [x] + xs == [x] + ys <==> xs == ys
  {
    if [x] + xs == [x] + ys { assert xs == ([x] + xs)[1..] == ([x] + ys)[1..] == ys; }
  }

  // ----- from the text: no later port-0 write to a register that may be left over -----

  /** The rule writes none of `Z` at port 0. */
  predicate Avoids(Z: set<nat>, hf: HistoryMap) { forall i: nat :: i in Z && i < |hf| ==> hf[i].w0 == TFalse }

  /** Along every path, no rule writes at port 0 a register that a rule tried before it
      may have left recorded as read. */
  predicate LeftoversUnwritten(kinds: seq<Kind>, rules: Rules, Z: set<nat>, s: Scheduler)
    decreases s
  {
    match s
    case Done => true
    case Cons(rl, s) =>
      && Avoids(Z, RuleHistories(|kinds|, rules(rl)))
      && LeftoversUnwritten(kinds, rules, Z + LeftBy(kinds, EmptyMap(|kinds|), rules(rl)), s)
    case Try(rl, s1, s2) =>
      && Avoids(Z, RuleHistories(|kinds|, rules(rl)))
      && LeftoversUnwritten(kinds, rules, Z, s1)
      && LeftoversUnwritten(kinds, rules, Z + LeftBy(kinds, EmptyMap(|kinds|), rules(rl)), s2)
    case SPos(s) => LeftoversUnwritten(kinds, rules, Z, s)
  }

  /** Fewer leftovers are no worse. */
  lemma {:induction false} FewerLeftovers(kinds: seq<Kind>, rules: Rules, Z: set<nat>, Z': set<nat>, s: Scheduler)
    requires LeftoversUnwritten(kinds, rules, Z, s) && Z' <= Z
    ensures LeftoversUnwritten(kinds, rules, Z', s)
    decreases s
  {
    match s
    case Done =>
    case Cons(rl, s) =>
      var F := LeftBy(kinds, EmptyMap(|kinds|), rules(rl));
      FewerLeftovers(kinds, rules, Z + F, Z' + F, s);
    case Try(rl, s1, s2) =>
      var F := LeftBy(kinds, EmptyMap(|kinds|), rules(rl));
      FewerLeftovers(kinds, rules, Z, Z', s1);
      FewerLeftovers(kinds, rules, Z + F, Z' + F, s2);
    case SPos(s) => FewerLeftovers(kinds, rules, Z, Z', s);
  }

  lemma {:induction false} AvoidsIsFree(sim: Sim, r: RegFile, L: Log, rl: RuleName, Z0: set<nat>, Z: set<nat>)
    requires ScopedRules(sim.rules, |r|) && |L| == |r|
    requires Z0 <= Z && Avoids(Z, RuleHistories(|r|, sim.rules(rl)))
    ensures RuleFree(sim, r, L, rl, Z0)
  {
    var o := InterpRule(r, sim.sigma, L, sim.rules(rl));
    assert Scoped(sim.rules(rl), |r|, 0);
    if o.Some? {
      EmptyDescribes(|r|);
      AfterDescribes(r, sim.sigma, [], L, Empty(|r|), sim.rules(rl), EmptyMap(|r|));
      forall i | i in Z0 && i < |o.value| ensures !HasWrite(o.value[i], P0) {
        assert Describes(RuleHistories(|r|, sim.rules(rl))[i], o.value[i]);
      }
    }
  }

  /** What is carried stays within what the text admits. */
  lemma {:induction false} CarriedWithin(sim: Sim, r: RegFile, L: Log, rl: RuleName, Y: set<nat>, Z: set<nat>)
    requires ScopedRules(sim.rules, |r|) && |L| == |r| == |sim.kinds|
    ensures var (Y', Z') := Carried(sim, r, L, rl, Y, Z);
            if InterpRule(r, sim.sigma, L, sim.rules(rl)).Some? then Y' + Z' <= Z
            else Y' == Y && Z' <= Y + Z + LeftBy(sim.kinds, EmptyMap(|sim.kinds|), sim.rules(rl))
  {
    hide Large, LeftBy, LeftAt, StopLog, InterpRule;
    assert Scoped(sim.rules(rl), |r|, 0);
    EmptyDescribes(|r|);
    LeftWithin(sim.kinds, sim.RuleOf(rl).hf, r, sim.sigma, [], L, Empty(|r|), sim.rules(rl), EmptyMap(|r|), Y, Z);
  }

  /** The condition on the text keeps every run unblocked. */
  lemma {:induction false} TextIsEnough(sim: Sim, s: Scheduler, r: RegFile, L: Log, Y: set<nat>, Z0: set<nat>, Z: set<nat>)
    requires ScopedRules(sim.rules, |r|) && |L| == |r| == |sim.kinds| && Y + Z0 <= Z
    requires LeftoversUnwritten(sim.kinds, sim.rules, Z, s)
    ensures Unblocked(sim, s, r, L, Y, Z0)
    decreases s, 1
  {
    match s
    case Done =>
    case SPos(s1) => TextIsEnough(sim, s1, r, L, Y, Z0, Z);
    case Cons(rl, s1) => TextIsEnoughForTry(sim, s, rl, s1, s1, r, L, Y, Z0, Z);
    case Try(rl, s1, s2) => TextIsEnoughForTry(sim, s, rl, s1, s2, r, L, Y, Z0, Z);
  }

  lemma {:induction false} TextIsEnoughForTry(sim: Sim, s: Scheduler, rl: RuleName, s1: Scheduler, s2: Scheduler, r: RegFile, L: Log,
                                              Y: set<nat>, Z0: set<nat>, Z: set<nat>)
    requires (s == Cons(rl, s1) && s2 == s1) || s == Try(rl, s1, s2)
    requires ScopedRules(sim.rules, |r|) && |L| == |r| == |sim.kinds| && Y + Z0 <= Z
    requires LeftoversUnwritten(sim.kinds, sim.rules, Z, s)
    ensures Unblocked(sim, s, r, L, Y, Z0)
    decreases s, 0
  {
    hide Carried, RuleFree, InterpRule, LeftBy, Avoids;
    AvoidsIsFree(sim, r, L, rl, Z0, Z);
    CarriedWithin(sim, r, L, rl, Y, Z0);
    var (Y', Z') := Carried(sim, r, L, rl, Y, Z0);
    var F := LeftBy(sim.kinds, EmptyMap(|r|), sim.rules(rl));
    var L' := NextLog(r, sim.sigma, sim.rules, L, rl);
    if InterpRule(r, sim.sigma, L, sim.rules(rl)).Some? {
      if s.Cons? { FewerLeftovers(sim.kinds, sim.rules, Z + F, Z, s1); }
      TextIsEnough(sim, s1, r, L', Y', Z', Z);
    } else {
      TextIsEnough(sim, s2, r, L', Y', Z', Z + F);
    }
  }

  // ----- cycles -----

  /** A program as given to the back end, with the kinds its analysis computes. */
  function BackEnd(n: nat, rules: Rules, sigma: ExtFun, s: Scheduler): Sim {
    Sim(Classify(n, rules, s), rules, sigma)
  }

  /** What can be read off the text of rules and scheduler. */
  ghost predicate Simulable(n: nat, rules: Rules, s: Scheduler) {
    ScopedRules(rules, n) && SafeRules(rules, s) && LeftoversUnwritten(Classify(n, rules, s), rules, {}, s)
  }

  /** The state between cycles: both copies hold the registers. */
  predicate Holds(sim: Sim, st: State, r: RegFile) {
    |r| == |sim.kinds| && WellShaped(sim.kinds, st) && st.log.state == r && st.total.state == r
  }

  lemma EmittedRuns(n: nat, rules: Rules, sigma: ExtFun, s: Scheduler)
    requires ScopedRules(rules, n)
    ensures BackEnd(n, rules, sigma, s).RunsAll(s)
  {
    ClassifyFits(n, rules, s);
    SchedulerCompiles(BackEnd(n, rules, sigma, s), EmptyMap(n), s);
  }

  lemma {:induction false} CyclePrepared(rules: Rules, sigma: ExtFun, s: Scheduler, r: RegFile, st: State)
    requires ScopedRules(rules, |r|) && SafeRules(rules, s) && Holds(BackEnd(|r|, rules, sigma, s), st, r)
    ensures var sim := BackEnd(|r|, rules, sigma, s);
            var st' := StartCycle(sim.kinds, st);
            Prepared(sim, s, r, Empty(|r|), EmptyMap(|r|), st') && Leftover(sim.kinds, st'.log, Empty(|r|)) == Leftover(sim.kinds, st'.total, Empty(|r|)) == {}
  {
    var sim := BackEnd(|r|, rules, sigma, s);
    EmittedRuns(|r|, rules, sigma, s);
    ClassifyFits(|r|, rules, s);
    EmptyDescribes(|r|);
    var st' := StartCycle(sim.kinds, st);
    assert Leftover(sim.kinds, st'.log, Empty(|r|)) == {} && Leftover(sim.kinds, st'.total, Empty(|r|)) == {};
    assert Mirrors(sim.kinds, st'.total, r, Empty(|r|), {});
  }

  lemma {:induction false} SettledHolds(sim: Sim, st: State, r: RegFile, L: Log)
    requires Settled(sim.kinds, st, r, L)
    ensures |L| == |r| && Holds(sim, st, CommitUpdate(r, L))
  {
    assert st.total.state == CommitUpdate(r, L);
    assert st.log.state == CommitUpdate(r, L);
  }

  /** No leftover read refuses a write in this cycle of the semantics. */
  ghost predicate CycleUnblocked(rules: Rules, sigma: ExtFun, s: Scheduler, r: RegFile)
    requires ScopedRules(rules, |r|)
  {
    Unblocked(BackEnd(|r|, rules, sigma, s), s, r, Empty(|r|), {}, {})
  }

  /** In one cycle the simulator fires the rules that the semantics fires if and only if
      no leftover read refuses a write in the cycle of the semantics; and then it
      computes the cycle's registers. */
  lemma {:induction false} CycleExact(rules: Rules, sigma: ExtFun, s: Scheduler, r: RegFile, st: State)
    requires ScopedRules(rules, |r|) && SafeRules(rules, s) && Holds(BackEnd(|r|, rules, sigma, s), st, r)
    ensures BackEnd(|r|, rules, sigma, s).RunsAll(s)
    ensures var sim := BackEnd(|r|, rules, sigma, s);
            && (SimFired(sim, s, StartCycle(sim.kinds, st)) == Fired(r, sigma, rules, Empty(|r|), s) <==>
                CycleUnblocked(rules, sigma, s, r))
            && (CycleUnblocked(rules, sigma, s, r) ==> Holds(sim, ExecCycle(sim, s, st), InterpCycle(sigma, rules, s, r)))
  {
    hide Prepared, Settled, Holds, Unblocked, WellShaped, Leftover, Mirrors, Classify;
    var sim := BackEnd(|r|, rules, sigma, s);
    HoldsShaped(sim, st, r);
    var st' := StartCycle(sim.kinds, st);
    EmittedRuns(|r|, rules, sigma, s);
    CyclePrepared(rules, sigma, s, r, st);
    SchedulerAgrees(sim, s, r, Empty(|r|), EmptyMap(|r|), st');
    if CycleUnblocked(rules, sigma, s, r) {
      SettledHolds(sim, ExecScheduler(sim, s, st'), r, InterpScheduler(r, sigma, rules, Empty(|r|), s));
    }
  }

  lemma HoldsShaped(sim: Sim, st: State, r: RegFile)
    requires Holds(sim, st, r)
    ensures WellShaped(sim.kinds, st) && |r| == |sim.kinds|
  {
  }

  /** Simulated cycles compute the registers of the semantics as long as this holds of
      every cycle. */
  lemma {:induction false} UnblockedCycles(rules: Rules, sigma: ExtFun, s: Scheduler, r: RegFile, st: State, k: nat)
    requires ScopedRules(rules, |r|) && SafeRules(rules, s) && Holds(BackEnd(|r|, rules, sigma, s), st, r)
    requires forall j: nat :: j < k ==> CycleUnblocked(rules, sigma, s, InterpCycles(sigma, rules, s, r, j))
    ensures BackEnd(|r|, rules, sigma, s).RunsAll(s)
    ensures var sim := BackEnd(|r|, rules, sigma, s);
            Holds(sim, ExecCycles(sim, s, st, k), InterpCycles(sigma, rules, s, r, k))
    decreases k
  {
    hide Classify, CycleUnblocked, SafeRules;
    CycleExact(rules, sigma, s, r, st);
    if k > 0 {
      var (sim, r1) := (BackEnd(|r|, rules, sigma, s), InterpCycle(sigma, rules, s, r));
      assert InterpCycles(sigma, rules, s, r, 0) == r;
      forall j: nat | j < k - 1 ensures CycleUnblocked(rules, sigma, s, InterpCycles(sigma, rules, s, r1, j)) {
        assert InterpCycles(sigma, rules, s, r, j + 1) == InterpCycles(sigma, rules, s, r1, j);
      }
      UnblockedCycles(rules, sigma, s, r1, ExecCycle(sim, s, st), k - 1);
    }
  }

  lemma {:induction false} SimulableUnblocked(rules: Rules, sigma: ExtFun, s: Scheduler, r: RegFile)
    requires Simulable(|r|, rules, s)
    ensures ScopedRules(rules, |r|) && CycleUnblocked(rules, sigma, s, r)
  {
    hide Classify, LeftoversUnwritten, Unblocked, SafeRules;
    TextIsEnough(BackEnd(|r|, rules, sigma, s), s, r, Empty(|r|), {}, {}, {});
  }

  /** The conditions on the text say so of every cycle. */
  lemma {:induction false} CyclesAgree(rules: Rules, sigma: ExtFun, s: Scheduler, r: RegFile, st: State, k: nat)
    requires Simulable(|r|, rules, s) && Holds(BackEnd(|r|, rules, sigma, s), st, r)
    ensures BackEnd(|r|, rules, sigma, s).RunsAll(s)
    ensures var sim := BackEnd(|r|, rules, sigma, s);
            Holds(sim, ExecCycles(sim, s, st, k), InterpCycles(sigma, rules, s, r, k))
  {
    hide LeftoversUnwritten, CycleUnblocked, Holds, Classify, SafeRules;
    forall j: nat | j < k ensures CycleUnblocked(rules, sigma, s, InterpCycles(sigma, rules, s, r, j)) {
      SimulableUnblocked(rules, sigma, s, InterpCycles(sigma, rules, s, r, j));
    }
    UnblockedCycles(rules, sigma, s, r, st, k);
  }

  /** Builds the simulator of a program and runs it. */
  method Simulate(rules: Rules, sigma: ExtFun, s: Scheduler, init: RegFile, ncycles: nat) returns (final: RegFile)
    requires Simulable(|init|, rules, s)
    ensures final == InterpCycles(sigma, rules, s, init, ncycles)
  {
    var sim := BackEnd(|init|, rules, sigma, s);
    var m := new Simulator(sim, init);
    CyclesAgree(rules, sigma, s, init, m.Contents(), ncycles);
    m.Run(s, ncycles);
    final := m.total.state;
  }
}

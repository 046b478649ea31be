/** Emitted code does what the semantics does, for actions whose operands may be
    delayed as the emitter delays them. */
module EmissionCorrectness {
  import opened BitVectors
  import opened Primitives
  import opened Syntax
  import opened Logs
  import opened Semantics
  import opened Histories
  import opened Effects
  import opened CallOrder
  import opened Emission
  import opened Cuttlesim
  import opened SimulatorSync
  import opened Stops

  // ----- variables of the source and of the emitted code -----

  /** A place in the emitted code: the source variables there, the C++ variables they
      are, the declared variables, the names declared ahead of their bindings, and the
      next unused variable. */
  datatype Spot = Spot(names: seq<string>, loc: seq<nat>, scope: Scope, P: set<string>, k: nat) {
    ghost predicate Valid() {
      && |names| == |loc| && (forall i :: 0 <= i < |loc| ==> loc[i] < k)
      && (forall i, j :: 0 <= i < j < |loc| ==> loc[i] != loc[j]) && ScopeOk(names, loc, scope, P)
    }
  }

  /** Visible names resolve to their own variables. */
  ghost predicate ScopeOk(names: seq<string>, loc: seq<nat>, scope: Scope, P: set<string>) {
    |names| == |loc| &&
    forall m: nat :: m < |names| && names[m] !in P && Visible(names, names[m], m) ==> Resolve(scope, names[m]) == loc[m]
  }

  /** `tv` is the source variable that the target is, if it is one. */
  ghost predicate TargetOk(sp: Spot, t: Target, tv: Option<nat>, a: Action) {
    match t
    case NoTarget => tv == None
    case Into(name, x, declared) =>
      && x < sp.k && (declared ==> Reached(sp.scope, t) == x)
      && (match tv
          case Some(m) => m < |sp.loc| && declared && x == sp.loc[m]
          case None => x !in sp.loc && (name.Some? ==> name.value in sp.P))
      && (name.Some? ==> name.value !in SpineBinders(a))
  }

  /** The C++ variables hold what the source variables hold, but for those in `D`. */
  ghost predicate EnvOk(loc: seq<nat>, env: Env, G: Ctx, D: set<nat>) {
    |loc| == |G| && forall i: nat :: i < |G| && i !in D ==> Get(env, loc[i]) == G[i]
  }

  predicate LocIn(loc: seq<nat>, A: set<nat>, x: nat) { exists m: nat :: m in A && m < |loc| && loc[m] == x }

  /** Below `k`, only the variables of `A` and `also` have changed. */
  ghost predicate Kept(k: nat, loc: seq<nat>, A: set<nat>, also: Option<nat>, env: Env, env': Env) {
    forall x: nat :: x < k && !LocIn(loc, A, x) && also != Some(x) ==> Get(env', x) == Get(env, x)
  }

  function ExprVars(e: Expr): set<nat> {
    match e
    case Lit(_) => {}
    case Loc(x) => {x}
    case Op1(_, a) => ExprVars(a)
    case Op2(_, a1, a2) => ExprVars(a1) + ExprVars(a2)
  }

  /** The text reads variables of `A`, new ones, and `also`. */
  ghost predicate Reads(k: nat, next: nat, loc: seq<nat>, A: set<nat>, also: Option<nat>, e: Expr) {
    forall x :: x in ExprVars(e) ==> (k <= x < next) || LocIn(loc, A, x) || also == Some(x)
  }

  lemma {:induction false} EvalSame(env: Env, env': Env, e: Expr)
    requires forall x :: x in ExprVars(e) ==> Get(env, x) == Get(env', x)
    ensures Eval(env, e) == Eval(env', e)
    decreases e
  {
    match e
    case Op1(_, a) => EvalSame(env, env', a);
    case Op2(_, a1, a2) => EvalSame(env, env', a1); EvalSame(env, env', a2);
    case _ =>
  }

  function LandsAt(t: Target, a: Action): Option<nat> { if t.Into? && Lands(a) then Some(t.x) else None }

  function Dead(D: set<nat>, tv: Option<nat>, a: Action): set<nat> {
    if tv.Some? && Lands(a) then D + {tv.value} else D
  }

  // ----- what is asked of an action, and what emitting it gives -----

  /** The conditions that can be read off the text. */
  ghost predicate Fits(tv: Option<nat>, P: set<string>, D: set<nat>, names: seq<string>, a: Action) {
    && Accepted(names, a) && Ordered(tv, a) && CaptureFree(a) && CallsIndependent(a)
    && Names(a) !! P && Vars(a) !! D
  }

  /** No register outside `W` has been written at port 1. */
  ghost predicate Unwritten(W: set<nat>, h: HistoryMap) { forall i: nat :: i < |h| && i !in W ==> h[i].w1 == TFalse }

  ghost predicate Goes(pt: Point, h: HistoryMap, W: set<nat>, vars: nat, a: Action) {
    && |h| == |pt.r| == |pt.ru.kinds| && Scoped(a, |pt.r|, vars) && BelowAll(After(h, a), pt.ru.hf)
    && ReadsFresh(FirstToLast, W, a) && Unwritten(W, h)
  }

  /** The running rule, at the start of an action. */
  datatype Now = Now(h: HistoryMap, W: set<nat>, l: Log, st: State, D: set<nat>, G: Ctx, env: Env) {
    ghost predicate In(pt: Point) { pt.Valid() && pt.At(h, l, st) && WellShaped(pt.ru.kinds, st) && pt.ru.Valid() }
  }

  ghost predicate Ready(pt: Point, sp: Spot, now: Now, t: Target, tv: Option<nat>, a: Action) {
    && now.In(pt) && Goes(pt, now.h, now.W, |now.G|, a)
    && sp.Valid() && |sp.names| == |now.G| && Fits(tv, sp.P, now.D, sp.names, a) && TargetOk(sp, t, tv, a)
    && EnvOk(sp.loc, now.env, now.G, now.D)
    && |now.l| == |pt.L| == |pt.r|
    && Compiles(pt.ru.kinds, Emit(now.h, sp.scope, sp.k, t, a).code)
  }

  /** Running code and actions in surroundings that fit them. */
  ghost function Exec(ru: Rule, st: State, env: Env, c: Code): (res: Result)
    ensures res.st.total == st.total && (WellShaped(ru.kinds, st) ==> WellShaped(ru.kinds, res.st))
  {
    if ru.Valid() && WellShaped(ru.kinds, st) && Compiles(ru.kinds, c) then RunCode(ru, st, env, c) else Stopped(st)
  }

  ghost function Sem(pt: Point, G: Ctx, l: Log, a: Action): Outcome {
    if Scoped(a, |pt.r|, |G|) && |l| == |pt.L| == |pt.r| then InterpAction(pt.r, pt.ru.sigma, G, pt.L, l, a) else Failed
  }

  /** The semantics fails, or its rule writes a register with a leftover read at port 0:
      either way the emitted code has stopped. */
  ghost predicate Gone(pt: Point, o: Outcome) { o.Failed? || Blocked(pt.Z, o.log) }

  /** The leftovers when the emitted code of an action has stopped. */
  ghost function StopLeft(pt: Point, h: HistoryMap, G: Ctx, l: Log, a: Action): set<nat> {
    if Scoped(a, |pt.r|, |G|) && |l| == |pt.L| == |pt.r| && |pt.ru.kinds| == |pt.ru.hf| then
      LeftAt(pt.ru.kinds, pt.ru.hf, pt.L, pt.Y, pt.Z, StopLog(pt.r, pt.ru.sigma, G, pt.L, l, a, h, pt.Z))
    else {}
  }

  ghost function StopLeftArgs(pt: Point, h: HistoryMap, G: Ctx, l: Log, args: Args): set<nat> {
    if ScopedArgs(args, |pt.r|, |G|) && |l| == |pt.L| == |pt.r| && |pt.ru.kinds| == |pt.ru.hf| then
      LeftAt(pt.ru.kinds, pt.ru.hf, pt.L, pt.Y, pt.Z, StopLogArgs(pt.r, pt.ru.sigma, G, pt.L, l, args, h, pt.Z))
    else {}
  }

  /** An action stops where its part does, or where what comes after its part does. */
  lemma {:induction false} StopOnce(pt: Point, h: HistoryMap, G: Ctx, l: Log, a: Action, b: Action)
    requires Scoped(a, |pt.r|, |G|)
    requires (a.Assign? && b == a.ex) || (a.Unop? && b == a.arg) || (a.ExternalCall? && b == a.arg) || (a.APos? && b == a.a)
    ensures StopLeft(pt, h, G, l, a) == StopLeft(pt, h, G, l, b)
  {
    hide LeftAt;
  }

  lemma {:induction false} StopTwice(pt: Point, h: HistoryMap, G: Ctx, l: Log, a: Action, b: Action, c: Action)
    requires Scoped(a, |pt.r|, |G|) && |l| == |pt.L| == |pt.r|
    requires (a.Seq? && b == a.r1 && c == a.r2) || (a.Binop? && b == a.arg1 && c == a.arg2)
    ensures var o := Sem(pt, G, l, b);
            StopLeft(pt, h, G, l, a) == if Gone(pt, o) then StopLeft(pt, h, G, l, b) else StopLeft(pt, After(h, b), o.ctx, o.log, c)
  {
    hide LeftAt;
  }

  lemma {:induction false} StopBind(pt: Point, h: HistoryMap, G: Ctx, l: Log, a: Action)
    requires a.Bind? && Scoped(a, |pt.r|, |G|) && |l| == |pt.L| == |pt.r|
    ensures var o := Sem(pt, G, l, a.ex);
            StopLeft(pt, h, G, l, a) ==
            if Gone(pt, o) then StopLeft(pt, h, G, l, a.ex) else StopLeft(pt, After(h, a.ex), [o.val] + o.ctx, o.log, a.body)
  {
    hide LeftAt;
  }

  lemma {:induction false} StopIf(pt: Point, h: HistoryMap, G: Ctx, l: Log, a: Action)
    requires a.If? && Scoped(a, |pt.r|, |G|) && |l| == |pt.L| == |pt.r|
    ensures var o := Sem(pt, G, l, a.cond);
            StopLeft(pt, h, G, l, a) ==
            if Gone(pt, o) then StopLeft(pt, h, G, l, a.cond)
            else StopLeft(pt, After(h, a.cond), o.ctx, o.log, if Single(o.val) then a.tbranch else a.fbranch)
  {
    hide LeftAt;
  }

  lemma {:induction false} StopWrite(pt: Point, h: HistoryMap, G: Ctx, l: Log, a: Action)
    requires a.Write? && Scoped(a, |pt.r|, |G|) && |l| == |pt.L| == |pt.r| && |pt.ru.kinds| == |pt.ru.hf|
    ensures StopLeft(pt, h, G, l, a) == if Gone(pt, Sem(pt, G, l, a.value)) then StopLeft(pt, h, G, l, a.value) else pt.Undone()
  {
    hide AfterReset, AfterFastFail;
  }

  lemma {:induction false} StopCall(pt: Point, h: HistoryMap, G: Ctx, l: Log, a: Action)
    requires a.InternalCall? && Scoped(a, |pt.r|, |G|) && |l| == |pt.L| == |pt.r| && |pt.ru.kinds| == |pt.ru.hf|
    ensures StopLeft(pt, h, G, l, a) ==
            if ArgsGone(pt, InterpArgs(pt.r, pt.ru.sigma, G, pt.L, l, a.args)) then StopLeftArgs(pt, h, G, l, a.args) else pt.Undone()
  {
    hide AfterReset, AfterFastFail;
  }

  ghost predicate Leaves(sp: Spot, now: Now, t: Target, tv: Option<nat>, a: Action, e: Emitted, env': Env, o: Outcome)
    requires o.Ok?
  {
    && EnvOk(sp.loc, env', o.ctx, Dead(now.D, tv, a))
    && Kept(sp.k, sp.loc, Assigned(a), LandsAt(t, a), now.env, env')
    && (t.Into? ==> e.res.Some?)
    && (e.res.Some? ==> Eval(env', e.res.value) == o.val &&
                        Reads(sp.k, e.next, sp.loc, Delayed(a), LandsAt(t, a), e.res.value))
    && sp.k <= e.next
  }

  ghost predicate Meets(pt: Point, F: set<nat>, h': HistoryMap, sp: Spot, now: Now, t: Target, tv: Option<nat>, a: Action,
                        e: Emitted, res: Result, o: Outcome) {
    if Gone(pt, o) then res.Stopped? && pt.StopOk(F, res.st)
    else
      && res.Running? && pt.At(h', o.log, res.st) && WellShaped(pt.ru.kinds, res.st)
      && Leaves(sp, now, t, tv, a, e, res.env, o)
  }

  /** Once gone, always gone. */
  lemma {:induction false} GoneStays(pt: Point, G: Ctx, l: Log, a: Action)
    requires Scoped(a, |pt.r|, |G|) && |l| == |pt.L| == |pt.r| && Blocked(pt.Z, l)
    ensures Gone(pt, Sem(pt, G, l, a))
  {
    var N := OwnEvents(pt.r, pt.ru.sigma, G, pt.L, l, a);
    if Sem(pt, G, l, a).Ok? { BlockedGrows(pt.Z, l, N); }
  }

  // ----- running code -----

  lemma {:induction false} RunThen(ru: Rule, st: State, env: Env, c1: Code, c2: Code)
    requires ru.Valid() && WellShaped(ru.kinds, st) && Compiles(ru.kinds, Then(c1, c2))
    ensures Compiles(ru.kinds, c1) && Compiles(ru.kinds, c2)
    ensures Exec(ru, st, env, Then(c1, c2)) ==
            match Exec(ru, st, env, c1)
            case Stopped(st) => Stopped(st)
            case Running(st, env) => Exec(ru, st, env, c2)
  {
  }

  lemma {:induction false} RunPut(ru: Rule, st: State, env: Env, x: nat, e: Expr)
    requires ru.Valid() && WellShaped(ru.kinds, st)
    ensures Compiles(ru.kinds, Put(x, e)) && Exec(ru, st, env, Put(x, e)) == Running(st, env[x := Eval(env, e)])
  {
  }

  lemma {:induction false} RunSkip(ru: Rule, st: State, env: Env)
    requires ru.Valid() && WellShaped(ru.kinds, st)
    ensures Compiles(ru.kinds, Skip) && Exec(ru, st, env, Skip) == Running(st, env)
  {
  }

  /** Assigning a result to the target leaves its value there, if it is not there yet. */
  lemma {:induction false} AssignMeaning(ru: Rule, st: State, env: Env, scope: Scope, t: Target, res: Option<Expr>) returns (env': Env)
    requires ru.Valid() && WellShaped(ru.kinds, st) && t.Into? && res.Some? && Reached(scope, t) == t.x
    ensures var (c, text) := AssignTo(scope, t, res);
            && Compiles(ru.kinds, c) && Exec(ru, st, env, c) == Running(st, env') && text == Some(Loc(t.x))
    ensures Get(env', t.x) == Eval(env, res.value) && forall x: nat :: x != t.x ==> Get(env', x) == Get(env, x)
  {
    RunSkip(ru, st, env);
    RunPut(ru, st, env, t.x, res.value);
    env' := if t.declared && res.value == Loc(t.x) then env else env[t.x := Eval(env, res.value)];
  }

  // ----- from an action to its parts -----

  lemma {:induction false} UnwrittenAfter(W: set<nat>, h: HistoryMap, a: Action)
    requires Unwritten(W, h)
    ensures Unwritten(W + Port1Writes(a), After(h, a))
  {
    forall i: nat | i < |h| && i !in W + Port1Writes(a) ensures After(h, a)[i].w1 == TFalse { Port1Flag(h, a, i); }
  }

  /** One action after another. */
  lemma {:induction false} GoesTwice(pt: Point, h: HistoryMap, W: set<nat>, vars: nat, vars': nat, b: Action, c: Action)
    requires |h| == |pt.r| == |pt.ru.kinds| && Unwritten(W, h) && BelowAll(After(After(h, b), c), pt.ru.hf)
    requires Scoped(b, |pt.r|, vars) && ReadsFresh(FirstToLast, W, b)
    requires Scoped(c, |pt.r|, vars') && ReadsFresh(FirstToLast, W + Port1Writes(b), c)
    ensures Goes(pt, h, W, vars, b) && Goes(pt, After(h, b), W + Port1Writes(b), vars', c)
  {
    AfterBelow(After(h, b), c);
    BelowTrans(After(h, b), After(After(h, b), c), pt.ru.hf);
    UnwrittenAfter(W, h, b);
  }

  lemma {:induction false} GoesBranches(pt: Point, h: HistoryMap, W: set<nat>, vars: nat, a: Action)
    requires a.If? && Goes(pt, h, W, vars, a)
    ensures Goes(pt, h, W, vars, a.cond)
    ensures Goes(pt, After(h, a.cond), W + Port1Writes(a.cond), vars, a.tbranch)
    ensures Goes(pt, After(h, a.cond), W + Port1Writes(a.cond), vars, a.fbranch)
  {
    var h' := After(h, a.cond);
    JoinBelow(After(h', a.tbranch), After(h', a.fbranch));
    BelowTrans(After(h', a.tbranch), After(h, a), pt.ru.hf);
    BelowTrans(After(h', a.fbranch), After(h, a), pt.ru.hf);
    GoesTwice(pt, h, W, vars, vars, a.cond, a.tbranch);
    GoesTwice(pt, h, W, vars, vars, a.cond, a.fbranch);
  }

  lemma {:induction false} GoesValue(pt: Point, h: HistoryMap, W: set<nat>, vars: nat, a: Action)
    requires a.Write? && Goes(pt, h, W, vars, a)
    ensures Goes(pt, h, W, vars, a.value)
    ensures a.idx < |pt.r| && Below(UpdateHistory(After(h, a.value)[a.idx], Writing(a.port)), pt.ru.hf[a.idx])
  {
    var h' := After(h, a.value);
    assert BelowAll(h', After(h, a));
    BelowTrans(h', After(h, a), pt.ru.hf);
    assert After(h, a)[a.idx] == UpdateHistory(h'[a.idx], Writing(a.port));
  }

  lemma LocInMore(loc: seq<nat>, A: set<nat>, B: set<nat>, x: nat)
    requires A <= B && LocIn(loc, A, x)
    ensures LocIn(loc, B, x)
  {
  }

  /** What is kept by two steps. */
  lemma KeptTwice(k: nat, k': nat, loc: seq<nat>, A: set<nat>, B: set<nat>, also: Option<nat>, env: Env, env1: Env, env2: Env)
    requires k <= k' && Kept(k, loc, A, None, env, env1) && Kept(k', loc, B, also, env1, env2)
    ensures Kept(k, loc, A + B, also, env, env2)
  {
    forall x: nat | x < k && !LocIn(loc, A + B, x) && also != Some(x) ensures Get(env2, x) == Get(env, x) {
      assert !LocIn(loc, A, x) && !LocIn(loc, B, x);
    }
  }

  /** The target is none of the variables, but the one that it is. */
  lemma TargetApart(sp: Spot, t: Target, tv: Option<nat>, a: Action, i: nat)
    requires sp.Valid() && TargetOk(sp, t, tv, a) && t.Into? && i < |sp.loc| && sp.loc[i] == t.x
    ensures tv == Some(i)
  {
    if tv.Some? { SpotInjective(sp, tv.value, i); }
  }

  lemma SpotInjective(sp: Spot, i: nat, j: nat)
    requires sp.Valid() && i < |sp.loc| && j < |sp.loc|
    ensures sp.loc[i] == sp.loc[j] ==> i == j
  {
  }

  lemma AtNotBlocked(pt: Point, h: HistoryMap, l: Log, st: State)
    requires pt.At(h, l, st)
    ensures !Blocked(pt.Z, l)
  {
  }

  /** Storing a value into the target. */
  lemma {:induction false} StoreTarget(sp: Spot, t: Target, tv: Option<nat>, a: Action, D: set<nat>, G: Ctx, env: Env, env': Env)
    requires sp.Valid() && TargetOk(sp, t, tv, a) && t.Into? && Lands(a)
    requires forall x: nat :: x != t.x ==> Get(env', x) == Get(env, x)
    requires EnvOk(sp.loc, env, G, Dead(D, tv, a))
    ensures EnvOk(sp.loc, env', G, Dead(D, tv, a))
  {
    forall i: nat | i < |G| && i !in Dead(D, tv, a) ensures Get(env', sp.loc[i]) == G[i] {
      if sp.loc[i] == t.x { TargetApart(sp, t, tv, a, i); }
    }
  }

  lemma {:induction false} PosPart(pt: Point, sp: Spot, now: Now, t: Target, tv: Option<nat>, a: Action)
    requires a.APos? && Ready(pt, sp, now, t, tv, a)
    ensures Goes(pt, now.h, now.W, |now.G|, a.a) && Fits(tv, sp.P, now.D, sp.names, a.a) && TargetOk(sp, t, tv, a.a)
  {
  }

  /** The only part of an operation on one operand. */
  lemma {:induction false} OnePart(pt: Point, sp: Spot, now: Now, t: Target, tv: Option<nat>, a: Action)
    requires (a.Unop? || a.ExternalCall? || a.Write?) && Ready(pt, sp, now, t, tv, a)
    ensures var b := if a.Write? then a.value else a.arg;
            Goes(pt, now.h, now.W, |now.G|, b) && Fits(None, sp.P, now.D, sp.names, b)
  {
    if a.Write? { GoesValue(pt, now.h, now.W, |now.G|, a); }
  }

  lemma {:induction false} SeqParts(pt: Point, sp: Spot, now: Now, t: Target, tv: Option<nat>, a: Action)
    requires a.Seq? && Ready(pt, sp, now, t, tv, a)
    ensures Fits(None, sp.P, now.D, sp.names, a.r1) && Fits(tv, sp.P, now.D, sp.names, a.r2)
    ensures Goes(pt, now.h, now.W, |now.G|, a.r1)
    ensures Goes(pt, After(now.h, a.r1), now.W + Port1Writes(a.r1), |now.G|, a.r2)
  {
    GoesTwice(pt, now.h, now.W, |now.G|, |now.G|, a.r1, a.r2);
  }

  lemma {:induction false} BinopParts(pt: Point, sp: Spot, now: Now, t: Target, tv: Option<nat>, a: Action)
    requires a.Binop? && Ready(pt, sp, now, t, tv, a)
    ensures var tv1 := if Reuses(a.fn2) then tv else None;
            && Fits(tv1, sp.P, now.D, sp.names, a.arg1) && Fits(None, sp.P, now.D, sp.names, a.arg2)
            && Fits(None, sp.P, Dead(now.D, tv1, a.arg1), sp.names, a.arg2)
            && Delayed(a.arg1) !! Assigned(a.arg2) && (tv1.Some? && Lands(a.arg1) ==> tv1.value !in Assigned(a.arg2))
            && (tv1.Some? && InPlace(a.fn2) && !Itself(tv1.value, a.arg1) ==> tv1.value !in Delayed(a.arg2))
    ensures Goes(pt, now.h, now.W, |now.G|, a.arg1)
    ensures Goes(pt, After(now.h, a.arg1), now.W + Port1Writes(a.arg1), |now.G|, a.arg2)
  {
    GoesTwice(pt, now.h, now.W, |now.G|, |now.G|, a.arg1, a.arg2);
    FitsOperands(tv, sp.P, now.D, sp.names, a);
    AssignedIsVar(a.arg2);
  }

  lemma {:induction false} IfParts(pt: Point, sp: Spot, now: Now, t: Target, tv: Option<nat>, a: Action)
    requires a.If? && Ready(pt, sp, now, t, tv, a)
    ensures Fits(None, sp.P, now.D, sp.names, a.cond)
    ensures Fits(tv, sp.P, now.D, sp.names, a.tbranch) && Fits(tv, sp.P, now.D, sp.names, a.fbranch)
    ensures Goes(pt, now.h, now.W, |now.G|, a.cond)
    ensures Goes(pt, After(now.h, a.cond), now.W + Port1Writes(a.cond), |now.G|, a.tbranch)
    ensures Goes(pt, After(now.h, a.cond), now.W + Port1Writes(a.cond), |now.G|, a.fbranch)
    ensures BelowAll(After(now.h, a), pt.ru.hf) && Scoped(a, |pt.r|, |now.G|)
  {
    GoesBranches(pt, now.h, now.W, |now.G|, a);
    FitsBranches(tv, sp.P, now.D, sp.names, a);
  }

  lemma {:induction false} BindParts(pt: Point, sp: Spot, now: Now, t: Target, tv: Option<nat>, a: Action)
    requires a.Bind? && Ready(pt, sp, now, t, tv, a)
    ensures Fits(None, sp.P, now.D, sp.names, a.ex) && Fits(InnerVar(tv), sp.P, Inner(now.D), [a.name] + sp.names, a.body)
    ensures a.name !in sp.P && (Mentions(a.name, a.ex) || a.name !in Names(a.ex))
    ensures Goes(pt, now.h, now.W, |now.G|, a.ex)
    ensures Goes(pt, After(now.h, a.ex), now.W + Port1Writes(a.ex), |now.G| + 1, a.body)
  {
    GoesTwice(pt, now.h, now.W, |now.G|, |now.G| + 1, a.ex, a.body);
    FitsBody(tv, sp.P, now.D, sp.names, a);
  }

  lemma {:induction false} AssignParts(pt: Point, sp: Spot, now: Now, t: Target, tv: Option<nat>, a: Action)
    requires a.Assign? && Ready(pt, sp, now, t, tv, a)
    ensures Fits(Some(a.m), sp.P, now.D, sp.names, a.ex) && Goes(pt, now.h, now.W, |now.G|, a.ex)
    ensures a.m < |now.G|
    ensures var t' := Into(Some(a.name), Resolve(sp.scope, a.name), true);
            a.m < |sp.loc| && t'.x == sp.loc[a.m] && Reached(sp.scope, t') == t'.x && TargetOk(sp, t', Some(a.m), a.ex)
  {
    AssignTargetOk(sp, tv, now.D, a);
  }

  // ----- an operand in a temporary of its own -----

  function Temp(sp: Spot): Target { Into(None, sp.k, false) }

  function EmitTemp(h: HistoryMap, sp: Spot, b: Action): Emitted { Emit(h, sp.scope, sp.k + 1, Temp(sp), b) }

  ghost predicate TempReady(pt: Point, sp: Spot, now: Now, b: Action) {
    && now.In(pt) && Goes(pt, now.h, now.W, |now.G|, b) && |now.l| == |pt.L| == |pt.r|
    && sp.Valid() && |sp.names| == |now.G| && Fits(None, sp.P, now.D, sp.names, b)
    && EnvOk(sp.loc, now.env, now.G, now.D)
    && Compiles(pt.ru.kinds, EmitTemp(now.h, sp, b).code)
  }

  /** Variables after a part has run: `A` are those it may assign. */
  ghost predicate Stepped(sp: Spot, now: Now, A: set<nat>, k': nat, env': Env, G': Ctx) {
    EnvOk(sp.loc, env', G', now.D) && Kept(sp.k, sp.loc, A, None, now.env, env') && sp.k <= k'
  }

  ghost predicate TempMeets(pt: Point, F: set<nat>, sp: Spot, now: Now, b: Action, e: Emitted, res: Result, o: Outcome) {
    if Gone(pt, o) then res.Stopped? && pt.StopOk(F, res.st)
    else
      && res.Running? && pt.At(After(now.h, b), o.log, res.st) && WellShaped(pt.ru.kinds, res.st)
      && Stepped(sp, now, Assigned(b), e.next, res.env, o.ctx)
      && Eval(res.env, TextOf(e.res)) == o.val && Reads(sp.k, e.next, sp.loc, Delayed(b), None, TextOf(e.res))
  }

  lemma {:induction false} TempCorrect(pt: Point, sp: Spot, now: Now, b: Action)
    requires TempReady(pt, sp, now, b)
    ensures TempMeets(pt, StopLeft(pt, now.h, now.G, now.l, b), sp, now, b, EmitTemp(now.h, sp, b),
                      Exec(pt.ru, now.st, now.env, EmitTemp(now.h, sp, b).code),
                      Sem(pt, now.G, now.l, b))
    decreases b, 4
  {
    hide Point.At, Point.StopOk, Point.Valid, BelowAll, Unwritten, Spot.Valid, TargetOk, Reads, Kept, EnvOk;
    hide Accepted, Ordered, CaptureFree, CallsIndependent, Names, Vars, ReadsFresh, Fits, Goes;
    var sp1 := sp.(k := sp.k + 1);
    var t := Temp(sp);
    TempTarget(sp, b);
    EmitCorrect(pt, sp1, now, t, None, b);
    var e := EmitTemp(now.h, sp, b);
    var o := Sem(pt, now.G, now.l, b);
    if !Gone(pt, o) {
      var env' := Exec(pt.ru, now.st, now.env, e.code).env;
      TempKept(sp, Assigned(b), LandsAt(t, b), now.env, env');
      TempReads(sp, e.next, Delayed(b), LandsAt(t, b), e.res.value);
    }
  }

  lemma TempTarget(sp: Spot, b: Action)
    requires sp.Valid()
    ensures sp.(k := sp.k + 1).Valid() && TargetOk(sp.(k := sp.k + 1), Temp(sp), None, b)
  {
  }

  lemma TempKept(sp: Spot, A: set<nat>, also: Option<nat>, env: Env, env': Env)
    requires Kept(sp.k + 1, sp.loc, A, also, env, env') && (also.Some? ==> also.value == sp.k)
    ensures Kept(sp.k, sp.loc, A, None, env, env')
  {
  }

  lemma TempReads(sp: Spot, next: nat, A: set<nat>, also: Option<nat>, e: Expr)
    requires Reads(sp.k + 1, next, sp.loc, A, also, e) && (also.Some? ==> also.value == sp.k) && sp.k < next
    ensures Reads(sp.k, next, sp.loc, A, None, e)
  {
  }

  // ----- emitted code is correct -----

  ghost predicate Correct(pt: Point, sp: Spot, now: Now, t: Target, tv: Option<nat>, a: Action)
  {
    var e := Emit(now.h, sp.scope, sp.k, t, a);
    Meets(pt, StopLeft(pt, now.h, now.G, now.l, a), After(now.h, a), sp, now, t, tv, a, e,
          Exec(pt.ru, now.st, now.env, e.code), Sem(pt, now.G, now.l, a))
  }

  /** Running the code emitted for an action does what the semantics does: it stops
      exactly when the semantics fails or a leftover read is in the way, and else ends
      in a state for the same log, with the variables as the semantics leaves them and
      the result's text meaning its value. */
  lemma {:induction false} EmitCorrect(pt: Point, sp: Spot, now: Now, t: Target, tv: Option<nat>, a: Action)
    requires Ready(pt, sp, now, t, tv, a)
    ensures Correct(pt, sp, now, t, tv, a)
    decreases a, 3
  {
    hide Meets, Ready, Accepted, Ordered, CaptureFree, CallsIndependent, Names, Vars, ReadsFresh, Fits, Goes;
    match a
    case Fail(_) => EmitLeaf(pt, sp, now, t, tv, a);
    case Var(_, _) => EmitLeaf(pt, sp, now, t, tv, a);
    case Cst(_) => EmitLeaf(pt, sp, now, t, tv, a);
    case Read(_, _) => EmitRead(pt, sp, now, t, tv, a);
    case Unop(_, _) => EmitUnop(pt, sp, now, t, tv, a);
    case Write(_, _, _) => EmitWrite(pt, sp, now, t, tv, a);
    case ExternalCall(_, _) => EmitExternal(pt, sp, now, t, tv, a);
    case Seq(_, _) => EmitSeq(pt, sp, now, t, tv, a);
    case Assign(_, _, _) => EmitAssign(pt, sp, now, t, tv, a);
    case Binop(_, _, _) => EmitBinop(pt, sp, now, t, tv, a);
    case If(_, _, _) => EmitIf(pt, sp, now, t, tv, a);
    case Bind(_, _, _, _) => EmitBind(pt, sp, now, t, tv, a);
    case InternalCall(_, _, _) => EmitCall(pt, sp, now, t, tv, a);
    case APos(_) => EmitPos(pt, sp, now, t, tv, a);
  }

  lemma {:induction false} EmitLeaf(pt: Point, sp: Spot, now: Now, t: Target, tv: Option<nat>, a: Action)
    requires (a.Fail? || a.Var? || a.Cst?) && Ready(pt, sp, now, t, tv, a)
    ensures Correct(pt, sp, now, t, tv, a)
  {
    hide Point.At, Point.StopOk, Point.Valid, BelowAll, Kept, EnvOk, Accepted, Ordered, CaptureFree;
    hide CallsIndependent, Names, Vars, ReadsFresh, Fits, Goes;
    AtNotBlocked(pt, now.h, now.l, now.st);
    match a
    case Fail(_) =>
      if MayFailFast(now.h) {
        FastStops(pt, now.h, now.l, now.st);
      } else {
        ResetStops(pt, now.h, now.l, now.st, now.st);
      }
    case Var(x, m) => LeafKept(sp, now, t, tv, a); VarPlace(sp, now, tv, a);
    case Cst(_) => LeafKept(sp, now, t, tv, a);
  }

  lemma {:induction false} LeafKept(sp: Spot, now: Now, t: Target, tv: Option<nat>, a: Action)
    requires (a.Var? || a.Cst?) && EnvOk(sp.loc, now.env, now.G, now.D)
    ensures EnvOk(sp.loc, now.env, now.G, Dead(now.D, tv, a))
    ensures Kept(sp.k, sp.loc, Assigned(a), LandsAt(t, a), now.env, now.env)
  {
  }

  lemma {:induction false} VarPlace(sp: Spot, now: Now, tv: Option<nat>, a: Action)
    requires a.Var? && sp.Valid() && |sp.names| == |now.G| && Fits(tv, sp.P, now.D, sp.names, a)
    requires EnvOk(sp.loc, now.env, now.G, now.D)
    ensures a.m < |sp.loc| && Resolve(sp.scope, a.name) == sp.loc[a.m] && Get(now.env, sp.loc[a.m]) == now.G[a.m]
    ensures LocIn(sp.loc, Delayed(a), sp.loc[a.m])
  {
    assert a.name in Names(a) && a.m in Vars(a) && a.m in Delayed(a);
    assert sp.names[a.m] == a.name;
  }

  lemma {:induction false} EmitRead(pt: Point, sp: Spot, now: Now, t: Target, tv: Option<nat>, a: Action)
    requires a.Read? && Ready(pt, sp, now, t, tv, a)
    ensures Correct(pt, sp, now, t, tv, a)
  {
    hide Point.At, Point.StopOk, Point.Valid, Below, BelowAll, Accepted, Ordered, CaptureFree, CallsIndependent;
    hide Names, Vars, ReadsFresh, Fits, Goes;
    var (p, idx, h) := (a.port, a.idx, now.h);
    var dst := Dst(sp.scope, t);
    ReadPlace(pt, h, now.W, |now.G|, a);
    ReadMeets(pt, h, now.l, now.st, now.env, dst, p, idx);
    if MayRead(pt.L, p, idx) {
      AtNotBlocked(pt, UpdateMap(h, idx, Reading(p)), Push(now.l, idx, Rd(p)),
                   ReadStep(pt.ru, now.st, now.env, dst, p, idx).st);
    }
    if MayRead(pt.L, p, idx) {
      var v := ReadValue(pt.r, pt.L, now.l, p, idx);
      if t.Into? { StoreTarget(sp, t, tv, a, now.D, now.G, now.env, Set(now.env, dst, v)); }
    }
  }

  lemma {:induction false} ReadPlace(pt: Point, h: HistoryMap, W: set<nat>, vars: nat, a: Action)
    requires a.Read? && Goes(pt, h, W, vars, a)
    ensures a.idx < |pt.r| && Below(UpdateHistory(h[a.idx], Reading(a.port)), pt.ru.hf[a.idx])
    ensures a.port == P1 ==> h[a.idx].w1 == TFalse
    ensures Port1Writes(a) == {} && After(h, a) == UpdateMap(h, a.idx, Reading(a.port))
  {
    assert After(h, a)[a.idx] == UpdateHistory(h[a.idx], Reading(a.port));
  }

  lemma {:induction false} EmitUnop(pt: Point, sp: Spot, now: Now, t: Target, tv: Option<nat>, a: Action)
    requires a.Unop? && Ready(pt, sp, now, t, tv, a)
    ensures Correct(pt, sp, now, t, tv, a)
    decreases a, 2
  {
    hide Point.At, Point.StopOk, Point.Valid, BelowAll, Kept, EnvOk, Accepted, Ordered, CaptureFree;
    hide CallsIndependent, Names, Vars, ReadsFresh, Fits, Goes, StopLeft;
    OnePart(pt, sp, now, t, tv, a);
    StopOnce(pt, now.h, now.G, now.l, a, a.arg);
    var (fn, b) := (a.fn1, a.arg);
    if fn.IgnoreBits? {
      assert Ready(pt, sp, now, NoTarget, None, b);
      EmitCorrect(pt, sp, now, NoTarget, None, b);
    } else {
      assert TempReady(pt, sp, now, b) by { if fn.DisplayBits? { EmitDisplayCode(pt, sp, now, t, a); } }
      TempCorrect(pt, sp, now, b);
      if fn.DisplayBits? {
        EmitDisplay(pt, sp, now, t, tv, a);
      }
    }
  }

  lemma {:induction false} EmitDisplayCode(pt: Point, sp: Spot, now: Now, t: Target, a: Action)
    requires a.Unop? && a.fn1.DisplayBits? && Compiles(pt.ru.kinds, Emit(now.h, sp.scope, sp.k, t, a).code)
    ensures Compiles(pt.ru.kinds, EmitTemp(now.h, sp, a.arg).code)
  {
  }

  lemma {:induction false} EmitDisplay(pt: Point, sp: Spot, now: Now, t: Target, tv: Option<nat>, a: Action)
    requires a.Unop? && a.fn1.DisplayBits? && Ready(pt, sp, now, t, tv, a) && TempReady(pt, sp, now, a.arg)
    requires TempMeets(pt, StopLeft(pt, now.h, now.G, now.l, a.arg), sp, now, a.arg, EmitTemp(now.h, sp, a.arg),
                       Exec(pt.ru, now.st, now.env, EmitTemp(now.h, sp, a.arg).code),
                       Sem(pt, now.G, now.l, a.arg))
    ensures Correct(pt, sp, now, t, tv, a)
  {
    hide Point.At, Point.StopOk, Point.Valid, BelowAll, Accepted, Ordered, CaptureFree, CallsIndependent, Names;
    hide Vars, ReadsFresh, Fits, Goes, RunCode, Exec, StopLeft;
    var e := EmitTemp(now.h, sp, a.arg);
    var o := Sem(pt, now.G, now.l, a.arg);
    var dst := Dst(sp.scope, t);
    var text := Op1(a.fn1, TextOf(e.res));
    var c := if dst.Some? then Put(dst.value, text) else Skip;
    ReadyScoped(pt, sp, now, t, tv, a);
    StopOnce(pt, now.h, now.G, now.l, a, a.arg);
    RunThen(pt.ru, now.st, now.env, e.code, c);
    if !Gone(pt, o) {
      var r1 := Exec(pt.ru, now.st, now.env, e.code);
      if dst.Some? {
        RunPut(pt.ru, r1.st, r1.env, dst.value, text);
        StoreTarget(sp, t, tv, a, now.D, o.ctx, r1.env, r1.env[dst.value := Eval(r1.env, text)]);
      } else {
        RunSkip(pt.ru, r1.st, r1.env);
      }
    }
  }

  lemma {:induction false} EmitExternal(pt: Point, sp: Spot, now: Now, t: Target, tv: Option<nat>, a: Action)
    requires a.ExternalCall? && Ready(pt, sp, now, t, tv, a)
    ensures Correct(pt, sp, now, t, tv, a)
    decreases a, 2
  {
    hide Point.At, Point.StopOk, Point.Valid, BelowAll, Accepted, Ordered, CaptureFree, CallsIndependent, Names;
    hide Vars, ReadsFresh, Fits, Goes, RunCode, Exec, StopLeft;
    OnePart(pt, sp, now, t, tv, a);
    StopOnce(pt, now.h, now.G, now.l, a, a.arg);
    var e := EmitTemp(now.h, sp, a.arg);
    var dst := Dst(sp.scope, t);
    RunThen(pt.ru, now.st, now.env, e.code, ExternInto(dst, a.ext, TextOf(e.res)));
    assert TempReady(pt, sp, now, a.arg);
    TempCorrect(pt, sp, now, a.arg);
    var o := Sem(pt, now.G, now.l, a.arg);
    if !Gone(pt, o) {
      var r1 := Exec(pt.ru, now.st, now.env, e.code);
      RunExtern(pt.ru, r1.st, r1.env, dst, a.ext, TextOf(e.res));
      if t.Into? { StoreTarget(sp, t, tv, a, now.D, o.ctx, r1.env, Set(r1.env, dst, pt.ru.sigma(a.ext, o.val))); }
    }
  }

  lemma {:induction false} RunExtern(ru: Rule, st: State, env: Env, dst: Option<nat>, ext: nat, e: Expr)
    requires ru.Valid() && WellShaped(ru.kinds, st)
    ensures Exec(ru, st, env, ExternInto(dst, ext, e)) == Running(st, Set(env, dst, ru.sigma(ext, Eval(env, e))))
  {
  }

  lemma {:induction false} EmitWrite(pt: Point, sp: Spot, now: Now, t: Target, tv: Option<nat>, a: Action)
    requires a.Write? && Ready(pt, sp, now, t, tv, a)
    ensures Correct(pt, sp, now, t, tv, a)
    decreases a, 2
  {
    hide Point.At, Point.StopOk, Point.Valid, BelowAll, Below, UpdateHistory, Kept, EnvOk, Accepted, Ordered;
    hide CaptureFree, CallsIndependent, Names, Vars, ReadsFresh, Fits, Goes;
    var e := EmitTemp(now.h, sp, a.value);
    RunThen(pt.ru, now.st, now.env, e.code, WriteReg(a.port, a.idx, TextOf(e.res)));
    WritePlace(pt, sp, now, t, tv, a);
    StopWrite(pt, now.h, now.G, now.l, a);
    OnePart(pt, sp, now, t, tv, a);
    assert TempReady(pt, sp, now, a.value);
    TempCorrect(pt, sp, now, a.value);
    var o := Sem(pt, now.G, now.l, a.value);
    if !Gone(pt, o) {
      var r1 := Exec(pt.ru, now.st, now.env, e.code);
      WriteMeets(pt, After(now.h, a.value), o.log, r1.st, r1.env, a.port, a.idx, o.val);
      WriteOutcome(pt, now, a, o);
    } else if o.Ok? {
      BlockedWrite(pt, now, a, o);
    }
  }

  lemma {:induction false} WritePlace(pt: Point, sp: Spot, now: Now, t: Target, tv: Option<nat>, a: Action)
    requires a.Write? && Ready(pt, sp, now, t, tv, a)
    ensures a.idx < |pt.r| && Below(UpdateHistory(After(now.h, a.value)[a.idx], Writing(a.port)), pt.ru.hf[a.idx])
    ensures Scoped(a, |pt.r|, |now.G|)
  {
    GoesValue(pt, now.h, now.W, |now.G|, a);
  }

  lemma {:induction false} WriteOutcome(pt: Point, now: Now, a: Action, o: Outcome)
    requires a.Write? && Scoped(a, |pt.r|, |now.G|) && |now.l| == |pt.L| == |pt.r|
    requires o == Sem(pt, now.G, now.l, a.value) && o.Ok?
    ensures Sem(pt, now.G, now.l, a) ==
            if MayWrite(pt.L, o.log, a.port, a.idx) then Ok(Push(o.log, a.idx, Wr(a.port, o.val)), [], o.ctx) else Failed
  {
  }

  lemma {:induction false} BlockedWrite(pt: Point, now: Now, a: Action, o: Outcome)
    requires a.Write? && Scoped(a, |pt.r|, |now.G|) && |now.l| == |pt.L| == |pt.r|
    requires o == Sem(pt, now.G, now.l, a.value) && o.Ok? && Blocked(pt.Z, o.log)
    ensures Gone(pt, Sem(pt, now.G, now.l, a))
  {
    WriteOutcome(pt, now, a, o);
    if MayWrite(pt.L, o.log, a.port, a.idx) {
      var i :| i in pt.Z && i < |o.log| && HasWrite(o.log[i], P0);
      PushLaws(Wr(a.port, o.val), o.log[a.idx]);
      assert HasWrite(Push(o.log, a.idx, Wr(a.port, o.val))[i], P0);
    }
  }

  /** The running rule after a part of the action. */
  function Later(now: Now, b: Action, o: Outcome, st: State, env: Env): Now
    requires o.Ok?
  {
    Now(After(now.h, b), now.W + Port1Writes(b), o.log, st, now.D, o.ctx, env)
  }

  lemma {:induction false} TargetLater(sp: Spot, k': nat, t: Target, tv: Option<nat>, a: Action, b: Action)
    requires sp.Valid() && TargetOk(sp, t, tv, a) && sp.k <= k' && SpineBinders(b) <= SpineBinders(a)
    ensures sp.(k := k').Valid() && TargetOk(sp.(k := k'), t, tv, b)
  {
  }

  lemma {:induction false} EmitSeq(pt: Point, sp: Spot, now: Now, t: Target, tv: Option<nat>, a: Action)
    requires a.Seq? && Ready(pt, sp, now, t, tv, a)
    ensures Correct(pt, sp, now, t, tv, a)
    decreases a, 2
  {
    hide Point.At, Point.StopOk, Point.Valid, BelowAll, TargetOk, Kept, EnvOk, Unwritten, Spot.Valid, Accepted;
    hide Ordered, CaptureFree, CallsIndependent, Names, Vars, ReadsFresh, Fits, Goes, RunCode, Exec;
    var (b, c) := (a.r1, a.r2);
    var e1 := Emit(now.h, sp.scope, sp.k, NoTarget, b);
    var e2 := Emit(After(now.h, b), sp.scope, e1.next, t, c);
    RunThen(pt.ru, now.st, now.env, e1.code, e2.code);
    SeqParts(pt, sp, now, t, tv, a);
    ReadyScoped(pt, sp, now, t, tv, a);
    StopTwice(pt, now.h, now.G, now.l, a, b, c);
    NoTargetOk(sp, b);
    assert Ready(pt, sp, now, NoTarget, None, b);
    EmitCorrect(pt, sp, now, NoTarget, None, b);
    var o := Sem(pt, now.G, now.l, b);
    if o.Ok? && Gone(pt, o) { GoneStays(pt, o.ctx, o.log, c); }
    if !Gone(pt, o) {
      var r1 := Exec(pt.ru, now.st, now.env, e1.code);
      var (sp', now') := (sp.(k := e1.next), Later(now, b, o, r1.st, r1.env));
      TargetLater(sp, e1.next, t, tv, a, c);
      assert Ready(pt, sp', now', t, tv, c);
      EmitCorrect(pt, sp', now', t, tv, c);
      var o' := Sem(pt, o.ctx, o.log, c);
      if !Gone(pt, o') {
        var r2 := Exec(pt.ru, r1.st, r1.env, e2.code);
        KeptTwice(sp.k, e1.next, sp.loc, Assigned(b), Assigned(c), LandsAt(t, c), now.env, r1.env, r2.env);
        ReadsMore(sp.k, e1.next, e2.next, sp.loc, Delayed(c), LandsAt(t, c), e2.res);
      }
    }
  }

  lemma NoTargetOk(sp: Spot, b: Action)
    ensures TargetOk(sp, NoTarget, None, b)
  {
  }

  lemma ReadsMore(k: nat, k': nat, next: nat, loc: seq<nat>, A: set<nat>, also: Option<nat>, res: Option<Expr>)
    requires k <= k' && (res.Some? ==> Reads(k', next, loc, A, also, res.value))
    ensures res.Some? ==> Reads(k, next, loc, A, also, res.value)
  {
  }

  lemma {:induction false} EmitPos(pt: Point, sp: Spot, now: Now, t: Target, tv: Option<nat>, a: Action)
    requires a.APos? && Ready(pt, sp, now, t, tv, a)
    ensures Correct(pt, sp, now, t, tv, a)
    decreases a, 2
  {
    hide Point.At, Point.StopOk, Point.Valid, BelowAll, Kept, EnvOk, Unwritten, Spot.Valid, Accepted, Ordered;
    hide CaptureFree, CallsIndependent, Names, Vars, ReadsFresh, Fits, Goes;
    PosPart(pt, sp, now, t, tv, a);
    ReadyScoped(pt, sp, now, t, tv, a);
    StopOnce(pt, now.h, now.G, now.l, a, a.a);
    EmitCorrect(pt, sp, now, t, tv, a.a);
  }

  lemma {:induction false} AssignTargetOk(sp: Spot, tv: Option<nat>, D: set<nat>, a: Action)
    requires a.Assign? && sp.Valid() && Fits(tv, sp.P, D, sp.names, a)
    ensures var t := Into(Some(a.name), Resolve(sp.scope, a.name), true);
            a.m < |sp.loc| && t.x == sp.loc[a.m] && Reached(sp.scope, t) == t.x && TargetOk(sp, t, Some(a.m), a.ex)
  {
    assert a.name in Names(a);
    assert sp.names[a.m] == a.name;
  }

  lemma {:induction false} EmitAssign(pt: Point, sp: Spot, now: Now, t: Target, tv: Option<nat>, a: Action)
    requires a.Assign? && Ready(pt, sp, now, t, tv, a)
    ensures Correct(pt, sp, now, t, tv, a)
    decreases a, 2
  {
    hide Point.At, Point.StopOk, Point.Valid, BelowAll, TargetOk, Unwritten, Spot.Valid, Accepted, Ordered;
    hide CaptureFree, CallsIndependent, Names, Vars, ReadsFresh, Fits, Goes, RunCode, Exec, StopLeft;
    var (m, ex) := (a.m, a.ex);
    var t' := Into(Some(a.name), Resolve(sp.scope, a.name), true);
    AssignParts(pt, sp, now, t, tv, a);
    ReadyScoped(pt, sp, now, t, tv, a);
    StopOnce(pt, now.h, now.G, now.l, a, a.ex);
    var e := Emit(now.h, sp.scope, sp.k, t', ex);
    var c := AssignTo(sp.scope, t', e.res).0;
    RunThen(pt.ru, now.st, now.env, e.code, c);
    assert Ready(pt, sp, now, t', Some(m), ex);
    EmitCorrect(pt, sp, now, t', Some(m), ex);
    var o := Sem(pt, now.G, now.l, ex);
    if !Gone(pt, o) {
      var r1 := Exec(pt.ru, now.st, now.env, e.code);
      var env2 := AssignMeaning(pt.ru, r1.st, r1.env, sp.scope, t', e.res);
      AssignedEnv(sp, a, now.D, now.env, r1.env, env2, o.ctx, o.val);
    }
  }

  /** The variables once a value has been stored into one of them. */
  lemma {:induction false} AssignedEnv(sp: Spot, a: Action, D: set<nat>, env0: Env, env: Env, env': Env, G: Ctx, v: Bits)
    requires sp.Valid() && a.Assign? && a.m < |sp.loc| && EnvOk(sp.loc, env, G, D + {a.m})
    requires Kept(sp.k, sp.loc, Assigned(a.ex), Some(sp.loc[a.m]), env0, env)
    requires Get(env', sp.loc[a.m]) == v && forall x: nat :: x != sp.loc[a.m] ==> Get(env', x) == Get(env, x)
    ensures EnvOk(sp.loc, env', G[a.m := v], D) && Kept(sp.k, sp.loc, Assigned(a), None, env0, env')
  {
    forall i: nat | i < |G| && i !in D ensures Get(env', sp.loc[i]) == G[a.m := v][i] { SpotInjective(sp, i, a.m); }
    assert LocIn(sp.loc, Assigned(a), sp.loc[a.m]);
    forall x: nat | x < sp.k && !LocIn(sp.loc, Assigned(a), x) ensures Get(env', x) == Get(env0, x) {
      assert !LocIn(sp.loc, Assigned(a.ex), x);
    }
  }

  // ----- binary operations -----

  /** The first operand's text still means its value after the second has run. */
  lemma {:induction false} TextSurvives(sp: Spot, k': nat, t: Target, tv: Option<nat>, a: Action, lands: bool, A: set<nat>, B: set<nat>,
                                        e: Expr, env1: Env, env2: Env)
    requires sp.Valid() && TargetOk(sp, t, tv, a) && sp.k <= k' && A !! B
    requires Reads(sp.k, k', sp.loc, A, if t.Into? && lands then Some(t.x) else None, e)
    requires Kept(k', sp.loc, B, None, env1, env2)
    requires tv.Some? && lands ==> tv.value !in B
    ensures Eval(env2, e) == Eval(env1, e)
  {
    forall x | x in ExprVars(e) ensures Get(env1, x) == Get(env2, x) {
      if LocIn(sp.loc, A, x) {
        LocApart(sp, A, B, x);
      } else if t.Into? && lands && x == t.x {
        forall i: nat | i in B && i < |sp.loc| ensures sp.loc[i] != x {
          if sp.loc[i] == t.x { TargetApart(sp, t, tv, a, i); }
        }
      } else {
        assert forall i: nat :: i < |sp.loc| ==> sp.loc[i] < sp.k;
      }
    }
    EvalSame(env1, env2, e);
  }

  /** Different source variables are different C++ variables. */
  lemma {:induction false} LocApart(sp: Spot, A: set<nat>, B: set<nat>, x: nat)
    requires sp.Valid() && A !! B && LocIn(sp.loc, A, x)
    ensures !LocIn(sp.loc, B, x) && x < sp.k
  {
    var j: nat :| j in A && j < |sp.loc| && sp.loc[j] == x;
    forall i: nat | i in B && i < |sp.loc| ensures sp.loc[i] != x { SpotInjective(sp, i, j); }
  }

  lemma KeptThen(k: nat, k': nat, loc: seq<nat>, A: set<nat>, B: set<nat>, also: Option<nat>, env: Env, env1: Env, env2: Env)
    requires k <= k' && Kept(k, loc, A, also, env, env1) && Kept(k', loc, B, None, env1, env2)
    ensures Kept(k, loc, A + B, also, env, env2)
  {
    forall x: nat | x < k && !LocIn(loc, A + B, x) && also != Some(x) ensures Get(env2, x) == Get(env, x) {
      assert !LocIn(loc, A, x) && !LocIn(loc, B, x);
    }
  }

  lemma {:induction false} ReadsTwo(k: nat, k': nat, next: nat, loc: seq<nat>, A: set<nat>, B: set<nat>, also: Option<nat>,
                                    fn: Fbits2, e1: Expr, e2: Expr)
    requires k <= k' <= next && Reads(k, k', loc, A, also, e1) && Reads(k', next, loc, B, None, e2)
    ensures Reads(k, next, loc, A + B, also, Op2(fn, e1, e2))
  {
    forall x | x in ExprVars(Op2(fn, e1, e2)) ensures (k <= x < next) || LocIn(loc, A + B, x) || also == Some(x) {
      if x in ExprVars(e1) && LocIn(loc, A, x) { LocInMore(loc, A, A + B, x); }
      if x in ExprVars(e2) && LocIn(loc, B, x) { LocInMore(loc, B, A + B, x); }
    }
  }

  /** How the code of an operation is put together. */
  lemma {:induction false} BinopCode(sp: Spot, h: HistoryMap, t: Target, a: Action)
    requires a.Binop?
    ensures var reused := t.Into? && Reuses(a.fn2);
            var e1 := if reused then Emit(h, sp.scope, sp.k, t, a.arg1) else EmitTemp(h, sp, a.arg1);
            var sp2 := sp.(k := e1.next, scope := if reused then Declaring(sp.scope, t, e1.declared) else sp.scope);
            var e2 := EmitTemp(After(h, a.arg1), sp2, a.arg2);
            var x := if t.Into? then Reached(Declaring(sp.scope, t, true), Declared(t)) else e2.next;
            var (both, out) := (Then(e1.code, e2.code), Emit(h, sp.scope, sp.k, t, a));
            if InPlace(a.fn2) then
              && out.code == Then(both, SetField(a.fn2, x, TextOf(e1.res), TextOf(e2.res)))
              && out.res == Some(Loc(x)) && out.next == e2.next + 1
            else
              out.code == both && out.res == Some(Op2(a.fn2, TextOf(e1.res), TextOf(e2.res))) && out.next == e2.next
  {
  }

  /** Where the operands' code stops, so does the operation's. */
  lemma {:induction false} BinopStops(ru: Rule, st: State, env: Env, sp: Spot, h: HistoryMap, t: Target, a: Action)
    requires a.Binop? && ru.Valid() && WellShaped(ru.kinds, st) && Compiles(ru.kinds, Emit(h, sp.scope, sp.k, t, a).code)
    ensures var (e1, e2) := BothOperands(sp, h, t, a);
            var (both, code) := (Then(e1.code, e2.code), Emit(h, sp.scope, sp.k, t, a).code);
            && Compiles(ru.kinds, e1.code) && Compiles(ru.kinds, e2.code)
            && (Exec(ru, st, env, both).Stopped? ==> Exec(ru, st, env, code) == Exec(ru, st, env, both))
  {
    hide Exec, RunCode;
    BinopCode(sp, h, t, a);
    var (e1, e2) := BothOperands(sp, h, t, a);
    var code := Emit(h, sp.scope, sp.k, t, a).code;
    if InPlace(a.fn2) { RunThen(ru, st, env, Then(e1.code, e2.code), code.c2); }
  }

  function BothOperands(sp: Spot, h: HistoryMap, t: Target, a: Action): (Emitted, Emitted)
    requires a.Binop?
  {
    var reused := t.Into? && Reuses(a.fn2);
    var e1 := if reused then Emit(h, sp.scope, sp.k, t, a.arg1) else EmitTemp(h, sp, a.arg1);
    var sp2 := sp.(k := e1.next, scope := if reused then Declaring(sp.scope, t, e1.declared) else sp.scope);
    (e1, EmitTemp(After(h, a.arg1), sp2, a.arg2))
  }

  /** Both operands have been evaluated; what is text still means their values. */
  ghost predicate Evaluated(pt: Point, sp: Spot, now: Now, t: Target, tv: Option<nat>, a: Action, e1: Emitted, e2: Emitted,
                            res: Result, v1: Bits, o: Outcome)
    requires a.Binop? && o.Ok?
  {
    var reused := t.Into? && Reuses(a.fn2);
    var also := if reused then LandsAt(t, a.arg1) else None;
    && res.Running? && pt.At(After(now.h, a), o.log, res.st) && WellShaped(pt.ru.kinds, res.st)
    && EnvOk(sp.loc, res.env, o.ctx, if reused then Dead(now.D, tv, a.arg1) else now.D)
    && Kept(sp.k, sp.loc, Assigned(a), also, now.env, res.env)
    && Eval(res.env, TextOf(e1.res)) == v1 && Eval(res.env, TextOf(e2.res)) == o.val
    && Reads(sp.k, e1.next, sp.loc, Delayed(a.arg1), also, TextOf(e1.res))
    && Reads(e1.next, e2.next, sp.loc, Delayed(a.arg2), None, TextOf(e2.res))
    && sp.k <= e1.next <= e2.next
  }

  /** The first operand has been evaluated. */
  ghost predicate FirstEvaluated(pt: Point, sp: Spot, now: Now, t: Target, tv: Option<nat>, a: Action, e1: Emitted, sp2: Spot, now2: Now)
    requires a.Binop?
  {
    var reused := t.Into? && Reuses(a.fn2);
    var (o, res) := (Sem(pt, now.G, now.l, a.arg1), Exec(pt.ru, now.st, now.env, e1.code));
    && e1 == BothOperands(sp, now.h, t, a).0
    && sp2 == sp.(k := e1.next, scope := if reused then Declaring(sp.scope, t, e1.declared) else sp.scope)
    && Compiles(pt.ru.kinds, e1.code) && !Gone(pt, o) && res.Running?
    && now2 == Later(now, a.arg1, o, res.st, res.env).(D := if reused then Dead(now.D, tv, a.arg1) else now.D)
    && EnvOk(sp.loc, now2.env, o.ctx, now2.D)
    && Kept(sp.k, sp.loc, Assigned(a.arg1), if reused then LandsAt(t, a.arg1) else None, now.env, now2.env)
    && Eval(now2.env, TextOf(e1.res)) == o.val && sp.k <= e1.next
    && Reads(sp.k, e1.next, sp.loc, Delayed(a.arg1), if reused then LandsAt(t, a.arg1) else None, TextOf(e1.res))
    && TempReady(pt, sp2, now2, a.arg2)
  }

  /** The second operand, after a first one that may have been stored into the target. */
  lemma {:induction false} SecondEvaluated(pt: Point, sp: Spot, now: Now, t: Target, tv: Option<nat>, a: Action, sp2: Spot, now2: Now)
    requires a.Binop? && Ready(pt, sp, now, t, tv, a)
    requires FirstEvaluated(pt, sp, now, t, tv, a, BothOperands(sp, now.h, t, a).0, sp2, now2)
    ensures var (e1, e2) := BothOperands(sp, now.h, t, a);
            var o := Sem(pt, now.G, now.l, a.arg1);
            var o' := Sem(pt, o.ctx, o.log, a.arg2);
            var res := Exec(pt.ru, now.st, now.env, Then(e1.code, e2.code));
            if Gone(pt, o') then res.Stopped? && pt.StopOk(StopLeft(pt, now2.h, now2.G, now2.l, a.arg2), res.st)
            else Evaluated(pt, sp, now, t, tv, a, e1, e2, res, o.val, o')
    decreases a.arg2, 5
  {
    hide Point.At, Point.StopOk, Point.Valid, BelowAll, Unwritten, Spot.Valid, TargetOk, Reads, Kept, Accepted;
    hide Ordered, CaptureFree, CallsIndependent, Names, Vars, ReadsFresh, Fits, Goes, RunCode, Exec;
    BinopParts(pt, sp, now, t, tv, a);
    BinopStops(pt.ru, now.st, now.env, sp, now.h, t, a);
    var (b, c) := (a.arg1, a.arg2);
    var (e1, e2) := BothOperands(sp, now.h, t, a);
    var reused := t.Into? && Reuses(a.fn2);
    RunThen(pt.ru, now.st, now.env, e1.code, e2.code);
    TempCorrect(pt, sp2, now2, c);
    var o := Sem(pt, now.G, now.l, b);
    var o' := Sem(pt, o.ctx, o.log, c);
    if !Gone(pt, o') {
      var r2 := Exec(pt.ru, now2.st, now2.env, e2.code);
      AssignedIsVar(c);
      TextSurvives(sp, e1.next, t, tv, a, reused && Lands(b), Delayed(b), Assigned(c), TextOf(e1.res), now2.env, r2.env);
      KeptThen(sp.k, e1.next, sp.loc, Assigned(b), Assigned(c), if reused then LandsAt(t, b) else None, now.env, now2.env, r2.env);
    }
  }

  /** The operation itself, as text. */
  lemma {:induction false} TextDone(pt: Point, sp: Spot, now: Now, t: Target, tv: Option<nat>, a: Action)
    requires a.Binop? && Ready(pt, sp, now, t, tv, a) && !InPlace(a.fn2)
    requires var (e1, e2) := BothOperands(sp, now.h, t, a);
             var o := Sem(pt, now.G, now.l, a.arg1);
             && !Gone(pt, o) && !Gone(pt, Sem(pt, o.ctx, o.log, a.arg2))
             && Evaluated(pt, sp, now, t, tv, a, e1, e2, Exec(pt.ru, now.st, now.env, Then(e1.code, e2.code)), o.val,
                          Sem(pt, o.ctx, o.log, a.arg2))
    ensures Correct(pt, sp, now, t, tv, a)
  {
    hide Point.At, Point.StopOk, Point.Valid, BelowAll, Unwritten, Spot.Valid, TargetOk, Reads, Kept, EnvOk, Accepted;
    hide Ordered, CaptureFree, CallsIndependent, Names, Vars, ReadsFresh, Fits, Goes, RunCode, Exec, Emit;
    BinopCode(sp, now.h, t, a);
    if t.NoTarget? { TargetNone(sp, t, tv, a); }
    var (e1, e2) := BothOperands(sp, now.h, t, a);
    BinopMeans(pt, now, a);
    ReadsTwo(sp.k, e1.next, e2.next, sp.loc, Delayed(a.arg1), Delayed(a.arg2),
             if t.Into? && Reuses(a.fn2) then LandsAt(t, a.arg1) else None, a.fn2, TextOf(e1.res), TextOf(e2.res));
  }

  lemma ReadyScoped(pt: Point, sp: Spot, now: Now, t: Target, tv: Option<nat>, a: Action)
    requires Ready(pt, sp, now, t, tv, a)
    ensures Scoped(a, |pt.r|, |now.G|) && |now.l| == |pt.L| == |pt.r|
  {
  }

  /** What an operation means, from its operands. */
  lemma {:induction false} BinopMeans(pt: Point, now: Now, a: Action)
    requires a.Binop? && Scoped(a, |pt.r|, |now.G|) && |now.l| == |pt.L| == |pt.r|
    ensures var o := Sem(pt, now.G, now.l, a.arg1);
            Sem(pt, now.G, now.l, a) ==
            if o.Failed? then Failed
            else
              match Sem(pt, o.ctx, o.log, a.arg2)
              case Failed => Failed
              case Ok(l, v, G) => Ok(l, Sigma2(a.fn2, o.val, v), G)
  {
  }

  /** The operation as an assignment to a field of the variable that gets the result. */
  lemma {:induction false} FieldDone(pt: Point, sp: Spot, now: Now, t: Target, tv: Option<nat>, a: Action)
    requires a.Binop? && Ready(pt, sp, now, t, tv, a) && InPlace(a.fn2)
    requires var (e1, e2) := BothOperands(sp, now.h, t, a);
             var o := Sem(pt, now.G, now.l, a.arg1);
             && !Gone(pt, o) && !Gone(pt, Sem(pt, o.ctx, o.log, a.arg2))
             && Evaluated(pt, sp, now, t, tv, a, e1, e2, Exec(pt.ru, now.st, now.env, Then(e1.code, e2.code)), o.val,
                          Sem(pt, o.ctx, o.log, a.arg2))
    ensures Correct(pt, sp, now, t, tv, a)
  {
    hide Point.At, Point.StopOk, Point.Valid, BelowAll, Unwritten, Spot.Valid, TargetOk, Reads, Kept, EnvOk, Accepted;
    hide Ordered, CaptureFree, CallsIndependent, Names, Vars, ReadsFresh, Fits, Goes, RunCode, Exec, Emit, StopLeft;
    BinopCode(sp, now.h, t, a);
    BinopMeans(pt, now, a);
    var (e1, e2) := BothOperands(sp, now.h, t, a);
    var r2 := Exec(pt.ru, now.st, now.env, Then(e1.code, e2.code));
    DeclaringOk(sp, t, tv, a, true);
    var x := if t.Into? then t.x else e2.next;
    BinopStops(pt.ru, now.st, now.env, sp, now.h, t, a);
    RunThen(pt.ru, now.st, now.env, Then(e1.code, e2.code), SetField(a.fn2, x, TextOf(e1.res), TextOf(e2.res)));
    var o := Sem(pt, now.G, now.l, a.arg1);
    var o' := Sem(pt, o.ctx, o.log, a.arg2);
    FieldOperands(pt, sp, now, t, tv, a);
    var env := FieldSet(pt.ru, sp, now, t, tv, a, e1, e2, r2, x, o.val, o');
    FieldLeaves(sp, now, t, tv, a, e1, e2, r2.env, env, x, o');
  }

  /** Copying the struct leaves the new field value as it was: its text does not mention
      the variable, or the variable already holds the struct. */
  lemma {:induction false} FieldSet(ru: Rule, sp: Spot, now: Now, t: Target, tv: Option<nat>, a: Action, e1: Emitted, e2: Emitted,
                                    r2: Result, x: nat, v1: Bits, o: Outcome) returns (env: Env)
    requires a.Binop? && sp.Valid() && TargetOk(sp, t, tv, a) && o.Ok? && r2.Running? && ru.Valid() && WellShaped(ru.kinds, r2.st)
    requires x == if t.Into? then t.x else e2.next
    requires Eval(r2.env, TextOf(e1.res)) == v1 && Eval(r2.env, TextOf(e2.res)) == o.val
    requires Reads(e1.next, e2.next, sp.loc, Delayed(a.arg2), None, TextOf(e2.res)) && sp.k <= e1.next <= e2.next
    requires t.Into? && tv.Some? && tv.value in Delayed(a.arg2) ==> TextOf(e1.res) == Loc(t.x)
    ensures var c := SetField(a.fn2, x, TextOf(e1.res), TextOf(e2.res));
            Compiles(ru.kinds, c) && Exec(ru, r2.st, r2.env, c) == Running(r2.st, env)
    ensures Get(env, x) == Sigma2(a.fn2, v1, o.val) && forall y: nat :: y != x ==> Get(env, y) == Get(r2.env, y)
  {
    hide RunCode, Exec, WellShaped;
    var (whole, part) := (TextOf(e1.res), TextOf(e2.res));
    var env3 := r2.env[x := v1];
    forall y | y in ExprVars(part) ensures Get(r2.env, y) == Get(env3, y) {
      if y == x {
        assert LocIn(sp.loc, Delayed(a.arg2), x);
        var m: nat :| m in Delayed(a.arg2) && m < |sp.loc| && sp.loc[m] == x;
        TargetApart(sp, t, tv, a, m);
      }
    }
    EvalSame(r2.env, env3, part);
    RunPut(ru, r2.st, r2.env, x, whole);
    RunPut(ru, r2.st, env3, x, Op2(a.fn2, Loc(x), part));
    RunThen(ru, r2.st, r2.env, Put(x, whole), Put(x, Op2(a.fn2, Loc(x), part)));
    env := env3[x := Sigma2(a.fn2, v1, o.val)];
  }

  /** A variable assigned to itself is its own text. */
  lemma {:induction false} ItselfText(sp: Spot, h: HistoryMap, t: Target, tv: Option<nat>, D: set<nat>, b: Action)
    requires sp.Valid() && tv.Some? && t.Into? && Fits(tv, sp.P, D, sp.names, b) && Itself(tv.value, b)
    requires tv.value < |sp.loc| && t.x == sp.loc[tv.value]
    ensures Emit(h, sp.scope, sp.k, t, b).res == Some(Loc(t.x))
    decreases b
  {
    match b
    case Var(k, m) =>
      assert k in Names(b);
      assert sp.names[m] == k;
    case APos(c) => ItselfText(sp, h, t, tv, D, c);
  }

  lemma {:induction false} FieldOperands(pt: Point, sp: Spot, now: Now, t: Target, tv: Option<nat>, a: Action)
    requires a.Binop? && Ready(pt, sp, now, t, tv, a) && InPlace(a.fn2)
    ensures t.Into? && tv.Some? && tv.value in Delayed(a.arg2) ==> TextOf(BothOperands(sp, now.h, t, a).0.res) == Loc(t.x)
  {
    hide Point.At, Point.Valid, BelowAll, Unwritten, Reads, Kept, EnvOk, Accepted, Ordered, CaptureFree;
    hide CallsIndependent, Names, Vars, ReadsFresh, Fits, Goes, RunCode, Emit;
    BinopParts(pt, sp, now, t, tv, a);
    if t.Into? && tv.Some? && tv.value in Delayed(a.arg2) {
      ItselfText(sp, now.h, t, tv, now.D, a.arg1);
    }
  }

  lemma {:induction false} FieldLeaves(sp: Spot, now: Now, t: Target, tv: Option<nat>, a: Action, e1: Emitted, e2: Emitted,
                                       env2: Env, env: Env, x: nat, o: Outcome)
    requires a.Binop? && InPlace(a.fn2) && sp.Valid() && TargetOk(sp, t, tv, a) && o.Ok? && sp.k <= e1.next <= e2.next
    requires x == if t.Into? then t.x else e2.next
    requires EnvOk(sp.loc, env2, o.ctx, if t.Into? then Dead(now.D, tv, a.arg1) else now.D)
    requires Kept(sp.k, sp.loc, Assigned(a), if t.Into? then LandsAt(t, a.arg1) else None, now.env, env2)
    requires forall y: nat :: y != x ==> Get(env, y) == Get(env2, y)
    ensures EnvOk(sp.loc, env, o.ctx, Dead(now.D, tv, a)) && Kept(sp.k, sp.loc, Assigned(a), LandsAt(t, a), now.env, env)
    ensures Reads(sp.k, e2.next + 1, sp.loc, Delayed(a), LandsAt(t, a), Loc(x))
  {
    if t.Into? {
      assert EnvOk(sp.loc, env2, o.ctx, Dead(now.D, tv, a));
      StoreTarget(sp, t, tv, a, now.D, o.ctx, env2, env);
    }
  }

  /** The second operand and the operation. */
  lemma {:induction false} SecondOperand(pt: Point, sp: Spot, now: Now, t: Target, tv: Option<nat>, a: Action, sp2: Spot, now2: Now)
    requires a.Binop? && Ready(pt, sp, now, t, tv, a)
    requires FirstEvaluated(pt, sp, now, t, tv, a, BothOperands(sp, now.h, t, a).0, sp2, now2)
    ensures Correct(pt, sp, now, t, tv, a)
    decreases a, 0
  {
    hide Point.At, Point.StopOk, Point.Valid, BelowAll, Unwritten, Spot.Valid, TargetOk, Reads, Kept, EnvOk, Evaluated, Accepted;
    hide Ordered, CaptureFree, CallsIndependent, Names, Vars, ReadsFresh, Fits, Goes, RunCode, Exec, Emit;
    BinopStops(pt.ru, now.st, now.env, sp, now.h, t, a);
    ReadyScoped(pt, sp, now, t, tv, a);
    BinopMeans(pt, now, a);
    SecondEvaluated(pt, sp, now, t, tv, a, sp2, now2);
    var o := Sem(pt, now.G, now.l, a.arg1);
    if Gone(pt, Sem(pt, o.ctx, o.log, a.arg2)) {
      StopTwice(pt, now.h, now.G, now.l, a, a.arg1, a.arg2);
    } else if InPlace(a.fn2) {
      FieldDone(pt, sp, now, t, tv, a);
    } else {
      TextDone(pt, sp, now, t, tv, a);
    }
  }

  lemma {:induction false} DeclaringOk(sp: Spot, t: Target, tv: Option<nat>, a: Action, declared: bool)
    requires sp.Valid() && TargetOk(sp, t, tv, a)
    ensures sp.(scope := Declaring(sp.scope, t, declared)).Valid()
    ensures t.Into? ==> Reached(Declaring(sp.scope, t, true), Declared(t)) == t.x
  {
  }

  lemma {:induction false} FitsOperands(tv: Option<nat>, P: set<string>, D: set<nat>, names: seq<string>, a: Action)
    requires a.Binop? && Fits(tv, P, D, names, a)
    ensures var tv1 := if Reuses(a.fn2) then tv else None;
            Fits(tv1, P, D, names, a.arg1) && Fits(None, P, D, names, a.arg2) && Fits(None, P, Dead(D, tv1, a.arg1), names, a.arg2)
  {
  }

  lemma {:induction false} EmitBinop(pt: Point, sp: Spot, now: Now, t: Target, tv: Option<nat>, a: Action)
    requires a.Binop? && Ready(pt, sp, now, t, tv, a)
    ensures Correct(pt, sp, now, t, tv, a)
    decreases a, 2
  {
    hide Accepted, Ordered, CaptureFree, CallsIndependent, Names, Vars, ReadsFresh, Fits, Goes;
    if t.Into? && Reuses(a.fn2) {
      BinopReused(pt, sp, now, t, tv, a);
    } else {
      BinopFresh(pt, sp, now, t, tv, a);
    }
  }

  /** The first operand has stopped. */
  lemma {:induction false} FirstStops(pt: Point, sp: Spot, now: Now, t: Target, tv: Option<nat>, a: Action)
    requires a.Binop? && Ready(pt, sp, now, t, tv, a) && Gone(pt, Sem(pt, now.G, now.l, a.arg1))
    requires var res := Exec(pt.ru, now.st, now.env, BothOperands(sp, now.h, t, a).0.code);
             res.Stopped? && pt.StopOk(StopLeft(pt, now.h, now.G, now.l, a.arg1), res.st)
    ensures Correct(pt, sp, now, t, tv, a)
  {
    hide Point.At, Point.StopOk, Point.Valid, BelowAll, Unwritten, Spot.Valid, TargetOk, Reads, Kept, EnvOk;
    hide Accepted, Ordered, CaptureFree, CallsIndependent, Names, Vars, ReadsFresh, Fits, Goes, RunCode, Exec, Emit;
    var (e1, e2) := BothOperands(sp, now.h, t, a);
    BinopStops(pt.ru, now.st, now.env, sp, now.h, t, a);
    RunThen(pt.ru, now.st, now.env, e1.code, e2.code);
    ReadyScoped(pt, sp, now, t, tv, a);
    BinopMeans(pt, now, a);
    var o := Sem(pt, now.G, now.l, a.arg1);
    if o.Ok? { GoneStays(pt, o.ctx, o.log, a.arg2); }
    StopTwice(pt, now.h, now.G, now.l, a, a.arg1, a.arg2);
  }

  lemma {:induction false} BinopFresh(pt: Point, sp: Spot, now: Now, t: Target, tv: Option<nat>, a: Action)
    requires a.Binop? && Ready(pt, sp, now, t, tv, a) && !(t.Into? && Reuses(a.fn2))
    ensures Correct(pt, sp, now, t, tv, a)
    decreases a, 1
  {
    hide Point.At, Point.StopOk, Point.Valid, BelowAll, Unwritten, Spot.Valid, TargetOk, Reads, Kept, EnvOk, Correct;
    hide Accepted, Ordered, CaptureFree, CallsIndependent, Names, Vars, ReadsFresh, Fits, Goes, RunCode, Exec;
    var (b, c) := (a.arg1, a.arg2);
    var e1 := EmitTemp(now.h, sp, b);
    var sp2 := sp.(k := e1.next);
    BinopStops(pt.ru, now.st, now.env, sp, now.h, t, a);
    BinopParts(pt, sp, now, t, tv, a);
    if t.NoTarget? { TargetNone(sp, t, tv, a); }
    assert TempReady(pt, sp, now, b);
    TempCorrect(pt, sp, now, b);
    var o := Sem(pt, now.G, now.l, b);
    if Gone(pt, o) {
      FirstStops(pt, sp, now, t, tv, a);
    } else {
      var r1 := Exec(pt.ru, now.st, now.env, e1.code);
      var now2 := Later(now, b, o, r1.st, r1.env);
      TargetLater(sp, e1.next, NoTarget, None, Fail(0), Fail(0));
      SecondOperand(pt, sp, now, t, tv, a, sp2, now2);
    }
  }

  lemma {:induction false} BinopReused(pt: Point, sp: Spot, now: Now, t: Target, tv: Option<nat>, a: Action)
    requires a.Binop? && Ready(pt, sp, now, t, tv, a) && t.Into? && Reuses(a.fn2)
    ensures Correct(pt, sp, now, t, tv, a)
    decreases a, 1
  {
    hide Point.At, Point.StopOk, Point.Valid, BelowAll, Unwritten, Spot.Valid, TargetOk, Reads, Kept, EnvOk;
    hide Accepted, Ordered, CaptureFree, CallsIndependent, Names, Vars, ReadsFresh, Fits, Goes, RunCode, Exec;
    var (b, c) := (a.arg1, a.arg2);
    var e1 := Emit(now.h, sp.scope, sp.k, t, b);
    var sp2 := sp.(k := e1.next, scope := Declaring(sp.scope, t, e1.declared));
    BinopStops(pt.ru, now.st, now.env, sp, now.h, t, a);
    BinopParts(pt, sp, now, t, tv, a);
    TargetLater(sp, sp.k, t, tv, a, b);
    assert sp.(k := sp.k) == sp;
    assert Ready(pt, sp, now, t, tv, b);
    EmitCorrect(pt, sp, now, t, tv, b);
    var o := Sem(pt, now.G, now.l, b);
    if Gone(pt, o) {
      FirstStops(pt, sp, now, t, tv, a);
    } else {
      var r1 := Exec(pt.ru, now.st, now.env, e1.code);
      var now2 := Later(now, b, o, r1.st, r1.env).(D := Dead(now.D, tv, b));
      DeclaringOk(sp, t, tv, a, e1.declared);
      TargetLater(sp.(scope := sp2.scope), e1.next, NoTarget, None, Fail(0), Fail(0));
      SecondOperand(pt, sp, now, t, tv, a, sp2, now2);
    }
  }

  lemma TargetNone(sp: Spot, t: Target, tv: Option<nat>, a: Action)
    requires TargetOk(sp, t, tv, a) && t.NoTarget?
    ensures tv == None
  {
  }

  // ----- a part whose result goes to the target -----

  function DeadTarget(D: set<nat>, tv: Option<nat>): set<nat> { if tv.Some? then D + {tv.value} else D }

  function TargetVar(t: Target): Option<nat> { if t.Into? then Some(t.x) else None }

  function FinishCode(h: HistoryMap, sp: Spot, t: Target, b: Action): Code {
    var e := Emit(h, sp.scope, sp.k, t, b);
    Then(e.code, AssignTo(sp.scope, t, e.res).0)
  }

  ghost predicate Finished(pt: Point, F: set<nat>, h': HistoryMap, sp: Spot, now: Now, t: Target, tv: Option<nat>, A: set<nat>,
                           res: Result, o: Outcome) {
    if Gone(pt, o) then res.Stopped? && pt.StopOk(F, res.st)
    else
      && res.Running? && pt.At(h', o.log, res.st) && WellShaped(pt.ru.kinds, res.st)
      && EnvOk(sp.loc, res.env, o.ctx, DeadTarget(now.D, tv))
      && Kept(sp.k, sp.loc, A, TargetVar(t), now.env, res.env)
      && (t.Into? ==> Get(res.env, t.x) == o.val)
  }

  /** Emitted for a declared target and assigned to it. */
  lemma {:induction false} FinishCorrect(pt: Point, sp: Spot, now: Now, t: Target, tv: Option<nat>, b: Action)
    requires Ready(pt, sp, now, t, tv, b) && (t.Into? ==> t.declared)
    requires Compiles(pt.ru.kinds, FinishCode(now.h, sp, t, b))
    ensures Finished(pt, StopLeft(pt, now.h, now.G, now.l, b), After(now.h, b), sp, now, t, tv, Assigned(b),
                     Exec(pt.ru, now.st, now.env, FinishCode(now.h, sp, t, b)),
                     Sem(pt, now.G, now.l, b))
    decreases b, 4
  {
    hide Point.At, Point.StopOk, Point.Valid, BelowAll, Unwritten, Spot.Valid, TargetOk, Reads, Kept, EnvOk;
    hide Accepted, Ordered, CaptureFree, CallsIndependent, Names, Vars, ReadsFresh, Fits, Goes, RunCode, Exec;
    var e := Emit(now.h, sp.scope, sp.k, t, b);
    var c := AssignTo(sp.scope, t, e.res).0;
    RunThen(pt.ru, now.st, now.env, e.code, c);
    EmitCorrect(pt, sp, now, t, tv, b);
    var o := Sem(pt, now.G, now.l, b);
    if !Gone(pt, o) {
      var r1 := Exec(pt.ru, now.st, now.env, e.code);
      if t.Into? {
        TargetReached(sp, t, tv, b);
        var env2 := AssignMeaning(pt.ru, r1.st, r1.env, sp.scope, t, e.res);
        FinishEnv(sp, now, t, tv, b, o.ctx, r1.env, env2);
      } else {
        RunSkip(pt.ru, r1.st, r1.env);
        TargetNone(sp, t, tv, b);
      }
    }
  }

  lemma TargetReached(sp: Spot, t: Target, tv: Option<nat>, b: Action)
    requires TargetOk(sp, t, tv, b) && t.Into? && t.declared
    ensures Reached(sp.scope, t) == t.x
  {
  }

  lemma {:induction false} FinishEnv(sp: Spot, now: Now, t: Target, tv: Option<nat>, b: Action, G: Ctx, env1: Env, env2: Env)
    requires sp.Valid() && TargetOk(sp, t, tv, b) && t.Into?
    requires EnvOk(sp.loc, env1, G, Dead(now.D, tv, b)) && Kept(sp.k, sp.loc, Assigned(b), LandsAt(t, b), now.env, env1)
    requires forall x: nat :: x != t.x ==> Get(env2, x) == Get(env1, x)
    ensures EnvOk(sp.loc, env2, G, DeadTarget(now.D, tv)) && Kept(sp.k, sp.loc, Assigned(b), Some(t.x), now.env, env2)
  {
    forall i: nat | i < |G| && i !in DeadTarget(now.D, tv) ensures Get(env2, sp.loc[i]) == G[i] {
      if sp.loc[i] == t.x { TargetApart(sp, t, tv, b, i); }
    }
  }

  // ----- conditionals -----

  lemma {:induction false} FitsBranches(tv: Option<nat>, P: set<string>, D: set<nat>, names: seq<string>, a: Action)
    requires a.If? && Fits(tv, P, D, names, a)
    ensures Fits(None, P, D, names, a.cond) && Fits(tv, P, D, names, a.tbranch) && Fits(tv, P, D, names, a.fbranch)
  {
  }

  lemma {:induction false} DeclaredTarget(sp: Spot, k': nat, t: Target, tv: Option<nat>, a: Action, b: Action)
    requires sp.Valid() && TargetOk(sp, t, tv, a) && sp.k <= k' && SpineBinders(b) <= SpineBinders(a)
    ensures var sp' := sp.(scope := Declaring(sp.scope, t, true), k := k');
            sp'.Valid() && TargetOk(sp', Declared(t), tv, b)
  {
    DeclaringOk(sp, t, tv, a, true);
  }

  lemma {:induction false} RunBranch(ru: Rule, st: State, env: Env, e: Expr, c1: Code, c2: Code)
    requires ru.Valid() && WellShaped(ru.kinds, st) && Compiles(ru.kinds, Branch(e, c1, c2))
    ensures Compiles(ru.kinds, c1) && Compiles(ru.kinds, c2)
    ensures Exec(ru, st, env, Branch(e, c1, c2)) == Exec(ru, st, env, if Single(Eval(env, e)) then c1 else c2)
  {
  }

  lemma {:induction false} EmitIf(pt: Point, sp: Spot, now: Now, t: Target, tv: Option<nat>, a: Action)
    requires a.If? && Ready(pt, sp, now, t, tv, a)
    ensures Correct(pt, sp, now, t, tv, a)
    decreases a, 2
  {
    hide Point.At, Point.StopOk, Point.Valid, BelowAll, Unwritten, Spot.Valid, TargetOk, Reads, Kept, EnvOk;
    hide Accepted, Ordered, CaptureFree, CallsIndependent, Names, Vars, ReadsFresh, Fits, Goes, RunCode, Exec;
    var sp1 := sp.(scope := Declaring(sp.scope, t, true));
    var t' := Declared(t);
    var h' := After(now.h, a.cond);
    var e := EmitTemp(now.h, sp1, a.cond);
    var spT := sp1.(k := e.next);
    var spF := sp1.(k := Emit(h', sp1.scope, e.next, t', a.tbranch).next);
    var (cT, cF) := (FinishCode(h', spT, t', a.tbranch), FinishCode(h', spF, t', a.fbranch));
    var code := Then(e.code, Branch(TextOf(e.res), cT, cF));
    IfCode(sp, now.h, t, a);
    RunThen(pt.ru, now.st, now.env, e.code, Branch(TextOf(e.res), cT, cF));
    IfParts(pt, sp, now, t, tv, a);
    ReadyScoped(pt, sp, now, t, tv, a);
    StopIf(pt, now.h, now.G, now.l, a);
    DeclaredTarget(sp, sp.k, t, tv, a, Fail(0));
    assert sp1.(k := sp.k) == sp1;
    TempCorrect(pt, sp1, now, a.cond);
    var o := Sem(pt, now.G, now.l, a.cond);
    if o.Ok? && Gone(pt, o) { GoneStays(pt, o.ctx, o.log, if Single(o.val) then a.tbranch else a.fbranch); }
    if !Gone(pt, o) {
      var r1 := Exec(pt.ru, now.st, now.env, e.code);
      var now1 := Later(now, a.cond, o, r1.st, r1.env);
      RunBranch(pt.ru, r1.st, r1.env, TextOf(e.res), cT, cF);
      var b := if Single(o.val) then a.tbranch else a.fbranch;
      var spB := if Single(o.val) then spT else spF;
      DeclaredTarget(sp, spB.k, t, tv, a, b);
      FinishCompiles(pt.ru.kinds, h', spB, t', b);
      assert Ready(pt, spB, now1, t', tv, b);
      FinishCorrect(pt, spB, now1, t', tv, b);
      IfDone(pt, sp, now, t, tv, a, o, b, spB, now1);
    }
  }

  lemma {:induction false} FinishCompiles(kinds: seq<Kind>, h: HistoryMap, sp: Spot, t: Target, b: Action)
    requires Compiles(kinds, FinishCode(h, sp, t, b))
    ensures Compiles(kinds, Emit(h, sp.scope, sp.k, t, b).code)
  {
  }

  lemma {:induction false} IfCode(sp: Spot, h: HistoryMap, t: Target, a: Action)
    requires a.If?
    ensures var sp1 := sp.(scope := Declaring(sp.scope, t, true));
            var t' := Declared(t);
            var h' := After(h, a.cond);
            var e := EmitTemp(h, sp1, a.cond);
            var spT := sp1.(k := e.next);
            var spF := sp1.(k := Emit(h', sp1.scope, e.next, t', a.tbranch).next);
            var out := Emit(h, sp.scope, sp.k, t, a);
            && out.code == Then(e.code, Branch(TextOf(e.res), FinishCode(h', spT, t', a.tbranch), FinishCode(h', spF, t', a.fbranch)))
            && sp.k <= e.next <= spF.k <= out.next
            && out.res == if t.Into? then Some(Loc(Reached(sp1.scope, t'))) else None
  {
  }

  lemma {:induction false} IfDone(pt: Point, sp: Spot, now: Now, t: Target, tv: Option<nat>, a: Action, o: Outcome, b: Action, spB: Spot, now1: Now)
    requires a.If? && Ready(pt, sp, now, t, tv, a)
    requires o == Sem(pt, now.G, now.l, a.cond) && !Gone(pt, o)
    requires b == if Single(o.val) then a.tbranch else a.fbranch
    requires spB == sp.(scope := Declaring(sp.scope, t, true), k := spB.k) && sp.k <= spB.k
    requires now1.D == now.D && now1.G == o.ctx && now1.l == o.log && now1.h == After(now.h, a.cond)
    requires Kept(sp.k, sp.loc, Assigned(a.cond), None, now.env, now1.env)
    requires WellShaped(pt.ru.kinds, now1.st) && Compiles(pt.ru.kinds, FinishCode(now1.h, spB, Declared(t), b))
    requires Exec(pt.ru, now.st, now.env, Emit(now.h, sp.scope, sp.k, t, a).code) ==
             Exec(pt.ru, now1.st, now1.env, FinishCode(now1.h, spB, Declared(t), b))
    requires Finished(pt, StopLeft(pt, now1.h, now1.G, now1.l, b), After(now1.h, b), spB, now1, Declared(t), tv, Assigned(b),
                      Exec(pt.ru, now1.st, now1.env, FinishCode(now1.h, spB, Declared(t), b)),
                      Sem(pt, o.ctx, o.log, b))
    ensures Correct(pt, sp, now, t, tv, a)
  {
    hide Point.StopOk, Point.Valid, BelowAll, Unwritten, Spot.Valid, Kept, InSync, DescribesAll, Accepted, Ordered;
    hide CaptureFree, CallsIndependent, Names, Vars, ReadsFresh, Fits, Goes, RunCode, Exec, StopLeft, After;
    IfCode(sp, now.h, t, a);
    IfParts(pt, sp, now, t, tv, a);
    DeclaringOk(sp, t, tv, a, true);
    if t.NoTarget? { TargetNone(sp, t, tv, a); }
    var o' := Sem(pt, o.ctx, o.log, b);
    if !Gone(pt, o') {
      var r2 := Exec(pt.ru, now1.st, now1.env, FinishCode(now1.h, spB, Declared(t), b));
      KeptTwice(sp.k, spB.k, sp.loc, Assigned(a.cond), Assigned(b), TargetVar(t), now.env, now1.env, r2.env);
      KeptMore(sp.k, sp.loc, Assigned(a.cond) + Assigned(b), Assigned(a), TargetVar(t), now.env, r2.env);
      JoinAtBranch(pt, now, a, b, o', r2.st);
    } else {
      ReadyScoped(pt, sp, now, t, tv, a);
      StopIf(pt, now.h, now.G, now.l, a);
    }
  }

  lemma KeptMore(k: nat, loc: seq<nat>, A: set<nat>, B: set<nat>, also: Option<nat>, env: Env, env': Env)
    requires A <= B && Kept(k, loc, A, also, env, env')
    ensures Kept(k, loc, B, also, env, env')
  {
    forall x: nat | x < k && !LocIn(loc, B, x) && also != Some(x) ensures Get(env', x) == Get(env, x) {
      assert !LocIn(loc, A, x);
    }
  }

  /** After one branch, the joined annotation is right too. */
  lemma {:induction false} JoinAtBranch(pt: Point, now: Now, a: Action, b: Action, o: Outcome, st: State)
    requires a.If? && (b == a.tbranch || b == a.fbranch) && o.Ok? && BelowAll(After(now.h, a), pt.ru.hf)
    requires pt.At(After(After(now.h, a.cond), b), o.log, st)
    ensures pt.At(After(now.h, a), o.log, st)
  {
    var h' := After(now.h, a.cond);
    JoinDescribes(After(h', a.tbranch), After(h', a.fbranch), o.log);
  }

  // ----- bindings -----

  /** The expression of a binding leaves its value in the new variable. */
  ghost predicate Bound(pt: Point, F: set<nat>, sp: Spot, now: Now, ex: Action, next: nat, res: Result, o: Outcome) {
    if Gone(pt, o) then res.Stopped? && pt.StopOk(F, res.st)
    else
      && res.Running? && pt.At(After(now.h, ex), o.log, res.st) && WellShaped(pt.ru.kinds, res.st)
      && Stepped(sp, now, Assigned(ex), next, res.env, o.ctx) && Get(res.env, sp.k) == o.val
  }

  ghost predicate BindingReady(pt: Point, sp: Spot, now: Now, x: string, ex: Action) {
    && now.In(pt) && Goes(pt, now.h, now.W, |now.G|, ex) && |now.l| == |pt.L| == |pt.r|
    && sp.Valid() && |sp.names| == |now.G| && Fits(None, sp.P, now.D, sp.names, ex)
    && (Mentions(x, ex) || x !in Names(ex))
    && EnvOk(sp.loc, now.env, now.G, now.D)
    && Compiles(pt.ru.kinds, EmitBinding(now.h, sp.scope, sp.k, x, ex).code)
  }

  lemma {:induction false} BindingCorrect(pt: Point, sp: Spot, now: Now, x: string, ex: Action)
    requires BindingReady(pt, sp, now, x, ex)
    ensures var b := EmitBinding(now.h, sp.scope, sp.k, x, ex);
            Bound(pt, StopLeft(pt, now.h, now.G, now.l, ex), sp, now, ex, b.next, Exec(pt.ru, now.st, now.env, b.code),
                  Sem(pt, now.G, now.l, ex))
    decreases ex, 6
  {
    hide Accepted, Ordered, CaptureFree, CallsIndependent, Names, Vars, ReadsFresh, Fits, Goes;
    if Mentions(x, ex) {
      BindingThroughTemp(pt, sp, now, x, ex);
    } else {
      BindingDirect(pt, sp, now, x, ex);
    }
  }

  /** One more variable is in use. */
  lemma SpotMore(sp: Spot, k': nat)
    requires sp.Valid() && sp.k <= k'
    ensures sp.(k := k').Valid()
  {
  }

  lemma {:induction false} BindingThroughTemp(pt: Point, sp: Spot, now: Now, x: string, ex: Action)
    requires BindingReady(pt, sp, now, x, ex) && Mentions(x, ex)
    ensures var b := EmitBinding(now.h, sp.scope, sp.k, x, ex);
            Bound(pt, StopLeft(pt, now.h, now.G, now.l, ex), sp, now, ex, b.next, Exec(pt.ru, now.st, now.env, b.code),
                  Sem(pt, now.G, now.l, ex))
    decreases ex, 5
  {
    hide Point.At, Point.StopOk, Point.Valid, BelowAll, Unwritten, Spot.Valid, TargetOk, Reads, EnvOk, Kept;
    hide Stepped, RunCode, Exec, InterpAction, Sem, After, StopLeft, Accepted, Ordered, CaptureFree;
    hide CallsIndependent, Names, Vars, ReadsFresh, Fits, Goes;
    var sp1 := sp.(k := sp.k + 1);
    var t := Temp(sp1);
    var e := EmitTemp(now.h, sp1, ex);
    var t' := t.(declared := e.declared);
    var (c, text) := AssignTo(sp.scope, t', e.res);
    SpotMore(sp, sp.k + 1);
    RunThen(pt.ru, now.st, now.env, Then(e.code, c), Put(sp.k, TextOf(text)));
    RunThen(pt.ru, now.st, now.env, e.code, c);
    TempCorrect(pt, sp1, now, ex);
    var o := Sem(pt, now.G, now.l, ex);
    if !Gone(pt, o) {
      var r1 := Exec(pt.ru, now.st, now.env, e.code);
      var env2 := AssignMeaning(pt.ru, r1.st, r1.env, sp.scope, t', e.res);
      RunPut(pt.ru, r1.st, env2, sp.k, TextOf(text));
      ThroughEnv(sp, now, ex, o.ctx, e.next, r1.env, env2, env2[sp.k := Eval(env2, TextOf(text))]);
    }
  }

  lemma {:induction false} ThroughEnv(sp: Spot, now: Now, ex: Action, G: Ctx, next: nat, env1: Env, env2: Env, env3: Env)
    requires sp.Valid() && Stepped(sp.(k := sp.k + 1), now, Assigned(ex), next, env1, G)
    requires forall x: nat :: x != sp.k + 1 ==> Get(env2, x) == Get(env1, x)
    requires forall x: nat :: x != sp.k ==> Get(env3, x) == Get(env2, x)
    ensures Stepped(sp, now, Assigned(ex), next, env3, G)
  {
    BelowSpot(sp);
  }

  lemma BelowSpot(sp: Spot)
    requires sp.Valid()
    ensures forall i :: 0 <= i < |sp.loc| ==> sp.loc[i] < sp.k
  {
  }

  /** The new variable may be declared while its own expression runs; that expression
      does not use the name. */
  lemma {:induction false} PendingTarget(sp: Spot, x: string, ex: Action)
    requires sp.Valid() && x !in Names(ex)
    ensures var sp1 := sp.(k := sp.k + 1, P := sp.P + {x});
            sp1.Valid() && TargetOk(sp1, Into(Some(x), sp.k, false), None, ex)
    ensures Reached(Declaring(sp.scope, Into(Some(x), sp.k, false), true), Into(Some(x), sp.k, true)) == sp.k
  {
    SpineIsNamed(ex);
  }

  lemma {:induction false} BindingDirect(pt: Point, sp: Spot, now: Now, x: string, ex: Action)
    requires BindingReady(pt, sp, now, x, ex) && !Mentions(x, ex)
    ensures var b := EmitBinding(now.h, sp.scope, sp.k, x, ex);
            Bound(pt, StopLeft(pt, now.h, now.G, now.l, ex), sp, now, ex, b.next, Exec(pt.ru, now.st, now.env, b.code),
                  Sem(pt, now.G, now.l, ex))
    decreases ex, 4
  {
    hide Point.At, Point.StopOk, Point.Valid, BelowAll, Unwritten, Spot.Valid, TargetOk, Reads, Kept, EnvOk;
    hide Declaring, Reached, Stepped, RunCode, Exec, InterpAction, Sem, After, StopLeft, Accepted, Ordered;
    hide CaptureFree, CallsIndependent, Names, Vars, ReadsFresh, Fits, Goes;
    var sp1 := sp.(k := sp.k + 1, P := sp.P + {x});
    var t := Into(Some(x), sp.k, false);
    var e := Emit(now.h, sp.scope, sp.k + 1, t, ex);
    var t' := t.(declared := e.declared);
    var scope' := Declaring(sp.scope, t, e.declared);
    var c := AssignTo(scope', t', e.res).0;
    PendingTarget(sp, x, ex);
    PendingReached(sp, x, e.declared);
    PendingFits(sp.P, now.D, sp.names, x, ex);
    RunThen(pt.ru, now.st, now.env, e.code, c);
    assert Ready(pt, sp1, now, t, None, ex);
    EmitCorrect(pt, sp1, now, t, None, ex);
    var o := Sem(pt, now.G, now.l, ex);
    if !Gone(pt, o) {
      var r1 := Exec(pt.ru, now.st, now.env, e.code);
      var env2 := AssignMeaning(pt.ru, r1.st, r1.env, scope', t', e.res);
      PendingEnv(sp, now, ex, LandsAt(t, ex), o.ctx, e.next, r1.env, env2);
    }
  }

  lemma PendingReached(sp: Spot, x: string, declared: bool)
    ensures var t := Into(Some(x), sp.k, false); Reached(Declaring(sp.scope, t, declared), t.(declared := declared)) == sp.k
  {
  }

  lemma PendingFits(P: set<string>, D: set<nat>, names: seq<string>, x: string, ex: Action)
    requires Fits(None, P, D, names, ex) && x !in Names(ex)
    ensures Fits(None, P + {x}, D, names, ex)
  {
  }

  lemma {:induction false} PendingEnv(sp: Spot, now: Now, ex: Action, also: Option<nat>, G: Ctx, next: nat, env1: Env, env2: Env)
    requires sp.Valid() && sp.k < next && EnvOk(sp.loc, env1, G, now.D) && (also.Some? ==> also.value == sp.k)
    requires Kept(sp.k + 1, sp.loc, Assigned(ex), also, now.env, env1)
    requires forall x: nat :: x != sp.k ==> Get(env2, x) == Get(env1, x)
    ensures Stepped(sp, now, Assigned(ex), next, env2, G)
  {
    BelowSpot(sp);
  }

  lemma {:induction false} FitsBody(tv: Option<nat>, P: set<string>, D: set<nat>, names: seq<string>, a: Action)
    requires a.Bind? && Fits(tv, P, D, names, a)
    ensures Fits(None, P, D, names, a.ex) && Fits(InnerVar(tv), P, Inner(D), [a.name] + names, a.body)
    ensures a.name !in P && (Mentions(a.name, a.ex) || a.name !in Names(a.ex))
  {
    assert a.name in Names(a);
    InOuter(Vars(a.body));
    forall i | i in Vars(a.body) ensures i !in Inner(D) {
      if i > 0 { InInner(D, i - 1); assert (i - 1) + 1 in Vars(a.body); }
    }
  }

  /** The place inside a binding. */
  function InnerSpot(sp: Spot, t: Target, x: string, k': nat): Spot {
    Spot([x] + sp.names, [sp.k] + sp.loc, [(x, sp.k)] + Declaring(sp.scope, t, true), sp.P, k')
  }

  lemma {:induction false} InnerSpotOk(sp: Spot, t: Target, tv: Option<nat>, a: Action, k': nat)
    requires a.Bind? && sp.Valid() && TargetOk(sp, t, tv, a) && sp.k < k' && a.name !in sp.P
    ensures InnerSpot(sp, t, a.name, k').Valid()
    ensures TargetOk(InnerSpot(sp, t, a.name, k'), Declared(t), InnerVar(tv), a.body)
  {
    var inner := InnerSpot(sp, t, a.name, k');
    DeclaringOk(sp, t, tv, a, true);
    InnerScope(sp, t, tv, a);
    forall i, j | 0 <= i < j < |inner.loc| ensures inner.loc[i] != inner.loc[j] {
      if i == 0 { assert inner.loc[j] == sp.loc[j - 1]; } else { assert inner.loc[i] == sp.loc[i - 1] && inner.loc[j] == sp.loc[j - 1]; }
    }
    if t.Into? && tv.Some? { assert inner.loc[tv.value + 1] == sp.loc[tv.value]; }
    if t.Into? { assert Reached(inner.scope, Declared(t)) == t.x by { InnerReached(sp, t, tv, a); } }
  }

  lemma {:induction false} InnerReached(sp: Spot, t: Target, tv: Option<nat>, a: Action)
    requires a.Bind? && sp.Valid() && TargetOk(sp, t, tv, a) && t.Into?
    ensures Reached([(a.name, sp.k)] + Declaring(sp.scope, t, true), Declared(t)) == t.x
  {
    DeclaringOk(sp, t, tv, a, true);
    if t.name.Some? {
      assert a.name in SpineBinders(a);
      ResolvePast(a.name, sp.k, Declaring(sp.scope, t, true), t.name.value);
    }
  }

  lemma ResolvePast(x: string, k: nat, scope: Scope, y: string)
    requires x != y
    ensures Resolve([(x, k)] + scope, y) == Resolve(scope, y)
  {
    assert ([(x, k)] + scope)[1..] == scope;
  }

  lemma {:induction false} InnerScope(sp: Spot, t: Target, tv: Option<nat>, a: Action)
    requires a.Bind? && sp.Valid() && TargetOk(sp, t, tv, a) && a.name !in sp.P
    ensures var scope := Declaring(sp.scope, t, true);
            ScopeOk([a.name] + sp.names, [sp.k] + sp.loc, [(a.name, sp.k)] + scope, sp.P)
  {
    DeclaringOk(sp, t, tv, a, true);
    var scope := Declaring(sp.scope, t, true);
    var (names, loc) := ([a.name] + sp.names, [sp.k] + sp.loc);
    forall m: nat | m < |names| && names[m] !in sp.P && Visible(names, names[m], m)
      ensures Resolve([(a.name, sp.k)] + scope, names[m]) == loc[m]
    {
      if m > 0 {
        assert names[0] != names[m];
        ResolvePast(a.name, sp.k, scope, names[m]);
        assert Visible(sp.names, sp.names[m - 1], m - 1) by {
          forall j | 0 <= j < m - 1 ensures sp.names[j] != sp.names[m - 1] { assert names[j + 1] != names[m]; }
        }
        assert sp.(scope := scope).Valid();
      }
    }
  }

  lemma {:induction false} BindCode(sp: Spot, h: HistoryMap, t: Target, a: Action)
    requires a.Bind?
    ensures var b := EmitBinding(h, Declaring(sp.scope, t, true), sp.k, a.name, a.ex);
            var spB := InnerSpot(sp, t, a.name, b.next);
            var e := Emit(After(h, a.ex), spB.scope, spB.k, Declared(t), a.body);
            var out := Emit(h, sp.scope, sp.k, t, a);
            && out.next == e.next >= b.next > sp.k
            && out.code == Then(b.code, Then(e.code, AssignTo(spB.scope, Declared(t), e.res).0))
            && out.res == if t.Into? then Some(Loc(Reached(Declaring(sp.scope, t, true), Declared(t)))) else None
  {
  }

  lemma {:induction false} EmitBind(pt: Point, sp: Spot, now: Now, t: Target, tv: Option<nat>, a: Action)
    requires a.Bind? && Ready(pt, sp, now, t, tv, a)
    ensures Correct(pt, sp, now, t, tv, a)
    decreases a, 2
  {
    hide Point.At, Point.StopOk, Point.Valid, BelowAll, Unwritten, Spot.Valid, TargetOk, Reads, Kept, EnvOk;
    hide Accepted, Ordered, CaptureFree, CallsIndependent, Names, Vars, ReadsFresh, Fits, Goes, RunCode, Exec, StopLeft;
    var (x, ex, body) := (a.name, a.ex, a.body);
    var sp1 := sp.(scope := Declaring(sp.scope, t, true));
    var b := EmitBinding(now.h, sp1.scope, sp.k, x, ex);
    var spB := InnerSpot(sp, t, x, b.next);
    var h' := After(now.h, ex);
    BindCode(sp, now.h, t, a);
    RunThen(pt.ru, now.st, now.env, b.code, FinishCode(h', spB, Declared(t), body));
    BindParts(pt, sp, now, t, tv, a);
    ReadyScoped(pt, sp, now, t, tv, a);
    StopBind(pt, now.h, now.G, now.l, a);
    DeclaringOk(sp, t, tv, a, true);
    assert BindingReady(pt, sp1, now, x, ex);
    BindingCorrect(pt, sp1, now, x, ex);
    var o := Sem(pt, now.G, now.l, ex);
    if o.Ok? && Gone(pt, o) { GoneStays(pt, [o.val] + o.ctx, o.log, body); }
    if !Gone(pt, o) {
      var r1 := Exec(pt.ru, now.st, now.env, b.code);
      var now1 := Now(h', now.W + Port1Writes(ex), o.log, r1.st, Inner(now.D), [o.val] + o.ctx, r1.env);
      InnerSpotOk(sp, t, tv, a, b.next);
      InnerEnv(sp.loc, sp.k, r1.env, o.ctx, o.val, now.D);
      FinishCompiles(pt.ru.kinds, h', spB, Declared(t), body);
      assert Ready(pt, spB, now1, Declared(t), InnerVar(tv), body);
      FinishCorrect(pt, spB, now1, Declared(t), InnerVar(tv), body);
      BindDone(pt, sp, now, t, tv, a, o, now1, b.next);
    }
  }

  lemma InnerEnv(loc: seq<nat>, k: nat, env: Env, G: Ctx, v: Bits, D: set<nat>)
    requires EnvOk(loc, env, G, D) && Get(env, k) == v
    ensures EnvOk([k] + loc, env, [v] + G, Inner(D))
  {
    forall i: nat | i < |G| + 1 && i !in Inner(D) ensures Get(env, ([k] + loc)[i]) == ([v] + G)[i] {
      if i > 0 { InInner(D, i - 1); }
    }
  }

  lemma {:induction false} OuterEnv(loc: seq<nat>, k: nat, env: Env, G: Ctx, D: set<nat>, tv: Option<nat>)
    requires EnvOk([k] + loc, env, G, DeadTarget(Inner(D), InnerVar(tv)))
    ensures EnvOk(loc, env, G[1..], DeadTarget(D, tv))
  {
    forall i: nat | i < |loc| && i !in DeadTarget(D, tv) ensures Get(env, loc[i]) == G[1..][i] {
      InInner(D, i);
      assert ([k] + loc)[i + 1] == loc[i];
    }
  }

  lemma {:induction false} OuterKept(loc: seq<nat>, k: nat, k': nat, A: set<nat>, also: Option<nat>, env: Env, env': Env)
    requires Kept(k', [k] + loc, A, also, env, env') && k < k'
    ensures forall x: nat :: x < k && !LocIn(loc, Outer(A), x) && also != Some(x) ==> Get(env', x) == Get(env, x)
  {
    forall x: nat | x < k && !LocIn(loc, Outer(A), x) && also != Some(x) ensures Get(env', x) == Get(env, x) {
      InOuter(A);
      forall m: nat | m in A && m < |loc| + 1 ensures ([k] + loc)[m] != x {
        if m > 0 { assert (m - 1) + 1 in A; assert m - 1 in Outer(A); assert ([k] + loc)[m] == loc[m - 1]; }
      }
    }
  }

  lemma {:induction false} BindDone(pt: Point, sp: Spot, now: Now, t: Target, tv: Option<nat>, a: Action, o: Outcome, now1: Now, k': nat)
    requires a.Bind? && Ready(pt, sp, now, t, tv, a)
    requires o == Sem(pt, now.G, now.l, a.ex) && !Gone(pt, o)
    requires now1.D == Inner(now.D) && now1.G == [o.val] + o.ctx && now1.l == o.log && now1.h == After(now.h, a.ex)
    requires Kept(sp.k, sp.loc, Assigned(a.ex), None, now.env, now1.env) && sp.k < k'
    requires k' == EmitBinding(now.h, Declaring(sp.scope, t, true), sp.k, a.name, a.ex).next
    requires WellShaped(pt.ru.kinds, now1.st)
    requires Compiles(pt.ru.kinds, FinishCode(now1.h, InnerSpot(sp, t, a.name, k'), Declared(t), a.body))
    requires Exec(pt.ru, now.st, now.env, Emit(now.h, sp.scope, sp.k, t, a).code) ==
             Exec(pt.ru, now1.st, now1.env, FinishCode(now1.h, InnerSpot(sp, t, a.name, k'), Declared(t), a.body))
    requires Finished(pt, StopLeft(pt, now1.h, now1.G, now1.l, a.body), After(now1.h, a.body), InnerSpot(sp, t, a.name, k'), now1,
                      Declared(t), InnerVar(tv), Assigned(a.body),
                      Exec(pt.ru, now1.st, now1.env, FinishCode(now1.h, InnerSpot(sp, t, a.name, k'), Declared(t), a.body)),
                      Sem(pt, now1.G, o.log, a.body))
    ensures Correct(pt, sp, now, t, tv, a)
  {
    hide Point.At, Point.StopOk, Point.Valid, BelowAll, Unwritten, Spot.Valid, Accepted, Ordered, CaptureFree;
    hide CallsIndependent, Names, Vars, ReadsFresh, Fits, Goes, RunCode, Exec, StopLeft;
    BindCode(sp, now.h, t, a);
    if t.Into? { DeclaringOk(sp, t, tv, a, true); } else { TargetNone(sp, t, tv, a); }
    var q := Sem(pt, now1.G, o.log, a.body);
    if !Gone(pt, q) {
      var r2 := Exec(pt.ru, now1.st, now1.env, FinishCode(now1.h, InnerSpot(sp, t, a.name, k'), Declared(t), a.body));
      OuterEnv(sp.loc, sp.k, r2.env, q.ctx, now.D, tv);
      OuterKept(sp.loc, sp.k, k', Assigned(a.body), TargetVar(t), now1.env, r2.env);
      KeptTwice(sp.k, sp.k, sp.loc, Assigned(a.ex), Outer(Assigned(a.body)), TargetVar(t), now.env, now1.env, r2.env);
    } else {
      ReadyScoped(pt, sp, now, t, tv, a);
      StopBind(pt, now.h, now.G, now.l, a);
    }
  }

  // ----- calls -----

  ghost predicate ArgsReady(pt: Point, sp: Spot, now: Now, args: Args) {
    && now.In(pt) && |now.l| == |pt.L| == |pt.r| && sp.Valid() && |sp.names| == |now.G| && EnvOk(sp.loc, now.env, now.G, now.D)
    && |now.h| == |pt.r| == |pt.ru.kinds| && ScopedArgs(args, |pt.r|, |now.G|) && BelowAll(AfterArgs(now.h, args), pt.ru.hf)
    && ArgsReadFresh(FirstToLast, now.W, args) && Unwritten(now.W, now.h)
    && AcceptedArgs(sp.names, args) && OrderedArgs(args) && ArgsCaptureFree(args) && ArgsCallsIndependent(args)
    && ArgsIndependent(args) && NamesOfArgs(args) !! sp.P && ArgsVars(args) !! now.D
    && Compiles(pt.ru.kinds, EmitArgs(now.h, sp.scope, sp.k, args).0)
  }

  ghost predicate ArgsGone(pt: Point, o: ArgsOutcome) { o.ArgsFailed? || Blocked(pt.Z, o.log) }

  ghost predicate TextsMean(sp: Spot, next: nat, A: set<nat>, env: Env, texts: seq<Expr>, vals: seq<Bits>) {
    && |texts| == |vals|
    && forall i :: 0 <= i < |texts| ==> Eval(env, texts[i]) == vals[i] && Reads(sp.k, next, sp.loc, A, None, texts[i])
  }

  ghost predicate ArgsMeet(pt: Point, F: set<nat>, sp: Spot, now: Now, args: Args, e: (Code, seq<Expr>, nat), res: Result, o: ArgsOutcome) {
    if ArgsGone(pt, o) then res.Stopped? && pt.StopOk(F, res.st)
    else
      && res.Running? && pt.At(AfterArgs(now.h, args), o.log, res.st) && WellShaped(pt.ru.kinds, res.st)
      && Stepped(sp, now, ArgsAssigned(args), e.2, res.env, o.ctx)
      && TextsMean(sp, e.2, ArgsVars(args), res.env, e.1, o.vals)
  }

  lemma {:induction false} ArgsGoesTwice(pt: Point, now: Now, args: Args)
    requires args.MoreArgs? && |now.h| == |pt.r| == |pt.ru.kinds| && ScopedArgs(args, |pt.r|, |now.G|)
    requires BelowAll(AfterArgs(now.h, args), pt.ru.hf) && ArgsReadFresh(FirstToLast, now.W, args) && Unwritten(now.W, now.h)
    ensures Goes(pt, now.h, now.W, |now.G|, args.arg) && Unwritten(now.W + Port1Writes(args.arg), After(now.h, args.arg))
  {
    AfterArgsBelow(After(now.h, args.arg), args.rest);
    BelowTrans(After(now.h, args.arg), AfterArgs(now.h, args), pt.ru.hf);
    UnwrittenAfter(now.W, now.h, args.arg);
  }

  /** The texts of earlier arguments still mean their values after later arguments. */
  lemma {:induction false} MoreTexts(sp: Spot, k': nat, next: nat, arg: Action, rest: Args, e: Expr, v: Bits, texts: seq<Expr>, vals: seq<Bits>,
                                     env1: Env, env2: Env)
    requires sp.Valid() && sp.k <= k' <= next && Vars(arg) !! ArgsAssigned(rest)
    requires Eval(env1, e) == v && Reads(sp.k, k', sp.loc, Delayed(arg), None, e)
    requires Kept(k', sp.loc, ArgsAssigned(rest), None, env1, env2)
    requires TextsMean(sp.(k := k'), next, ArgsVars(rest), env2, texts, vals)
    ensures TextsMean(sp, next, Vars(arg) + ArgsVars(rest), env2, [e] + texts, [v] + vals)
  {
    DelayedIsVar(arg);
    NoTargetOk(sp, arg);
    TextSurvives(sp, k', NoTarget, None, arg, false, Delayed(arg), ArgsAssigned(rest), e, env1, env2);
    forall i | 0 <= i < |texts| + 1
      ensures Eval(env2, ([e] + texts)[i]) == ([v] + vals)[i]
      ensures Reads(sp.k, next, sp.loc, Vars(arg) + ArgsVars(rest), None, ([e] + texts)[i])
    {
      var (f, A) := (([e] + texts)[i], Vars(arg) + ArgsVars(rest));
      forall x | x in ExprVars(f) ensures (sp.k <= x < next) || LocIn(sp.loc, A, x) {
        if i == 0 {
          if LocIn(sp.loc, Delayed(arg), x) { LocInMore(sp.loc, Delayed(arg), A, x); }
        } else if LocIn(sp.loc, ArgsVars(rest), x) {
          LocInMore(sp.loc, ArgsVars(rest), A, x);
        }
      }
    }
  }

  lemma {:induction false} ArgsParts(pt: Point, sp: Spot, now: Now, args: Args)
    requires args.MoreArgs? && ArgsReady(pt, sp, now, args)
    ensures Fits(None, sp.P, now.D, sp.names, args.arg) && Vars(args.arg) !! ArgsAssigned(args.rest)
  {
  }

  /** The arguments, from the first to the last. */
  lemma {:induction false} ArgsCorrect(pt: Point, sp: Spot, now: Now, args: Args)
    requires ArgsReady(pt, sp, now, args)
    ensures ArgsMeet(pt, StopLeftArgs(pt, now.h, now.G, now.l, args), sp, now, args, EmitArgs(now.h, sp.scope, sp.k, args),
                     Exec(pt.ru, now.st, now.env, EmitArgs(now.h, sp.scope, sp.k, args).0),
                     InterpArgsForward(pt.r, pt.ru.sigma, now.G, pt.L, now.l, args))
    decreases args, 0
  {
    hide Point.At, Point.StopOk, Point.Valid, BelowAll, Unwritten, Spot.Valid, TargetOk, Reads, Accepted, Ordered;
    hide CaptureFree, CallsIndependent, Names, Vars, ReadsFresh, Fits, Goes, RunCode, Exec;
    match args
    case NoArgs => AtNotBlocked(pt, now.h, now.l, now.st); RunSkip(pt.ru, now.st, now.env);
    case MoreArgs(_, _, arg, rest) =>
      var e := EmitTemp(now.h, sp, arg);
      var (h', sp') := (After(now.h, arg), sp.(k := e.next));
      var e' := EmitArgs(h', sp.scope, e.next, rest);
      RunThen(pt.ru, now.st, now.env, e.code, e'.0);
      ArgsGoesTwice(pt, now, args);
      ArgsParts(pt, sp, now, args);
      TempCorrect(pt, sp, now, arg);
      var o := Sem(pt, now.G, now.l, arg);
      if o.Ok? && Gone(pt, o) { ArgsGoneStays(pt, o.ctx, o.log, rest); }
      if !Gone(pt, o) {
        var r1 := Exec(pt.ru, now.st, now.env, e.code);
        var now' := Later(now, arg, o, r1.st, r1.env);
        SpotMore(sp, e.next);
        ArgsCorrect(pt, sp', now', rest);
        var q := InterpArgsForward(pt.r, pt.ru.sigma, o.ctx, pt.L, o.log, rest);
        if !ArgsGone(pt, q) {
          var r2 := Exec(pt.ru, r1.st, r1.env, e'.0);
          KeptTwice(sp.k, e.next, sp.loc, Assigned(arg), ArgsAssigned(rest), None, now.env, r1.env, r2.env);
          MoreTexts(sp, e.next, e'.2, arg, rest, TextOf(e.res), o.val, e'.1, q.vals, r1.env, r2.env);
        }
      }
  }

  lemma {:induction false} ArgsGoneStays(pt: Point, G: Ctx, l: Log, args: Args)
    requires ScopedArgs(args, |pt.r|, |G|) && |l| == |pt.L| == |pt.r| && Blocked(pt.Z, l)
    ensures ArgsGone(pt, InterpArgsForward(pt.r, pt.ru.sigma, G, pt.L, l, args))
    decreases args
  {
    match args
    case NoArgs =>
    case MoreArgs(_, _, arg, rest) =>
      GoneStays(pt, G, l, arg);
      var o := Sem(pt, G, l, arg);
      if o.Ok? { ArgsGoneStays(pt, o.ctx, o.log, rest); }
  }

  /** The place at the start of a function. */
  function FunctionSpot(args: Args): Spot {
    Spot(ArgNames(args), seq(ArgCount(args), i requires 0 <= i => i + 1), Params(args, 1), {}, ArgCount(args) + 1)
  }

  lemma {:induction false} ParamsResolve(args: Args, x: nat, m: nat)
    requires m < ArgCount(args) && Distinct(ArgNames(args))
    ensures Resolve(Params(args, x), ArgNames(args)[m]) == x + m
    decreases args
  {
    match args
    case MoreArgs(k, _, _, rest) =>
      var names := ArgNames(args);
      assert names[1..] == ArgNames(rest);
      if m > 0 {
        assert names[0] != names[m];
        assert Distinct(ArgNames(rest)) by {
          forall i, j | 0 <= i < j < |ArgNames(rest)| ensures ArgNames(rest)[i] != ArgNames(rest)[j] { assert names[i + 1] != names[j + 1]; }
        }
        assert Params(args, x)[1..] == Params(rest, x + 1);
        ParamsResolve(rest, x + 1, m - 1);
      }
  }

  lemma {:induction false} FunctionSpotOk(args: Args, body: Action)
    requires Distinct(ArgNames(args))
    ensures FunctionSpot(args).Valid() && TargetOk(FunctionSpot(args), Into(None, 0, true), None, body)
  {
    forall m: nat | m < ArgCount(args) ensures Resolve(Params(args, 1), ArgNames(args)[m]) == m + 1 { ParamsResolve(args, 1, m); }
  }

  /** A function's body leaves its value in the result variable; when it stops, the
      caller resets once more. */
  lemma {:induction false} FunctionCorrect(pt: Point, h: HistoryMap, W: set<nat>, l: Log, st: State, args: Args, body: Action, vals: seq<Bits>)
    requires pt.Valid() && pt.At(h, l, st) && WellShaped(pt.ru.kinds, st) && pt.ru.Valid() && |l| == |pt.L| == |pt.r|
    requires |vals| == ArgCount(args) && Goes(pt, h, W, |vals|, body) && Distinct(ArgNames(args))
    requires Fits(None, {}, {}, ArgNames(args), body) && Compiles(pt.ru.kinds, EmitFunction(h, args, body))
    ensures var res := Exec(pt.ru, st, CalleeEnv(vals), EmitFunction(h, args, body));
            var o := Sem(pt, vals, l, body);
            if Gone(pt, o) then res.Stopped? && pt.StopOk(pt.Undone(), Reset(pt.ru.kinds, pt.ru.hf, res.st))
            else res.Running? && Get(res.env, 0) == o.val && pt.At(After(h, body), o.log, res.st)
    decreases body, 5
  {
    hide Point.At, Point.StopOk, Point.Valid, BelowAll, Unwritten, TargetOk, Reads, Kept, RunCode, Exec;
    hide InterpAction, Sem, After, StopLeft, Accepted, Ordered, CaptureFree, CallsIndependent, Names, Vars;
    hide ReadsFresh, Fits, Goes;
    var t := Into(None, 0, true);
    var now := Now(h, W, l, st, {}, vals, CalleeEnv(vals));
    var sp := FunctionSpot(args);
    FunctionSpotOk(args, body);
    assert EnvOk(sp.loc, now.env, vals, {});
    assert EmitFunction(h, args, body) == FinishCode(h, sp, t, body);
    FinishCompiles(pt.ru.kinds, h, sp, t, body);
    assert Ready(pt, sp, now, t, None, body);
    FinishCorrect(pt, sp, now, t, None, body);
    var o := Sem(pt, vals, l, body);
    if Gone(pt, o) {
      var res := Exec(pt.ru, st, CalleeEnv(vals), EmitFunction(h, args, body));
      BodyStops(pt, h, W, l, st, vals, body);
      ResetAgain(pt, StopLeft(pt, h, vals, l, body), res.st);
    }
  }

  lemma {:induction false} BodyStops(pt: Point, h: HistoryMap, W: set<nat>, l: Log, st: State, vals: seq<Bits>, body: Action)
    requires pt.Valid() && pt.At(h, l, st) && Goes(pt, h, W, |vals|, body) && |l| == |pt.L| == |pt.r|
    ensures var rf := RwFootprint(pt.ru.kinds, pt.ru.hf);
            Large(rf, |pt.ru.kinds|) || forall i: nat :: i !in rf ==> (i in StopLeft(pt, h, vals, l, body) <==> i in Unread(pt.L, pt.Z))
  {
    hide Large, LeftAt, StopLog, RwFootprint;
    StopPlace(pt.ru.kinds, pt.ru.hf, pt.r, pt.ru.sigma, vals, pt.L, l, body, h, pt.Y, pt.Z);
  }

  lemma {:induction false} RunCall(ru: Rule, st: State, env: Env, dst: Option<nat>, args: seq<Expr>, body: Code)
    requires ru.Valid() && WellShaped(ru.kinds, st) && Compiles(ru.kinds, CallInto(dst, args, body))
    ensures Compiles(ru.kinds, body)
    ensures Exec(ru, st, env, CallInto(dst, args, body)) ==
            match Exec(ru, st, CalleeEnv(EvalAll(env, args)), body)
            case Stopped(st) => Stopped(Reset(ru.kinds, ru.hf, st))
            case Running(st, callee) => Running(st, Set(env, dst, Get(callee, 0)))
  {
  }

  lemma {:induction false} CallCode(sp: Spot, h: HistoryMap, t: Target, a: Action)
    requires a.InternalCall?
    ensures var e := EmitArgs(h, sp.scope, sp.k, a.args);
            var dst := Dst(sp.scope, t);
            var out := Emit(h, sp.scope, sp.k, t, a);
            && out.code == Then(e.0, CallInto(dst, e.1, EmitFunction(AfterArgs(h, a.args), a.args, a.body)))
            && out.res == (if dst.Some? then Some(Loc(dst.value)) else None) && out.next == e.2
  {
  }

  lemma {:induction false} CallParts(pt: Point, sp: Spot, now: Now, t: Target, tv: Option<nat>, a: Action)
    requires a.InternalCall? && Ready(pt, sp, now, t, tv, a)
    ensures ArgsReady(pt, sp, now, a.args)
    ensures Goes(pt, AfterArgs(now.h, a.args), now.W + ArgsPort1Writes(a.args), ArgCount(a.args), a.body)
    ensures Fits(None, {}, {}, ArgNames(a.args), a.body) && Distinct(ArgNames(a.args))
    ensures Compiles(pt.ru.kinds, EmitFunction(AfterArgs(now.h, a.args), a.args, a.body))
  {
    CallCode(sp, now.h, t, a);
    var e := EmitArgs(now.h, sp.scope, sp.k, a.args);
    CompilesCall(pt.ru.kinds, e.0, Dst(sp.scope, t), e.1, EmitFunction(AfterArgs(now.h, a.args), a.args, a.body));
    AfterBelow(AfterArgs(now.h, a.args), a.body);
    BelowTrans(AfterArgs(now.h, a.args), After(now.h, a), pt.ru.hf);
    UnwrittenAfterArgs(now.W, now.h, a.args);
    BodyFits(tv, sp.P, now.D, sp.names, a);
  }

  lemma {:induction false} CompilesCall(kinds: seq<Kind>, c: Code, dst: Option<nat>, texts: seq<Expr>, f: Code)
    requires Compiles(kinds, Then(c, CallInto(dst, texts, f)))
    ensures Compiles(kinds, c) && Compiles(kinds, f) && Compiles(kinds, CallInto(dst, texts, f))
  {
  }

  lemma {:induction false} BodyFits(tv: Option<nat>, P: set<string>, D: set<nat>, names: seq<string>, a: Action)
    requires a.InternalCall? && Fits(tv, P, D, names, a)
    ensures Fits(None, {}, {}, ArgNames(a.args), a.body) && Distinct(ArgNames(a.args))
  {
  }

  lemma {:induction false} UnwrittenAfterArgs(W: set<nat>, h: HistoryMap, args: Args)
    requires Unwritten(W, h)
    ensures Unwritten(W + ArgsPort1Writes(args), AfterArgs(h, args))
    decreases args
  {
    match args
    case NoArgs => assert W + {} == W;
    case MoreArgs(_, _, arg, rest) =>
      UnwrittenAfter(W, h, arg);
      UnwrittenAfterArgs(W + Port1Writes(arg), After(h, arg), rest);
      assert W + Port1Writes(arg) + ArgsPort1Writes(rest) == W + ArgsPort1Writes(args);
  }

  /** The arguments, against the semantics' own order. */
  ghost predicate ArgsMatch(pt: Point, F: set<nat>, sp: Spot, now: Now, args: Args, e: (Code, seq<Expr>, nat), res: Result, o: ArgsOutcome) {
    if ArgsGone(pt, o) then res.Stopped? && pt.StopOk(F, res.st)
    else
      && res.Running? && pt.At(AfterArgs(now.h, args), o.log, res.st) && WellShaped(pt.ru.kinds, res.st)
      && Stepped(sp, now, ArgsAssigned(args), e.2, res.env, o.ctx) && EvalAll(res.env, e.1) == o.vals
  }

  lemma {:induction false} ArgsInOrder(pt: Point, sp: Spot, now: Now, args: Args)
    requires ArgsReady(pt, sp, now, args)
    ensures ArgsMatch(pt, StopLeftArgs(pt, now.h, now.G, now.l, args), sp, now, args, EmitArgs(now.h, sp.scope, sp.k, args),
                      Exec(pt.ru, now.st, now.env, EmitArgs(now.h, sp.scope, sp.k, args).0),
                      InterpArgs(pt.r, pt.ru.sigma, now.G, pt.L, now.l, args))
    decreases args, 1
  {
    hide Point.At, Point.StopOk, Point.Valid, BelowAll, Unwritten, Spot.Valid, Stepped, Reads, AlikeLogs, Blocked, Exec, RunCode, InterpArgs,
         InterpArgsForward, InterpAction, Sem, After, AfterArgs, StopLeftArgs, Emit, EmitArgs;
    ArgsCorrect(pt, sp, now, args);
    ForwardAgrees(pt.r, pt.ru.sigma, now.G, pt.L, now.l, args);
    var e := EmitArgs(now.h, sp.scope, sp.k, args);
    var (o, of) := (InterpArgs(pt.r, pt.ru.sigma, now.G, pt.L, now.l, args), InterpArgsForward(pt.r, pt.ru.sigma, now.G, pt.L, now.l, args));
    if o.ArgsOk? { AlikeBlocked(pt.Z, o.log, of.log); }
    if !ArgsGone(pt, o) {
      var r1 := Exec(pt.ru, now.st, now.env, e.0);
      AlikeSym(o.log, of.log);
      AtAlike(pt, AfterArgs(now.h, args), of.log, o.log, r1.st);
      assert EvalAll(r1.env, e.1) == o.vals;
    }
  }

  lemma {:induction false} EmitCall(pt: Point, sp: Spot, now: Now, t: Target, tv: Option<nat>, a: Action)
    requires a.InternalCall? && Ready(pt, sp, now, t, tv, a)
    ensures Correct(pt, sp, now, t, tv, a)
    decreases a, 2
  {
    hide Point.At, Point.StopOk, Point.Valid, BelowAll, Unwritten, Spot.Valid, TargetOk, Kept, EnvOk, Reads, Fits, Goes, AlikeLogs, Blocked, ArgsReady,
         Accepted, Ordered, CaptureFree, CallsIndependent, Names, Vars, ReadsFresh, RunCode, Exec, Stepped, InterpArgs, InterpAction, AfterArgs,
         EmitArgs, EmitFunction, Correct;
    var (args, body) := (a.args, a.body);
    var (h', W') := (AfterArgs(now.h, args), now.W + ArgsPort1Writes(args));
    var e := EmitArgs(now.h, sp.scope, sp.k, args);
    var f := EmitFunction(h', args, body);
    var dst := Dst(sp.scope, t);
    CallCode(sp, now.h, t, a);
    CallParts(pt, sp, now, t, tv, a);
    CallScoped(pt, now, a);
    RunThen(pt.ru, now.st, now.env, e.0, CallInto(dst, e.1, f));
    ArgsInOrder(pt, sp, now, args);
    var o := InterpArgs(pt.r, pt.ru.sigma, now.G, pt.L, now.l, args);
    if !ArgsGone(pt, o) {
      var r1 := Exec(pt.ru, now.st, now.env, e.0);
      RunCall(pt.ru, r1.st, r1.env, dst, e.1, f);
      FunctionCorrect(pt, h', W', o.log, r1.st, args, body, o.vals);
      CallDone(pt, sp, now, t, tv, a, o, r1.env, e.2);
      AfterCall(pt, sp, now, t, tv, a, o, r1.st, r1.env);
    } else {
      CallGone(pt, now, a);
      StopCall(pt, now.h, now.G, now.l, a);
      BeforeCall(pt, sp, now, t, tv, a);
    }
  }

  lemma {:induction false} CallGone(pt: Point, now: Now, a: Action)
    requires a.InternalCall? && Goes(pt, now.h, now.W, |now.G|, a) && |now.l| == |pt.L| == |pt.r|
    requires ScopedArgs(a.args, |pt.r|, |now.G|) && ArgsGone(pt, InterpArgs(pt.r, pt.ru.sigma, now.G, pt.L, now.l, a.args))
    ensures Gone(pt, Sem(pt, now.G, now.l, a))
  {
    hide Blocked;
    var o := InterpArgs(pt.r, pt.ru.sigma, now.G, pt.L, now.l, a.args);
    if o.ArgsOk? {
      GoneStays(pt, o.vals, o.log, a.body);
      CallMeaning(pt, now, a, o);
    }
  }

  /** The arguments have stopped, and the call with them. */
  lemma {:induction false} BeforeCall(pt: Point, sp: Spot, now: Now, t: Target, tv: Option<nat>, a: Action)
    requires a.InternalCall? && Ready(pt, sp, now, t, tv, a)
    requires Gone(pt, Sem(pt, now.G, now.l, a))
    requires var res := Exec(pt.ru, now.st, now.env, Emit(now.h, sp.scope, sp.k, t, a).code);
             res.Stopped? && pt.StopOk(StopLeft(pt, now.h, now.G, now.l, a), res.st)
    ensures Correct(pt, sp, now, t, tv, a)
  {
    hide Accepted, Ordered, CaptureFree, CallsIndependent, Names, Vars, ReadsFresh, Fits, Goes, RunCode, Exec;
  }

  lemma {:induction false} AfterCall(pt: Point, sp: Spot, now: Now, t: Target, tv: Option<nat>, a: Action, o: ArgsOutcome, st1: State, env1: Env)
    requires a.InternalCall? && Ready(pt, sp, now, t, tv, a)
    requires o == InterpArgs(pt.r, pt.ru.sigma, now.G, pt.L, now.l, a.args) && !ArgsGone(pt, o)
    requires WellShaped(pt.ru.kinds, st1) && Scoped(a.body, |pt.r|, ArgCount(a.args))
    requires Compiles(pt.ru.kinds, EmitFunction(AfterArgs(now.h, a.args), a.args, a.body))
    requires var f := EmitFunction(AfterArgs(now.h, a.args), a.args, a.body);
             var res := Exec(pt.ru, st1, CalleeEnv(o.vals), f);
             var q := Sem(pt, o.vals, o.log, a.body);
             var dst := Dst(sp.scope, t);
             && (if Gone(pt, q) then res.Stopped? && pt.StopOk(pt.Undone(), Reset(pt.ru.kinds, pt.ru.hf, res.st))
                 else res.Running? && Get(res.env, 0) == q.val && pt.At(After(now.h, a), q.log, res.st))
             && Exec(pt.ru, now.st, now.env, Emit(now.h, sp.scope, sp.k, t, a).code) ==
                (match res
                 case Stopped(st) => Stopped(Reset(pt.ru.kinds, pt.ru.hf, st))
                 case Running(st, callee) => Running(st, Set(env1, dst, Get(callee, 0))))
    requires forall v :: var env2 := Set(env1, Dst(sp.scope, t), v);
                         && EnvOk(sp.loc, env2, o.ctx, Dead(now.D, tv, a))
                         && Kept(sp.k, sp.loc, Assigned(a), LandsAt(t, a), now.env, env2)
                         && (t.Into? ==> Dst(sp.scope, t) == Some(t.x) && Get(env2, t.x) == v)
    ensures Correct(pt, sp, now, t, tv, a)
  {
    hide Point.At, Point.StopOk, Point.Valid, BelowAll, Unwritten, Spot.Valid, TargetOk, Kept, EnvOk, Fits;
    hide Blocked, EmitFunction, EmitArgs, Accepted, Ordered, CaptureFree, CallsIndependent, Names, Vars;
    hide ReadsFresh, Goes, RunCode, Exec;
    var q := Sem(pt, o.vals, o.log, a.body);
    CallScoped(pt, now, a);
    CallMeaning(pt, now, a, o);
    CallCode(sp, now.h, t, a);
    StopCall(pt, now.h, now.G, now.l, a);
  }

  lemma {:induction false} CallMeaning(pt: Point, now: Now, a: Action, o: ArgsOutcome)
    requires a.InternalCall? && Scoped(a, |pt.r|, |now.G|) && |now.l| == |pt.L| == |pt.r|
    requires o == InterpArgs(pt.r, pt.ru.sigma, now.G, pt.L, now.l, a.args) && o.ArgsOk?
    ensures Sem(pt, now.G, now.l, a) ==
            match Sem(pt, o.vals, o.log, a.body)
            case Failed => Failed
            case Ok(l, v, _) => Ok(l, v, o.ctx)
  {
  }

  lemma {:induction false} CallScoped(pt: Point, now: Now, a: Action)
    requires a.InternalCall? && Goes(pt, now.h, now.W, |now.G|, a)
    ensures ScopedArgs(a.args, |pt.r|, |now.G|) && Scoped(a.body, |pt.r|, ArgCount(a.args))
  {
  }

  lemma AlikeSym(l: Log, l': Log)
    requires AlikeLogs(l, l')
    ensures AlikeLogs(l', l)
  {
    forall i | 0 <= i < |l| ensures Alike(l'[i], l[i]) { assert Alike(l[i], l'[i]); }
  }

  lemma {:induction false} CallDone(pt: Point, sp: Spot, now: Now, t: Target, tv: Option<nat>, a: Action, o: ArgsOutcome, env1: Env, k': nat)
    requires a.InternalCall? && sp.Valid() && TargetOk(sp, t, tv, a) && o.ArgsOk?
    requires Stepped(sp, now, ArgsAssigned(a.args), k', env1, o.ctx)
    ensures forall v :: var env2 := Set(env1, Dst(sp.scope, t), v);
                        && EnvOk(sp.loc, env2, o.ctx, Dead(now.D, tv, a))
                        && Kept(sp.k, sp.loc, Assigned(a), LandsAt(t, a), now.env, env2)
                        && (t.Into? ==> Dst(sp.scope, t) == Some(t.x) && Get(env2, t.x) == v)
  {
    if t.NoTarget? { TargetNone(sp, t, tv, a); }
    forall v ensures var env2 := Set(env1, Dst(sp.scope, t), v);
                     && EnvOk(sp.loc, env2, o.ctx, Dead(now.D, tv, a)) && Kept(sp.k, sp.loc, Assigned(a), LandsAt(t, a), now.env, env2)
                     && (t.Into? ==> Dst(sp.scope, t) == Some(t.x) && Get(env2, t.x) == v)
    {
      if t.Into? { StoreTarget(sp, t, tv, a, now.D, o.ctx, env1, Set(env1, Dst(sp.scope, t), v)); }
    }
  }
}

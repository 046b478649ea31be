/** Where emitted code and the semantics part: one program for each condition that
    the refinement puts on the text, with what the two make of it. */
module SimulatorDivergence {
  import opened BitVectors
  import opened Primitives
  import opened Syntax
  import opened Logs
  import opened Semantics
  import opened Histories
  import opened Effects
  import opened CallOrder
  import opened Emission
  import opened Cuttlesim
  import opened SimulatorSync
  import opened EmissionCorrectness
  import opened SimulatorCorrectness
  import LogDiscipline

  // ----- programs of one rule whose registers never conflict -----

  function Only(rule: Action): Rules { rl => rule }

  const Once := Cons("rl", Done)

  function Plain(r: RegFile): LogT { LogT(seq(|r|, i => NoSet), r) }

  predicate NeverConflicts(n: nat, rule: Action) { forall i :: 0 <= i < n ==> RuleHistories(n, rule)[i].cf == TTrue }

  /** One cycle of such a program: what its rule leaves in the rule's copy. */
  lemma {:induction false} OnceSim(rule: Action, sigma: ExtFun, r: RegFile, st: State, env: Env)
    requires NeverConflicts(|r|, rule) && Scoped(rule, |r|, 0)
    requires var ru := Rule(seq(|r|, i => Value), RuleHistories(|r|, rule), sigma);
             && WellShaped(ru.kinds, State(Plain(r), Plain(r))) && Compiles(ru.kinds, EmitRule(|r|, rule))
             && Exec(ru, State(Plain(r), Plain(r)), map[], EmitRule(|r|, rule)) == Running(st, env)
    requires |st.log.state| == |r|
    requires forall i: nat :: i < |r| && st.log.state[i] != r[i] ==> InDataFootprint(RuleHistories(|r|, rule), i)
    ensures ScopedRules(Only(rule), |r|)
    ensures var sim := BackEnd(|r|, Only(rule), sigma, Once);
            && WellShaped(sim.kinds, State(Plain(r), Plain(r))) && sim.RunsAll(Once)
            && ExecCycle(sim, Once, State(Plain(r), Plain(r))).total.state == st.log.state
  {
    hide RunCode, EmitRule, Compiles;
    var sim := BackEnd(|r|, Only(rule), sigma, Once);
    OnceKinds(|r|, rule);
    var st0 := State(Plain(r), Plain(r));
    assert StartCycle(sim.kinds, st0) == st0 by { assert FreshSets(sim.kinds) == Plain(r).rwset; }
    assert Only(rule)("rl") == rule;
    CopyIsFull(r, st.log.state, DataFootprint(RuleHistories(|r|, rule)));
    assert ExecScheduler(sim, Once, st0) == ExecRule(sim, "rl", st0).1;
  }

  lemma {:induction false} OnceKinds(n: nat, rule: Action)
    requires NeverConflicts(n, rule)
    ensures Classify(n, Only(rule), Once) == seq(n, i => Value)
  {
    var H := AppendMaps(EmptyMap(n), RuleHistories(n, rule));
    assert SchedulerHistories(Only(rule), H, Done) == H;
    assert SchedulerHistories(Only(rule), EmptyMap(n), Once) == H;
    forall i | 0 <= i < n ensures H[i].cf == TTrue { assert EmptyMap(n)[i] == EmptyHistory; }
  }

  /** One cycle of the semantics of such a program. */
  lemma {:induction false} OnceSem(rule: Action, sigma: ExtFun, r: RegFile, o: Outcome)
    requires Scoped(rule, |r|, 0) && InterpAction(r, sigma, [], Empty(|r|), Empty(|r|), rule) == o
    ensures ScopedRules(Only(rule), |r|)
    ensures InterpCycle(sigma, Only(rule), Once, r) == if o.Ok? then CommitUpdate(r, o.log) else r
  {
    hide InterpAction;
    assert Only(rule)("rl") == rule;
    CommitEmpty(r);
    if o.Ok? { AppEmpty(o.log); }
  }

  /** The simulator's start, and a rule over registers that never conflict. */
  function StartOf(r: RegFile): State { State(Plain(r), Plain(r)) }

  function RuleOver(n: nat, rule: Action, sigma: ExtFun): Rule { Rule(seq(n, i => Value), RuleHistories(n, rule), sigma) }

  /** What `SafeRule` asks of a rule that the back end accepts. */
  datatype Condition = Shown | Order | Capture | Calls | Reread

  predicate Meets(c: Condition, rule: Action) {
    match c
    case Shown => Accepted([], rule)
    case Order => Ordered(None, rule)
    case Capture => CaptureFree(rule)
    case Calls => CallsIndependent(rule)
    case Reread => ReadsFresh(FirstToLast, {}, rule)
  }

  predicate FailsOnly(c: Condition, rule: Action) { forall d :: Meets(d, rule) <==> d != c }

  /** One cycle from `r`: where the semantics ends and where the emitted code ends. */
  ghost predicate Ends(rule: Action, sigma: ExtFun, r: RegFile, means: RegFile, runs: RegFile) {
    && ScopedRules(Only(rule), |r|) && InterpCycle(sigma, Only(rule), Once, r) == means
    && var (sim, st) := (BackEnd(|r|, Only(rule), sigma, Once), State(Plain(r), Plain(r)));
       WellShaped(sim.kinds, st) && sim.RunsAll(Once) && ExecCycle(sim, Once, st).total.state == runs
  }

  /** The emitted code computes the registers of the semantics. */
  ghost predicate Right(rule: Action, sigma: ExtFun, r: RegFile) { exists final: RegFile :: Ends(rule, sigma, r, final, final) }

  lemma {:induction false} RightExactly(rule: Action, sigma: ExtFun, r: RegFile, means: RegFile, runs: RegFile)
    requires Ends(rule, sigma, r, means, runs)
    ensures Right(rule, sigma, r) <==> means == runs
  {
    hide InterpCycle, ExecCycle, BackEnd;
    if means == runs { assert Ends(rule, sigma, r, means, means); }
  }

  lemma {:induction false} OnceEnds(rule: Action, sigma: ExtFun, r: RegFile, st: State, env: Env, o: Outcome, means: RegFile, runs: RegFile)
    requires NeverConflicts(|r|, rule) && Scoped(rule, |r|, 0)
    requires var ru := RuleOver(|r|, rule, sigma);
             && WellShaped(ru.kinds, StartOf(r)) && Compiles(ru.kinds, EmitRule(|r|, rule))
             && Exec(ru, StartOf(r), map[], EmitRule(|r|, rule)) == Running(st, env)
    requires |runs| == |r| && st.log.state == runs
    requires forall i: nat :: i < |r| && runs[i] != r[i] ==> InDataFootprint(RuleHistories(|r|, rule), i)
    requires InterpAction(r, sigma, [], Empty(|r|), Empty(|r|), rule) == o
    requires means == if o.Ok? then CommitUpdate(r, o.log) else r
    ensures Ends(rule, sigma, r, means, runs)
  {
    hide RunCode, Exec, EmitRule, Compiles, ExecCycle, InterpCycle, InterpAction, BackEnd, RuleHistories;
    OnceSim(rule, sigma, r, st, env);
    OnceSem(rule, sigma, r, o);
  }

  // ----- an operand that is still text when its variable is assigned -----

  /** What is added on one side can be told from the sum. */
  lemma {:induction false} PlusCancels(x: Bits, y: Bits, z: Bits)
    requires |x| == |y| == |z|
    ensures Plus(x, z) == Plus(y, z) <==> x == y
    ensures Plus(z, x) == Plus(z, y) <==> x == y
  {
    var m := Pow2(|x|);
    ToNatBound(x);
    ToNatBound(y);
    ToNatOfNat(|x|, ToNat(x) + ToNat(z));
    ToNatOfNat(|x|, ToNat(y) + ToNat(z));
    if Plus(x, z) == Plus(y, z) {
      SameRemainder(ToNat(x), ToNat(y), ToNat(z), m);
      OfNatToNat(x);
      OfNatToNat(y);
    }
  }

  lemma {:induction false} SameRemainder(x: nat, y: nat, z: nat, m: nat)
    requires x < m && y < m && (x + z) % m == (y + z) % m
    ensures x == y
  {
    if x > y { OtherRemainder(y, x, z, m); }
    if y > x { OtherRemainder(x, y, z, m); }
  }

  lemma {:induction false} OtherRemainder(x: nat, y: nat, z: nat, m: nat)
    requires x < y < m
    ensures (x + z) % m != (y + z) % m
  {
    var (q, r, d) := ((x + z) / m, (x + z) % m, y - x);
    assert x + z == q * m + r;
    if r + d < m {
      DivModUnique(y + z, m, q, r + d);
    } else {
      assert y + z == (q + 1) * m + (r + d - m);
      DivModUnique(y + z, m, q + 1, r + d - m);
    }
  }

  /** `x := a; write0(r, x + (x := b; x))` */
  function SetThenRead(b: Bits): Action { Seq(Assign("x", 0, Cst(b)), Var("x", 0)) }

  function DelayedSum(b: Bits): Action { Binop(Add(|b|), Var("x", 0), SetThenRead(b)) }

  function DelayedWrite(b: Bits): Action { Write(P0, 0, DelayedSum(b)) }

  function DelayedRule(a: Bits, b: Bits): Action { Bind("x", |a|, Cst(a), DelayedWrite(b)) }

  lemma DelayedCode(h: HistoryMap, a: Bits, b: Bits)
    requires |a| == |b|
    ensures Emit(h, [], 0, NoTarget, DelayedRule(a, b)).code ==
            Then(Then(Skip, Put(0, Lit(a))),
                 Then(Then(Then(Skip, Then(Then(Skip, Put(0, Lit(b))), Skip)), WriteReg(P0, 0, Op2(Add(|b|), Loc(0), Loc(0)))), Skip))
  {
    var scope: Scope := [("x", 0)];
    assert scope + [] == scope;
    assert EmitBinding(h, [], 0, "x", Cst(a)) == Emitted(Then(Skip, Put(0, Lit(a))), None, true, 1);
    assert Resolve(scope, "x") == 0;
    assert Emit(h, scope, 3, NoTarget, Assign("x", 0, Cst(b))) ==
           Emitted(Then(Skip, Put(0, Lit(b))), Some(Lit([])), false, 3);
    assert After(h, Assign("x", 0, Cst(b))) == h;
    assert Emit(h, scope, 3, Into(None, 2, false), SetThenRead(b)) ==
           Emitted(Then(Then(Skip, Put(0, Lit(b))), Skip), Some(Loc(0)), false, 3);
    assert Emit(h, scope, 2, Into(None, 1, false), Var("x", 0)) == Emitted(Skip, Some(Loc(0)), false, 2);
    assert After(h, Var("x", 0)) == h;
    var sum := Emit(h, scope, 2, Into(None, 1, false), DelayedSum(b));
    assert sum == Emitted(Then(Skip, Then(Then(Skip, Put(0, Lit(b))), Skip)), Some(Op2(Add(|b|), Loc(0), Loc(0))), false, 3);
    assert Emit(h, scope, 1, NoTarget, DelayedWrite(b)).code == Then(sum.code, WriteReg(P0, 0, Op2(Add(|b|), Loc(0), Loc(0))));
  }

  /** A write to such a register always goes through. */
  lemma {:induction false} PlainWrite(ru: Rule, st: State, env: Env, p: Port, idx: nat, v: Bits)
    requires ru.Valid() && WellShaped(ru.kinds, st) && idx < |ru.kinds| && ru.kinds[idx] == Value
    ensures WriteStep(ru, st, env, p, idx, v) == Running(st.(log := st.log.(state := st.log.state[idx := v])), env)
  {
    assert HasShape(Value, st.log.rwset[idx]) && HasShape(Value, st.total.rwset[idx]);
    assert st.log.rwset[idx := NoSet] == st.log.rwset;
  }

  lemma {:induction false} PlainRead(ru: Rule, st: State, env: Env, dst: Option<nat>, p: Port, idx: nat)
    requires ru.Valid() && WellShaped(ru.kinds, st) && idx < |ru.kinds| && ru.kinds[idx] == Value
    ensures ReadStep(ru, st, env, dst, p, idx) ==
            Running(st, Set(env, dst, if p == P0 then st.total.state[idx] else st.log.state[idx]))
  {
    assert HasShape(Value, st.log.rwset[idx]) && HasShape(Value, st.total.rwset[idx]);
    assert st.log.rwset[idx := NoSet] == st.log.rwset;
  }

  lemma {:induction false} Step(ru: Rule, st: State, env: Env, c1: Code, c2: Code, st1: State, env1: Env)
    requires ru.Valid() && WellShaped(ru.kinds, st) && Compiles(ru.kinds, c1) && Compiles(ru.kinds, c2)
    requires Exec(ru, st, env, c1) == Running(st1, env1)
    ensures Compiles(ru.kinds, Then(c1, c2)) && Exec(ru, st, env, Then(c1, c2)) == Exec(ru, st1, env1, c2)
  {
    RunThen(ru, st, env, c1, c2);
  }

  /** Nothing, then storing `v` into variable `x`. */
  lemma {:induction false} StepPut(ru: Rule, st: State, env: Env, x: nat, e: Expr)
    requires ru.Valid() && WellShaped(ru.kinds, st)
    ensures Compiles(ru.kinds, Then(Skip, Put(x, e))) && Exec(ru, st, env, Then(Skip, Put(x, e))) == Running(st, env[x := Eval(env, e)])
  {
    RunSkip(ru, st, env);
    RunPut(ru, st, env, x, e);
    Step(ru, st, env, Skip, Put(x, e), st, env);
  }

  lemma {:induction false} StepSkip(ru: Rule, st: State, env: Env, c: Code, st1: State, env1: Env)
    requires ru.Valid() && WellShaped(ru.kinds, st) && Compiles(ru.kinds, c) && Exec(ru, st, env, c) == Running(st1, env1)
    ensures Compiles(ru.kinds, Then(c, Skip)) && Exec(ru, st, env, Then(c, Skip)) == Running(st1, env1)
  {
    Step(ru, st, env, c, Skip, st1, env1);
    RunSkip(ru, st1, env1);
  }

  lemma {:induction false} StepWrite(ru: Rule, st: State, env: Env, p: Port, idx: nat, e: Expr)
    requires ru.Valid() && WellShaped(ru.kinds, st) && idx < |ru.kinds| && ru.kinds[idx] == Value
    ensures Compiles(ru.kinds, WriteReg(p, idx, e))
    ensures Exec(ru, st, env, WriteReg(p, idx, e)) ==
            Running(st.(log := st.log.(state := st.log.state[idx := Eval(env, e)])), env)
  {
    PlainWrite(ru, st, env, p, idx, Eval(env, e));
  }

  /** The emitted code, from its parts. */
  function SetX(a: Bits): Code { Then(Skip, Put(0, Lit(a))) }

  function SetXAgain(b: Bits): Code { Then(Skip, Then(Then(Skip, Put(0, Lit(b))), Skip)) }

  function WriteSum(n: nat): Code { WriteReg(P0, 0, Op2(Add(n), Loc(0), Loc(0))) }

  lemma {:induction false} SetXAgainRuns(ru: Rule, st: State, a: Bits, b: Bits)
    requires |a| == |b|
    requires ru.Valid() && WellShaped(ru.kinds, st)
    ensures Compiles(ru.kinds, SetXAgain(b)) && Exec(ru, st, map[0 := a], SetXAgain(b)) == Running(st, map[0 := b])
  {
    hide RunCode, Exec, Compiles, WellShaped;
    var c := Then(Skip, Put(0, Lit(b)));
    RunSkip(ru, st, map[0 := a]);
    RunSkip(ru, st, map[0 := b]);
    StepPut(ru, st, map[0 := a], 0, Lit(b));
    assert map[0 := a][0 := b] == map[0 := b];
    StepSkip(ru, st, map[0 := a], c, st, map[0 := b]);
    Step(ru, st, map[0 := a], Skip, Then(c, Skip), st, map[0 := a]);
  }

  lemma {:induction false} DelayedRunsOn(ru: Rule, st: State, a: Bits, b: Bits)
    requires |a| == |b|
    requires ru.Valid() && WellShaped(ru.kinds, st) && |ru.kinds| > 0 && ru.kinds[0] == Value && |st.log.state| > 0
    ensures var c := Then(SetX(a), Then(Then(SetXAgain(b), WriteSum(|b|)), Skip));
            && Compiles(ru.kinds, c)
            && Exec(ru, st, map[], c) == Running(st.(log := st.log.(state := st.log.state[0 := Plus(b, b)])), map[0 := b])
  {
    hide RunCode, Exec, Compiles, WellShaped, SetXAgain;
    var st1 := st.(log := st.log.(state := st.log.state[0 := Plus(b, b)]));
    StepPut(ru, st, map[], 0, Lit(a));
    SetXAgainRuns(ru, st, a, b);
    StepWrite(ru, st, map[0 := b], P0, 0, Op2(Add(|b|), Loc(0), Loc(0)));
    assert Eval(map[0 := b], Op2(Add(|b|), Loc(0), Loc(0))) == Plus(b, b);
    Step(ru, st, map[0 := a], SetXAgain(b), WriteSum(|b|), st, map[0 := b]);
    StepSkip(ru, st, map[0 := a], Then(SetXAgain(b), WriteSum(|b|)), st1, map[0 := b]);
    Step(ru, st, map[], SetX(a), Then(Then(SetXAgain(b), WriteSum(|b|)), Skip), st, map[0 := a]);
  }

  lemma {:induction false} DelayedRuns(sigma: ExtFun, a: Bits, b: Bits)
    requires |a| == |b|
    ensures var ru := RuleOver(1, DelayedRule(a, b), sigma);
            && WellShaped(ru.kinds, StartOf([a])) && Compiles(ru.kinds, EmitRule(1, DelayedRule(a, b)))
            && Exec(ru, StartOf([a]), map[], EmitRule(1, DelayedRule(a, b))) ==
               Running(State(LogT([NoSet], [Plus(b, b)]), Plain([a])), map[0 := b])
  {
    hide RunCode, Exec, Emit, Compiles, RuleHistories;
    DelayedCode(EmptyMap(1), a, b);
    DelayedRunsOn(RuleOver(1, DelayedRule(a, b), sigma), StartOf([a]), a, b);
    assert [a][0 := Plus(b, b)] == [Plus(b, b)] && Plain([a]).rwset == [NoSet];
  }

  lemma {:induction false} DelayedValue(sigma: ExtFun, a: Bits, b: Bits)
    requires |a| == |b|
    ensures var (r: RegFile, L: Log) := ([a], Empty(1));
            Scoped(DelayedSum(b), 1, 1) && InterpAction(r, sigma, [a], L, L, DelayedSum(b)) == Ok(L, Plus(a, b), [b])
  {
    var r: RegFile, L: Log := [a], Empty(1);
    assert Scoped(Cst(b), 1, 1);
    assert Scoped(Var("x", 0), 1, 1) && Scoped(Assign("x", 0, Cst(b)), 1, 1);
    assert Scoped(SetThenRead(b), 1, 1);
    assert InterpAction(r, sigma, [a], L, L, Cst(b)) == Ok(L, b, [a]);
    assert InterpAction(r, sigma, [a], L, L, Assign("x", 0, Cst(b))) == Ok(L, [], [b]);
    assert InterpAction(r, sigma, [a], L, L, SetThenRead(b)) == Ok(L, b, [b]);
  }

  /** What writing a value and binding a constant mean, from empty logs. */
  lemma {:induction false} WriteOnce(r: RegFile, sigma: ExtFun, G: Ctx, G': Ctx, idx: nat, value: Action, v: Bits)
    requires idx < |r| && Scoped(value, |r|, |G|)
    requires InterpAction(r, sigma, G, Empty(|r|), Empty(|r|), value) == Ok(Empty(|r|), v, G')
    ensures InterpAction(r, sigma, G, Empty(|r|), Empty(|r|), Write(P0, idx, value)) == Ok(Empty(|r|)[idx := [Wr(P0, v)]], [], G')
  {
    FirstWrite(|r|, idx, v);
  }

  lemma {:induction false} BindOnce(r: RegFile, sigma: ExtFun, G: Ctx, x: string, sz: nat, v: Bits, body: Action, l: Log, w: Bits, G': Ctx)
    requires Scoped(body, |r|, |G| + 1) && |G'| == |G| + 1
    requires InterpAction(r, sigma, [v] + G, Empty(|r|), Empty(|r|), body) == Ok(l, w, G')
    ensures InterpAction(r, sigma, G, Empty(|r|), Empty(|r|), Bind(x, sz, Cst(v), body)) == Ok(l, w, G'[1..])
  {
    assert InterpAction(r, sigma, G, Empty(|r|), Empty(|r|), Cst(v)) == Ok(Empty(|r|), v, G);
  }

  lemma {:induction false} DelayedMeans(sigma: ExtFun, a: Bits, b: Bits)
    requires |a| == |b|
    ensures Scoped(DelayedRule(a, b), 1, 0)
    ensures InterpAction([a], sigma, [], Empty(1), Empty(1), DelayedRule(a, b)) == Ok([[Wr(P0, Plus(a, b))]], [], [])
  {
    hide InterpAction;
    DelayedValue(sigma, a, b);
    assert [a] + [] == [a];
    WriteOnce([a], sigma, [a], [b], 0, DelayedSum(b), Plus(a, b));
    assert Empty(1)[0 := [Wr(P0, Plus(a, b))]] == [[Wr(P0, Plus(a, b))]];
    BindOnce([a], sigma, [], "x", |a|, a, DelayedWrite(b), [[Wr(P0, Plus(a, b))]], [], [b]);
  }

  /** The first write of a rule at port 0 is allowed and becomes the register's only event. */
  lemma {:induction false} FirstWrite(n: nat, idx: nat, v: Bits)
    requires idx < n
    ensures MayWrite(Empty(n), Empty(n), P0, idx) && Push(Empty(n), idx, Wr(P0, v)) == Empty(n)[idx := [Wr(P0, v)]]
    ensures Latest([Wr(P0, v)]) == Some(v)
  {
    assert [Wr(P0, v)] + [] == [Wr(P0, v)];
  }

  /** The first operand is text that is evaluated after the second has assigned its
      variable: the semantics writes a + b, the emitted code b + b, and these are the
      same exactly when nothing is changed by the assignment. */
  lemma {:induction false} DelayedOperandExact(sigma: ExtFun, a: Bits, b: Bits)
    requires |a| == |b|
    ensures FailsOnly(Order, DelayedRule(a, b)) && Ends(DelayedRule(a, b), sigma, [a], [Plus(a, b)], [Plus(b, b)])
    ensures Right(DelayedRule(a, b), sigma, [a]) <==> a == b
  {
    hide RunCode, Emit, InterpAction, EmitRule, Compiles, InterpCycle, ExecCycle, BackEnd, Classify;
    DelayedText(a, b);
    DelayedRuns(sigma, a, b);
    DelayedMeans(sigma, a, b);
    DelayedHistories(a, b);
    OnceEnds(DelayedRule(a, b), sigma, [a], State(LogT([NoSet], [Plus(b, b)]), Plain([a])), map[0 := b],
              Ok([[Wr(P0, Plus(a, b))]], [], []), [Plus(a, b)], [Plus(b, b)]);
    FirstWrite(1, 0, Plus(a, b));
    PlusCancels(a, b, b);
    RightExactly(DelayedRule(a, b), sigma, [a], [Plus(a, b)], [Plus(b, b)]);
  }

  lemma {:induction false} DelayedHistories(a: Bits, b: Bits)
    requires |a| == |b|
    ensures RuleHistories(1, DelayedRule(a, b)) == [History(TFalse, TFalse, TTrue, TFalse, TTrue)]
  {
    var h := EmptyMap(1);
    assert After(h, Assign("x", 0, Cst(b))) == h && After(h, Var("x", 0)) == h;
    assert After(h, SetThenRead(b)) == h && After(h, DelayedSum(b)) == h;
    assert After(h, DelayedWrite(b)) == [History(TFalse, TFalse, TTrue, TFalse, TTrue)];
    assert After(h, Cst(a)) == h;
  }

  lemma {:induction false} DelayedText(a: Bits, b: Bits)
    requires |a| == |b|
    ensures FailsOnly(Order, DelayedRule(a, b))
  {
    hide Accepted, Ordered, CaptureFree, CallsIndependent, Port1Writes, ReadsFresh;
    DelayedOrder(a, b);
    DelayedNames(a, b);
    DelayedSafe(a, b);
    NoRereads(DelayedRule(a, b));
    assert forall d :: Meets(d, DelayedRule(a, b)) <==> d != Order;
  }

  lemma {:induction false} DelayedSafe(a: Bits, b: Bits)
    ensures var rule := DelayedRule(a, b); CaptureFree(rule) && CallsIndependent(rule) && Port1Writes(rule) == {}
  {
    var (x, c, put) := (Var("x", 0), Cst(b), Assign("x", 0, Cst(b)));
    assert CaptureFree(x) && CaptureFree(c) && CaptureFree(put) && CaptureFree(SetThenRead(b));
    assert CallsIndependent(x) && CallsIndependent(c) && CallsIndependent(put) && CallsIndependent(SetThenRead(b));
    assert Port1Writes(x) == {} && Port1Writes(c) == {} && Port1Writes(put) == {} && Port1Writes(SetThenRead(b)) == {};
    assert CaptureFree(DelayedSum(b)) && CallsIndependent(DelayedSum(b)) && Port1Writes(DelayedSum(b)) == {};
    assert CaptureFree(DelayedWrite(b)) && CallsIndependent(DelayedWrite(b)) && Port1Writes(DelayedWrite(b)) == {};
    assert CaptureFree(Cst(a)) && CallsIndependent(Cst(a)) && Port1Writes(Cst(a)) == {} && "x" !in Names(Cst(a));
  }

  lemma {:induction false} DelayedOrder(a: Bits, b: Bits)
    requires |a| == |b|
    ensures !Ordered(None, DelayedRule(a, b))
  {
    assert 0 in Delayed(Var("x", 0)) && 0 in Assigned(Assign("x", 0, Cst(b))) && 0 in Assigned(SetThenRead(b));
    assert !Ordered(None, DelayedSum(b)) && !Ordered(None, DelayedWrite(b));
  }

  lemma {:induction false} DelayedNames(a: Bits, b: Bits)
    requires |a| == |b|
    ensures Accepted([], DelayedRule(a, b))
  {
    assert ["x"] + [] == ["x"];
    assert Accepted(["x"], Var("x", 0)) && Accepted(["x"], Assign("x", 0, Cst(b))) && Accepted([], Cst(a));
    assert Accepted(["x"], SetThenRead(b)) && Accepted(["x"], DelayedSum(b)) && Accepted(["x"], DelayedWrite(b));
  }

  /** A rule that writes nothing at port 1 reads nothing that it has written there. */
  lemma {:induction false} NoRereads(a: Action)
    requires Port1Writes(a) == {}
    ensures ReadsFresh(FirstToLast, {}, a)
    decreases a
  {
    match a
    case Assign(_, _, ex) => NoRereads(ex);
    case Seq(r1, r2) => NoRereads(r1); NoRereads(r2); assert {} + Port1Writes(r1) == {};
    case Bind(_, _, ex, body) => NoRereads(ex); NoRereads(body); assert {} + Port1Writes(ex) == {};
    case If(cond, tbranch, fbranch) =>
      NoRereads(cond); NoRereads(tbranch); NoRereads(fbranch);
      assert {} + Port1Writes(cond) == {};
    case Write(_, _, value) => NoRereads(value);
    case Unop(_, arg) => NoRereads(arg);
    case Binop(_, arg1, arg2) => NoRereads(arg1); NoRereads(arg2); assert {} + Port1Writes(arg1) == {};
    case ExternalCall(_, arg) => NoRereads(arg);
    case InternalCall(_, args, body) => NoArgRereads(args); NoRereads(body); assert {} + ArgsPort1Writes(args) == {};
    case APos(a) => NoRereads(a);
    case _ =>
  }

  lemma {:induction false} NoArgRereads(args: Args)
    requires ArgsPort1Writes(args) == {}
    ensures ArgsReadFresh(FirstToLast, {}, args)
    decreases args
  {
    match args
    case NoArgs =>
    case MoreArgs(_, _, arg, rest) => NoRereads(arg); NoArgRereads(rest); assert {} + Port1Writes(arg) == {};
  }

  // ----- a first operand that is stored into the variable being assigned -----

  /** `x := a; x := read0(r0) + x; write0(r1, x)` */
  function ReadPlusX(n: nat): Action { Binop(Add(n), Read(P0, 0), Var("x", 0)) }

  function SharedAssign(n: nat): Action { Assign("x", 0, ReadPlusX(n)) }

  function SharedBody(n: nat): Action { Seq(SharedAssign(n), Write(P0, 1, Var("x", 0))) }

  function SharedRule(a: Bits): Action { Bind("x", |a|, Cst(a), SharedBody(|a|)) }

  const ReadIntoX := Then(ReadInto(Some(0), P0, 0), Skip)

  function AddToX(n: nat): Code { Then(ReadIntoX, Put(0, Op2(Add(n), Loc(0), Loc(0)))) }

  const WriteX := Then(Skip, WriteReg(P0, 1, Loc(0)))

  lemma {:induction false} SharedCode(h: HistoryMap, a: Bits)
    ensures Emit(h, [], 0, NoTarget, SharedRule(a)).code == Then(SetX(a), Then(Then(AddToX(|a|), WriteX), Skip))
  {
    var scope: Scope := [("x", 0)];
    assert scope + [] == scope;
    assert EmitBinding(h, [], 0, "x", Cst(a)) == Emitted(SetX(a), None, true, 1);
    assert Resolve(scope, "x") == 0;
    var t := Into(Some("x"), 0, true);
    assert Emit(h, scope, 1, t, Read(P0, 0)) == Emitted(ReadInto(Some(0), P0, 0), Some(Loc(0)), true, 1);
    assert Emit(h, scope, 1, t, ReadPlusX(|a|)) == Emitted(ReadIntoX, Some(Op2(Add(|a|), Loc(0), Loc(0))), true, 2);
    assert Emit(h, scope, 1, NoTarget, SharedAssign(|a|)) == Emitted(AddToX(|a|), Some(Lit([])), false, 2);
    var h' := After(h, SharedAssign(|a|));
    assert Emit(h', scope, 2, NoTarget, Write(P0, 1, Var("x", 0))).code == WriteX;
    assert Emit(h, scope, 1, NoTarget, SharedBody(|a|)).code == Then(AddToX(|a|), WriteX);
  }

  lemma {:induction false} SharedRunsOn(ru: Rule, st: State, a: Bits, v: Bits)
    requires |a| == |v|
    requires ru.Valid() && WellShaped(ru.kinds, st) && ru.kinds == [Value, Value] && st.total.state == [v, a] && |st.log.state| == 2
    ensures var c := Then(SetX(a), Then(Then(AddToX(|a|), WriteX), Skip));
            && Compiles(ru.kinds, c)
            && Exec(ru, st, map[], c) == Running(st.(log := st.log.(state := st.log.state[1 := Plus(v, v)])), map[0 := Plus(v, v)])
  {
    hide RunCode, Exec, Compiles, WellShaped;
    var st1 := st.(log := st.log.(state := st.log.state[1 := Plus(v, v)]));
    var sum := Put(0, Op2(Add(|a|), Loc(0), Loc(0)));
    StepPut(ru, st, map[], 0, Lit(a));
    StepRead(ru, st, map[0 := a], Some(0), P0, 0);
    assert map[0 := a][0 := v] == map[0 := v] && map[0 := v][0 := Plus(v, v)] == map[0 := Plus(v, v)];
    StepSkip(ru, st, map[0 := a], ReadInto(Some(0), P0, 0), st, map[0 := v]);
    RunPut(ru, st, map[0 := v], 0, Op2(Add(|a|), Loc(0), Loc(0)));
    assert Eval(map[0 := v], Op2(Add(|a|), Loc(0), Loc(0))) == Plus(v, v);
    Step(ru, st, map[0 := a], ReadIntoX, sum, st, map[0 := v]);
    RunSkip(ru, st, map[0 := Plus(v, v)]);
    StepWrite(ru, st, map[0 := Plus(v, v)], P0, 1, Loc(0));
    Step(ru, st, map[0 := Plus(v, v)], Skip, WriteReg(P0, 1, Loc(0)), st, map[0 := Plus(v, v)]);
    Step(ru, st, map[0 := a], AddToX(|a|), WriteX, st, map[0 := Plus(v, v)]);
    StepSkip(ru, st, map[0 := a], Then(AddToX(|a|), WriteX), st1, map[0 := Plus(v, v)]);
    Step(ru, st, map[], SetX(a), Then(Then(AddToX(|a|), WriteX), Skip), st, map[0 := a]);
  }

  lemma {:induction false} StepRead(ru: Rule, st: State, env: Env, dst: Option<nat>, p: Port, idx: nat)
    requires ru.Valid() && WellShaped(ru.kinds, st) && idx < |ru.kinds| && ru.kinds[idx] == Value
    ensures Compiles(ru.kinds, ReadInto(dst, p, idx))
    ensures Exec(ru, st, env, ReadInto(dst, p, idx)) ==
            Running(st, Set(env, dst, if p == P0 then st.total.state[idx] else st.log.state[idx]))
  {
    PlainRead(ru, st, env, dst, p, idx);
  }

  lemma {:induction false} SharedMeans(sigma: ExtFun, a: Bits, v: Bits)
    requires |a| == |v|
    ensures Scoped(SharedRule(a), 2, 0)
    ensures InterpAction([v, a], sigma, [], Empty(2), Empty(2), SharedRule(a)) == Ok([[Rd(P0)], [Wr(P0, Plus(v, a))]], [], [])
  {
    SharedValue(sigma, a, v);
    SharedLast(sigma, a, v);
    assert Scoped(ReadPlusX(|a|), 2, 1) && Scoped(SharedAssign(|a|), 2, 1) && Scoped(SharedBody(|a|), 2, 1);
    var r: RegFile := [v, a];
    assert [a] + [] == [a];
    BindOnce(r, sigma, [], "x", |a|, a, SharedBody(|a|), [[Rd(P0)], [Wr(P0, Plus(v, a))]], [], [Plus(v, a)]);
  }

  lemma {:induction false} SharedValue(sigma: ExtFun, a: Bits, v: Bits)
    requires |a| == |v|
    ensures var (r: RegFile, L: Log) := ([v, a], Empty(2));
            Scoped(SharedAssign(|a|), 2, 1) && InterpAction(r, sigma, [a], L, L, SharedAssign(|a|)) == Ok([[Rd(P0)], []], [], [Plus(v, a)])
  {
    var r: RegFile, L: Log := [v, a], Empty(2);
    assert [Rd(P0)] + [] == [Rd(P0)];
    assert Push(L, 0, Rd(P0)) == [[Rd(P0)], []];
    assert InterpAction(r, sigma, [a], L, L, Read(P0, 0)) == Ok([[Rd(P0)], []], v, [a]);
    assert InterpAction(r, sigma, [a], L, [[Rd(P0)], []], Var("x", 0)) == Ok([[Rd(P0)], []], a, [a]);
    assert InterpAction(r, sigma, [a], L, L, ReadPlusX(|a|)) == Ok([[Rd(P0)], []], Plus(v, a), [a]);
  }

  lemma {:induction false} SharedLast(sigma: ExtFun, a: Bits, v: Bits)
    requires |a| == |v|
    ensures var (r: RegFile, L: Log) := ([v, a], Empty(2));
            Scoped(SharedBody(|a|), 2, 1) && InterpAction(r, sigma, [a], L, L, SharedBody(|a|)) == Ok([[Rd(P0)], [Wr(P0, Plus(v, a))]], [], [Plus(v, a)])
  {
    var r: RegFile, L: Log := [v, a], Empty(2);
    var l: Log := [[Rd(P0)], []];
    SharedValue(sigma, a, v);
    assert InterpAction(r, sigma, [Plus(v, a)], L, l, Var("x", 0)) == Ok(l, Plus(v, a), [Plus(v, a)]);
    assert MayWrite(L, l, P0, 1) by { assert l[1] + L[1] == []; }
    assert [Wr(P0, Plus(v, a))] + [] == [Wr(P0, Plus(v, a))];
    assert Push(l, 1, Wr(P0, Plus(v, a))) == [[Rd(P0)], [Wr(P0, Plus(v, a))]];
    assert InterpAction(r, sigma, [Plus(v, a)], L, l, Write(P0, 1, Var("x", 0))) == Ok([[Rd(P0)], [Wr(P0, Plus(v, a))]], [], [Plus(v, a)]);
  }

  lemma {:induction false} SharedHistories(a: Bits)
    ensures RuleHistories(2, SharedRule(a)) == [History(TTrue, TFalse, TFalse, TFalse, TTrue), History(TFalse, TFalse, TTrue, TFalse, TTrue)]
  {
    var h := EmptyMap(2);
    assert After(h, Cst(a)) == h;
    assert After(h, Read(P0, 0)) == [History(TTrue, TFalse, TFalse, TFalse, TTrue), EmptyHistory];
    assert After(h, ReadPlusX(|a|)) == [History(TTrue, TFalse, TFalse, TFalse, TTrue), EmptyHistory];
    assert After(h, SharedAssign(|a|)) == After(h, ReadPlusX(|a|));
    var h1 := After(h, ReadPlusX(|a|));
    assert After(h1, Var("x", 0)) == h1;
    assert After(h1, Write(P0, 1, Var("x", 0))) ==
           [History(TTrue, TFalse, TFalse, TFalse, TTrue), History(TFalse, TFalse, TTrue, TFalse, TTrue)];
    assert After(h, SharedBody(|a|)) == After(h1, Write(P0, 1, Var("x", 0)));
  }

  /** The first operand is read into the variable being assigned, and the second
      operand then reads it there: of r0 = v the semantics writes v + a, the emitted code
      v + v. */
  lemma {:induction false} SharedTargetExact(sigma: ExtFun, a: Bits, v: Bits)
    requires |a| == |v|
    ensures FailsOnly(Order, SharedRule(a)) && Ends(SharedRule(a), sigma, [v, a], [v, Plus(v, a)], [v, Plus(v, v)])
    ensures Right(SharedRule(a), sigma, [v, a]) <==> v == a
  {
    hide RunCode, Exec, Emit, InterpAction, Compiles, InterpCycle, ExecCycle, BackEnd, Classify, ReadIntoX;
    var r: RegFile := [v, a];
    var ru := RuleOver(2, SharedRule(a), sigma);
    assert ru.kinds == [Value, Value] && Plain(r).rwset == [NoSet, NoSet];
    SharedHistories(a);
    SharedCode(EmptyMap(2), a);
    SharedRunsOn(ru, StartOf(r), a, v);
    SharedMeans(sigma, a, v);
    assert r[1 := Plus(v, v)] == [v, Plus(v, v)];
    OnceEnds(SharedRule(a), sigma, r, State(LogT([NoSet, NoSet], [v, Plus(v, v)]), Plain(r)), map[0 := Plus(v, v)],
              Ok([[Rd(P0)], [Wr(P0, Plus(v, a))]], [], []), [v, Plus(v, a)], [v, Plus(v, v)]);
    assert Latest([Rd(P0)]) == None && Latest([Wr(P0, Plus(v, a))]) == Some(Plus(v, a));
    SharedText(a);
    PlusCancels(v, a, v);
    RightExactly(SharedRule(a), sigma, [v, a], [v, Plus(v, a)], [v, Plus(v, v)]);
  }

  lemma {:induction false} SharedText(a: Bits)
    ensures FailsOnly(Order, SharedRule(a))
  {
    hide Accepted, Ordered, CaptureFree, CallsIndependent, Port1Writes, ReadsFresh;
    SharedOrder(a);
    SharedNames(a);
    SharedSafe(a);
    NoRereads(SharedRule(a));
    assert forall d :: Meets(d, SharedRule(a)) <==> d != Order;
  }

  lemma {:induction false} SharedSafe(a: Bits)
    ensures var rule := SharedRule(a); CaptureFree(rule) && CallsIndependent(rule) && Port1Writes(rule) == {}
  {
    var (x, read, write, sum) := (Var("x", 0), Read(P0, 0), Write(P0, 1, Var("x", 0)), ReadPlusX(|a|));
    assert CaptureFree(x) && CaptureFree(read) && CaptureFree(write) && CaptureFree(sum);
    assert CallsIndependent(x) && CallsIndependent(read) && CallsIndependent(write) && CallsIndependent(sum);
    assert Port1Writes(x) == {} && Port1Writes(read) == {} && Port1Writes(write) == {} && Port1Writes(sum) == {};
    assert SpineBinders(read) == {} && SpineBinders(sum) == {};
    assert CaptureFree(SharedAssign(|a|)) && CallsIndependent(SharedAssign(|a|)) && Port1Writes(SharedAssign(|a|)) == {};
    assert CaptureFree(SharedBody(|a|)) && CallsIndependent(SharedBody(|a|)) && Port1Writes(SharedBody(|a|)) == {};
    assert CaptureFree(Cst(a)) && CallsIndependent(Cst(a)) && Port1Writes(Cst(a)) == {} && "x" !in Names(Cst(a));
  }

  lemma {:induction false} SharedOrder(a: Bits)
    ensures !Ordered(None, SharedRule(a))
  {
    assert 0 in Vars(Var("x", 0)) && Lands(Read(P0, 0));
    assert !Ordered(Some(0), ReadPlusX(|a|));
    assert !Ordered(None, SharedAssign(|a|)) && !Ordered(None, SharedBody(|a|));
  }

  lemma {:induction false} SharedNames(a: Bits)
    ensures Accepted([], SharedRule(a))
  {
    assert ["x"] + [] == ["x"];
    assert Accepted(["x"], Var("x", 0)) && Accepted(["x"], Write(P0, 1, Var("x", 0))) && Accepted([], Cst(a));
    assert Accepted(["x"], Read(P0, 0)) && Visible(["x"], "x", 0);
    assert Accepted(["x"], ReadPlusX(|a|)) && Accepted(["x"], SharedAssign(|a|)) && Accepted(["x"], SharedBody(|a|));
  }

  // ----- a name that reaches another variable -----

  /** `x := a; (let x := (if true then (x := b; c) else d) in nothing); write0(r0, x)` */
  function SetOuter(b: Bits, c: Bits): Action { Seq(Assign("x", 0, Cst(b)), Cst(c)) }

  function CapturedIf(b: Bits, c: Bits, d: Bits): Action { If(Cst([true]), SetOuter(b, c), Cst(d)) }

  function CapturedLet(b: Bits, c: Bits, d: Bits): Action { Bind("x", |c|, CapturedIf(b, c, d), Cst([])) }

  const WriteVar := Write(P0, 0, Var("x", 0))

  function CaptureBody(b: Bits, c: Bits, d: Bits): Action { Seq(CapturedLet(b, c, d), WriteVar) }

  function CaptureRule(a: Bits, b: Bits, c: Bits, d: Bits): Action { Bind("x", |a|, Cst(a), CaptureBody(b, c, d)) }

  function SetInner(b: Bits, c: Bits): Code { Then(Then(Then(Skip, Put(1, Lit(b))), Skip), Put(1, Lit(c))) }

  function BranchInner(b: Bits, c: Bits, d: Bits): Code { Branch(Lit([true]), SetInner(b, c), Then(Skip, Put(1, Lit(d)))) }

  function LetInner(b: Bits, c: Bits, d: Bits): Code { Then(Then(Then(Skip, BranchInner(b, c, d)), Skip), Then(Skip, Skip)) }

  const WriteX0 := Then(Skip, WriteReg(P0, 0, Loc(0)))

  lemma {:induction false} CaptureCode(h: HistoryMap, a: Bits, b: Bits, c: Bits, d: Bits)
    ensures Emit(h, [], 0, NoTarget, CaptureRule(a, b, c, d)).code == Then(SetX(a), Then(Then(LetInner(b, c, d), WriteX0), Skip))
  {
    var scope: Scope := [("x", 0)];
    assert scope + [] == scope;
    assert After(h, Cst(a)) == h;
    assert EmitBinding(h, [], 0, "x", Cst(a)) == Emitted(SetX(a), None, true, 1);
    InnerCode(h, scope, b, c, d);
    var h' := After(h, CapturedLet(b, c, d));
    assert Emit(h', scope, Emit(h, scope, 1, NoTarget, CapturedLet(b, c, d)).next, NoTarget, WriteVar).code == WriteX0;
    assert Emit(h, scope, 1, NoTarget, CaptureBody(b, c, d)).code == Then(LetInner(b, c, d), WriteX0);
  }

  /** The inner variable is declared before the branches are emitted. */
  lemma {:induction false} InnerCode(h: HistoryMap, scope: Scope, b: Bits, c: Bits, d: Bits)
    requires scope == [("x", 0)]
    ensures Emit(h, scope, 1, NoTarget, CapturedLet(b, c, d)).code == LetInner(b, c, d)
  {
    var (t, inner) := (Into(Some("x"), 1, false), [("x", 1)] + scope);
    InnerBranch(h, inner, b, c);
    assert Emit(h, inner, 3, Into(None, 2, false), Cst([true])) == Emitted(Skip, Some(Lit([true])), false, 3);
    assert After(h, Cst([true])) == h;
    assert Emit(h, inner, 3, Declared(t), Cst(d)) == Emitted(Skip, Some(Lit(d)), true, 3);
    assert Emit(h, scope, 2, t, CapturedIf(b, c, d)) == Emitted(Then(Skip, BranchInner(b, c, d)), Some(Loc(1)), true, 3);
    assert !Mentions("x", CapturedIf(b, c, d)) by { NotMentioned(b, c, d); }
    assert EmitBinding(h, scope, 1, "x", CapturedIf(b, c, d)).code == Then(Then(Skip, BranchInner(b, c, d)), Skip);
  }

  lemma {:induction false} NotMentioned(b: Bits, c: Bits, d: Bits)
    ensures !Mentions("x", CapturedIf(b, c, d))
  {
    assert !Mentions("x", Cst(b)) && !Mentions("x", Cst(c)) && !Mentions("x", Assign("x", 0, Cst(b)));
    assert !Mentions("x", SetOuter(b, c)) && !Mentions("x", Cst([true])) && !Mentions("x", Cst(d));
  }

  lemma {:induction false} InnerBranch(h: HistoryMap, inner: Scope, b: Bits, c: Bits)
    requires inner == [("x", 1), ("x", 0)]
    ensures Emit(h, inner, 3, Into(Some("x"), 1, true), SetOuter(b, c)) ==
            Emitted(Then(Then(Skip, Put(1, Lit(b))), Skip), Some(Lit(c)), true, 3)
  {
    assert Resolve(inner, "x") == 1;
    assert Emit(h, inner, 3, Into(Some("x"), 1, true), Cst(b)) == Emitted(Skip, Some(Lit(b)), true, 3);
    assert Emit(h, inner, 3, NoTarget, Assign("x", 0, Cst(b))) == Emitted(Then(Skip, Put(1, Lit(b))), Some(Lit([])), false, 3);
    assert Emit(After(h, Assign("x", 0, Cst(b))), inner, 3, Into(Some("x"), 1, true), Cst(c)) == Emitted(Skip, Some(Lit(c)), true, 3);
  }

  lemma {:induction false} StepBranch(ru: Rule, st: State, env: Env, c1: Code, c2: Code)
    requires ru.Valid() && WellShaped(ru.kinds, st) && Compiles(ru.kinds, c1) && Compiles(ru.kinds, c2)
    ensures Compiles(ru.kinds, Branch(Lit([true]), c1, c2))
    ensures Exec(ru, st, env, Branch(Lit([true]), c1, c2)) == Exec(ru, st, env, c1)
  {
  }

  lemma {:induction false} SetInnerRuns(ru: Rule, st: State, a: Bits, b: Bits, c: Bits)
    requires ru.Valid() && WellShaped(ru.kinds, st)
    ensures Compiles(ru.kinds, SetInner(b, c)) && Exec(ru, st, map[0 := a], SetInner(b, c)) == Running(st, map[0 := a, 1 := c])
  {
    hide RunCode, Exec, Compiles, WellShaped;
    var put := Then(Skip, Put(1, Lit(b)));
    StepPut(ru, st, map[0 := a], 1, Lit(b));
    StepSkip(ru, st, map[0 := a], put, st, map[0 := a][1 := b]);
    RunPut(ru, st, map[0 := a][1 := b], 1, Lit(c));
    assert map[0 := a][1 := b][1 := c] == map[0 := a, 1 := c];
    Step(ru, st, map[0 := a], Then(put, Skip), Put(1, Lit(c)), st, map[0 := a][1 := b]);
  }

  lemma {:induction false} LetInnerRuns(ru: Rule, st: State, a: Bits, b: Bits, c: Bits, d: Bits)
    requires ru.Valid() && WellShaped(ru.kinds, st)
    ensures Compiles(ru.kinds, LetInner(b, c, d))
    ensures Exec(ru, st, map[0 := a], LetInner(b, c, d)) == Running(st, map[0 := a, 1 := c])
  {
    hide RunCode, Exec, Compiles, WellShaped, SetInner;
    var (env, env') := (map[0 := a], map[0 := a, 1 := c]);
    SetInnerRuns(ru, st, a, b, c);
    StepPut(ru, st, env, 1, Lit(d));
    StepBranch(ru, st, env, SetInner(b, c), Then(Skip, Put(1, Lit(d))));
    RunSkip(ru, st, env);
    Step(ru, st, env, Skip, BranchInner(b, c, d), st, env);
    StepSkip(ru, st, env, Then(Skip, BranchInner(b, c, d)), st, env');
    RunSkip(ru, st, env');
    StepSkip(ru, st, env', Skip, st, env');
    Step(ru, st, env, Then(Then(Skip, BranchInner(b, c, d)), Skip), Then(Skip, Skip), st, env');
  }

  /** Setting `x`, some code that leaves `w` there, and a write of it. */
  lemma {:induction false} WriteAfter(ru: Rule, st: State, a: Bits, c: Code, env: Env, w: Bits)
    requires ru.Valid() && WellShaped(ru.kinds, st) && |ru.kinds| > 0 && ru.kinds[0] == Value && |st.log.state| > 0
    requires Compiles(ru.kinds, c) && Exec(ru, st, map[0 := a], c) == Running(st, env) && Get(env, 0) == w
    ensures var c' := Then(SetX(a), Then(Then(c, WriteX0), Skip));
            && Compiles(ru.kinds, c')
            && Exec(ru, st, map[], c') == Running(st.(log := st.log.(state := st.log.state[0 := w])), env)
  {
    hide RunCode, Exec, Compiles, WellShaped;
    var st1 := st.(log := st.log.(state := st.log.state[0 := w]));
    StepPut(ru, st, map[], 0, Lit(a));
    RunSkip(ru, st, env);
    StepWrite(ru, st, env, P0, 0, Loc(0));
    Step(ru, st, env, Skip, WriteReg(P0, 0, Loc(0)), st, env);
    Step(ru, st, map[0 := a], c, WriteX0, st, env);
    StepSkip(ru, st, map[0 := a], Then(c, WriteX0), st1, env);
    Step(ru, st, map[], SetX(a), Then(Then(c, WriteX0), Skip), st, map[0 := a]);
  }

  /** What the semantics makes of it: `x` is assigned by an action and then written. */
  lemma {:induction false} WriteAssigned(sigma: ExtFun, a: Bits, act: Action, v: Bits)
    requires Scoped(act, 1, 1)
    requires InterpAction([a], sigma, [a], Empty(1), Empty(1), act) == Ok(Empty(1), [], [v])
    ensures var rule := Bind("x", |a|, Cst(a), Seq(act, WriteVar));
            && Scoped(rule, 1, 0)
            && InterpAction([a], sigma, [], Empty(1), Empty(1), rule) == Ok([[Wr(P0, v)]], [], [])
  {
    var r: RegFile := [a];
    assert InterpAction(r, sigma, [v], Empty(1), Empty(1), Var("x", 0)) == Ok(Empty(1), v, [v]);
    WriteOnce(r, sigma, [v], [v], 0, Var("x", 0), v);
    assert Empty(1)[0 := [Wr(P0, v)]] == [[Wr(P0, v)]];
    SeqMeans(sigma, a, act, v);
    assert [a] + [] == [a];
    BindOnce(r, sigma, [], "x", |a|, a, Seq(act, WriteVar), [[Wr(P0, v)]], [], [v]);
  }

  lemma {:induction false} SeqMeans(sigma: ExtFun, a: Bits, act: Action, v: Bits)
    requires Scoped(act, 1, 1)
    requires InterpAction([a], sigma, [a], Empty(1), Empty(1), act) == Ok(Empty(1), [], [v])
    requires Scoped(WriteVar, 1, 1)
    requires InterpAction([a], sigma, [v], Empty(1), Empty(1), WriteVar) == Ok([[Wr(P0, v)]], [], [v])
    ensures InterpAction([a], sigma, [a], Empty(1), Empty(1), Seq(act, WriteVar)) == Ok([[Wr(P0, v)]], [], [v])
  {
  }

  lemma {:induction false} CapturedMeans(sigma: ExtFun, a: Bits, b: Bits, c: Bits, d: Bits)
    ensures Scoped(CapturedLet(b, c, d), 1, 1)
    ensures InterpAction([a], sigma, [a], Empty(1), Empty(1), CapturedLet(b, c, d)) == Ok(Empty(1), [], [b])
  {
    var (r: RegFile, L: Log) := ([a], Empty(1));
    var (put, cond) := (Assign("x", 0, Cst(b)), CapturedIf(b, c, d));
    assert Scoped(Cst(b), 1, 1) && Scoped(Cst(c), 1, 1) && Scoped(Cst(d), 1, 1) && Scoped(Cst([true]), 1, 1) && Scoped(put, 1, 1);
    assert Scoped(SetOuter(b, c), 1, 1) && Scoped(cond, 1, 1) && Scoped(Cst([]), 1, 2);
    assert InterpAction(r, sigma, [a], L, L, Cst(b)) == Ok(L, b, [a]);
    assert InterpAction(r, sigma, [a], L, L, put) == Ok(L, [], [b]);
    assert InterpAction(r, sigma, [b], L, L, Cst(c)) == Ok(L, c, [b]);
    assert InterpAction(r, sigma, [a], L, L, SetOuter(b, c)) == Ok(L, c, [b]);
    assert InterpAction(r, sigma, [a], L, L, Cst([true])) == Ok(L, [true], [a]);
    assert InterpAction(r, sigma, [a], L, L, cond) == Ok(L, c, [b]);
    assert ([c] + [b])[1..] == [b];
    assert InterpAction(r, sigma, [c] + [b], L, L, Cst([])) == Ok(L, [], [c] + [b]);
  }

  lemma {:induction false} WriteVarHistories(h: HistoryMap)
    requires h == EmptyMap(1)
    ensures After(h, WriteVar) == [History(TFalse, TFalse, TTrue, TFalse, TTrue)]
  {
  }

  lemma {:induction false} CaptureHistories(a: Bits, b: Bits, c: Bits, d: Bits)
    ensures RuleHistories(1, CaptureRule(a, b, c, d)) == [History(TFalse, TFalse, TTrue, TFalse, TTrue)]
  {
    var h := EmptyMap(1);
    assert After(h, Cst(a)) == h && After(h, Cst(b)) == h && After(h, Cst(c)) == h && After(h, Cst(d)) == h;
    assert After(h, Cst([true])) == h && After(h, Cst([])) == h && After(h, Assign("x", 0, Cst(b))) == h;
    assert After(h, SetOuter(b, c)) == h;
    assert JoinMaps(h, h) == h;
    assert After(h, CapturedIf(b, c, d)) == h && After(h, CapturedLet(b, c, d)) == h;
    WriteVarHistories(h);
    assert After(h, CaptureBody(b, c, d)) == After(h, WriteVar);
  }

  /** The inner variable is declared too early, and the assignment in its own expression
      reaches it: the semantics writes b, the emitted code a. */
  lemma {:induction false} CaptureExact(sigma: ExtFun, a: Bits, b: Bits, c: Bits, d: Bits)
    requires |a| == |b| == |c| == |d|
    ensures FailsOnly(Capture, CaptureRule(a, b, c, d)) && Ends(CaptureRule(a, b, c, d), sigma, [a], [b], [a])
    ensures Right(CaptureRule(a, b, c, d), sigma, [a]) <==> a == b
  {
    hide RunCode, Exec, Emit, InterpAction, Compiles, InterpCycle, ExecCycle, BackEnd, Classify, LetInner;
    hide RuleHistories, Accepted, Ordered, CaptureFree, CallsIndependent, ReadsFresh;
    var rule := CaptureRule(a, b, c, d);
    var ru := RuleOver(1, rule, sigma);
    CaptureHistories(a, b, c, d);
    CaptureCode(EmptyMap(1), a, b, c, d);
    assert ru.kinds == [Value] && Plain([a]).rwset == [NoSet];
    LetInnerRuns(ru, StartOf([a]), a, b, c, d);
    WriteAfter(ru, StartOf([a]), a, LetInner(b, c, d), map[0 := a, 1 := c], a);
    assert [a][0 := a] == [a];
    CapturedMeans(sigma, a, b, c, d);
    WriteAssigned(sigma, a, CapturedLet(b, c, d), b);
    FirstWrite(1, 0, b);
    OnceEnds(rule, sigma, [a], State(LogT([NoSet], [a]), Plain([a])), map[0 := a, 1 := c],
             Ok([[Wr(P0, b)]], [], []), [b], [a]);
    CaptureText(a, b, c, d);
    RightExactly(CaptureRule(a, b, c, d), sigma, [a], [b], [a]);
  }

  lemma {:induction false} CaptureText(a: Bits, b: Bits, c: Bits, d: Bits)
    ensures FailsOnly(Capture, CaptureRule(a, b, c, d))
  {
    hide Accepted, Ordered, CaptureFree, CallsIndependent, Port1Writes, ReadsFresh;
    CaptureNames(a, b, c, d);
    CaptureFound(a, b, c, d);
    CaptureSafe(a, b, c, d);
    NoRereads(CaptureRule(a, b, c, d));
    assert forall e :: Meets(e, CaptureRule(a, b, c, d)) <==> e != Capture;
  }

  lemma {:induction false} CaptureSafe(a: Bits, b: Bits, c: Bits, d: Bits)
    ensures var rule := CaptureRule(a, b, c, d); Ordered(None, rule) && CallsIndependent(rule) && Port1Writes(rule) == {}
  {
    CaptureOrdered(a, b, c, d);
    CaptureCalls(a, b, c, d);
    CapturePort1(a, b, c, d);
  }

  lemma {:induction false} CaptureOrdered(a: Bits, b: Bits, c: Bits, d: Bits)
    ensures Ordered(None, CaptureRule(a, b, c, d))
  {
    ConstantSafe(a);
    ConstantSafe(b);
    ConstantSafe(c);
    ConstantSafe(d);
    ConstantSafe([]);
    ConstantSafe([true]);
    WriteVarSafe();
    assert Ordered(None, Assign("x", 0, Cst(b)));
    assert Ordered(None, SetOuter(b, c));
    assert Ordered(None, CapturedIf(b, c, d));
    assert Ordered(None, CapturedLet(b, c, d));
    assert Ordered(None, CaptureBody(b, c, d));
  }

  lemma {:induction false} CaptureCalls(a: Bits, b: Bits, c: Bits, d: Bits)
    ensures CallsIndependent(CaptureRule(a, b, c, d))
  {
    ConstantSafe(a);
    ConstantSafe(b);
    ConstantSafe(c);
    ConstantSafe(d);
    ConstantSafe([]);
    ConstantSafe([true]);
    WriteVarSafe();
    assert CallsIndependent(Assign("x", 0, Cst(b))) && CallsIndependent(SetOuter(b, c)) && CallsIndependent(CapturedIf(b, c, d));
    assert CallsIndependent(CapturedLet(b, c, d)) && CallsIndependent(CaptureBody(b, c, d));
  }

  lemma {:induction false} CapturePort1(a: Bits, b: Bits, c: Bits, d: Bits)
    ensures Port1Writes(CaptureRule(a, b, c, d)) == {}
  {
    ConstantSafe(a);
    ConstantSafe(b);
    ConstantSafe(c);
    ConstantSafe(d);
    ConstantSafe([]);
    ConstantSafe([true]);
    WriteVarSafe();
    assert Port1Writes(Assign("x", 0, Cst(b))) == {} && Port1Writes(SetOuter(b, c)) == {};
    assert Port1Writes(CapturedIf(b, c, d)) == {};
    assert Port1Writes(CapturedLet(b, c, d)) == {} && Port1Writes(CaptureBody(b, c, d)) == {};
  }

  lemma {:induction false} ConstantSafe(v: Bits)
    ensures forall tv :: Ordered(tv, Cst(v))
    ensures CallsIndependent(Cst(v)) && Port1Writes(Cst(v)) == {}
  {
  }

  lemma {:induction false} WriteVarSafe()
    ensures Ordered(None, WriteVar) && CallsIndependent(WriteVar) && Port1Writes(WriteVar) == {}
  {
  }

  lemma {:induction false} CaptureFound(a: Bits, b: Bits, c: Bits, d: Bits)
    ensures !CaptureFree(CaptureRule(a, b, c, d))
  {
    assert "x" in Names(Assign("x", 0, Cst(b))) && "x" in Names(SetOuter(b, c)) && "x" in Names(CapturedIf(b, c, d));
    NotMentioned(b, c, d);
    assert !CaptureFree(CapturedLet(b, c, d)) && !CaptureFree(CaptureBody(b, c, d));
  }

  lemma {:induction false} CaptureNames(a: Bits, b: Bits, c: Bits, d: Bits)
    ensures Accepted([], CaptureRule(a, b, c, d))
  {
    assert ["x"] + [] == ["x"] && Visible(["x"], "x", 0);
    assert Accepted(["x"], Cst(b)) && Accepted(["x"], Cst(c)) && Accepted(["x"], Cst(d)) && Accepted(["x"], Cst([true]));
    assert Accepted(["x"], Assign("x", 0, Cst(b))) && Accepted(["x"] + ["x"], Cst([])) && Accepted([], Cst(a));
    assert Accepted(["x"], SetOuter(b, c)) && Accepted(["x"], CapturedIf(b, c, d)) && Accepted(["x"], CapturedLet(b, c, d));
    assert Accepted(["x"], Var("x", 0)) && Accepted(["x"], WriteVar) && Accepted(["x"], CaptureBody(b, c, d));
  }

  /** `x := a; x := (let x := b in c); write0(r0, x)` */
  function ShadowLet(b: Bits, c: Bits): Action { Bind("x", |b|, Cst(b), Cst(c)) }

  function ShadowAssign(b: Bits, c: Bits): Action { Assign("x", 0, ShadowLet(b, c)) }

  function ShadowBody(b: Bits, c: Bits): Action { Seq(ShadowAssign(b, c), WriteVar) }

  function ShadowRule(a: Bits, b: Bits, c: Bits): Action { Bind("x", |a|, Cst(a), ShadowBody(b, c)) }

  function SetTwice(b: Bits, c: Bits): Code { Then(Then(Then(Skip, Put(1, Lit(b))), Then(Skip, Put(1, Lit(c)))), Skip) }

  lemma {:induction false} ShadowCode(h: HistoryMap, a: Bits, b: Bits, c: Bits)
    ensures Emit(h, [], 0, NoTarget, ShadowRule(a, b, c)).code == Then(SetX(a), Then(Then(SetTwice(b, c), WriteX0), Skip))
  {
    hide SetTwice;
    var scope: Scope := [("x", 0)];
    assert scope + [] == scope;
    assert After(h, Cst(a)) == h;
    assert EmitBinding(h, [], 0, "x", Cst(a)) == Emitted(SetX(a), None, true, 1);
    ShadowAssignCode(h, scope, b, c);
    assert Emit(After(h, ShadowAssign(b, c)), scope, 2, NoTarget, WriteVar).code == WriteX0;
    assert Emit(h, scope, 1, NoTarget, ShadowBody(b, c)).code == Then(SetTwice(b, c), WriteX0);
  }

  lemma {:induction false} ShadowAssignCode(h: HistoryMap, scope: Scope, b: Bits, c: Bits)
    requires scope == [("x", 0)]
    ensures Emit(h, scope, 1, NoTarget, ShadowAssign(b, c)) == Emitted(SetTwice(b, c), Some(Lit([])), false, 2)
  {
    var (t, inner) := (Into(Some("x"), 0, true), [("x", 1)] + scope);
    assert Resolve(inner, "x") == 1 && Resolve(scope, "x") == 0;
    assert EmitBinding(h, scope, 1, "x", Cst(b)) == Emitted(Then(Skip, Put(1, Lit(b))), None, true, 2);
    assert Emit(After(h, Cst(b)), inner, 2, t, Cst(c)) == Emitted(Skip, Some(Lit(c)), true, 2);
    assert Emit(h, scope, 1, t, ShadowLet(b, c)) ==
           Emitted(Then(Then(Skip, Put(1, Lit(b))), Then(Skip, Put(1, Lit(c)))), Some(Loc(0)), true, 2);
  }

  lemma {:induction false} SetTwiceRuns(ru: Rule, st: State, a: Bits, b: Bits, c: Bits)
    requires ru.Valid() && WellShaped(ru.kinds, st)
    ensures Compiles(ru.kinds, SetTwice(b, c)) && Exec(ru, st, map[0 := a], SetTwice(b, c)) == Running(st, map[0 := a, 1 := c])
  {
    hide RunCode, Exec, Compiles, WellShaped;
    var (c1, c2) := (Then(Skip, Put(1, Lit(b))), Then(Skip, Put(1, Lit(c))));
    StepPut(ru, st, map[0 := a], 1, Lit(b));
    StepPut(ru, st, map[0 := a][1 := b], 1, Lit(c));
    assert map[0 := a][1 := b][1 := c] == map[0 := a, 1 := c];
    Step(ru, st, map[0 := a], c1, c2, st, map[0 := a][1 := b]);
    StepSkip(ru, st, map[0 := a], Then(c1, c2), st, map[0 := a, 1 := c]);
  }

  lemma {:induction false} ShadowMeans(sigma: ExtFun, a: Bits, b: Bits, c: Bits)
    ensures Scoped(ShadowAssign(b, c), 1, 1)
    ensures InterpAction([a], sigma, [a], Empty(1), Empty(1), ShadowAssign(b, c)) == Ok(Empty(1), [], [c])
  {
    var (r: RegFile, L: Log) := ([a], Empty(1));
    assert Scoped(Cst(b), 1, 1) && Scoped(Cst(c), 1, 2) && Scoped(ShadowLet(b, c), 1, 1);
    assert InterpAction(r, sigma, [a], L, L, Cst(b)) == Ok(L, b, [a]);
    assert ([b] + [a])[1..] == [a];
    assert InterpAction(r, sigma, [b] + [a], L, L, Cst(c)) == Ok(L, c, [b] + [a]);
    assert InterpAction(r, sigma, [a], L, L, ShadowLet(b, c)) == Ok(L, c, [a]);
  }

  lemma {:induction false} ShadowHistories(a: Bits, b: Bits, c: Bits)
    ensures RuleHistories(1, ShadowRule(a, b, c)) == [History(TFalse, TFalse, TTrue, TFalse, TTrue)]
  {
    var h := EmptyMap(1);
    assert After(h, Cst(a)) == h && After(h, Cst(b)) == h && After(h, Cst(c)) == h;
    assert After(h, ShadowLet(b, c)) == h && After(h, ShadowAssign(b, c)) == h;
    WriteVarHistories(h);
    assert After(h, ShadowBody(b, c)) == After(h, WriteVar);
  }

  lemma {:induction false} ShadowText(a: Bits, b: Bits, c: Bits)
    ensures FailsOnly(Capture, ShadowRule(a, b, c))
  {
    hide Accepted, Ordered, CaptureFree, CallsIndependent, Port1Writes, ReadsFresh;
    ShadowNames(a, b, c);
    ShadowFound(a, b, c);
    ShadowSafe(a, b, c);
    NoRereads(ShadowRule(a, b, c));
    assert forall d :: Meets(d, ShadowRule(a, b, c)) <==> d != Capture;
  }

  lemma {:induction false} ShadowSafe(a: Bits, b: Bits, c: Bits)
    ensures var rule := ShadowRule(a, b, c); Ordered(None, rule) && CallsIndependent(rule) && Port1Writes(rule) == {}
  {
    hide Accepted, CaptureFree, ReadsFresh, Emit;
    ConstantSafe(a);
    ConstantSafe(b);
    ConstantSafe(c);
    WriteVarSafe();
    assert Ordered(Some(0), ShadowLet(b, c));
    assert CallsIndependent(ShadowLet(b, c)) && Port1Writes(ShadowLet(b, c)) == {};
    assert Ordered(None, ShadowAssign(b, c)) && CallsIndependent(ShadowAssign(b, c)) && Port1Writes(ShadowAssign(b, c)) == {};
    assert Ordered(None, ShadowBody(b, c)) && CallsIndependent(ShadowBody(b, c)) && Port1Writes(ShadowBody(b, c)) == {};
  }

  lemma {:induction false} ShadowFound(a: Bits, b: Bits, c: Bits)
    ensures !CaptureFree(ShadowRule(a, b, c))
  {
    assert "x" in SpineBinders(ShadowLet(b, c));
    assert !CaptureFree(ShadowAssign(b, c)) && !CaptureFree(ShadowBody(b, c));
  }

  lemma {:induction false} ShadowNames(a: Bits, b: Bits, c: Bits)
    ensures Accepted([], ShadowRule(a, b, c))
  {
    assert ["x"] + [] == ["x"] && Visible(["x"], "x", 0);
    assert Accepted(["x"] + ["x"], Cst(c)) && Accepted(["x"], Cst(b)) && Accepted([], Cst(a));
    assert Accepted(["x"], ShadowLet(b, c)) && Accepted(["x"], ShadowAssign(b, c));
    assert Accepted(["x"], Var("x", 0)) && Accepted(["x"], WriteVar) && Accepted(["x"], ShadowBody(b, c));
  }

  /** The value is stored by name where an inner variable has that name: the semantics
      writes c, the emitted code a. */
  lemma {:induction false} ShadowExact(sigma: ExtFun, a: Bits, b: Bits, c: Bits)
    requires |a| == |b| == |c|
    ensures FailsOnly(Capture, ShadowRule(a, b, c)) && Ends(ShadowRule(a, b, c), sigma, [a], [c], [a])
    ensures Right(ShadowRule(a, b, c), sigma, [a]) <==> a == c
  {
    hide RunCode, Exec, Emit, InterpAction, Compiles, InterpCycle, ExecCycle, BackEnd, Classify, SetTwice;
    hide RuleHistories, Accepted, Ordered, CaptureFree, CallsIndependent, ReadsFresh;
    var rule := ShadowRule(a, b, c);
    var ru := RuleOver(1, rule, sigma);
    ShadowHistories(a, b, c);
    ShadowCode(EmptyMap(1), a, b, c);
    assert ru.kinds == [Value] && Plain([a]).rwset == [NoSet];
    SetTwiceRuns(ru, StartOf([a]), a, b, c);
    WriteAfter(ru, StartOf([a]), a, SetTwice(b, c), map[0 := a, 1 := c], a);
    assert [a][0 := a] == [a];
    ShadowMeans(sigma, a, b, c);
    WriteAssigned(sigma, a, ShadowAssign(b, c), c);
    FirstWrite(1, 0, c);
    OnceEnds(rule, sigma, [a], State(LogT([NoSet], [a]), Plain([a])), map[0 := a, 1 := c],
             Ok([[Wr(P0, c)]], [], []), [c], [a]);
    ShadowText(a, b, c);
    RightExactly(ShadowRule(a, b, c), sigma, [a], [c], [a]);
  }

  // ----- a switch on a hidden variable -----

  /** Two cases, with a value for each, and the value otherwise. */
  datatype Cases = Cases(label1: Bits, v1: Bits, label2: Bits, v2: Bits, other: Bits) {
    ghost predicate Sized(n: nat, sz: nat) {
      |label1| == n && |label2| == n && label1 != label2 && |v1| == sz && |v2| == sz && |other| == sz
    }

    function Last(y: Bits): Bits { if y == label2 then v2 else other }

    function Pick(y: Bits): Bits { if y == label1 then v1 else Last(y) }
  }

  /** `let x := a in let y := b in write0(r0, if x == label1 then v1 else if x == label2 then v2 else other)`,
      where y has the name of x too. */
  function Test(c: Bits): Action { Binop(EqBits(|c|, false), Var("x", 1), Cst(c)) }

  function LastTest(q: Cases): Action { If(Test(q.label2), Cst(q.v2), Cst(q.other)) }

  function Tests(q: Cases): Action { If(Test(q.label1), Cst(q.v1), LastTest(q)) }

  function WriteTests(q: Cases): Action { Write(P0, 0, Tests(q)) }

  function HidingLet(b: Bits, q: Cases): Action { Bind("x", |b|, Cst(b), WriteTests(q)) }

  function HiddenRule(a: Bits, b: Bits, q: Cases): Action { Bind("x", |a|, Cst(a), HidingLet(b, q)) }

  function TestText(c: Bits): Expr { Op2(EqBits(|c|, false), Loc(1), Lit(c)) }

  function Arm(v: Bits): Code { Then(Skip, Put(2, Lit(v))) }

  function LastSwitch(q: Cases): Code { Then(Then(Skip, Skip), Branch(TestText(q.label2), Arm(q.v2), Arm(q.other))) }

  function Switch(q: Cases): Code { Then(Then(Skip, Skip), Branch(TestText(q.label1), Arm(q.v1), Then(LastSwitch(q), Skip))) }

  const WriteIt2 := WriteReg(P0, 0, Loc(2))

  lemma {:induction false} TestCode(h: HistoryMap, k: nat, c: Bits)
    ensures var e := Emit(h, [("x", 1), ("x", 0)], k + 1, Into(None, k, false), Test(c));
            e.code == Then(Skip, Skip) && e.res == Some(TestText(c))
    ensures After(h, Test(c)) == h
  {
    var scope: Scope := [("x", 1), ("x", 0)];
    assert Resolve(scope, "x") == 1;
    assert After(h, Var("x", 1)) == h && After(h, Cst(c)) == h;
  }

  lemma {:induction false} LastTestCode(h: HistoryMap, k: nat, q: Cases)
    ensures var e := Emit(h, [("x", 1), ("x", 0)], k, Into(None, 2, true), LastTest(q));
            e.code == LastSwitch(q) && e.res == Some(Loc(2))
  {
    hide Emit, EmitArgs, EmitFunction, EmitBinding;
    TestCode(h, k, q.label2);
    var (scope: Scope, t) := ([("x", 1), ("x", 0)], Into(None, 2, true));
    var e := Emit(h, scope, k + 1, Into(None, k, false), Test(q.label2));
    ConstantCode(h, scope, e.next, t, q.v2);
    ConstantCode(h, scope, e.next, t, q.other);
    IfEmits(h, scope, k, t, Test(q.label2), Cst(q.v2), Cst(q.other));
  }

  /** A conditional, from its parts. */
  lemma {:induction false} IfEmits(h: HistoryMap, scope: Scope, k: nat, t: Target, cond: Action, a1: Action, a2: Action)
    requires t.Into? && t.name.None?
    ensures var e := Emit(h, scope, k + 1, Into(None, k, false), cond);
            var e1 := Emit(After(h, cond), scope, e.next, Declared(t), a1);
            var e2 := Emit(After(h, cond), scope, e1.next, Declared(t), a2);
            var res := Emit(h, scope, k, t, If(cond, a1, a2));
            && res.code == Then(e.code, Branch(TextOf(e.res), Then(e1.code, AssignTo(scope, Declared(t), e1.res).0),
                                               Then(e2.code, AssignTo(scope, Declared(t), e2.res).0)))
            && res.res == AssignTo(scope, Declared(t), e1.res).1
  {
  }

  lemma {:induction false} TestsCode(h: HistoryMap, q: Cases)
    ensures var e := Emit(h, [("x", 1), ("x", 0)], 3, Into(None, 2, false), Tests(q));
            e.code == Switch(q) && e.res == Some(Loc(2))
  {
    hide Emit, EmitArgs, EmitFunction, EmitBinding;
    TestCode(h, 3, q.label1);
    var (scope: Scope, t) := ([("x", 1), ("x", 0)], Into(None, 2, true));
    var e := Emit(h, scope, 4, Into(None, 3, false), Test(q.label1));
    ConstantCode(h, scope, e.next, t, q.v1);
    LastTestCode(h, e.next, q);
    IfEmits(h, scope, 3, Into(None, 2, false), Test(q.label1), Cst(q.v1), LastTest(q));
  }

  lemma {:induction false} HiddenCode(h: HistoryMap, a: Bits, b: Bits, q: Cases)
    ensures Emit(h, [], 0, NoTarget, HiddenRule(a, b, q)).code ==
            Then(SetX(a), Then(Then(Then(Skip, Put(1, Lit(b))), Then(Then(Switch(q), WriteIt2), Skip)), Skip))
  {
    hide Switch, Tests;
    var (outer: Scope, inner: Scope) := ([("x", 0)], [("x", 1), ("x", 0)]);
    assert outer + [] == outer && [("x", 1)] + outer == inner;
    assert After(h, Cst(a)) == h && After(h, Cst(b)) == h;
    assert EmitBinding(h, [], 0, "x", Cst(a)) == Emitted(SetX(a), None, true, 1);
    assert EmitBinding(h, outer, 1, "x", Cst(b)) == Emitted(Then(Skip, Put(1, Lit(b))), None, true, 2);
    TestsCode(h, q);
    assert Emit(h, inner, 2, NoTarget, WriteTests(q)).code == Then(Switch(q), WriteIt2);
    assert Emit(h, outer, 1, NoTarget, HidingLet(b, q)).code ==
           Then(Then(Skip, Put(1, Lit(b))), Then(Then(Switch(q), WriteIt2), Skip));
  }

  lemma {:induction false} StepTest(ru: Rule, st: State, env: Env, c: Bits, c1: Code, c2: Code)
    requires ru.Valid() && WellShaped(ru.kinds, st) && Compiles(ru.kinds, c1) && Compiles(ru.kinds, c2)
    ensures var code := Then(Then(Skip, Skip), Branch(TestText(c), c1, c2));
            && Compiles(ru.kinds, code)
            && Exec(ru, st, env, code) == Exec(ru, st, env, if Get(env, 1) == c then c1 else c2)
  {
    var code := Branch(TestText(c), c1, c2);
    assert Eval(env, TestText(c)) == [Get(env, 1) == c];
    assert Compiles(ru.kinds, code);
    assert Exec(ru, st, env, code) == Exec(ru, st, env, if Get(env, 1) == c then c1 else c2);
    RunSkip(ru, st, env);
    StepSkip(ru, st, env, Skip, st, env);
    Step(ru, st, env, Then(Skip, Skip), code, st, env);
  }

  lemma {:induction false} SwitchRuns(ru: Rule, st: State, env: Env, q: Cases)
    requires ru.Valid() && WellShaped(ru.kinds, st)
    ensures Compiles(ru.kinds, Switch(q)) && Exec(ru, st, env, Switch(q)) == Running(st, env[2 := q.Pick(Get(env, 1))])
  {
    hide RunCode, Exec, Compiles, WellShaped;
    StepPut(ru, st, env, 2, Lit(q.v1));
    StepPut(ru, st, env, 2, Lit(q.v2));
    StepPut(ru, st, env, 2, Lit(q.other));
    StepTest(ru, st, env, q.label2, Arm(q.v2), Arm(q.other));
    StepSkip(ru, st, env, LastSwitch(q), st, env[2 := q.Last(Get(env, 1))]);
    StepTest(ru, st, env, q.label1, Arm(q.v1), Then(LastSwitch(q), Skip));
  }

  lemma {:induction false} HiddenRuns(ru: Rule, st: State, a: Bits, b: Bits, q: Cases)
    requires ru.Valid() && WellShaped(ru.kinds, st) && |ru.kinds| > 0 && ru.kinds[0] == Value && |st.log.state| > 0
    ensures var c := Then(SetX(a), Then(Then(Then(Skip, Put(1, Lit(b))), Then(Then(Switch(q), WriteIt2), Skip)), Skip));
            && Compiles(ru.kinds, c)
            && Exec(ru, st, map[], c) ==
               Running(st.(log := st.log.(state := st.log.state[0 := q.Pick(b)])), map[0 := a, 1 := b, 2 := q.Pick(b)])
  {
    hide RunCode, Exec, Compiles, WellShaped, Switch;
    var st1 := st.(log := st.log.(state := st.log.state[0 := q.Pick(b)]));
    var env := map[0 := a, 1 := b, 2 := q.Pick(b)];
    StepPut(ru, st, map[], 0, Lit(a));
    StepPut(ru, st, map[0 := a], 1, Lit(b));
    assert map[0 := a][1 := b] == map[0 := a, 1 := b];
    SwitchRuns(ru, st, map[0 := a, 1 := b], q);
    assert map[0 := a, 1 := b][2 := q.Pick(b)] == env;
    StepWrite(ru, st, env, P0, 0, Loc(2));
    Step(ru, st, map[0 := a, 1 := b], Switch(q), WriteIt2, st, env);
    StepSkip(ru, st, map[0 := a, 1 := b], Then(Switch(q), WriteIt2), st1, env);
    var inner := Then(Then(Switch(q), WriteIt2), Skip);
    Step(ru, st, map[0 := a], Then(Skip, Put(1, Lit(b))), inner, st, map[0 := a, 1 := b]);
    StepSkip(ru, st, map[0 := a], Then(Then(Skip, Put(1, Lit(b))), inner), st1, env);
    Step(ru, st, map[], SetX(a), Then(Then(Then(Skip, Put(1, Lit(b))), inner), Skip), st, map[0 := a]);
  }

  lemma {:induction false} TestMeans(r: RegFile, sigma: ExtFun, G: Ctx, c: Bits)
    requires |G| == 2
    ensures Scoped(Test(c), |r|, 2)
    ensures InterpAction(r, sigma, G, Empty(|r|), Empty(|r|), Test(c)) == Ok(Empty(|r|), [G[1] == c], G)
  {
    var L := Empty(|r|);
    assert Scoped(Var("x", 1), |r|, 2) && Scoped(Cst(c), |r|, 2);
    assert InterpAction(r, sigma, G, L, L, Var("x", 1)) == Ok(L, G[1], G);
    assert InterpAction(r, sigma, G, L, L, Cst(c)) == Ok(L, c, G);
  }

  lemma {:induction false} TestsMean(r: RegFile, sigma: ExtFun, G: Ctx, q: Cases)
    requires |G| == 2
    ensures Scoped(Tests(q), |r|, 2)
    ensures InterpAction(r, sigma, G, Empty(|r|), Empty(|r|), Tests(q)) == Ok(Empty(|r|), q.Pick(G[1]), G)
  {
    hide Test;
    var L := Empty(|r|);
    TestMeans(r, sigma, G, q.label1);
    TestMeans(r, sigma, G, q.label2);
    assert Scoped(Cst(q.v1), |r|, 2) && Scoped(Cst(q.v2), |r|, 2) && Scoped(Cst(q.other), |r|, 2);
    assert InterpAction(r, sigma, G, L, L, Cst(q.v1)) == Ok(L, q.v1, G);
    assert InterpAction(r, sigma, G, L, L, Cst(q.v2)) == Ok(L, q.v2, G);
    assert InterpAction(r, sigma, G, L, L, Cst(q.other)) == Ok(L, q.other, G);
    assert Scoped(LastTest(q), |r|, 2) && InterpAction(r, sigma, G, L, L, LastTest(q)) == Ok(L, q.Last(G[1]), G);
  }

  lemma {:induction false} HiddenMeans(r: RegFile, sigma: ExtFun, a: Bits, b: Bits, q: Cases)
    requires |r| == 1
    ensures Scoped(HiddenRule(a, b, q), 1, 0)
    ensures InterpAction(r, sigma, [], Empty(1), Empty(1), HiddenRule(a, b, q)) == Ok([[Wr(P0, q.Pick(a))]], [], [])
  {
    hide InterpAction, Tests, Cases.Pick;
    assert [a] + [] == [a] && [b] + [a] == [b, a];
    TestsMean(r, sigma, [b, a], q);
    WriteOnce(r, sigma, [b, a], [b, a], 0, Tests(q), q.Pick(a));
    var l := [[Wr(P0, q.Pick(a))]];
    assert Empty(1)[0 := [Wr(P0, q.Pick(a))]] == l;
    BindOnce(r, sigma, [a], "x", |b|, b, WriteTests(q), l, [], [b, a]);
    assert [b, a][1..] == [a];
    BindOnce(r, sigma, [], "x", |a|, a, HidingLet(b, q), l, [], [a]);
  }

  lemma {:induction false} HiddenHistories(a: Bits, b: Bits, q: Cases)
    ensures RuleHistories(1, HiddenRule(a, b, q)) == [History(TFalse, TFalse, TTrue, TFalse, TTrue)]
  {
    hide Test;
    var h := EmptyMap(1);
    TestCode(h, 0, q.label1);
    TestCode(h, 0, q.label2);
    assert forall v :: After(h, Cst(v)) == h;
    assert JoinMaps(h, h) == h;
    assert After(h, LastTest(q)) == h && After(h, Tests(q)) == h;
    WriteVarHistories(h);
    assert After(h, Var("x", 0)) == h;
    assert After(h, WriteTests(q)) == After(h, WriteVar);
    assert After(h, HidingLet(b, q)) == After(h, WriteVar);
  }

  lemma {:induction false} HiddenText(a: Bits, b: Bits, q: Cases)
    ensures FailsOnly(Shown, HiddenRule(a, b, q))
  {
    hide Accepted, Ordered, CaptureFree, CallsIndependent, Port1Writes, ReadsFresh;
    HiddenFound(a, b, q);
    HiddenSafe(a, b, q);
    NoRereads(HiddenRule(a, b, q));
    assert forall e :: Meets(e, HiddenRule(a, b, q)) <==> e != Shown;
  }

  lemma {:induction false} HiddenFound(a: Bits, b: Bits, q: Cases)
    ensures !Accepted([], HiddenRule(a, b, q))
  {
    assert ["x"] + ["x"] == ["x", "x"] && ["x"] + [] == ["x"];
    assert !Visible(["x", "x"], "x", 1) by { assert ["x", "x"][0] == "x"; }
    assert !Accepted(["x", "x"], Var("x", 1));
    assert !Accepted(["x", "x"], Test(q.label1)) && !Accepted(["x", "x"], Tests(q)) && !Accepted(["x", "x"], WriteTests(q));
    assert !Accepted(["x"], HidingLet(b, q));
  }

  lemma {:induction false} TestSafe(c: Bits)
    ensures var t := Test(c); Ordered(None, t) && CaptureFree(t) && CallsIndependent(t) && Port1Writes(t) == {}
  {
    ConstantSafe(c);
    var x := Var("x", 1);
    assert Ordered(None, x) && CaptureFree(x) && CallsIndependent(x) && Port1Writes(x) == {};
    assert Assigned(Cst(c)) == {} && CaptureFree(Cst(c));
  }

  lemma {:induction false} TestsSafe(q: Cases)
    ensures var t := Tests(q); Ordered(None, t) && CaptureFree(t) && CallsIndependent(t) && Port1Writes(t) == {}
  {
    hide Test;
    TestSafe(q.label1);
    TestSafe(q.label2);
    ConstantSafe(q.v1);
    ConstantSafe(q.v2);
    ConstantSafe(q.other);
    assert CaptureFree(Cst(q.v1)) && CaptureFree(Cst(q.v2)) && CaptureFree(Cst(q.other));
    var t := LastTest(q);
    assert Ordered(None, t) && CaptureFree(t) && CallsIndependent(t) && Port1Writes(t) == {};
  }

  lemma {:induction false} ConstantBindingSafe(x: string, v: Bits, body: Action)
    requires Ordered(None, body) && CaptureFree(body) && CallsIndependent(body) && Port1Writes(body) == {}
    ensures var l := Bind(x, |v|, Cst(v), body); Ordered(None, l) && CaptureFree(l) && CallsIndependent(l) && Port1Writes(l) == {}
  {
    ConstantSafe(v);
    assert CaptureFree(Cst(v)) && Names(Cst(v)) == {};
  }

  lemma {:induction false} HiddenSafe(a: Bits, b: Bits, q: Cases)
    ensures var rule := HiddenRule(a, b, q); Ordered(None, rule) && CaptureFree(rule) && CallsIndependent(rule) && Port1Writes(rule) == {}
  {
    hide Tests;
    TestsSafe(q);
    var (w, l) := (WriteTests(q), HidingLet(b, q));
    assert Ordered(None, w) && CaptureFree(w) && CallsIndependent(w) && Port1Writes(w) == {};
    ConstantBindingSafe("x", b, w);
    ConstantBindingSafe("x", a, l);
  }

  /** The back end rebuilds a switch from the tests and prints its variable by name,
      without asking whether a later binding hides it: the semantics picks the value for
      a, the emitted code the value for b. */
  lemma {:induction false} HiddenExact(sigma: ExtFun, a: Bits, b: Bits, q: Cases, was: Bits)
    requires |a| == |b| && q.Sized(|a|, |was|)
    ensures FailsOnly(Shown, HiddenRule(a, b, q)) && Ends(HiddenRule(a, b, q), sigma, [was], [q.Pick(a)], [q.Pick(b)])
    ensures Right(HiddenRule(a, b, q), sigma, [was]) <==> q.Pick(a) == q.Pick(b)
  {
    hide RunCode, Exec, Emit, InterpAction, Compiles, InterpCycle, ExecCycle, BackEnd, Classify, Switch;
    hide RuleHistories, Accepted, Ordered, CaptureFree, CallsIndependent, ReadsFresh, Cases.Pick;
    var rule := HiddenRule(a, b, q);
    var ru := RuleOver(1, rule, sigma);
    HiddenHistories(a, b, q);
    HiddenCode(EmptyMap(1), a, b, q);
    assert ru.kinds == [Value] && Plain([was]).rwset == [NoSet];
    HiddenRuns(ru, StartOf([was]), a, b, q);
    assert [was][0 := q.Pick(b)] == [q.Pick(b)];
    HiddenMeans([was], sigma, a, b, q);
    FirstWrite(1, 0, q.Pick(a));
    OnceEnds(rule, sigma, [was], State(LogT([NoSet], [q.Pick(b)]), Plain([was])), map[0 := a, 1 := b, 2 := q.Pick(b)],
             Ok([[Wr(P0, q.Pick(a))]], [], []), [q.Pick(a)], [q.Pick(b)]);
    HiddenText(a, b, q);
    RightExactly(rule, sigma, [was], [q.Pick(a)], [q.Pick(b)]);
  }

  // ----- a field whose new value is read after the struct has been copied -----

  /** `x := a; x := {c with f := x.f}; write0(r0, x)`, where f is the struct's one field. */
  function Replaced(c: Bits): Action {
    Binop(Subst(|c|, 0, |c|, true), Cst(c), Unop(Slc(|c|, 0, |c|), Var("x", 0)))
  }

  function FieldAssign(c: Bits): Action { Assign("x", 0, Replaced(c)) }

  function FieldRule(a: Bits, c: Bits): Action { Bind("x", |a|, Cst(a), Seq(FieldAssign(c), WriteVar)) }

  function PartText(c: Bits): Expr { Op1(Slc(|c|, 0, |c|), Loc(0)) }

  function CopyThenSet(c: Bits): Code {
    Then(Then(Then(Skip, Skip), SetField(Subst(|c|, 0, |c|, true), 0, Lit(c), PartText(c))), Skip)
  }

  lemma {:induction false} FieldCode(h: HistoryMap, a: Bits, c: Bits)
    ensures Emit(h, [], 0, NoTarget, FieldRule(a, c)).code == Then(SetX(a), Then(Then(CopyThenSet(c), WriteX0), Skip))
  {
    hide SetField;
    var scope: Scope := [("x", 0)];
    assert scope + [] == scope;
    assert EmitBinding(h, [], 0, "x", Cst(a)) == Emitted(SetX(a), None, true, 1);
    assert After(h, Cst(a)) == h;
    FieldAssignCode(h, scope, c);
    assert Emit(After(h, FieldAssign(c)), scope, 4, NoTarget, WriteVar).code == WriteX0;
    assert Emit(h, scope, 1, NoTarget, Seq(FieldAssign(c), WriteVar)).code == Then(CopyThenSet(c), WriteX0);
  }

  lemma {:induction false} FieldAssignCode(h: HistoryMap, scope: Scope, c: Bits)
    requires scope == [("x", 0)]
    ensures Emit(h, scope, 1, NoTarget, FieldAssign(c)) == Emitted(CopyThenSet(c), Some(Lit([])), false, 4)
  {
    hide SetField;
    var t := Into(Some("x"), 0, true);
    assert Resolve(scope, "x") == 0;
    assert Emit(h, scope, 1, t, Cst(c)) == Emitted(Skip, Some(Lit(c)), true, 1);
    var h' := After(h, Cst(c));
    assert Emit(h', scope, 3, Into(None, 2, false), Var("x", 0)) == Emitted(Skip, Some(Loc(0)), false, 3);
    assert Emit(h', scope, 2, Into(None, 1, false), Unop(Slc(|c|, 0, |c|), Var("x", 0))) == Emitted(Skip, Some(PartText(c)), false, 3);
    assert Emit(h, scope, 1, t, Replaced(c)) == Emitted(CopyThenSet(c).c1, Some(Loc(0)), true, 4);
  }

  lemma ReplaceAll(c: Bits, x: Bits)
    requires |c| == |x|
    ensures SliceSubst(0, |c|, c, Slice(0, |c|, x)) == x
  {
    assert Slice(0, |c|, x) == x;
  }

  lemma {:induction false} CopyThenSetRuns(ru: Rule, st: State, a: Bits, c: Bits)
    requires ru.Valid() && WellShaped(ru.kinds, st)
    ensures Compiles(ru.kinds, CopyThenSet(c)) && Exec(ru, st, map[0 := a], CopyThenSet(c)) == Running(st, map[0 := c])
  {
    hide RunCode, Exec, Compiles, WellShaped;
    var fn := Subst(|c|, 0, |c|, true);
    var (copy, put) := (Put(0, Lit(c)), Put(0, Op2(fn, Loc(0), PartText(c))));
    ReplaceAll(c, c);
    RunSkip(ru, st, map[0 := a]);
    StepSkip(ru, st, map[0 := a], Skip, st, map[0 := a]);
    RunPut(ru, st, map[0 := a], 0, Lit(c));
    assert map[0 := a][0 := c] == map[0 := c] == map[0 := c][0 := c];
    RunPut(ru, st, map[0 := c], 0, Op2(fn, Loc(0), PartText(c)));
    assert Eval(map[0 := c], Op2(fn, Loc(0), PartText(c))) == c;
    Step(ru, st, map[0 := a], copy, put, st, map[0 := c]);
    Step(ru, st, map[0 := a], Then(Skip, Skip), Then(copy, put), st, map[0 := a]);
    StepSkip(ru, st, map[0 := a], Then(Then(Skip, Skip), Then(copy, put)), st, map[0 := c]);
  }

  lemma {:induction false} FieldMeans(sigma: ExtFun, a: Bits, c: Bits)
    requires |a| == |c|
    ensures Scoped(FieldAssign(c), 1, 1)
    ensures InterpAction([a], sigma, [a], Empty(1), Empty(1), FieldAssign(c)) == Ok(Empty(1), [], [a])
  {
    var (r: RegFile, L: Log, x, part) := ([a], Empty(1), Var("x", 0), Unop(Slc(|c|, 0, |c|), Var("x", 0)));
    ReplaceAll(c, a);
    assert Scoped(x, 1, 1) && Scoped(part, 1, 1) && Scoped(Cst(c), 1, 1) && Scoped(Replaced(c), 1, 1);
    assert InterpAction(r, sigma, [a], L, L, Cst(c)) == Ok(L, c, [a]);
    assert InterpAction(r, sigma, [a], L, L, x) == Ok(L, a, [a]);
    assert InterpAction(r, sigma, [a], L, L, part) == Ok(L, Slice(0, |c|, a), [a]);
    assert InterpAction(r, sigma, [a], L, L, Replaced(c)) == Ok(L, a, [a]);
    assert [a][0 := a] == [a];
  }

  lemma {:induction false} FieldHistories(a: Bits, c: Bits)
    ensures RuleHistories(1, FieldRule(a, c)) == [History(TFalse, TFalse, TTrue, TFalse, TTrue)]
  {
    var h := EmptyMap(1);
    var part := Unop(Slc(|c|, 0, |c|), Var("x", 0));
    assert After(h, Cst(a)) == h && After(h, Cst(c)) == h && After(h, Var("x", 0)) == h && After(h, part) == h;
    assert After(h, Replaced(c)) == h && After(h, FieldAssign(c)) == h;
    WriteVarHistories(h);
    assert After(h, Seq(FieldAssign(c), WriteVar)) == After(h, WriteVar);
  }

  lemma {:induction false} FieldText(a: Bits, c: Bits)
    ensures FailsOnly(Order, FieldRule(a, c))
  {
    hide Accepted, Ordered, CaptureFree, CallsIndependent, Port1Writes, ReadsFresh;
    FieldOrder(a, c);
    FieldNames(a, c);
    FieldSafe(a, c);
    NoRereads(FieldRule(a, c));
    assert forall d :: Meets(d, FieldRule(a, c)) <==> d != Order;
  }

  lemma {:induction false} FieldOrder(a: Bits, c: Bits)
    ensures !Ordered(None, FieldRule(a, c))
  {
    var part := Unop(Slc(|c|, 0, |c|), Var("x", 0));
    assert 0 in Delayed(Var("x", 0)) && 0 in Delayed(part) && !Itself(0, Cst(c));
    assert !Ordered(Some(0), Replaced(c));
    assert !Ordered(None, FieldAssign(c)) && !Ordered(None, Seq(FieldAssign(c), WriteVar));
  }

  lemma {:induction false} FieldNames(a: Bits, c: Bits)
    ensures Accepted([], FieldRule(a, c))
  {
    var (x, part) := (Var("x", 0), Unop(Slc(|c|, 0, |c|), Var("x", 0)));
    assert ["x"] + [] == ["x"] && Visible(["x"], "x", 0);
    assert Accepted(["x"], x) && Accepted(["x"], part) && Accepted(["x"], Cst(c)) && Accepted([], Cst(a));
    assert Accepted(["x"], Replaced(c)) && Accepted(["x"], FieldAssign(c)) && Accepted(["x"], WriteVar);
    assert Accepted(["x"], Seq(FieldAssign(c), WriteVar));
  }

  lemma {:induction false} FieldSafe(a: Bits, c: Bits)
    ensures var rule := FieldRule(a, c); CaptureFree(rule) && CallsIndependent(rule) && Port1Writes(rule) == {}
  {
    var (x, part, body) := (Var("x", 0), Unop(Slc(|c|, 0, |c|), Var("x", 0)), Seq(FieldAssign(c), WriteVar));
    assert CaptureFree(x) && CaptureFree(part) && CaptureFree(Cst(c)) && CaptureFree(Replaced(c)) && CaptureFree(WriteVar);
    assert CallsIndependent(x) && CallsIndependent(part) && CallsIndependent(Cst(c)) && CallsIndependent(Replaced(c)) && CallsIndependent(WriteVar);
    assert Port1Writes(x) == {} && Port1Writes(part) == {} && Port1Writes(Cst(c)) == {} && Port1Writes(Replaced(c)) == {} && Port1Writes(WriteVar) == {};
    assert SpineBinders(Cst(c)) == {} && SpineBinders(Replaced(c)) == {};
    assert CaptureFree(FieldAssign(c)) && CallsIndependent(FieldAssign(c)) && Port1Writes(FieldAssign(c)) == {};
    assert CaptureFree(body) && CallsIndependent(body) && Port1Writes(body) == {};
    assert CaptureFree(Cst(a)) && CallsIndependent(Cst(a)) && Port1Writes(Cst(a)) == {} && "x" !in Names(Cst(a));
  }

  /** The struct is copied into the variable being assigned, and the field's new value is
      then read there: the semantics writes a, the emitted code c. */
  lemma {:induction false} FieldExact(sigma: ExtFun, a: Bits, c: Bits)
    requires |a| == |c|
    ensures FailsOnly(Order, FieldRule(a, c)) && Ends(FieldRule(a, c), sigma, [a], [a], [c])
    ensures Right(FieldRule(a, c), sigma, [a]) <==> a == c
  {
    hide RunCode, Exec, Emit, InterpAction, Compiles, InterpCycle, ExecCycle, BackEnd, Classify, CopyThenSet, RuleHistories;
    hide Accepted, Ordered, CaptureFree, CallsIndependent, ReadsFresh;
    var ru := RuleOver(1, FieldRule(a, c), sigma);
    FieldHistories(a, c);
    FieldCode(EmptyMap(1), a, c);
    assert ru.kinds == [Value] && Plain([a]).rwset == [NoSet];
    CopyThenSetRuns(ru, StartOf([a]), a, c);
    WriteAfter(ru, StartOf([a]), a, CopyThenSet(c), map[0 := c], c);
    assert [a][0 := c] == [c];
    FieldMeans(sigma, a, c);
    WriteAssigned(sigma, a, FieldAssign(c), a);
    FirstWrite(1, 0, a);
    OnceEnds(FieldRule(a, c), sigma, [a], State(LogT([NoSet], [c]), Plain([a])), map[0 := c], Ok([[Wr(P0, a)]], [], []), [a], [c]);
    FieldText(a, c);
    RightExactly(FieldRule(a, c), sigma, [a], [a], [c]);
  }

  // ----- arguments of a call, evaluated from the first to the last -----

  /** `f(write0(r0, v), read1(r0))` */
  const ReadArg := MoreArgs("b", 1, Read(P1, 0), NoArgs)

  function WriteValue(v: Bits): Action { Write(P0, 0, Cst(v)) }

  function CallArgs(v: Bits): Args { MoreArgs("a", 0, WriteValue(v), ReadArg) }

  function CallRule(v: Bits): Action { InternalCall("f", CallArgs(v), Cst([])) }

  function WriteIt(v: Bits): Code { Then(Skip, WriteReg(P0, 0, Lit(v))) }

  const ReadLater := Then(ReadInto(Some(2), P1, 0), Skip)
  const CallFunction := CallInto(None, [Lit([]), Loc(2)], Then(Skip, Put(0, Lit([]))))

  lemma {:induction false} CallRuleCode(h: HistoryMap, v: Bits)
    ensures Emit(h, [], 0, NoTarget, CallRule(v)).code == Then(Then(WriteIt(v), ReadLater), CallFunction)
  {
    hide EmitFunction;
    assert Emit(h, [], 2, Into(None, 1, false), Cst(v)) == Emitted(Skip, Some(Lit(v)), false, 2);
    assert Emit(h, [], 1, Into(None, 0, false), WriteValue(v)) == Emitted(WriteIt(v), Some(Lit([])), false, 2);
    ReadArgCode(After(h, WriteValue(v)));
    assert [Lit([])] + [Loc(2)] == [Lit([]), Loc(2)];
    assert EmitArgs(h, [], 0, CallArgs(v)) == (Then(WriteIt(v), ReadLater), [Lit([]), Loc(2)], 3);
    FunctionCode(AfterArgs(h, CallArgs(v)), v);
  }

  lemma {:induction false} ReadArgCode(h: HistoryMap)
    ensures EmitArgs(h, [], 2, ReadArg) == (ReadLater, [Loc(2)], 3)
  {
    assert Emit(h, [], 3, Into(None, 2, false), Read(P1, 0)) == Emitted(ReadInto(Some(2), P1, 0), Some(Loc(2)), true, 3);
    assert EmitArgs(After(h, Read(P1, 0)), [], 3, NoArgs) == (Skip, [], 3);
    assert [Loc(2)] + [] == [Loc(2)];
  }

  lemma {:induction false} FunctionCode(h: HistoryMap, v: Bits)
    ensures EmitFunction(h, CallArgs(v), Cst([])) == Then(Skip, Put(0, Lit([])))
  {
    hide Emit, Params;
    ConstantCode(h, Params(CallArgs(v), 1), ArgCount(CallArgs(v)) + 1, Into(None, 0, true), []);
  }

  lemma {:induction false} ConstantCode(h: HistoryMap, scope: Scope, k: nat, t: Target, v: Bits)
    ensures Emit(h, scope, k, t, Cst(v)) == Emitted(Skip, Some(Lit(v)), t.Into? && t.declared, k)
  {
  }

  lemma {:induction false} StepCall(ru: Rule, st: State, env: Env, texts: seq<Expr>)
    requires ru.Valid() && WellShaped(ru.kinds, st)
    ensures var c := CallInto(None, texts, Then(Skip, Put(0, Lit([]))));
            Compiles(ru.kinds, c) && Exec(ru, st, env, c) == Running(st, env)
  {
    var f := Then(Skip, Put(0, Lit([])));
    var callee := CalleeEnv(EvalAll(env, texts));
    StepPut(ru, st, callee, 0, Lit([]));
    assert RunCode(ru, st, callee, f) == Running(st, callee[0 := []]);
  }

  lemma {:induction false} CallRunsOn(ru: Rule, st: State, v: Bits)
    requires ru.Valid() && WellShaped(ru.kinds, st) && ru.kinds == [Value] && |st.log.state| == 1
    ensures var (c, st1) := (Then(Then(WriteIt(v), ReadLater), CallFunction), st.(log := st.log.(state := st.log.state[0 := v])));
            && Compiles(ru.kinds, c) && Exec(ru, st, map[], c) == Running(st1, map[2 := v])
  {
    hide RunCode, Exec, Compiles, WellShaped;
    var st1 := st.(log := st.log.(state := st.log.state[0 := v]));
    RunSkip(ru, st, map[]);
    StepWrite(ru, st, map[], P0, 0, Lit(v));
    Step(ru, st, map[], Skip, WriteReg(P0, 0, Lit(v)), st, map[]);
    ExecShaped(ru, st, map[], WriteIt(v));
    StepRead(ru, st1, map[], Some(2), P1, 0);
    assert map[][2 := v] == map[2 := v];
    StepSkip(ru, st1, map[], ReadInto(Some(2), P1, 0), st1, map[2 := v]);
    Step(ru, st, map[], WriteIt(v), ReadLater, st1, map[]);
    StepCall(ru, st1, map[2 := v], [Lit([]), Loc(2)]);
    Step(ru, st, map[], Then(WriteIt(v), ReadLater), CallFunction, st1, map[2 := v]);
  }

  lemma {:induction false} ExecShaped(ru: Rule, st: State, env: Env, c: Code)
    requires ru.Valid() && WellShaped(ru.kinds, st) && Compiles(ru.kinds, c)
    ensures WellShaped(ru.kinds, Exec(ru, st, env, c).st)
  {
  }

  lemma {:induction false} CallRuleMeans(sigma: ExtFun, v: Bits, w: Bits)
    ensures Scoped(CallRule(v), 1, 0)
    ensures InterpAction([w], sigma, [], Empty(1), Empty(1), CallRule(v)) == Failed
  {
    var (r: RegFile, L: Log) := ([w], Empty(1));
    ReadArgMeans(sigma, w);
    assert Scoped(Cst(v), 1, 0) && Scoped(Cst([]), 1, 2) && ScopedArgs(CallArgs(v), 1, 0);
    var o := InterpArgs(r, sigma, [], L, L, ReadArg);
    assert InterpAction(r, sigma, [], L, o.log, Cst(v)) == Ok(o.log, v, []);
    assert HasRead([Rd(P1)] + [], P1) by { assert ([Rd(P1)] + [])[0] == Rd(P1); }
    assert !MayWrite(L, o.log, P0, 0);
    assert InterpAction(r, sigma, [], L, o.log, WriteValue(v)) == Failed;
    assert InterpArgs(r, sigma, [], L, L, CallArgs(v)) == ArgsFailed;
  }

  lemma {:induction false} ReadArgMeans(sigma: ExtFun, w: Bits)
    ensures ScopedArgs(ReadArg, 1, 0)
    ensures var o := InterpArgs([w], sigma, [], Empty(1), Empty(1), ReadArg); o.ArgsOk? && o.log == [[Rd(P1)]] && o.ctx == []
  {
    var (r: RegFile, L: Log) := ([w], Empty(1));
    assert Scoped(Read(P1, 0), 1, 0) && ScopedArgs(NoArgs, 1, 0);
    assert [Rd(P1)] + [] == [Rd(P1)];
    assert Push(L, 0, Rd(P1)) == [[Rd(P1)]];
    assert InterpAction(r, sigma, [], L, L, Read(P1, 0)).log == [[Rd(P1)]];
    assert InterpArgs(r, sigma, [], L, L, NoArgs) == ArgsOk(L, [], []);
  }

  lemma {:induction false} CallHistories(v: Bits)
    ensures RuleHistories(1, CallRule(v)) == [History(TFalse, TTrue, TTrue, TFalse, TTrue)]
  {
    var h := EmptyMap(1);
    var h1 := After(h, WriteValue(v));
    assert After(h, Cst(v)) == h;
    assert h1 == [History(TFalse, TFalse, TTrue, TFalse, TTrue)];
    var h2 := After(h1, Read(P1, 0));
    assert h2 == [History(TFalse, TTrue, TTrue, TFalse, TTrue)];
    assert AfterArgs(h2, NoArgs) == h2 && AfterArgs(h1, ReadArg) == h2;
    assert AfterArgs(h, CallArgs(v)) == AfterArgs(h1, ReadArg);
    assert After(h2, Cst([])) == h2;
  }

  lemma {:induction false} CallText(v: Bits)
    ensures FailsOnly(Calls, CallRule(v))
  {
    hide Accepted, Ordered, CaptureFree, CallsIndependent, Port1Writes, ReadsFresh;
    CallNames(v);
    CallClash(v);
    CallSafe(v);
    NoRereads(CallRule(v));
    assert forall d :: Meets(d, CallRule(v)) <==> d != Calls;
  }

  lemma {:induction false} CallSafe(v: Bits)
    ensures var rule := CallRule(v); Ordered(None, rule) && CaptureFree(rule) && Port1Writes(rule) == {}
  {
    ConstantSafe(v);
    ConstantSafe([]);
    assert Ordered(None, WriteValue(v)) && Ordered(None, Read(P1, 0)) && OrderedArgs(NoArgs) && OrderedArgs(ReadArg);
    assert CaptureFree(Cst(v)) && CaptureFree(WriteValue(v)) && CaptureFree(Read(P1, 0)) && CaptureFree(Cst([]));
    assert ArgsCaptureFree(NoArgs) && ArgsCaptureFree(ReadArg);
    assert Port1Writes(WriteValue(v)) == {} && Port1Writes(Read(P1, 0)) == {} && ArgsPort1Writes(ReadArg) == {};
    assert OrderedArgs(CallArgs(v)) && ArgsCaptureFree(CallArgs(v)) && ArgsPort1Writes(CallArgs(v)) == {};
  }

  lemma {:induction false} CallClash(v: Bits)
    ensures !CallsIndependent(CallRule(v))
  {
    assert (0, Writing(P0)) in AccessSet(WriteValue(v));
    assert (0, Reading(P1)) in AccessSet(Read(P1, 0));
    assert (0, Reading(P1)) in ArgsAccessSet(ReadArg);
    assert !NoClash(AccessSet(WriteValue(v)), ArgsAccessSet(ReadArg));
    assert !ArgsIndependent(CallArgs(v));
  }

  lemma {:induction false} CallNames(v: Bits)
    ensures Accepted([], CallRule(v))
  {
    assert Accepted([], Read(P1, 0)) && AcceptedArgs([], NoArgs) && AcceptedArgs([], ReadArg);
    assert Accepted([], Cst(v)) && Accepted([], WriteValue(v)) && AcceptedArgs([], CallArgs(v));
    assert ArgNames(NoArgs) == [] && ArgNames(ReadArg) == ["b"] && ArgNames(CallArgs(v)) == ["a", "b"] && Distinct(["a", "b"]);
  }

  /** The semantics reads before it writes and the rule fails, keeping w; the emitted code
      writes v before it reads and the rule fires. */
  lemma {:induction false} CallOrderExact(sigma: ExtFun, v: Bits, w: Bits)
    requires |v| == |w|
    ensures FailsOnly(Calls, CallRule(v)) && Ends(CallRule(v), sigma, [w], [w], [v])
    ensures Right(CallRule(v), sigma, [w]) <==> v == w
  {
    hide RunCode, Exec, Emit, InterpAction, Compiles, InterpCycle, ExecCycle, BackEnd, Classify, RuleHistories;
    hide Accepted, Ordered, CaptureFree, CallsIndependent, ReadsFresh;
    var r: RegFile := [w];
    var ru := RuleOver(1, CallRule(v), sigma);
    CallHistories(v);
    CallRuleCode(EmptyMap(1), v);
    assert ru.kinds == [Value] && Plain(r).rwset == [NoSet];
    CallRunsOn(ru, StartOf(r), v);
    assert r[0 := v] == [v];
    CallRuleMeans(sigma, v, w);
    OnceEnds(CallRule(v), sigma, r, State(LogT([NoSet], [v]), Plain(r)), map[2 := v], Failed, [w], [v]);
    CallText(v);
    RightExactly(CallRule(v), sigma, r, [w], [v]);
  }

  // ----- a read at port 1 of what the rule has just written there -----

  /** `write1(r0, v); write0(r1, read1(r0))` */
  function WriteFirst(v: Bits): Action { Write(P1, 0, Cst(v)) }

  const WriteRead := Write(P0, 1, Read(P1, 0))

  function RereadRule(v: Bits): Action { Seq(WriteFirst(v), WriteRead) }

  function WriteFirstCode(v: Bits): Code { Then(Skip, WriteReg(P1, 0, Lit(v))) }

  const WriteReadCode := Then(ReadInto(Some(1), P1, 0), WriteReg(P0, 1, Loc(1)))

  lemma {:induction false} RereadCode(h: HistoryMap, v: Bits)
    ensures Emit(h, [], 0, NoTarget, RereadRule(v)).code == Then(WriteFirstCode(v), WriteReadCode)
  {
    assert Emit(h, [], 1, Into(None, 0, false), Cst(v)) == Emitted(Skip, Some(Lit(v)), false, 1);
    assert Emit(h, [], 0, NoTarget, WriteFirst(v)) == Emitted(WriteFirstCode(v), Some(Lit([])), false, 1);
    WriteReadCodeIs(After(h, WriteFirst(v)));
  }

  lemma {:induction false} WriteReadCodeIs(h: HistoryMap)
    ensures Emit(h, [], 1, NoTarget, WriteRead).code == WriteReadCode
  {
    assert Emit(h, [], 2, Into(None, 1, false), Read(P1, 0)) == Emitted(ReadInto(Some(1), P1, 0), Some(Loc(1)), true, 2);
  }

  lemma {:induction false} RereadRunsOn(ru: Rule, st: State, v: Bits, w: Bits, u: Bits)
    requires ru.Valid() && WellShaped(ru.kinds, st) && ru.kinds == [Value, Value] && st.log.state == [w, u]
    ensures var (c, st1) := (Then(WriteFirstCode(v), WriteReadCode), st.(log := st.log.(state := [v, v])));
            && Compiles(ru.kinds, c) && Exec(ru, st, map[], c) == Running(st1, map[1 := v])
  {
    hide RunCode, Exec, Compiles, WellShaped;
    var st1 := st.(log := st.log.(state := [v, u]));
    assert [w, u][0 := v] == [v, u] && [v, u][1 := v] == [v, v];
    RunSkip(ru, st, map[]);
    StepWrite(ru, st, map[], P1, 0, Lit(v));
    Step(ru, st, map[], Skip, WriteReg(P1, 0, Lit(v)), st, map[]);
    ExecShaped(ru, st, map[], WriteFirstCode(v));
    StepRead(ru, st1, map[], Some(1), P1, 0);
    assert map[][1 := v] == map[1 := v];
    StepWrite(ru, st1, map[1 := v], P0, 1, Loc(1));
    Step(ru, st1, map[], ReadInto(Some(1), P1, 0), WriteReg(P0, 1, Loc(1)), st1, map[1 := v]);
    Step(ru, st, map[], WriteFirstCode(v), WriteReadCode, st1, map[]);
  }

  lemma {:induction false} RereadHistories(v: Bits)
    ensures RuleHistories(2, RereadRule(v)) == [History(TFalse, TTrue, TFalse, TTrue, TTrue), History(TFalse, TFalse, TTrue, TFalse, TTrue)]
  {
    assert After(EmptyMap(2), Cst(v)) == EmptyMap(2);
    var h := After(EmptyMap(2), WriteFirst(v));
    assert h == [History(TFalse, TFalse, TFalse, TTrue, TTrue), EmptyHistory];
    assert After(h, Read(P1, 0)) == [History(TFalse, TTrue, TFalse, TTrue, TTrue), EmptyHistory];
    assert After(h, WriteRead) == [History(TFalse, TTrue, TFalse, TTrue, TTrue), History(TFalse, TFalse, TTrue, TFalse, TTrue)];
  }

  function RereadLog(v: Bits, w: Bits): Log { [[Rd(P1), Wr(P1, v)], [Wr(P0, w)]] }

  lemma {:induction false} WriteFirstMeans(r: RegFile, sigma: ExtFun, v: Bits)
    requires |r| == 2
    ensures InterpAction(r, sigma, [], Empty(2), Empty(2), WriteFirst(v)) == Ok([[Wr(P1, v)], []], [], [])
  {
    assert InterpAction(r, sigma, [], Empty(2), Empty(2), Cst(v)) == Ok(Empty(2), v, []);
    assert [Wr(P1, v)] + [] == [Wr(P1, v)];
    assert Push(Empty(2), 0, Wr(P1, v)) == [[Wr(P1, v)], []];
  }

  lemma {:induction false} WriteReadMeans(r: RegFile, sigma: ExtFun, v: Bits)
    requires |r| == 2
    ensures var l1: Log := [[Wr(P1, v)], []];
            InterpAction(r, sigma, [], Empty(2), l1, WriteRead) == Ok(RereadLog(v, r[0]), [], [])
  {
    var L: Log := Empty(2);
    var l1: Log := [[Wr(P1, v)], []];
    var l2: Log := [[Rd(P1), Wr(P1, v)], []];
    assert l1[0] + L[0] == [Wr(P1, v)];
    assert LatestAt([Wr(P1, v)], P0) == None;
    assert ReadValue(r, L, l1, P1, 0) == r[0];
    assert [Rd(P1)] + [Wr(P1, v)] == l2[0];
    assert Push(l1, 0, Rd(P1)) == l2;
    assert InterpAction(r, sigma, [], L, l1, Read(P1, 0)) == Ok(l2, r[0], []);
    assert [Wr(P0, r[0])] + [] == [Wr(P0, r[0])];
    assert Push(l2, 1, Wr(P0, r[0])) == RereadLog(v, r[0]);
    assert MayWrite(L, l2, P0, 1);
  }

  /** The simulator returns the new value v, the semantics w, the one before the write. */
  lemma {:induction false} RereadExact(sigma: ExtFun, v: Bits, w: Bits, u: Bits)
    requires |v| == |w| == |u|
    ensures FailsOnly(Reread, RereadRule(v)) && Ends(RereadRule(v), sigma, [w, u], [v, w], [v, v])
    ensures Right(RereadRule(v), sigma, [w, u]) <==> v == w
  {
    hide RunCode, Exec, Emit, InterpAction, Compiles, InterpCycle, ExecCycle, BackEnd, Classify, RuleHistories;
    hide Latest, Accepted, Ordered, CaptureFree, CallsIndependent, ReadsFresh;
    var r: RegFile := [w, u];
    var ru := RuleOver(2, RereadRule(v), sigma);
    RereadHistories(v);
    RereadCode(EmptyMap(2), v);
    assert ru.kinds == [Value, Value] && Plain(r).rwset == [NoSet, NoSet];
    RereadRunsOn(ru, StartOf(r), v, w, u);
    RereadMeans(r, sigma, v);
    RereadLatest(v, w);
    OnceEnds(RereadRule(v), sigma, r, State(LogT([NoSet, NoSet], [v, v]), Plain(r)), map[1 := v],
             Ok(RereadLog(v, w), [], []), [v, w], [v, v]);
    RereadText(v);
    RightExactly(RereadRule(v), sigma, r, [v, w], [v, v]);
  }

  lemma {:induction false} RereadText(v: Bits)
    ensures FailsOnly(Reread, RereadRule(v))
  {
    hide Accepted, Ordered, CaptureFree, CallsIndependent, ReadsFresh;
    RereadSafe(v);
    RereadFound(v);
    assert forall d :: Meets(d, RereadRule(v)) <==> d != Reread;
  }

  lemma {:induction false} RereadSafe(v: Bits)
    ensures var rule := RereadRule(v); Accepted([], rule) && Ordered(None, rule) && CaptureFree(rule) && CallsIndependent(rule)
  {
    var (first, read) := (WriteFirst(v), Read(P1, 0));
    ConstantSafe(v);
    assert Accepted([], Cst(v)) && Accepted([], first) && Accepted([], read) && Accepted([], WriteRead);
    assert Ordered(None, first) && Ordered(None, read) && Ordered(None, WriteRead);
    assert CaptureFree(Cst(v)) && CaptureFree(first) && CaptureFree(read) && CaptureFree(WriteRead);
    assert CallsIndependent(first) && CallsIndependent(read) && CallsIndependent(WriteRead);
  }

  lemma {:induction false} RereadFound(v: Bits)
    ensures !ReadsFresh(FirstToLast, {}, RereadRule(v))
  {
    assert Port1Writes(Cst(v)) == {} && Port1Writes(WriteFirst(v)) == {0};
    assert !ReadsFresh(FirstToLast, {} + {0}, Read(P1, 0)) && !ReadsFresh(FirstToLast, {} + {0}, WriteRead);
  }

  lemma {:induction false} RereadLatest(v: Bits, w: Bits)
    ensures Latest(RereadLog(v, w)[0]) == Some(v) && Latest(RereadLog(v, w)[1]) == Some(w)
  {
    assert RereadLog(v, w)[0][1..] == [Wr(P1, v)];
    assert Latest([Wr(P1, v)]) == Some(v) && Latest([Wr(P0, w)]) == Some(w);
  }

  lemma {:induction false} RereadMeans(r: RegFile, sigma: ExtFun, v: Bits)
    requires |r| == 2
    ensures Scoped(RereadRule(v), 2, 0)
    ensures InterpAction(r, sigma, [], Empty(2), Empty(2), RereadRule(v)) == Ok(RereadLog(v, r[0]), [], [])
  {
    assert Scoped(Cst(v), 2, 0) && Scoped(WriteFirst(v), 2, 0) && Scoped(WriteRead, 2, 0);
    WriteFirstMeans(r, sigma, v);
    WriteReadMeans(r, sigma, v);
  }

  /** Read at port 1, exactly: the simulator shows the newest write, so it agrees with
      the semantics exactly when the rule has not written at port 1, or has written
      there the very value that the read should see. */
  lemma {:induction false} Port1ReadExact(pt: Point, h: HistoryMap, l: Log, st: State, idx: nat)
    requires pt.Valid() && pt.At(h, l, st) && idx < |pt.r| && MayRead(pt.L, P1, idx)
    requires LogDiscipline.Disciplined(l[idx] + pt.L[idx])
    ensures st.log.state[idx] == ReadValue(pt.r, pt.L, l, P1, idx) <==>
            (HasWrite(l[idx], P1) ==> LatestAt(l[idx], P1) == Some(ReadValue(pt.r, pt.L, l, P1, idx)))
  {
    assert App(l, pt.L)[idx] == l[idx] + pt.L[idx];
    AppLaws(l[idx], pt.L[idx]);
    LogDiscipline.DisciplinedLatest(l[idx] + pt.L[idx]);
  }

  // ----- rules that fail none of the conditions -----

  /** No variable is assigned once it is bound, nothing is called, and no binding's
      expression binds the same name. */
  predicate BoundOnce(a: Action)
    decreases a
  {
    match a
    case Assign(_, _, _) => false
    case Seq(r1, r2) => BoundOnce(r1) && BoundOnce(r2)
    case Bind(k, _, ex, body) => k !in Binders(ex) && BoundOnce(ex) && BoundOnce(body)
    case If(cond, tbranch, fbranch) => BoundOnce(cond) && BoundOnce(tbranch) && BoundOnce(fbranch)
    case Write(_, _, value) => BoundOnce(value)
    case Unop(_, arg) => BoundOnce(arg)
    case Binop(_, arg1, arg2) => BoundOnce(arg1) && BoundOnce(arg2)
    case ExternalCall(_, arg) => BoundOnce(arg)
    case InternalCall(_, _, _) => false
    case APos(a) => BoundOnce(a)
    case _ => true
  }

  function Binders(a: Action): set<string>
    decreases a
  {
    match a
    case Assign(_, _, ex) => Binders(ex)
    case Seq(r1, r2) => Binders(r1) + Binders(r2)
    case Bind(k, _, ex, body) => {k} + Binders(ex) + Binders(body)
    case If(cond, tbranch, fbranch) => Binders(cond) + Binders(tbranch) + Binders(fbranch)
    case Write(_, _, value) => Binders(value)
    case Unop(_, arg) => Binders(arg)
    case Binop(_, arg1, arg2) => Binders(arg1) + Binders(arg2)
    case ExternalCall(_, arg) => Binders(arg)
    case APos(a) => Binders(a)
    case _ => {}
  }

  lemma {:induction false} NamedIsMentioned(a: Action, k: string)
    requires BoundOnce(a)
    ensures Assigned(a) == {}
    ensures k in Names(a) ==> Mentions(k, a) || k in Binders(a)
    decreases a
  {
    match a
    case Seq(r1, r2) => NamedIsMentioned(r1, k); NamedIsMentioned(r2, k);
    case Bind(_, _, ex, body) => NamedIsMentioned(ex, k); NamedIsMentioned(body, k);
    case If(cond, tbranch, fbranch) => NamedIsMentioned(cond, k); NamedIsMentioned(tbranch, k); NamedIsMentioned(fbranch, k);
    case Write(_, _, value) => NamedIsMentioned(value, k);
    case Unop(_, arg) => NamedIsMentioned(arg, k);
    case Binop(_, arg1, arg2) => NamedIsMentioned(arg1, k); NamedIsMentioned(arg2, k);
    case ExternalCall(_, arg) => NamedIsMentioned(arg, k);
    case APos(a) => NamedIsMentioned(a, k);
    case _ =>
  }

  lemma {:induction false} BoundOnceOrdered(a: Action)
    requires BoundOnce(a)
    ensures Ordered(None, a) && CaptureFree(a) && CallsIndependent(a)
    decreases a
  {
    match a
    case Seq(r1, r2) => BoundOnceOrdered(r1); BoundOnceOrdered(r2);
    case Bind(k, _, ex, body) => BoundOnceOrdered(ex); BoundOnceOrdered(body); NamedIsMentioned(ex, k);
    case If(cond, tbranch, fbranch) => BoundOnceOrdered(cond); BoundOnceOrdered(tbranch); BoundOnceOrdered(fbranch);
    case Write(_, _, value) => BoundOnceOrdered(value);
    case Unop(_, arg) => BoundOnceOrdered(arg);
    case Binop(_, arg1, arg2) => BoundOnceOrdered(arg1); BoundOnceOrdered(arg2); NamedIsMentioned(arg2, "");
    case ExternalCall(_, arg) => BoundOnceOrdered(arg);
    case APos(a) => BoundOnceOrdered(a);
    case _ =>
  }

  /** Every rule that binds each variable once, shows its names, calls nothing and writes
      nothing at port 1 is simulated right, as far as its own text decides. */
  lemma {:induction false} BoundOnceIsSafe(rule: Action)
    requires BoundOnce(rule) && Accepted([], rule) && Port1Writes(rule) == {}
    ensures SafeRule(rule)
  {
    hide Accepted, Ordered, CaptureFree, CallsIndependent, ReadsFresh, BoundOnce, Port1Writes;
    BoundOnceOrdered(rule);
    NoRereads(rule);
  }
}

/** The compact-log interpreter in continuation-passing style, and the weakest
    preconditions it gives when the continuation is a postcondition.  A
    continuation need only accept outcomes that fit the program's context. */
module ContinuationSemantics {
  import opened BitVectors
  import opened Primitives
  import opened Syntax
  import opened CompactSemantics
  import Reference = Semantics

  predicate Fits(o: Outcome, n: nat, vars: nat) { o.Ok? ==> |o.log| == n && |o.ctx| == vars }

  predicate ArgsFit(o: ArgsOutcome, n: nat, vars: nat, count: nat) {
    o.ArgsOk? ==> |o.log| == n && |o.ctx| == vars && |o.vals| == count
  }

  ghost predicate Accepts<A>(k: Outcome --> A, n: nat, vars: nat) {
    forall o :: Fits(o, n, vars) ==> k.requires(o)
  }

  ghost predicate AcceptsArgs<A>(k: ArgsOutcome --> A, n: nat, vars: nat, count: nat) {
    forall o :: ArgsFit(o, n, vars, count) ==> k.requires(o)
  }

  ghost predicate AcceptsLog<A>(k: Log --> A, n: nat) { forall l :: |l| == n ==> k.requires(l) }

  ghost predicate AcceptsRule<A>(k: Option<Log> --> A, n: nat) {
    forall o: Option<Log> :: (o.Some? ==> |o.value| == n) ==> k.requires(o)
  }

  function ActionCps<A>(r: RegFile, sigma: ExtFun, L: Log, a: Action, k: Outcome --> A, G: Ctx, l: Log): A
    requires Scoped(a, |r|, |G|) && |L| == |l| == |r| && Accepts(k, |r|, |G|)
    decreases a
  {
    var n, vars := |r|, |G|;
    match a
    case Fail(_) => k(Failed)
    case Var(_, m) => k(Ok(l, G[m], G))
    case Cst(cst) => k(Ok(l, cst, G))
    case Assign(_, m, ex) =>
      ActionCps(r, sigma, L, ex,
        (o: Outcome) requires Fits(o, n, vars) =>
          if o.Ok? then k(Ok(o.log, [], o.ctx[m := o.val])) else k(Failed),
        G, l)
    case Seq(r1, r2) =>
      ActionCps(r, sigma, L, r1,
        (o: Outcome) requires Fits(o, n, vars) =>
          if o.Ok? then ActionCps(r, sigma, L, r2, k, o.ctx, o.log) else k(Failed),
        G, l)
    case Bind(_, _, ex, body) =>
      ActionCps(r, sigma, L, ex,
        (o: Outcome) requires Fits(o, n, vars) =>
          if o.Ok? then
            ActionCps(r, sigma, L, body,
              (o': Outcome) requires Fits(o', n, vars + 1) =>
                if o'.Ok? then k(Ok(o'.log, o'.val, o'.ctx[1..])) else k(Failed),
              [o.val] + o.ctx, o.log)
          else k(Failed),
        G, l)
    case If(cond, tbranch, fbranch) =>
      ActionCps(r, sigma, L, cond,
        (o: Outcome) requires Fits(o, n, vars) =>
          if o.Ok? then
            if Single(o.val) then ActionCps(r, sigma, L, tbranch, k, o.ctx, o.log)
            else ActionCps(r, sigma, L, fbranch, k, o.ctx, o.log)
          else k(Failed),
        G, l)
    case Read(p, idx) =>
      if MayRead(L, p, idx) then k(Ok(l[idx := AfterRead(l[idx], p)], ReadValue(r, L, l, p, idx), G))
      else k(Failed)
    case Write(p, idx, value) =>
      ActionCps(r, sigma, L, value,
        (o: Outcome) requires Fits(o, n, vars) =>
          if o.Ok? then
            if MayWrite(L, o.log, p, idx) then
              k(Ok(o.log[idx := AfterWrite(o.log[idx], p, o.val)], [], o.ctx))
            else k(Failed)
          else k(Failed),
        G, l)
    case Unop(fn, arg) =>
      ActionCps(r, sigma, L, arg,
        (o: Outcome) requires Fits(o, n, vars) =>
          if o.Ok? then k(Ok(o.log, Sigma1(fn, o.val), o.ctx)) else k(Failed),
        G, l)
    case Binop(fn, arg1, arg2) =>
      ActionCps(r, sigma, L, arg1,
        (o: Outcome) requires Fits(o, n, vars) =>
          if o.Ok? then
            ActionCps(r, sigma, L, arg2,
              (o': Outcome) requires Fits(o', n, vars) =>
                if o'.Ok? then k(Ok(o'.log, Sigma2(fn, o.val, o'.val), o'.ctx)) else k(Failed),
              o.ctx, o.log)
          else k(Failed),
        G, l)
    case ExternalCall(ext, arg) =>
      ActionCps(r, sigma, L, arg,
        (o: Outcome) requires Fits(o, n, vars) =>
          if o.Ok? then k(Ok(o.log, sigma(ext, o.val), o.ctx)) else k(Failed),
        G, l)
    case InternalCall(_, args, body) =>
      ArgsCps(r, sigma, L, args,
        (o: ArgsOutcome) requires ArgsFit(o, n, vars, ArgCount(args)) =>
          if o.ArgsOk? then
            ActionCps(r, sigma, L, body,
              (o': Outcome) requires Fits(o', n, ArgCount(args)) =>
                if o'.Ok? then k(Ok(o'.log, o'.val, o.ctx)) else k(Failed),
              o.vals, o.log)
          else k(Failed),
        G, l)
    case APos(a) => ActionCps(r, sigma, L, a, k, G, l)
  }

  function ArgsCps<A>(r: RegFile, sigma: ExtFun, L: Log, args: Args, k: ArgsOutcome --> A, G: Ctx, l: Log): A
    requires ScopedArgs(args, |r|, |G|) && |L| == |l| == |r| && AcceptsArgs(k, |r|, |G|, ArgCount(args))
    decreases args
  {
    var n, vars := |r|, |G|;
    match args
    case NoArgs => k(ArgsOk(l, [], G))
    case MoreArgs(_, _, arg, rest) =>
      ArgsCps(r, sigma, L, rest,
        (o: ArgsOutcome) requires ArgsFit(o, n, vars, ArgCount(rest)) =>
          if o.ArgsOk? then
            ActionCps(r, sigma, L, arg,
              (o': Outcome) requires Fits(o', n, vars) =>
                if o'.Ok? then k(ArgsOk(o'.log, [o'.val] + o.vals, o'.ctx)) else k(ArgsFailed),
              o.ctx, o.log)
          else k(ArgsFailed),
        G, l)
  }

  function RuleCps<A>(r: RegFile, sigma: ExtFun, rl: Action, k: Option<Log> --> A, L: Log): A
    requires Scoped(rl, |r|, 0) && |L| == |r| && AcceptsRule(k, |r|)
  {
    var n := |r|;
    ActionCps(r, sigma, L, rl,
      (o: Outcome) requires Fits(o, n, 0) => if o.Ok? then k(Some(o.log)) else k(None),
      [], Empty(|r|))
  }

  function SchedulerCps<A>(r: RegFile, sigma: ExtFun, rules: Rules, s: Scheduler, k: Log --> A, L: Log): A
    requires ScopedRules(rules, |r|) && |L| == |r| && AcceptsLog(k, |r|)
    decreases s
  {
    var n := |r|;
    match s
    case Done => k(L)
    case Cons(rl, s) =>
      RuleCps(r, sigma, rules(rl),
        (o: Option<Log>) requires o.Some? ==> |o.value| == n =>
          if o.Some? then SchedulerCps(r, sigma, rules, s, k, App(o.value, L))
          else SchedulerCps(r, sigma, rules, s, k, L),
        L)
    case Try(rl, s1, s2) =>
      RuleCps(r, sigma, rules(rl),
        (o: Option<Log>) requires o.Some? ==> |o.value| == n =>
          if o.Some? then SchedulerCps(r, sigma, rules, s1, k, App(o.value, L))
          else SchedulerCps(r, sigma, rules, s2, k, L),
        L)
    case SPos(s) => SchedulerCps(r, sigma, rules, s, k, L)
  }

  function CycleCps<A>(sigma: ExtFun, rules: Rules, s: Scheduler, r: RegFile, k: RegFile -> A): A
    requires ScopedRules(rules, |r|)
  {
    SchedulerCps(r, sigma, rules, s, (L: Log) requires |L| == |r| => k(CommitUpdate(r, L)), Empty(|r|))
  }

  // ----- applying a continuation after the direct interpreter is the same -----

  lemma {:induction false} ActionCpsCorrect<A>(r: RegFile, sigma: ExtFun, L: Log, a: Action, k: Outcome --> A, G: Ctx, l: Log)
    requires Scoped(a, |r|, |G|) && |L| == |l| == |r| && Accepts(k, |r|, |G|)
    ensures ActionCps(r, sigma, L, a, k, G, l) == k(InterpAction(r, sigma, G, L, l, a))
    decreases a
  {
    var n, vars := |r|, |G|;
    match a
    case Assign(_, m, ex) =>
      var k' := (o: Outcome) requires Fits(o, n, vars) =>
        if o.Ok? then k(Ok(o.log, [], o.ctx[m := o.val])) else k(Failed);
      ActionCpsCorrect(r, sigma, L, ex, k', G, l);
    case Seq(r1, r2) =>
      var k' := (o: Outcome) requires Fits(o, n, vars) =>
        if o.Ok? then ActionCps(r, sigma, L, r2, k, o.ctx, o.log) else k(Failed);
      ActionCpsCorrect(r, sigma, L, r1, k', G, l);
      var o := InterpAction(r, sigma, G, L, l, r1);
      if o.Ok? { ActionCpsCorrect(r, sigma, L, r2, k, o.ctx, o.log); }
    case Bind(_, _, ex, body) =>
      var k'' := (o': Outcome) requires Fits(o', n, vars + 1) =>
        if o'.Ok? then k(Ok(o'.log, o'.val, o'.ctx[1..])) else k(Failed);
      var k' := (o: Outcome) requires Fits(o, n, vars) =>
        if o.Ok? then ActionCps(r, sigma, L, body, k'', [o.val] + o.ctx, o.log) else k(Failed);
      ActionCpsCorrect(r, sigma, L, ex, k', G, l);
      var o := InterpAction(r, sigma, G, L, l, ex);
      if o.Ok? { ActionCpsCorrect(r, sigma, L, body, k'', [o.val] + o.ctx, o.log); }
    case If(cond, tbranch, fbranch) =>
      var k' := (o: Outcome) requires Fits(o, n, vars) =>
        if o.Ok? then
          if Single(o.val) then ActionCps(r, sigma, L, tbranch, k, o.ctx, o.log)
          else ActionCps(r, sigma, L, fbranch, k, o.ctx, o.log)
        else k(Failed);
      ActionCpsCorrect(r, sigma, L, cond, k', G, l);
      var o := InterpAction(r, sigma, G, L, l, cond);
      if o.Ok? { ActionCpsCorrect(r, sigma, L, if Single(o.val) then tbranch else fbranch, k, o.ctx, o.log); }
    case Write(p, idx, value) =>
      var k' := (o: Outcome) requires Fits(o, n, vars) =>
        if o.Ok? then
          if MayWrite(L, o.log, p, idx) then
            k(Ok(o.log[idx := AfterWrite(o.log[idx], p, o.val)], [], o.ctx))
          else k(Failed)
        else k(Failed);
      ActionCpsCorrect(r, sigma, L, value, k', G, l);
    case Unop(fn, arg) =>
      var k' := (o: Outcome) requires Fits(o, n, vars) =>
        if o.Ok? then k(Ok(o.log, Sigma1(fn, o.val), o.ctx)) else k(Failed);
      ActionCpsCorrect(r, sigma, L, arg, k', G, l);
    case Binop(_, _, _) => BinopCpsCorrect(r, sigma, L, a, k, G, l);
    case ExternalCall(ext, arg) =>
      var k' := (o: Outcome) requires Fits(o, n, vars) =>
        if o.Ok? then k(Ok(o.log, sigma(ext, o.val), o.ctx)) else k(Failed);
      ActionCpsCorrect(r, sigma, L, arg, k', G, l);
    case InternalCall(_, _, _) => CallCpsCorrect(r, sigma, L, a, k, G, l);
    case APos(a) => ActionCpsCorrect(r, sigma, L, a, k, G, l);
    case _ =>
  }

  lemma {:induction false} BinopCpsCorrect<A>(r: RegFile, sigma: ExtFun, L: Log, a: Action, k: Outcome --> A, G: Ctx, l: Log)
    requires a.Binop? && Scoped(a, |r|, |G|) && |L| == |l| == |r| && Accepts(k, |r|, |G|)
    ensures ActionCps(r, sigma, L, a, k, G, l) == k(InterpAction(r, sigma, G, L, l, a))
    decreases a, 0
  {
    var n, vars := |r|, |G|;
    var fn, arg1, arg2 := a.fn2, a.arg1, a.arg2;
    var k' := (o: Outcome) requires Fits(o, n, vars) =>
      if o.Ok? then
        ActionCps(r, sigma, L, arg2,
          (o': Outcome) requires Fits(o', n, vars) =>
            if o'.Ok? then k(Ok(o'.log, Sigma2(fn, o.val, o'.val), o'.ctx)) else k(Failed),
          o.ctx, o.log)
      else k(Failed);
    ActionCpsCorrect(r, sigma, L, arg1, k', G, l);
    var o := InterpAction(r, sigma, G, L, l, arg1);
    if o.Ok? {
      var k'' := (o': Outcome) requires Fits(o', n, vars) =>
        if o'.Ok? then k(Ok(o'.log, Sigma2(fn, o.val, o'.val), o'.ctx)) else k(Failed);
      ActionCpsCorrect(r, sigma, L, arg2, k'', o.ctx, o.log);
    }
  }

  lemma {:induction false} CallCpsCorrect<A>(r: RegFile, sigma: ExtFun, L: Log, a: Action, k: Outcome --> A, G: Ctx, l: Log)
    requires a.InternalCall? && Scoped(a, |r|, |G|) && |L| == |l| == |r| && Accepts(k, |r|, |G|)
    ensures ActionCps(r, sigma, L, a, k, G, l) == k(InterpAction(r, sigma, G, L, l, a))
    decreases a, 0
  {
    var n, vars := |r|, |G|;
    var args, body := a.args, a.body;
    var k' := (o: ArgsOutcome) requires ArgsFit(o, n, vars, ArgCount(args)) =>
      if o.ArgsOk? then
        ActionCps(r, sigma, L, body,
          (o': Outcome) requires Fits(o', n, ArgCount(args)) =>
            if o'.Ok? then k(Ok(o'.log, o'.val, o.ctx)) else k(Failed),
          o.vals, o.log)
      else k(Failed);
    ArgsCpsCorrect(r, sigma, L, args, k', G, l);
    var o := InterpArgs(r, sigma, G, L, l, args);
    if o.ArgsOk? {
      var k'' := (o': Outcome) requires Fits(o', n, ArgCount(args)) =>
        if o'.Ok? then k(Ok(o'.log, o'.val, o.ctx)) else k(Failed);
      ActionCpsCorrect(r, sigma, L, body, k'', o.vals, o.log);
    }
  }

  lemma {:induction false} ArgsCpsCorrect<A>(r: RegFile, sigma: ExtFun, L: Log, args: Args, k: ArgsOutcome --> A, G: Ctx, l: Log)
    requires ScopedArgs(args, |r|, |G|) && |L| == |l| == |r| && AcceptsArgs(k, |r|, |G|, ArgCount(args))
    ensures ArgsCps(r, sigma, L, args, k, G, l) == k(InterpArgs(r, sigma, G, L, l, args))
    decreases args
  {
    var n, vars := |r|, |G|;
    match args
    case NoArgs =>
    case MoreArgs(_, _, arg, rest) =>
      var k' := (o: ArgsOutcome) requires ArgsFit(o, n, vars, ArgCount(rest)) =>
        if o.ArgsOk? then
          ActionCps(r, sigma, L, arg,
            (o': Outcome) requires Fits(o', n, vars) =>
              if o'.Ok? then k(ArgsOk(o'.log, [o'.val] + o.vals, o'.ctx)) else k(ArgsFailed),
            o.ctx, o.log)
        else k(ArgsFailed);
      ArgsCpsCorrect(r, sigma, L, rest, k', G, l);
      var o := InterpArgs(r, sigma, G, L, l, rest);
      if o.ArgsOk? {
        var k'' := (o': Outcome) requires Fits(o', n, vars) =>
          if o'.Ok? then k(ArgsOk(o'.log, [o'.val] + o.vals, o'.ctx)) else k(ArgsFailed);
        ActionCpsCorrect(r, sigma, L, arg, k'', o.ctx, o.log);
      }
  }

  lemma RuleCpsCorrect<A>(r: RegFile, sigma: ExtFun, rl: Action, k: Option<Log> --> A, L: Log)
    requires Scoped(rl, |r|, 0) && |L| == |r| && AcceptsRule(k, |r|)
    ensures RuleCps(r, sigma, rl, k, L) == k(InterpRule(r, sigma, L, rl))
  {
    var n := |r|;
    var k' := (o: Outcome) requires Fits(o, n, 0) => if o.Ok? then k(Some(o.log)) else k(None);
    ActionCpsCorrect(r, sigma, L, rl, k', [], Empty(|r|));
  }

  lemma {:induction false} SchedulerCpsCorrect<A>(r: RegFile, sigma: ExtFun, rules: Rules, s: Scheduler, k: Log --> A, L: Log)
    requires ScopedRules(rules, |r|) && |L| == |r| && AcceptsLog(k, |r|)
    ensures SchedulerCps(r, sigma, rules, s, k, L) == k(InterpScheduler(r, sigma, rules, L, s))
    decreases s
  {
    var n := |r|;
    match s
    case Done =>
    case Cons(rl, s) =>
      var k' := (o: Option<Log>) requires o.Some? ==> |o.value| == n =>
        if o.Some? then SchedulerCps(r, sigma, rules, s, k, App(o.value, L))
        else SchedulerCps(r, sigma, rules, s, k, L);
      RuleCpsCorrect(r, sigma, rules(rl), k', L);
      var o := InterpRule(r, sigma, L, rules(rl));
      SchedulerCpsCorrect(r, sigma, rules, s, k, if o.Some? then App(o.value, L) else L);
    case Try(rl, s1, s2) =>
      var k' := (o: Option<Log>) requires o.Some? ==> |o.value| == n =>
        if o.Some? then SchedulerCps(r, sigma, rules, s1, k, App(o.value, L))
        else SchedulerCps(r, sigma, rules, s2, k, L);
      RuleCpsCorrect(r, sigma, rules(rl), k', L);
      var o := InterpRule(r, sigma, L, rules(rl));
      if o.Some? {
        SchedulerCpsCorrect(r, sigma, rules, s1, k, App(o.value, L));
      } else {
        SchedulerCpsCorrect(r, sigma, rules, s2, k, L);
      }
    case SPos(s) => SchedulerCpsCorrect(r, sigma, rules, s, k, L);
  }

  /** The continuation-passing cycle applied to `k` is `k` of the direct cycle. */
  lemma CycleCpsCorrect<A>(sigma: ExtFun, rules: Rules, s: Scheduler, r: RegFile, k: RegFile -> A)
    requires ScopedRules(rules, |r|)
    ensures CycleCps(sigma, rules, s, r, k) == k(InterpCycle(sigma, rules, s, r))
  {
    var k' := (L: Log) requires |L| == |r| => k(CommitUpdate(r, L));
    SchedulerCpsCorrect(r, sigma, rules, s, k', Empty(|r|));
  }

  // ----- weakest preconditions -----

  predicate WpAction(r: RegFile, sigma: ExtFun, L: Log, a: Action, post: Outcome -> bool, G: Ctx, l: Log)
    requires Scoped(a, |r|, |G|) && |L| == |l| == |r|
  {
    ActionCps(r, sigma, L, a, post, G, l)
  }

  predicate WpCycle(sigma: ExtFun, rules: Rules, s: Scheduler, r: RegFile, post: RegFile -> bool)
    requires ScopedRules(rules, |r|)
  {
    CycleCps(sigma, rules, s, r, post)
  }

  lemma WpActionCorrect(r: RegFile, sigma: ExtFun, L: Log, a: Action, post: Outcome -> bool, G: Ctx, l: Log)
    requires Scoped(a, |r|, |G|) && |L| == |l| == |r|
    ensures WpAction(r, sigma, L, a, post, G, l) <==> post(InterpAction(r, sigma, G, L, l, a))
  {
    ActionCpsCorrect(r, sigma, L, a, post, G, l);
  }

  /** The weakest precondition of a cycle holds exactly when the postcondition
      holds of the registers the reference semantics ends in. */
  lemma WpCycleCorrect(sigma: ExtFun, rules: Rules, s: Scheduler, r: RegFile, post: RegFile -> bool)
    requires ScopedRules(rules, |r|)
    ensures WpCycle(sigma, rules, s, r, post) <==> post(Reference.InterpCycle(sigma, rules, s, r))
  {
    CycleCpsCorrect(sigma, rules, s, r, post);
    CyclesAgree(sigma, rules, s, r);
  }
}

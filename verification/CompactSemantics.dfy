/** The same language run over compact logs: one record per register instead of a
    list of events.  The record does not keep port 0 reads exactly. */
module CompactSemantics {
  import opened BitVectors
  import opened Primitives
  import opened Syntax
  import Lists = Logs
  import Ref = Semantics
  import LogDiscipline

  type Ctx = Ref.Ctx
  type ExtFun = Ref.ExtFun
  type RegFile = Lists.RegFile

  datatype Entry = LE(lread0: bool, lread1: bool, lwrite0: Option<Bits>, lwrite1: Option<Bits>)

  type Log = seq<Entry>

  const EMPTY_ENTRY := LE(false, false, None, None)

  function Empty(n: nat): Log { seq(n, i => EMPTY_ENTRY) }

  function EntryApp(e1: Entry, e2: Entry): Entry {
    LE(e1.lread0 || e2.lread0, e1.lread1 || e2.lread1,
       Lists.OptOr(e1.lwrite0, e2.lwrite0), Lists.OptOr(e1.lwrite1, e2.lwrite1))
  }

  function App(l1: Log, l2: Log): Log
    requires |l1| == |l2|
  {
    seq(|l1|, i requires 0 <= i < |l1| => EntryApp(l1[i], l2[i]))
  }

  predicate MayRead(L: Log, p: Port, idx: nat)
    requires idx < |L|
  {
    match p
    case P0 => L[idx].lwrite0.None? && L[idx].lwrite1.None?
    case P1 => L[idx].lwrite1.None?
  }

  predicate MayWrite(L: Log, l: Log, p: Port, idx: nat)
    requires idx < |L| == |l|
  {
    match p
    case P0 =>
      !L[idx].lread1 && L[idx].lwrite0.None? && L[idx].lwrite1.None? &&
      !l[idx].lread1 && l[idx].lwrite0.None? && l[idx].lwrite1.None?
    case P1 => L[idx].lwrite1.None? && l[idx].lwrite1.None?
  }

  /** The record after a read.  At port 1 the source copies `lread1` into `lread0`. */
  function AfterRead(e: Entry, p: Port): Entry {
    match p
    case P0 => LE(true, e.lread1, e.lwrite0, e.lwrite1)
    case P1 => LE(e.lread1, true, e.lwrite0, e.lwrite1)
  }

  /** The record after a write; `lread0` is overwritten here too. */
  function AfterWrite(e: Entry, p: Port, v: Bits): Entry {
    match p
    case P0 => LE(e.lread1, e.lread1, Some(v), e.lwrite1)
    case P1 => LE(e.lread1, e.lread1, e.lwrite0, Some(v))
  }

  function ReadValue(r: RegFile, L: Log, l: Log, p: Port, idx: nat): Bits
    requires idx < |r| == |L| == |l|
  {
    match p
    case P0 => r[idx]
    case P1 =>
      if l[idx].lwrite0.Some? then l[idx].lwrite0.value
      else if L[idx].lwrite0.Some? then L[idx].lwrite0.value
      else r[idx]
  }

  function CommitUpdate(r: RegFile, log: Log): RegFile
    requires |r| == |log|
  {
    seq(|r|, k requires 0 <= k < |r| =>
      if log[k].lwrite1.Some? then log[k].lwrite1.value
      else if log[k].lwrite0.Some? then log[k].lwrite0.value
      else r[k])
  }

  datatype Outcome = Failed | Ok(log: Log, val: Bits, ctx: Ctx)

  datatype ArgsOutcome = ArgsFailed | ArgsOk(log: Log, vals: Ctx, ctx: Ctx)

  function InterpAction(r: RegFile, sigma: ExtFun, G: Ctx, L: Log, l: Log, a: Action): (res: Outcome)
    requires Scoped(a, |r|, |G|) && |L| == |l| == |r|
    ensures res.Ok? ==> |res.log| == |r| && |res.ctx| == |G|
    decreases a
  {
    match a
    case Fail(_) => Failed
    case Var(_, m) => Ok(l, G[m], G)
    case Cst(cst) => Ok(l, cst, G)
    case Assign(_, m, ex) =>
      (match InterpAction(r, sigma, G, L, l, ex)
       case Failed => Failed
       case Ok(l, v, G) => Ok(l, [], G[m := v]))
    case Seq(r1, r2) =>
      (match InterpAction(r, sigma, G, L, l, r1)
       case Failed => Failed
       case Ok(l, _, G) => InterpAction(r, sigma, G, L, l, r2))
    case Bind(_, _, ex, body) =>
      (match InterpAction(r, sigma, G, L, l, ex)
       case Failed => Failed
       case Ok(l, v, G) =>
         match InterpAction(r, sigma, [v] + G, L, l, body)
         case Failed => Failed
         case Ok(l, v, G) => Ok(l, v, G[1..]))
    case If(cond, tbranch, fbranch) =>
      (match InterpAction(r, sigma, G, L, l, cond)
       case Failed => Failed
       case Ok(l, c, G) =>
         if Single(c) then InterpAction(r, sigma, G, L, l, tbranch)
         else InterpAction(r, sigma, G, L, l, fbranch))
    case Read(p, idx) =>
      if MayRead(L, p, idx) then
        Ok(l[idx := AfterRead(l[idx], p)], ReadValue(r, L, l, p, idx), G)
      else Failed
    case Write(p, idx, value) =>
      (match InterpAction(r, sigma, G, L, l, value)
       case Failed => Failed
       case Ok(l, v, G) =>
         if MayWrite(L, l, p, idx) then Ok(l[idx := AfterWrite(l[idx], p, v)], [], G) else Failed)
    case Unop(fn, arg) =>
      (match InterpAction(r, sigma, G, L, l, arg)
       case Failed => Failed
       case Ok(l, v, G) => Ok(l, Sigma1(fn, v), G))
    case Binop(fn, arg1, arg2) =>
      (match InterpAction(r, sigma, G, L, l, arg1)
       case Failed => Failed
       case Ok(l, v1, G) =>
         match InterpAction(r, sigma, G, L, l, arg2)
         case Failed => Failed
         case Ok(l, v2, G) => Ok(l, Sigma2(fn, v1, v2), G))
    case ExternalCall(ext, arg) =>
      (match InterpAction(r, sigma, G, L, l, arg)
       case Failed => Failed
       case Ok(l, v, G) => Ok(l, sigma(ext, v), G))
    case InternalCall(_, args, body) =>
      (match InterpArgs(r, sigma, G, L, l, args)
       case ArgsFailed => Failed
       case ArgsOk(l, vals, G) =>
         match InterpAction(r, sigma, vals, L, l, body)
         case Failed => Failed
         case Ok(l, v, _) => Ok(l, v, G))
    case APos(a) => InterpAction(r, sigma, G, L, l, a)
  }

  function InterpArgs(r: RegFile, sigma: ExtFun, G: Ctx, L: Log, l: Log, args: Args): (res: ArgsOutcome)
    requires ScopedArgs(args, |r|, |G|) && |L| == |l| == |r|
    ensures res.ArgsOk? ==> |res.log| == |r| && |res.ctx| == |G| && |res.vals| == ArgCount(args)
    decreases args
  {
    match args
    case NoArgs => ArgsOk(l, [], G)
    case MoreArgs(_, _, arg, rest) =>
      match InterpArgs(r, sigma, G, L, l, rest)
      case ArgsFailed => ArgsFailed
      case ArgsOk(l, vals, G) =>
        match InterpAction(r, sigma, G, L, l, arg)
        case Failed => ArgsFailed
        case Ok(l, v, G) => ArgsOk(l, [v] + vals, G)
  }

  function InterpRule(r: RegFile, sigma: ExtFun, L: Log, rl: Action): (res: Option<Log>)
    requires Scoped(rl, |r|, 0) && |L| == |r|
    ensures res.Some? ==> |res.value| == |r|
  {
    match InterpAction(r, sigma, [], L, Empty(|r|), rl)
    case Failed => None
    case Ok(l, _, _) => Some(l)
  }

  function InterpScheduler(r: RegFile, sigma: ExtFun, rules: Rules, L: Log, s: Scheduler): (res: Log)
    requires ScopedRules(rules, |r|) && |L| == |r|
    ensures |res| == |r|
    decreases s
  {
    match s
    case Done => L
    case Cons(rl, s) =>
      (match InterpRule(r, sigma, L, rules(rl))
       case Some(l) => InterpScheduler(r, sigma, rules, App(l, L), s)
       case None => InterpScheduler(r, sigma, rules, L, s))
    case Try(rl, s1, s2) =>
      (match InterpRule(r, sigma, L, rules(rl))
       case Some(l) => InterpScheduler(r, sigma, rules, App(l, L), s1)
       case None => InterpScheduler(r, sigma, rules, L, s2))
    case SPos(s) => InterpScheduler(r, sigma, rules, L, s)
  }

  function InterpCycle(sigma: ExtFun, rules: Rules, s: Scheduler, r: RegFile): RegFile
    requires ScopedRules(rules, |r|)
  {
    CommitUpdate(r, InterpScheduler(r, sigma, rules, Empty(|r|), s))
  }

  // ----- agreement with list logs -----

  /** The record agrees with the list on everything but `lread0`. */
  predicate Represents(e: Entry, es: Lists.RLog) {
    && e.lread1 == Lists.HasRead(es, P1)
    && e.lwrite0 == Lists.LatestAt(es, P0)
    && e.lwrite1 == Lists.LatestAt(es, P1)
  }

  predicate RepresentsLog(c: Log, l: Lists.Log) {
    |c| == |l| && forall i :: 0 <= i < |c| ==> Represents(c[i], l[i])
  }

  /** Both runs fail, or both succeed with the same value, the same context and
      logs that agree. */
  predicate Agree(c: Outcome, o: Ref.Outcome) {
    c.Ok? == o.Ok? &&
    (c.Ok? ==> c.val == o.val && c.ctx == o.ctx && RepresentsLog(c.log, o.log))
  }

  predicate ArgsAgree(c: ArgsOutcome, o: Ref.ArgsOutcome) {
    c.ArgsOk? == o.ArgsOk? &&
    (c.ArgsOk? ==> c.vals == o.vals && c.ctx == o.ctx && RepresentsLog(c.log, o.log))
  }

  lemma {:induction false} ChecksAgree(cL: Log, cl: Log, L: Lists.Log, l: Lists.Log, p: Port, idx: nat)
    requires RepresentsLog(cL, L) && RepresentsLog(cl, l) && idx < |L| == |l|
    ensures MayRead(cL, p, idx) == Lists.MayRead(L, p, idx)
    ensures MayWrite(cL, cl, p, idx) == Lists.MayWrite(L, l, p, idx)
  {
    Lists.AppLaws(l[idx], L[idx]);
  }

  lemma ReadsAgree(r: RegFile, cL: Log, cl: Log, L: Lists.Log, l: Lists.Log, p: Port, idx: nat)
    requires RepresentsLog(cL, L) && RepresentsLog(cl, l) && idx < |L| == |l| == |r|
    ensures ReadValue(r, cL, cl, p, idx) == Ref.ReadValue(r, L, l, p, idx)
    ensures RepresentsLog(cl[idx := AfterRead(cl[idx], p)], Lists.Push(l, idx, Lists.Rd(p)))
  {
    Lists.AppLaws(l[idx], L[idx]);
    Lists.PushLaws(Lists.Rd(p), l[idx]);
  }

  lemma WritesAgree(cl: Log, l: Lists.Log, p: Port, idx: nat, v: Bits)
    requires RepresentsLog(cl, l) && idx < |l|
    ensures RepresentsLog(cl[idx := AfterWrite(cl[idx], p, v)], Lists.Push(l, idx, Lists.Wr(p, v)))
  {
    Lists.PushLaws(Lists.Wr(p, v), l[idx]);
  }

  lemma {:induction false} ActionsAgree(r: RegFile, sigma: ExtFun, G: Ctx, cL: Log, cl: Log, L: Lists.Log, l: Lists.Log, a: Action)
    requires Scoped(a, |r|, |G|) && |L| == |l| == |r|
    requires RepresentsLog(cL, L) && RepresentsLog(cl, l)
    ensures Agree(InterpAction(r, sigma, G, cL, cl, a), Ref.InterpAction(r, sigma, G, L, l, a))
    decreases a
  {
    match a
    case Assign(_, _, ex) => ActionsAgree(r, sigma, G, cL, cl, L, l, ex);
    case Seq(r1, r2) =>
      ActionsAgree(r, sigma, G, cL, cl, L, l, r1);
      var c, o := InterpAction(r, sigma, G, cL, cl, r1), Ref.InterpAction(r, sigma, G, L, l, r1);
      if o.Ok? { ActionsAgree(r, sigma, o.ctx, cL, c.log, L, o.log, r2); }
    case Bind(_, _, ex, body) =>
      ActionsAgree(r, sigma, G, cL, cl, L, l, ex);
      var c, o := InterpAction(r, sigma, G, cL, cl, ex), Ref.InterpAction(r, sigma, G, L, l, ex);
      if o.Ok? { ActionsAgree(r, sigma, [o.val] + o.ctx, cL, c.log, L, o.log, body); }
    case If(cond, tbranch, fbranch) =>
      ActionsAgree(r, sigma, G, cL, cl, L, l, cond);
      var c, o := InterpAction(r, sigma, G, cL, cl, cond), Ref.InterpAction(r, sigma, G, L, l, cond);
      if o.Ok? { ActionsAgree(r, sigma, o.ctx, cL, c.log, L, o.log, if Single(o.val) then tbranch else fbranch); }
    case Read(p, idx) =>
      ChecksAgree(cL, cl, L, l, p, idx);
      ReadsAgree(r, cL, cl, L, l, p, idx);
    case Write(p, idx, value) =>
      ActionsAgree(r, sigma, G, cL, cl, L, l, value);
      var c, o := InterpAction(r, sigma, G, cL, cl, value), Ref.InterpAction(r, sigma, G, L, l, value);
      if o.Ok? {
        ChecksAgree(cL, c.log, L, o.log, p, idx);
        WritesAgree(c.log, o.log, p, idx, o.val);
      }
    case Unop(_, arg) => ActionsAgree(r, sigma, G, cL, cl, L, l, arg);
    case Binop(_, arg1, arg2) =>
      ActionsAgree(r, sigma, G, cL, cl, L, l, arg1);
      var c, o := InterpAction(r, sigma, G, cL, cl, arg1), Ref.InterpAction(r, sigma, G, L, l, arg1);
      if o.Ok? { ActionsAgree(r, sigma, o.ctx, cL, c.log, L, o.log, arg2); }
    case ExternalCall(_, arg) => ActionsAgree(r, sigma, G, cL, cl, L, l, arg);
    case InternalCall(_, args, body) =>
      ArgumentsAgree(r, sigma, G, cL, cl, L, l, args);
      var c, o := InterpArgs(r, sigma, G, cL, cl, args), Ref.InterpArgs(r, sigma, G, L, l, args);
      if o.ArgsOk? { ActionsAgree(r, sigma, o.vals, cL, c.log, L, o.log, body); }
    case APos(a) => ActionsAgree(r, sigma, G, cL, cl, L, l, a);
    case _ =>
  }

  lemma {:induction false} ArgumentsAgree(r: RegFile, sigma: ExtFun, G: Ctx, cL: Log, cl: Log, L: Lists.Log, l: Lists.Log, args: Args)
    requires ScopedArgs(args, |r|, |G|) && |L| == |l| == |r|
    requires RepresentsLog(cL, L) && RepresentsLog(cl, l)
    ensures ArgsAgree(InterpArgs(r, sigma, G, cL, cl, args), Ref.InterpArgs(r, sigma, G, L, l, args))
    decreases args
  {
    match args
    case NoArgs =>
    case MoreArgs(_, _, arg, rest) =>
      ArgumentsAgree(r, sigma, G, cL, cl, L, l, rest);
      var c, o := InterpArgs(r, sigma, G, cL, cl, rest), Ref.InterpArgs(r, sigma, G, L, l, rest);
      if o.ArgsOk? { ActionsAgree(r, sigma, o.ctx, cL, c.log, L, o.log, arg); }
  }

  lemma AppAgrees(cl: Log, cL: Log, l: Lists.Log, L: Lists.Log)
    requires RepresentsLog(cl, l) && RepresentsLog(cL, L) && |l| == |L|
    ensures RepresentsLog(App(cl, cL), Lists.App(l, L))
  {
    forall i | 0 <= i < |l| ensures Represents(App(cl, cL)[i], Lists.App(l, L)[i]) {
      Lists.AppLaws(l[i], L[i]);
    }
  }

  lemma RulesAgree(r: RegFile, sigma: ExtFun, cL: Log, L: Lists.Log, rl: Action)
    requires Scoped(rl, |r|, 0) && |L| == |r| && RepresentsLog(cL, L)
    ensures var c, o := InterpRule(r, sigma, cL, rl), Ref.InterpRule(r, sigma, L, rl);
            c.Some? == o.Some? && (c.Some? ==> RepresentsLog(App(c.value, cL), Lists.App(o.value, L)))
  {
    ActionsAgree(r, sigma, [], cL, Empty(|r|), L, Lists.Empty(|r|), rl);
    var c, o := InterpRule(r, sigma, cL, rl), Ref.InterpRule(r, sigma, L, rl);
    if c.Some? { AppAgrees(c.value, cL, o.value, L); }
  }

  lemma {:induction false} SchedulersAgree(r: RegFile, sigma: ExtFun, rules: Rules, cL: Log, L: Lists.Log, s: Scheduler)
    requires ScopedRules(rules, |r|) && |L| == |r| && RepresentsLog(cL, L)
    ensures RepresentsLog(InterpScheduler(r, sigma, rules, cL, s), Ref.InterpScheduler(r, sigma, rules, L, s))
    decreases s
  {
    match s
    case Done =>
    case Cons(rl, s) =>
      RulesAgree(r, sigma, cL, L, rules(rl));
      var c, o := InterpRule(r, sigma, cL, rules(rl)), Ref.InterpRule(r, sigma, L, rules(rl));
      if o.Some? {
        SchedulersAgree(r, sigma, rules, App(c.value, cL), Lists.App(o.value, L), s);
      } else {
        SchedulersAgree(r, sigma, rules, cL, L, s);
      }
    case Try(rl, s1, s2) =>
      RulesAgree(r, sigma, cL, L, rules(rl));
      var c, o := InterpRule(r, sigma, cL, rules(rl)), Ref.InterpRule(r, sigma, L, rules(rl));
      if o.Some? {
        SchedulersAgree(r, sigma, rules, App(c.value, cL), Lists.App(o.value, L), s1);
      } else {
        SchedulersAgree(r, sigma, rules, cL, L, s2);
      }
    case SPos(s) => SchedulersAgree(r, sigma, rules, cL, L, s);
  }

  /** Compact logs give the same registers after every cycle of every program. */
  lemma CyclesAgree(sigma: ExtFun, rules: Rules, s: Scheduler, r: RegFile)
    requires ScopedRules(rules, |r|)
    ensures InterpCycle(sigma, rules, s, r) == Ref.InterpCycle(sigma, rules, s, r)
  {
    SchedulersAgree(r, sigma, rules, Empty(|r|), Lists.Empty(|r|), s);
    LogDiscipline.CycleDisciplined(r, sigma, rules, s);
    var c, l := InterpScheduler(r, sigma, rules, Empty(|r|), s), Ref.InterpScheduler(r, sigma, rules, Lists.Empty(|r|), s);
    forall k | 0 <= k < |r| ensures CommitUpdate(r, c)[k] == Lists.CommitUpdate(r, l)[k] {
      assert Represents(c[k], l[k]);
      LogDiscipline.DisciplinedLatest(l[k]);
    }
  }

  // ----- the flag that is not kept exactly -----

  /** What `lread0` is for the log of one rule: up after a read at port 0, and after any
      other access a copy of `lread1` as it was before. */
  predicate Read0Flag(es: Lists.RLog) { es != [] && (es[0] == Lists.Rd(P0) || Lists.HasRead(es[1..], P1)) }

  predicate KeepsRead0(e: Entry, es: Lists.RLog) { Represents(e, es) && e.lread0 == Read0Flag(es) }

  /** Every access keeps it so. */
  lemma {:induction false} Read0Exact(e: Entry, es: Lists.RLog, p: Port, v: Bits)
    requires KeepsRead0(e, es)
    ensures KeepsRead0(AfterRead(e, p), [Lists.Rd(p)] + es) && KeepsRead0(AfterWrite(e, p, v), [Lists.Wr(p, v)] + es)
    ensures KeepsRead0(EMPTY_ENTRY, [])
  {
    Lists.PushLaws(Lists.Rd(p), es);
    Lists.PushLaws(Lists.Wr(p, v), es);
    assert ([Lists.Rd(p)] + es)[1..] == es && ([Lists.Wr(p, v)] + es)[1..] == es;
  }
}

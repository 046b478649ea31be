/** The reference semantics over typed values: the same protocol of logs, with values
    of any type in contexts, logs and registers.  The source has it twice as well, for
    typed actions and for lowered ones. */
module TypedSemantics {
  import opened Types
  import opened TypedSyntax
  import Low = Syntax

  type Option<+T> = Low.Option<T>

  datatype Entry = Rd(port: Low.Port) | Wr(port: Low.Port, val: Val)

  type RLog = seq<Entry>
  type Log = seq<RLog>
  type RegFile = seq<Val>
  type Ctx = seq<Val>
  type ExtFun = (nat, Val) -> Val

  function Empty(n: nat): Log { seq(n, i => []) }

  function App(l1: Log, l2: Log): Log
    requires |l1| == |l2|
  {
    seq(|l1|, i requires 0 <= i < |l1| => l1[i] + l2[i])
  }

  function Push(l: Log, idx: nat, e: Entry): Log
    requires idx < |l|
  {
    l[idx := [e] + l[idx]]
  }

  predicate HasRead(es: RLog, p: Low.Port) { Rd(p) in es }

  predicate HasWrite(es: RLog, p: Low.Port) { exists e | e in es :: e.Wr? && e.port == p }

  function LatestAt(es: RLog, p: Low.Port): Option<Val> {
    if es == [] then Low.None
    else if es[0].Wr? && es[0].port == p then Low.Some(es[0].val)
    else LatestAt(es[1..], p)
  }

  function Latest(es: RLog): Option<Val> {
    if es == [] then Low.None
    else if es[0].Wr? then Low.Some(es[0].val)
    else Latest(es[1..])
  }

  function Default<T>(x: Option<T>, d: T): T { if x.Some? then x.value else d }

  predicate MayRead(schedLog: RLog, p: Low.Port) {
    match p
    case P0 => !HasWrite(schedLog, Low.P0) && !HasWrite(schedLog, Low.P1)
    case P1 => !HasWrite(schedLog, Low.P1)
  }

  /** `es` is the rule log on top of the scheduler log. */
  predicate MayWrite(es: RLog, p: Low.Port) {
    match p
    case P0 => !HasRead(es, Low.P1) && !HasWrite(es, Low.P0) && !HasWrite(es, Low.P1)
    case P1 => !HasWrite(es, Low.P1)
  }

  function ReadValue(r: RegFile, L: Log, l: Log, p: Low.Port, idx: nat): Val
    requires idx < |r| == |L| == |l|
  {
    match p
    case P0 => r[idx]
    case P1 => Default(LatestAt(l[idx] + L[idx], Low.P0), r[idx])
  }

  function CommitUpdate(r: RegFile, log: Log): RegFile
    requires |r| == |log|
  {
    seq(|r|, k requires 0 <= k < |r| => Default(Latest(log[k]), r[k]))
  }

  datatype Outcome = Failed | Ok(log: Log, val: Val, ctx: Ctx)

  datatype ArgsOutcome = ArgsFailed | ArgsOk(log: Log, vals: Ctx, ctx: Ctx)

  predicate Scoped(a: Action, n: nat, vars: nat) { Low.Scoped(Erase(a), n, vars) }

  predicate ScopedArgs(args: Args, n: nat, vars: nat) { Low.ScopedArgs(EraseArgs(args), n, vars) }

  function InterpAction(r: RegFile, sigma: ExtFun, G: Ctx, L: Log, l: Log, a: Action): (res: Outcome)
    requires Scoped(a, |r|, |G|) && |L| == |l| == |r|
    ensures res.Ok? ==> |res.log| == |r| && |res.ctx| == |G|
    decreases a
  {
    match a
    case Fail(_) => Failed
    case Var(_, m) => Ok(l, G[m], G)
    case Cst(cst) => Ok(l, cst, G)
    case Assign(_, m, ex) =>
      (match InterpAction(r, sigma, G, L, l, ex)
       case Failed => Failed
       case Ok(l, v, G) => Ok(l, BitsVal([]), G[m := v]))
    case Seq(r1, r2) =>
      (match InterpAction(r, sigma, G, L, l, r1)
       case Failed => Failed
       case Ok(l, _, G) => InterpAction(r, sigma, G, L, l, r2))
    case Bind(_, _, ex, body) =>
      (match InterpAction(r, sigma, G, L, l, ex)
       case Failed => Failed
       case Ok(l, v, G) =>
         match InterpAction(r, sigma, [v] + G, L, l, body)
         case Failed => Failed
         case Ok(l, v, G) => Ok(l, v, G[1..]))
    case If(cond, tbranch, fbranch) =>
      (match InterpAction(r, sigma, G, L, l, cond)
       case Failed => Failed
       case Ok(l, c, G) =>
         if c == BitsVal([true]) then InterpAction(r, sigma, G, L, l, tbranch)
         else InterpAction(r, sigma, G, L, l, fbranch))
    case Read(p, idx) =>
      if MayRead(L[idx], p) then Ok(Push(l, idx, Rd(p)), ReadValue(r, L, l, p, idx), G) else Failed
    case Write(p, idx, value) =>
      (match InterpAction(r, sigma, G, L, l, value)
       case Failed => Failed
       case Ok(l, v, G) =>
         if MayWrite(l[idx] + L[idx], p) then Ok(Push(l, idx, Wr(p, v)), BitsVal([]), G) else Failed)
    case Unop(fn, arg) =>
      (match InterpAction(r, sigma, G, L, l, arg)
       case Failed => Failed
       case Ok(l, v, G) => Ok(l, fn.Apply(v), G))
    case Binop(fn, arg1, arg2) =>
      (match InterpAction(r, sigma, G, L, l, arg1)
       case Failed => Failed
       case Ok(l, v1, G) =>
         match InterpAction(r, sigma, G, L, l, arg2)
         case Failed => Failed
         case Ok(l, v2, G) => Ok(l, fn.Apply(v1, v2), G))
    case ExternalCall(ext, arg) =>
      (match InterpAction(r, sigma, G, L, l, arg)
       case Failed => Failed
       case Ok(l, v, G) => Ok(l, sigma(ext, v), G))
    case InternalCall(_, args, body) =>
      (match InterpArgs(r, sigma, G, L, l, args)
       case ArgsFailed => Failed
       case ArgsOk(l, vals, G) =>
         match InterpAction(r, sigma, vals, L, l, body)
         case Failed => Failed
         case Ok(l, v, _) => Ok(l, v, G))
    case APos(a) => InterpAction(r, sigma, G, L, l, a)
  }

  /** Arguments are evaluated from the last to the first. */
  function InterpArgs(r: RegFile, sigma: ExtFun, G: Ctx, L: Log, l: Log, args: Args): (res: ArgsOutcome)
    requires ScopedArgs(args, |r|, |G|) && |L| == |l| == |r|
    ensures res.ArgsOk? ==> |res.log| == |r| && |res.ctx| == |G| && |res.vals| == Low.ArgCount(EraseArgs(args))
    decreases args
  {
    match args
    case NoArgs => ArgsOk(l, [], G)
    case MoreArgs(_, _, arg, rest) =>
      match InterpArgs(r, sigma, G, L, l, rest)
      case ArgsFailed => ArgsFailed
      case ArgsOk(l, vals, G) =>
        match InterpAction(r, sigma, G, L, l, arg)
        case Failed => ArgsFailed
        case Ok(l, v, G) => ArgsOk(l, [v] + vals, G)
  }

  ghost predicate ScopedRules(rules: Rules, n: nat) { forall rl :: Scoped(rules(rl), n, 0) }

  function InterpRule(r: RegFile, sigma: ExtFun, L: Log, rl: Action): (res: Option<Log>)
    requires Scoped(rl, |r|, 0) && |L| == |r|
    ensures res.Some? ==> |res.value| == |r|
  {
    match InterpAction(r, sigma, [], L, Empty(|r|), rl)
    case Failed => Low.None
    case Ok(l, _, _) => Low.Some(l)
  }

  function InterpScheduler(r: RegFile, sigma: ExtFun, rules: Rules, L: Log, s: Low.Scheduler): (res: Log)
    requires ScopedRules(rules, |r|) && |L| == |r|
    ensures |res| == |r|
    decreases s
  {
    match s
    case Done => L
    case Cons(rl, s) =>
      (match InterpRule(r, sigma, L, rules(rl))
       case Some(l) => InterpScheduler(r, sigma, rules, App(l, L), s)
       case None => InterpScheduler(r, sigma, rules, L, s))
    case Try(rl, s1, s2) =>
      (match InterpRule(r, sigma, L, rules(rl))
       case Some(l) => InterpScheduler(r, sigma, rules, App(l, L), s1)
       case None => InterpScheduler(r, sigma, rules, L, s2))
    case SPos(s) => InterpScheduler(r, sigma, rules, L, s)
  }

  function InterpCycle(sigma: ExtFun, rules: Rules, s: Low.Scheduler, r: RegFile): (res: RegFile)
    requires ScopedRules(rules, |r|)
    ensures |res| == |r|
  {
    CommitUpdate(r, InterpScheduler(r, sigma, rules, Empty(|r|), s))
  }

  function InterpCycles(sigma: ExtFun, rules: Rules, s: Low.Scheduler, r: RegFile, k: nat): (res: RegFile)
    requires ScopedRules(rules, |r|)
    ensures |res| == |r|
    decreases k
  {
    if k == 0 then r else InterpCycles(sigma, rules, s, InterpCycle(sigma, rules, s, r), k - 1)
  }
}

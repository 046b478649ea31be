/** The reference semantics: rules run against the log of the cycle so far, and
    the scheduler's final log is committed to the registers at the end. */
module Semantics {
  import opened BitVectors
  import opened Primitives
  import opened Syntax
  import opened Logs

  type Ctx = seq<Bits>
  type ExtFun = (nat, Bits) -> Bits

  datatype Outcome = Failed | Ok(log: Log, val: Bits, ctx: Ctx)

  datatype ArgsOutcome = ArgsFailed | ArgsOk(log: Log, vals: Ctx, ctx: Ctx)

  /** Runs `a` in context `G`, with `L` the scheduler's log and `l` the rule's. */
  function InterpAction(r: RegFile, sigma: ExtFun, G: Ctx, L: Log, l: Log, a: Action): (res: Outcome)
    requires Scoped(a, |r|, |G|) && |L| == |l| == |r|
    ensures res.Ok? ==> |res.log| == |r| && |res.ctx| == |G|
    decreases a
  {
    match a
    case Fail(_) => Failed
    case Var(_, m) => Ok(l, G[m], G)
    case Cst(cst) => Ok(l, cst, G)
    case Assign(_, m, ex) =>
      (match InterpAction(r, sigma, G, L, l, ex)
       case Failed => Failed
       case Ok(l, v, G) => Ok(l, [], G[m := v]))
    case Seq(r1, r2) =>
      (match InterpAction(r, sigma, G, L, l, r1)
       case Failed => Failed
       case Ok(l, _, G) => InterpAction(r, sigma, G, L, l, r2))
    case Bind(_, _, ex, body) =>
      (match InterpAction(r, sigma, G, L, l, ex)
       case Failed => Failed
       case Ok(l, v, G) =>
         match InterpAction(r, sigma, [v] + G, L, l, body)
         case Failed => Failed
         case Ok(l, v, G) => Ok(l, v, G[1..]))
    case If(cond, tbranch, fbranch) =>
      (match InterpAction(r, sigma, G, L, l, cond)
       case Failed => Failed
       case Ok(l, c, G) =>
         if Single(c) then InterpAction(r, sigma, G, L, l, tbranch)
         else InterpAction(r, sigma, G, L, l, fbranch))
    case Read(p, idx) =>
      if MayRead(L, p, idx) then Ok(Push(l, idx, Rd(p)), ReadValue(r, L, l, p, idx), G) else Failed
    case Write(p, idx, value) =>
      (match InterpAction(r, sigma, G, L, l, value)
       case Failed => Failed
       case Ok(l, v, G) =>
         if MayWrite(L, l, p, idx) then Ok(Push(l, idx, Wr(p, v)), [], G) else Failed)
    case Unop(fn, arg) =>
      (match InterpAction(r, sigma, G, L, l, arg)
       case Failed => Failed
       case Ok(l, v, G) => Ok(l, Sigma1(fn, v), G))
    case Binop(fn, arg1, arg2) =>
      (match InterpAction(r, sigma, G, L, l, arg1)
       case Failed => Failed
       case Ok(l, v1, G) =>
         match InterpAction(r, sigma, G, L, l, arg2)
         case Failed => Failed
         case Ok(l, v2, G) => Ok(l, Sigma2(fn, v1, v2), G))
    case ExternalCall(ext, arg) =>
      (match InterpAction(r, sigma, G, L, l, arg)
       case Failed => Failed
       case Ok(l, v, G) => Ok(l, sigma(ext, v), G))
    case InternalCall(_, args, body) =>
      (match InterpArgs(r, sigma, G, L, l, args)
       case ArgsFailed => Failed
       case ArgsOk(l, vals, G) =>
         match InterpAction(r, sigma, vals, L, l, body)
         case Failed => Failed
         case Ok(l, v, _) => Ok(l, v, G))
    case APos(a) => InterpAction(r, sigma, G, L, l, a)
  }

  /** Arguments are evaluated from the last to the first. */
  function InterpArgs(r: RegFile, sigma: ExtFun, G: Ctx, L: Log, l: Log, args: Args): (res: ArgsOutcome)
    requires ScopedArgs(args, |r|, |G|) && |L| == |l| == |r|
    ensures res.ArgsOk? ==> |res.log| == |r| && |res.ctx| == |G| && |res.vals| == ArgCount(args)
    decreases args
  {
    match args
    case NoArgs => ArgsOk(l, [], G)
    case MoreArgs(_, _, arg, rest) =>
      match InterpArgs(r, sigma, G, L, l, rest)
      case ArgsFailed => ArgsFailed
      case ArgsOk(l, vals, G) =>
        match InterpAction(r, sigma, G, L, l, arg)
        case Failed => ArgsFailed
        case Ok(l, v, G) => ArgsOk(l, [v] + vals, G)
  }

  /** Port 0 sees the start of the cycle, port 1 the latest write at port 0. */
  function ReadValue(r: RegFile, L: Log, l: Log, p: Port, idx: nat): Bits
    requires idx < |r| == |L| == |l|
  {
    match p
    case P0 => r[idx]
    case P1 => Default(LatestAt(l[idx] + L[idx], P0), r[idx])
  }

  function InterpRule(r: RegFile, sigma: ExtFun, L: Log, rl: Action): (res: Option<Log>)
    requires Scoped(rl, |r|, 0) && |L| == |r|
    ensures res.Some? ==> |res.value| == |r|
  {
    match InterpAction(r, sigma, [], L, Empty(|r|), rl)
    case Failed => None
    case Ok(l, _, _) => Some(l)
  }

  function InterpScheduler(r: RegFile, sigma: ExtFun, rules: Rules, L: Log, s: Scheduler): (res: Log)
    requires ScopedRules(rules, |r|) && |L| == |r|
    ensures |res| == |r|
    decreases s
  {
    match s
    case Done => L
    case Cons(rl, s) =>
      (match InterpRule(r, sigma, L, rules(rl))
       case Some(l) => InterpScheduler(r, sigma, rules, App(l, L), s)
       case None => InterpScheduler(r, sigma, rules, L, s))
    case Try(rl, s1, s2) =>
      (match InterpRule(r, sigma, L, rules(rl))
       case Some(l) => InterpScheduler(r, sigma, rules, App(l, L), s1)
       case None => InterpScheduler(r, sigma, rules, L, s2))
    case SPos(s) => InterpScheduler(r, sigma, rules, L, s)
  }

  /** One cycle of the machine. */
  function InterpCycle(sigma: ExtFun, rules: Rules, s: Scheduler, r: RegFile): (res: RegFile)
    requires ScopedRules(rules, |r|)
    ensures |res| == |r|
  {
    CommitUpdate(r, InterpScheduler(r, sigma, rules, Empty(|r|), s))
  }

  /** `k` cycles of the machine. */
  function InterpCycles(sigma: ExtFun, rules: Rules, s: Scheduler, r: RegFile, k: nat): (res: RegFile)
    requires ScopedRules(rules, |r|)
    ensures |res| == |r|
    decreases k
  {
    if k == 0 then r else InterpCycles(sigma, rules, s, InterpCycle(sigma, rules, s, r), k - 1)
  }
}

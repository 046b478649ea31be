/** Actions, rules and schedulers.  The typed language and the lowered one share
    this syntax: a lowered action is one without internal calls.  Variables are
    positions in the context (position 0 is the innermost binding) and registers
    are numbered. */
module Syntax {
  import opened BitVectors
  import opened Primitives

  datatype Option<+T> = None | Some(value: T)

  datatype Port = P0 | P1

  datatype Action =
    | Fail(sz: nat)
    | Var(name: string, m: nat)
    | Cst(cst: Bits)
    | Assign(name: string, m: nat, ex: Action)
    | Seq(r1: Action, r2: Action)
    | Bind(name: string, sz: nat, ex: Action, body: Action)
    | If(cond: Action, tbranch: Action, fbranch: Action)
    | Read(port: Port, idx: nat)
    | Write(port: Port, idx: nat, value: Action)
    | Unop(fn1: Fbits1, arg: Action)
    | Binop(fn2: Fbits2, arg1: Action, arg2: Action)
    | ExternalCall(ext: nat, arg: Action)
    | InternalCall(fname: string, args: Args, body: Action)
    | APos(a: Action)

  /** The arguments of an internal call, each with the parameter it is bound to. */
  datatype Args = NoArgs | MoreArgs(name: string, sz: nat, arg: Action, rest: Args)

  type RuleName = string

  datatype Scheduler =
    | Done
    | Cons(rl: RuleName, s: Scheduler)
    | Try(rl: RuleName, s1: Scheduler, s2: Scheduler)
    | SPos(s: Scheduler)

  type Rules = RuleName -> Action

  function ArgCount(args: Args): nat {
    match args
    case NoArgs => 0
    case MoreArgs(_, _, _, rest) => 1 + ArgCount(rest)
  }

  // ----- scoping: what the source's indexed types guarantee about positions -----

  /** Registers are among the first `n` and variables among the first `vars`. */
  predicate Scoped(a: Action, n: nat, vars: nat)
    decreases a
  {
    match a
    case Fail(_) => true
    case Var(_, m) => m < vars
    case Cst(_) => true
    case Assign(_, m, ex) => m < vars && Scoped(ex, n, vars)
    case Seq(r1, r2) => Scoped(r1, n, vars) && Scoped(r2, n, vars)
    case Bind(_, _, ex, body) => Scoped(ex, n, vars) && Scoped(body, n, vars + 1)
    case If(cond, tbranch, fbranch) =>
      Scoped(cond, n, vars) && Scoped(tbranch, n, vars) && Scoped(fbranch, n, vars)
    case Read(_, idx) => idx < n
    case Write(_, idx, value) => idx < n && Scoped(value, n, vars)
    case Unop(_, arg) => Scoped(arg, n, vars)
    case Binop(_, arg1, arg2) => Scoped(arg1, n, vars) && Scoped(arg2, n, vars)
    case ExternalCall(_, arg) => Scoped(arg, n, vars)
    case InternalCall(_, args, body) => ScopedArgs(args, n, vars) && Scoped(body, n, ArgCount(args))
    case APos(a) => Scoped(a, n, vars)
  }

  predicate ScopedArgs(args: Args, n: nat, vars: nat)
    decreases args
  {
    match args
    case NoArgs => true
    case MoreArgs(_, _, arg, rest) => Scoped(arg, n, vars) && ScopedArgs(rest, n, vars)
  }

  ghost predicate ScopedRules(rules: Rules, n: nat) {
    forall rl :: Scoped(rules(rl), n, 0)
  }

  // ----- widths: what the source's indexed types guarantee about sizes -----

  datatype ExtSig = ExtSig(arg: nat, ret: nat)

  /** Register widths and external function signatures. */
  datatype Sigs = Sigs(regs: seq<nat>, exts: seq<ExtSig>)

  /** `a` has result width `sz` in a context of widths `sig`. */
  predicate Typed(g: Sigs, sig: seq<nat>, sz: nat, a: Action)
    decreases a
  {
    match a
    case Fail(sz') => sz == sz'
    case Var(_, m) => m < |sig| && sig[m] == sz
    case Cst(cst) => |cst| == sz
    case Assign(_, m, ex) => sz == 0 && m < |sig| && Typed(g, sig, sig[m], ex)
    case Seq(r1, r2) => Typed(g, sig, 0, r1) && Typed(g, sig, sz, r2)
    case Bind(_, sz', ex, body) => Typed(g, sig, sz', ex) && Typed(g, [sz'] + sig, sz, body)
    case If(cond, tbranch, fbranch) =>
      Typed(g, sig, 1, cond) && Typed(g, sig, sz, tbranch) && Typed(g, sig, sz, fbranch)
    case Read(_, idx) => idx < |g.regs| && sz == g.regs[idx]
    case Write(_, idx, value) => sz == 0 && idx < |g.regs| && Typed(g, sig, g.regs[idx], value)
    case Unop(fn, arg) => sz == fn.Ret() && Typed(g, sig, fn.Arg(), arg)
    case Binop(fn, arg1, arg2) =>
      sz == fn.Ret() && Typed(g, sig, fn.Arg1(), arg1) && Typed(g, sig, fn.Arg2(), arg2)
    case ExternalCall(ext, arg) =>
      ext < |g.exts| && sz == g.exts[ext].ret && Typed(g, sig, g.exts[ext].arg, arg)
    case InternalCall(_, args, body) => TypedArgs(g, sig, args) && Typed(g, ArgSizes(args), sz, body)
    case APos(a) => Typed(g, sig, sz, a)
  }

  predicate TypedArgs(g: Sigs, sig: seq<nat>, args: Args)
    decreases args
  {
    match args
    case NoArgs => true
    case MoreArgs(_, sz, arg, rest) => Typed(g, sig, sz, arg) && TypedArgs(g, sig, rest)
  }

  function ArgSizes(args: Args): (r: seq<nat>)
    ensures |r| == ArgCount(args)
  {
    match args
    case NoArgs => []
    case MoreArgs(_, sz, _, rest) => [sz] + ArgSizes(rest)
  }

  ghost predicate TypedRules(g: Sigs, rules: Rules) {
    forall rl :: Typed(g, [], 0, rules(rl))
  }

  lemma {:induction false} TypedIsScoped(g: Sigs, sig: seq<nat>, sz: nat, a: Action)
    requires Typed(g, sig, sz, a)
    ensures Scoped(a, |g.regs|, |sig|)
    decreases a
  {
    match a
    case Assign(_, m, ex) => TypedIsScoped(g, sig, sig[m], ex);
    case Seq(r1, r2) => TypedIsScoped(g, sig, 0, r1); TypedIsScoped(g, sig, sz, r2);
    case Bind(_, sz', ex, body) => TypedIsScoped(g, sig, sz', ex); TypedIsScoped(g, [sz'] + sig, sz, body);
    case If(cond, tbranch, fbranch) =>
      TypedIsScoped(g, sig, 1, cond);
      TypedIsScoped(g, sig, sz, tbranch);
      TypedIsScoped(g, sig, sz, fbranch);
    case Write(_, idx, value) => TypedIsScoped(g, sig, g.regs[idx], value);
    case Unop(fn, arg) => TypedIsScoped(g, sig, fn.Arg(), arg);
    case Binop(fn, arg1, arg2) =>
      TypedIsScoped(g, sig, fn.Arg1(), arg1);
      TypedIsScoped(g, sig, fn.Arg2(), arg2);
    case ExternalCall(ext, arg) => TypedIsScoped(g, sig, g.exts[ext].arg, arg);
    case InternalCall(_, args, body) =>
      TypedArgsAreScoped(g, sig, args);
      TypedIsScoped(g, ArgSizes(args), sz, body);
    case APos(a) => TypedIsScoped(g, sig, sz, a);
    case _ =>
  }

  lemma {:induction false} TypedArgsAreScoped(g: Sigs, sig: seq<nat>, args: Args)
    requires TypedArgs(g, sig, args)
    ensures ScopedArgs(args, |g.regs|, |sig|)
    decreases args
  {
    match args
    case NoArgs =>
    case MoreArgs(_, sz, arg, rest) =>
      TypedIsScoped(g, sig, sz, arg);
      TypedArgsAreScoped(g, sig, rest);
  }

  lemma TypedRulesAreScoped(g: Sigs, rules: Rules)
    requires TypedRules(g, rules)
    ensures ScopedRules(rules, |g.regs|)
  {
    forall rl ensures Scoped(rules(rl), |g.regs|, 0) {
      TypedIsScoped(g, [], 0, rules(rl));
    }
  }

  /** Lowered actions: no internal calls. */
  predicate Lowered(a: Action) {
    match a
    case Assign(_, _, ex) => Lowered(ex)
    case Seq(r1, r2) => Lowered(r1) && Lowered(r2)
    case Bind(_, _, ex, body) => Lowered(ex) && Lowered(body)
    case If(cond, tbranch, fbranch) => Lowered(cond) && Lowered(tbranch) && Lowered(fbranch)
    case Write(_, _, value) => Lowered(value)
    case Unop(_, arg) => Lowered(arg)
    case Binop(_, arg1, arg2) => Lowered(arg1) && Lowered(arg2)
    case ExternalCall(_, arg) => Lowered(arg)
    case InternalCall(_, _, _) => false
    case APos(a) => Lowered(a)
    case _ => true
  }

  ghost predicate LoweredRules(rules: Rules) {
    forall rl :: Lowered(rules(rl))
  }
}

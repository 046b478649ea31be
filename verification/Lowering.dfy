/** Lowering: internal calls become nested bindings around the callee's body, whose
    variables are renumbered to make room for the arguments. */
module Lowering {
  import opened BitVectors
  import opened Primitives
  import opened Syntax
  import opened Logs
  import opened Semantics

  /** Makes room for `n` variables at position `at`; positions are dropped. */
  function Infix(a: Action, at: nat, n: nat): (res: Action)
    requires Lowered(a)
    ensures Lowered(res)
    decreases a
  {
    match a
    case Fail(sz) => Fail(sz)
    case Var(k, m) => Var(k, if m < at then m else m + n)
    case Cst(cst) => Cst(cst)
    case Assign(k, m, ex) => Assign(k, if m < at then m else m + n, Infix(ex, at, n))
    case Seq(r1, r2) => Seq(Infix(r1, at, n), Infix(r2, at, n))
    case Bind(k, sz, ex, body) => Bind(k, sz, Infix(ex, at, n), Infix(body, at + 1, n))
    case If(cond, tbranch, fbranch) => If(Infix(cond, at, n), Infix(tbranch, at, n), Infix(fbranch, at, n))
    case Read(p, idx) => Read(p, idx)
    case Write(p, idx, value) => Write(p, idx, Infix(value, at, n))
    case Unop(fn, arg) => Unop(fn, Infix(arg, at, n))
    case Binop(fn, arg1, arg2) => Binop(fn, Infix(arg1, at, n), Infix(arg2, at, n))
    case ExternalCall(ext, arg) => ExternalCall(ext, Infix(arg, at, n))
    case APos(a) => Infix(a, at, n)
  }

  predicate LoweredArgs(args: Args) {
    match args
    case NoArgs => true
    case MoreArgs(_, _, arg, rest) => Lowered(arg) && LoweredArgs(rest)
  }

  /** Binds the arguments around `fnBody`, the last argument outermost. */
  function BindArgs(args: Args, fnBody: Action): (res: Action)
    requires LoweredArgs(args) && Lowered(fnBody)
    ensures Lowered(res)
    decreases args
  {
    match args
    case NoArgs => fnBody
    case MoreArgs(k, sz, v, tl) => BindArgs(tl, Bind(k, sz, Infix(v, 0, ArgCount(tl)), fnBody))
  }

  /** Lowers an action that stands in a context of `vars` variables. */
  function Lower(a: Action, vars: nat): (res: Action)
    ensures Lowered(res)
    decreases a
  {
    match a
    case Fail(sz) => Fail(sz)
    case Var(k, m) => Var(k, m)
    case Cst(cst) => Cst(cst)
    case Assign(k, m, ex) => Assign(k, m, Lower(ex, vars))
    case Seq(r1, r2) => Seq(Lower(r1, vars), Lower(r2, vars))
    case Bind(k, sz, ex, body) => Bind(k, sz, Lower(ex, vars), Lower(body, vars + 1))
    case If(cond, tbranch, fbranch) => If(Lower(cond, vars), Lower(tbranch, vars), Lower(fbranch, vars))
    case Read(p, idx) => Read(p, idx)
    case Write(p, idx, value) => Write(p, idx, Lower(value, vars))
    case Unop(fn, arg) => Unop(fn, Lower(arg, vars))
    case Binop(fn, arg1, arg2) => Binop(fn, Lower(arg1, vars), Lower(arg2, vars))
    case ExternalCall(ext, arg) => ExternalCall(ext, Lower(arg, vars))
    case InternalCall(_, args, body) =>
      BindArgs(LowerArgs(args, vars), Infix(Lower(body, ArgCount(args)), ArgCount(args), vars))
    case APos(a) => APos(Lower(a, vars))
  }

  function LowerArgs(args: Args, vars: nat): (res: Args)
    ensures LoweredArgs(res) && ArgCount(res) == ArgCount(args) && ArgSizes(res) == ArgSizes(args)
    decreases args
  {
    match args
    case NoArgs => NoArgs
    case MoreArgs(k, sz, arg, rest) => MoreArgs(k, sz, Lower(arg, vars), LowerArgs(rest, vars))
  }

  // ----- renumbering -----

  function Insert<T>(G: seq<T>, at: nat, X: seq<T>): seq<T>
    requires at <= |G|
  {
    G[..at] + X + G[at..]
  }

  function InsertInto(o: Outcome, at: nat, X: Ctx): Outcome
    requires o.Ok? ==> at <= |o.ctx|
  {
    if o.Ok? then Ok(o.log, o.val, Insert(o.ctx, at, X)) else Failed
  }

  lemma {:induction false} InfixScoped(a: Action, n: nat, vars: nat, at: nat, k: nat)
    requires Lowered(a) && Scoped(a, n, vars) && at <= vars
    ensures Scoped(Infix(a, at, k), n, vars + k)
    decreases a
  {
    match a
    case Assign(_, _, ex) => InfixScoped(ex, n, vars, at, k);
    case Seq(r1, r2) => InfixScoped(r1, n, vars, at, k); InfixScoped(r2, n, vars, at, k);
    case Bind(_, _, ex, body) => InfixScoped(ex, n, vars, at, k); InfixScoped(body, n, vars + 1, at + 1, k);
    case If(cond, tbranch, fbranch) =>
      InfixScoped(cond, n, vars, at, k);
      InfixScoped(tbranch, n, vars, at, k);
      InfixScoped(fbranch, n, vars, at, k);
    case Write(_, _, value) => InfixScoped(value, n, vars, at, k);
    case Unop(_, arg) => InfixScoped(arg, n, vars, at, k);
    case Binop(_, arg1, arg2) => InfixScoped(arg1, n, vars, at, k); InfixScoped(arg2, n, vars, at, k);
    case ExternalCall(_, arg) => InfixScoped(arg, n, vars, at, k);
    case APos(a) => InfixScoped(a, n, vars, at, k);
    case _ =>
  }

  lemma InsertAt(G: Ctx, at: nat, X: Ctx, m: nat, v: Bits)
    requires at <= |G| && m < |G|
    ensures var m' := if m < at then m else m + |X|;
            Insert(G, at, X)[m'] == G[m] && Insert(G, at, X)[m' := v] == Insert(G[m := v], at, X)
  {
  }

  lemma InsertUnder(v: Bits, G: Ctx, at: nat, X: Ctx)
    requires at <= |G|
    ensures Insert([v] + G, at + 1, X) == [v] + Insert(G, at, X)
  {
  }

  lemma InsertTail(G: Ctx, at: nat, X: Ctx)
    requires at + 1 <= |G|
    ensures Insert(G, at + 1, X)[1..] == Insert(G[1..], at, X)
  {
  }

  /** The renumbered action does in the larger context what the original does in
      the smaller one, and leaves the inserted variables alone. */
  lemma {:induction false} InfixCorrect(r: RegFile, sigma: ExtFun, G: Ctx, X: Ctx, at: nat, L: Log, l: Log, a: Action)
    requires Lowered(a) && Scoped(a, |r|, |G|) && |L| == |l| == |r| && at <= |G|
    requires Scoped(Infix(a, at, |X|), |r|, |Insert(G, at, X)|)
    ensures InterpAction(r, sigma, Insert(G, at, X), L, l, Infix(a, at, |X|)) ==
            InsertInto(InterpAction(r, sigma, G, L, l, a), at, X)
    decreases a, 1
  {
    match a
    case Var(_, m) => InsertAt(G, at, X, m, []);
    case Assign(_, m, ex) =>
      InfixCorrect(r, sigma, G, X, at, L, l, ex);
      var o := InterpAction(r, sigma, G, L, l, ex);
      if o.Ok? {
        InsertAt(o.ctx, at, X, m, o.val);
      }
    case Seq(r1, r2) =>
      InfixCorrect(r, sigma, G, X, at, L, l, r1);
      var o := InterpAction(r, sigma, G, L, l, r1);
      if o.Ok? { InfixCorrect(r, sigma, o.ctx, X, at, L, o.log, r2); }
    case Bind(_, _, _, _) => InfixBindCorrect(r, sigma, G, X, at, L, l, a);
    case If(_, _, _) => InfixIfCorrect(r, sigma, G, X, at, L, l, a);
    case Write(_, _, value) => InfixCorrect(r, sigma, G, X, at, L, l, value);
    case Unop(_, arg) => InfixCorrect(r, sigma, G, X, at, L, l, arg);
    case Binop(_, _, _) => InfixBinopCorrect(r, sigma, G, X, at, L, l, a);
    case ExternalCall(_, arg) => InfixCorrect(r, sigma, G, X, at, L, l, arg);
    case APos(a) => InfixCorrect(r, sigma, G, X, at, L, l, a);
    case _ =>
  }

  lemma {:induction false} InfixIfCorrect(r: RegFile, sigma: ExtFun, G: Ctx, X: Ctx, at: nat, L: Log, l: Log, a: Action)
    requires a.If? && Lowered(a) && Scoped(a, |r|, |G|) && |L| == |l| == |r| && at <= |G|
    requires Scoped(Infix(a, at, |X|), |r|, |Insert(G, at, X)|)
    ensures InterpAction(r, sigma, Insert(G, at, X), L, l, Infix(a, at, |X|)) ==
            InsertInto(InterpAction(r, sigma, G, L, l, a), at, X)
    decreases a, 0
  {
    InfixCorrect(r, sigma, G, X, at, L, l, a.cond);
    var o := InterpAction(r, sigma, G, L, l, a.cond);
    if o.Ok? { InfixCorrect(r, sigma, o.ctx, X, at, L, o.log, if Single(o.val) then a.tbranch else a.fbranch); }
  }

  lemma {:induction false} InfixBinopCorrect(r: RegFile, sigma: ExtFun, G: Ctx, X: Ctx, at: nat, L: Log, l: Log, a: Action)
    requires a.Binop? && Lowered(a) && Scoped(a, |r|, |G|) && |L| == |l| == |r| && at <= |G|
    requires Scoped(Infix(a, at, |X|), |r|, |Insert(G, at, X)|)
    ensures InterpAction(r, sigma, Insert(G, at, X), L, l, Infix(a, at, |X|)) ==
            InsertInto(InterpAction(r, sigma, G, L, l, a), at, X)
    decreases a, 0
  {
    InfixCorrect(r, sigma, G, X, at, L, l, a.arg1);
    var o := InterpAction(r, sigma, G, L, l, a.arg1);
    if o.Ok? { InfixCorrect(r, sigma, o.ctx, X, at, L, o.log, a.arg2); }
  }

  lemma {:induction false} InfixBindCorrect(r: RegFile, sigma: ExtFun, G: Ctx, X: Ctx, at: nat, L: Log, l: Log, a: Action)
    requires a.Bind? && Lowered(a) && Scoped(a, |r|, |G|) && |L| == |l| == |r| && at <= |G|
    requires Scoped(Infix(a, at, |X|), |r|, |Insert(G, at, X)|)
    ensures InterpAction(r, sigma, Insert(G, at, X), L, l, Infix(a, at, |X|)) ==
            InsertInto(InterpAction(r, sigma, G, L, l, a), at, X)
    decreases a, 0
  {
    hide Insert;
    InfixCorrect(r, sigma, G, X, at, L, l, a.ex);
    var o := InterpAction(r, sigma, G, L, l, a.ex);
    if o.Ok? {
      InsertUnder(o.val, o.ctx, at, X);
      InfixCorrect(r, sigma, [o.val] + o.ctx, X, at + 1, L, o.log, a.body);
      var o' := InterpAction(r, sigma, [o.val] + o.ctx, L, o.log, a.body);
      if o'.Ok? { InsertTail(o'.ctx, at, X); }
    }
  }

  // ----- calls -----

  lemma {:induction false} BindArgsScoped(args: Args, fnBody: Action, n: nat, vars: nat)
    requires LoweredArgs(args) && Lowered(fnBody)
    requires ScopedArgs(args, n, vars) && Scoped(fnBody, n, ArgCount(args) + vars)
    ensures Scoped(BindArgs(args, fnBody), n, vars)
    decreases args
  {
    match args
    case NoArgs =>
    case MoreArgs(k, sz, v, tl) =>
      InfixScoped(v, n, vars, 0, ArgCount(tl));
      BindArgsScoped(tl, Bind(k, sz, Infix(v, 0, ArgCount(tl)), fnBody), n, vars);
  }

  /** The outcome of a body run on top of the evaluated arguments. */
  function CallOutcome(r: RegFile, sigma: ExtFun, L: Log, o: ArgsOutcome, fnBody: Action): Outcome
    requires |L| == |r|
    requires o.ArgsOk? ==> |o.log| == |r| && Scoped(fnBody, |r|, |o.vals + o.ctx|)
  {
    match o
    case ArgsFailed => Failed
    case ArgsOk(l, vals, G) =>
      match InterpAction(r, sigma, vals + G, L, l, fnBody)
      case Failed => Failed
      case Ok(l, v, G') => Ok(l, v, G'[|vals|..])
  }

  /** What a binding does, given what its two parts do. */
  lemma {:induction false} BindMeaning(r: RegFile, sigma: ExtFun, G: Ctx, L: Log, l: Log, a: Action, o: Outcome, o': Outcome)
    requires a.Bind? && Scoped(a, |r|, |G|) && |L| == |l| == |r|
    requires o == InterpAction(r, sigma, G, L, l, a.ex)
    requires o.Ok? ==> o' == InterpAction(r, sigma, [o.val] + o.ctx, L, o.log, a.body)
    ensures o.Failed? || o'.Failed? ==> InterpAction(r, sigma, G, L, l, a) == Failed
    ensures o.Ok? && o'.Ok? ==> |o'.ctx| > 0 && InterpAction(r, sigma, G, L, l, a) == Ok(o'.log, o'.val, o'.ctx[1..])
  {
  }

  /** Binding one more argument below the evaluated ones. */
  lemma {:induction false} CallBind(r: RegFile, sigma: ExtFun, L: Log, o: ArgsOutcome, k: string, sz: nat, v: Action, fnBody: Action)
    requires o.ArgsOk? && |L| == |o.log| == |r| && Lowered(v)
    requires Scoped(v, |r|, |o.ctx|) && Scoped(fnBody, |r|, 1 + |o.vals| + |o.ctx|)
    requires Scoped(Infix(v, 0, |o.vals|), |r|, |o.vals| + |o.ctx|)
    ensures CallOutcome(r, sigma, L, o, Bind(k, sz, Infix(v, 0, |o.vals|), fnBody)) ==
            match InterpAction(r, sigma, o.ctx, L, o.log, v)
            case Failed => Failed
            case Ok(l, x, G) => CallOutcome(r, sigma, L, ArgsOk(l, [x] + o.vals, G), fnBody)
  {
    hide InterpAction;
    var X, G, ex := o.vals, o.ctx, Infix(v, 0, |o.vals|);
    assert Insert(G, 0, X) == X + G;
    InfixCorrect(r, sigma, G, X, 0, L, o.log, v);
    var o1 := InterpAction(r, sigma, G, L, o.log, v);
    var o1' := InterpAction(r, sigma, X + G, L, o.log, ex);
    if o1.Failed? {
      BindMeaning(r, sigma, X + G, L, o.log, Bind(k, sz, ex, fnBody), o1', Failed);
    } else {
      assert Insert(o1.ctx, 0, X) == X + o1.ctx;
      assert [o1.val] + (X + o1.ctx) == ([o1.val] + X) + o1.ctx;
      var o2 := InterpAction(r, sigma, [o1.val] + (X + o1.ctx), L, o1.log, fnBody);
      BindMeaning(r, sigma, X + G, L, o.log, Bind(k, sz, ex, fnBody), o1', o2);
    }
  }

  /** The nested bindings evaluate the arguments in the call's own order. */
  lemma {:induction false} BindArgsCorrect(r: RegFile, sigma: ExtFun, G: Ctx, L: Log, l: Log, args: Args, fnBody: Action)
    requires LoweredArgs(args) && Lowered(fnBody) && |L| == |l| == |r|
    requires ScopedArgs(args, |r|, |G|) && Scoped(fnBody, |r|, ArgCount(args) + |G|)
    requires Scoped(BindArgs(args, fnBody), |r|, |G|)
    ensures InterpAction(r, sigma, G, L, l, BindArgs(args, fnBody)) ==
            CallOutcome(r, sigma, L, InterpArgs(r, sigma, G, L, l, args), fnBody)
    decreases args
  {
    match args
    case NoArgs => assert [] + G == G;
    case MoreArgs(k, sz, v, tl) =>
      InfixScoped(v, |r|, |G|, 0, ArgCount(tl));
      var fnBody' := Bind(k, sz, Infix(v, 0, ArgCount(tl)), fnBody);
      BindArgsCorrect(r, sigma, G, L, l, tl, fnBody');
      var o := InterpArgs(r, sigma, G, L, l, tl);
      if o.ArgsOk? { CallBind(r, sigma, L, o, k, sz, v, fnBody); }
  }

  lemma {:induction false} LowerScoped(a: Action, n: nat, vars: nat)
    requires Scoped(a, n, vars)
    ensures Scoped(Lower(a, vars), n, vars)
    decreases a
  {
    match a
    case Assign(_, _, ex) => LowerScoped(ex, n, vars);
    case Seq(r1, r2) => LowerScoped(r1, n, vars); LowerScoped(r2, n, vars);
    case Bind(_, _, ex, body) => LowerScoped(ex, n, vars); LowerScoped(body, n, vars + 1);
    case If(cond, tbranch, fbranch) =>
      LowerScoped(cond, n, vars);
      LowerScoped(tbranch, n, vars);
      LowerScoped(fbranch, n, vars);
    case Write(_, _, value) => LowerScoped(value, n, vars);
    case Unop(_, arg) => LowerScoped(arg, n, vars);
    case Binop(_, arg1, arg2) => LowerScoped(arg1, n, vars); LowerScoped(arg2, n, vars);
    case ExternalCall(_, arg) => LowerScoped(arg, n, vars);
    case InternalCall(_, args, body) =>
      var k := ArgCount(args);
      LowerArgsScoped(args, n, vars);
      LowerScoped(body, n, k);
      InfixScoped(Lower(body, k), n, k, k, vars);
      BindArgsScoped(LowerArgs(args, vars), Infix(Lower(body, k), k, vars), n, vars);
    case APos(a) => LowerScoped(a, n, vars);
    case _ =>
  }

  lemma {:induction false} LowerArgsScoped(args: Args, n: nat, vars: nat)
    requires ScopedArgs(args, n, vars)
    ensures ScopedArgs(LowerArgs(args, vars), n, vars)
    decreases args
  {
    match args
    case NoArgs =>
    case MoreArgs(_, _, arg, rest) => LowerScoped(arg, n, vars); LowerArgsScoped(rest, n, vars);
  }

  /** Lowering preserves failure, value, log and the caller's variables. */
  lemma {:induction false} LowerCorrect(r: RegFile, sigma: ExtFun, G: Ctx, L: Log, l: Log, a: Action)
    requires Scoped(a, |r|, |G|) && |L| == |l| == |r|
    requires Scoped(Lower(a, |G|), |r|, |G|)
    ensures InterpAction(r, sigma, G, L, l, Lower(a, |G|)) == InterpAction(r, sigma, G, L, l, a)
    decreases a
  {
    match a
    case Assign(_, _, ex) => LowerCorrect(r, sigma, G, L, l, ex);
    case Seq(r1, r2) =>
      LowerCorrect(r, sigma, G, L, l, r1);
      var o := InterpAction(r, sigma, G, L, l, r1);
      if o.Ok? { LowerCorrect(r, sigma, o.ctx, L, o.log, r2); }
    case Bind(_, _, ex, body) =>
      LowerCorrect(r, sigma, G, L, l, ex);
      var o := InterpAction(r, sigma, G, L, l, ex);
      if o.Ok? { LowerCorrect(r, sigma, [o.val] + o.ctx, L, o.log, body); }
    case If(cond, tbranch, fbranch) =>
      LowerCorrect(r, sigma, G, L, l, cond);
      var o := InterpAction(r, sigma, G, L, l, cond);
      if o.Ok? { LowerCorrect(r, sigma, o.ctx, L, o.log, if Single(o.val) then tbranch else fbranch); }
    case Write(_, _, value) => LowerCorrect(r, sigma, G, L, l, value);
    case Unop(_, arg) => LowerCorrect(r, sigma, G, L, l, arg);
    case Binop(_, arg1, arg2) =>
      LowerCorrect(r, sigma, G, L, l, arg1);
      var o := InterpAction(r, sigma, G, L, l, arg1);
      if o.Ok? { LowerCorrect(r, sigma, o.ctx, L, o.log, arg2); }
    case ExternalCall(_, arg) => LowerCorrect(r, sigma, G, L, l, arg);
    case InternalCall(_, _, _) => LowerCallCorrect(r, sigma, G, L, l, a);
    case APos(a) => LowerCorrect(r, sigma, G, L, l, a);
    case _ =>
  }

  /** The body of a call, placed over the variables of the caller. */
  lemma {:induction false} LowerCallBody(r: RegFile, sigma: ExtFun, vals: Ctx, G: Ctx, L: Log, l: Log, body: Action)
    requires Scoped(body, |r|, |vals|) && |L| == |l| == |r| && Scoped(Lower(body, |vals|), |r|, |vals|)
    requires Scoped(Infix(Lower(body, |vals|), |vals|, |G|), |r|, |vals + G|)
    requires InterpAction(r, sigma, vals, L, l, Lower(body, |vals|)) == InterpAction(r, sigma, vals, L, l, body)
    ensures var lowered := Infix(Lower(body, |vals|), |vals|, |G|);
            var (o, o') := (InterpAction(r, sigma, vals, L, l, body), InterpAction(r, sigma, vals + G, L, l, lowered));
            && o'.Ok? == o.Ok?
            && (o.Ok? ==> o'.log == o.log && o'.val == o.val && |o'.ctx| == |vals| + |G| && o'.ctx[|vals|..] == G)
  {
    assert Insert(vals, |vals|, G) == vals + G;
    InfixCorrect(r, sigma, vals, G, |vals|, L, l, Lower(body, |vals|));
  }

  lemma {:induction false} LowerCallCorrect(r: RegFile, sigma: ExtFun, G: Ctx, L: Log, l: Log, a: Action)
    requires a.InternalCall? && Scoped(a, |r|, |G|) && |L| == |l| == |r|
    requires Scoped(Lower(a, |G|), |r|, |G|)
    ensures InterpAction(r, sigma, G, L, l, Lower(a, |G|)) == InterpAction(r, sigma, G, L, l, a)
    decreases a, 0
  {
    var args, body := a.args, a.body;
    var k := ArgCount(args);
    var body1 := Lower(body, k);
    var body2 := Infix(body1, k, |G|);
    LowerArgsScoped(args, |r|, |G|);
    LowerScoped(body, |r|, k);
    InfixScoped(body1, |r|, k, k, |G|);
    BindArgsCorrect(r, sigma, G, L, l, LowerArgs(args, |G|), body2);
    LowerArgsCorrect(r, sigma, G, L, l, args);
    var o := InterpArgs(r, sigma, G, L, l, args);
    if o.ArgsOk? {
      LowerCorrect(r, sigma, o.vals, L, o.log, body);
      LowerCallBody(r, sigma, o.vals, o.ctx, L, o.log, body);
    }
  }

  lemma {:induction false} LowerArgsCorrect(r: RegFile, sigma: ExtFun, G: Ctx, L: Log, l: Log, args: Args)
    requires ScopedArgs(args, |r|, |G|) && |L| == |l| == |r|
    requires ScopedArgs(LowerArgs(args, |G|), |r|, |G|)
    ensures InterpArgs(r, sigma, G, L, l, LowerArgs(args, |G|)) == InterpArgs(r, sigma, G, L, l, args)
    decreases args
  {
    match args
    case NoArgs =>
    case MoreArgs(_, _, arg, rest) =>
      LowerArgsCorrect(r, sigma, G, L, l, rest);
      var o := InterpArgs(r, sigma, G, L, l, rest);
      if o.ArgsOk? { LowerCorrect(r, sigma, o.ctx, L, o.log, arg); }
  }

  // ----- schedulers -----

  function LowerRules(rules: Rules): Rules { rl => Lower(rules(rl), 0) }

  lemma LowerRulesScoped(rules: Rules, n: nat)
    requires ScopedRules(rules, n)
    ensures ScopedRules(LowerRules(rules), n) && LoweredRules(LowerRules(rules))
  {
    forall rl ensures Scoped(LowerRules(rules)(rl), n, 0) { LowerScoped(rules(rl), n, 0); }
  }

  lemma {:induction false} SchedulerLoweringCorrect(r: RegFile, sigma: ExtFun, rules: Rules, L: Log, s: Scheduler)
    requires ScopedRules(rules, |r|) && ScopedRules(LowerRules(rules), |r|) && |L| == |r|
    ensures InterpScheduler(r, sigma, LowerRules(rules), L, s) == InterpScheduler(r, sigma, rules, L, s)
    decreases s
  {
    match s
    case Done =>
    case Cons(rl, s) =>
      assert Scoped(LowerRules(rules)(rl), |r|, 0);
      LowerCorrect(r, sigma, [], L, Empty(|r|), rules(rl));
      var o := InterpRule(r, sigma, L, rules(rl));
      SchedulerLoweringCorrect(r, sigma, rules, if o.Some? then App(o.value, L) else L, s);
    case Try(rl, s1, s2) =>
      assert Scoped(LowerRules(rules)(rl), |r|, 0);
      LowerCorrect(r, sigma, [], L, Empty(|r|), rules(rl));
      var o := InterpRule(r, sigma, L, rules(rl));
      if o.Some? {
        SchedulerLoweringCorrect(r, sigma, rules, App(o.value, L), s1);
      } else {
        SchedulerLoweringCorrect(r, sigma, rules, L, s2);
      }
    case SPos(s) => SchedulerLoweringCorrect(r, sigma, rules, L, s);
  }

  /** A lowered program has the cycles of the original. */
  lemma CycleLoweringCorrect(sigma: ExtFun, rules: Rules, s: Scheduler, r: RegFile)
    requires ScopedRules(rules, |r|)
    ensures ScopedRules(LowerRules(rules), |r|)
    ensures InterpCycle(sigma, LowerRules(rules), s, r) == InterpCycle(sigma, rules, s, r)
  {
    LowerRulesScoped(rules, |r|);
    SchedulerLoweringCorrect(r, sigma, rules, Empty(|r|), s);
  }

  // ----- widths -----

  lemma {:induction false} InfixTyped(g: Sigs, sig: seq<nat>, sz: nat, a: Action, at: nat, X: seq<nat>)
    requires Lowered(a) && Typed(g, sig, sz, a) && at <= |sig|
    ensures Typed(g, Insert(sig, at, X), sz, Infix(a, at, |X|))
    decreases a
  {
    match a
    case Assign(_, m, ex) => InfixTyped(g, sig, sig[m], ex, at, X);
    case Seq(r1, r2) => InfixTyped(g, sig, 0, r1, at, X); InfixTyped(g, sig, sz, r2, at, X);
    case Bind(_, sz', ex, body) =>
      InfixTyped(g, sig, sz', ex, at, X);
      assert Insert([sz'] + sig, at + 1, X) == [sz'] + Insert(sig, at, X);
      InfixTyped(g, [sz'] + sig, sz, body, at + 1, X);
    case If(cond, tbranch, fbranch) =>
      InfixTyped(g, sig, 1, cond, at, X);
      InfixTyped(g, sig, sz, tbranch, at, X);
      InfixTyped(g, sig, sz, fbranch, at, X);
    case Write(_, idx, value) => InfixTyped(g, sig, g.regs[idx], value, at, X);
    case Unop(fn, arg) => InfixTyped(g, sig, fn.Arg(), arg, at, X);
    case Binop(fn, arg1, arg2) =>
      InfixTyped(g, sig, fn.Arg1(), arg1, at, X);
      InfixTyped(g, sig, fn.Arg2(), arg2, at, X);
    case ExternalCall(ext, arg) => InfixTyped(g, sig, g.exts[ext].arg, arg, at, X);
    case APos(a) => InfixTyped(g, sig, sz, a, at, X);
    case _ =>
  }

  lemma {:induction false} BindArgsTyped(g: Sigs, sig: seq<nat>, sz: nat, args: Args, fnBody: Action)
    requires LoweredArgs(args) && Lowered(fnBody)
    requires TypedArgs(g, sig, args) && Typed(g, ArgSizes(args) + sig, sz, fnBody)
    ensures Typed(g, sig, sz, BindArgs(args, fnBody))
    decreases args
  {
    match args
    case NoArgs => assert [] + sig == sig;
    case MoreArgs(k, sz', v, tl) =>
      InfixTyped(g, sig, sz', v, 0, ArgSizes(tl));
      assert Insert(sig, 0, ArgSizes(tl)) == ArgSizes(tl) + sig;
      assert ([sz'] + ArgSizes(tl)) + sig == [sz'] + (ArgSizes(tl) + sig);
      BindArgsTyped(g, sig, sz, tl, Bind(k, sz', Infix(v, 0, ArgCount(tl)), fnBody));
  }

  /** Lowering preserves widths. */
  lemma {:induction false} LowerTyped(g: Sigs, sig: seq<nat>, sz: nat, a: Action)
    requires Typed(g, sig, sz, a)
    ensures Typed(g, sig, sz, Lower(a, |sig|))
    decreases a
  {
    match a
    case Assign(_, m, ex) => LowerTyped(g, sig, sig[m], ex);
    case Seq(r1, r2) => LowerTyped(g, sig, 0, r1); LowerTyped(g, sig, sz, r2);
    case Bind(_, sz', ex, body) => LowerTyped(g, sig, sz', ex); LowerTyped(g, [sz'] + sig, sz, body);
    case If(cond, tbranch, fbranch) =>
      LowerTyped(g, sig, 1, cond);
      LowerTyped(g, sig, sz, tbranch);
      LowerTyped(g, sig, sz, fbranch);
    case Write(_, idx, value) => LowerTyped(g, sig, g.regs[idx], value);
    case Unop(fn, arg) => LowerTyped(g, sig, fn.Arg(), arg);
    case Binop(fn, arg1, arg2) => LowerTyped(g, sig, fn.Arg1(), arg1); LowerTyped(g, sig, fn.Arg2(), arg2);
    case ExternalCall(ext, arg) => LowerTyped(g, sig, g.exts[ext].arg, arg);
    case InternalCall(_, args, body) =>
      var sizes := ArgSizes(args);
      LowerArgsTyped(g, sig, args);
      LowerTyped(g, sizes, sz, body);
      InfixTyped(g, sizes, sz, Lower(body, |sizes|), |sizes|, sig);
      assert Insert(sizes, |sizes|, sig) == sizes + sig;
      BindArgsTyped(g, sig, sz, LowerArgs(args, |sig|), Infix(Lower(body, |sizes|), |sizes|, |sig|));
    case APos(a) => LowerTyped(g, sig, sz, a);
    case _ =>
  }

  lemma {:induction false} LowerArgsTyped(g: Sigs, sig: seq<nat>, args: Args)
    requires TypedArgs(g, sig, args)
    ensures TypedArgs(g, sig, LowerArgs(args, |sig|))
    decreases args
  {
    match args
    case NoArgs =>
    case MoreArgs(_, sz, arg, rest) => LowerTyped(g, sig, sz, arg); LowerArgsTyped(g, sig, rest);
  }

  lemma LowerRulesTyped(g: Sigs, rules: Rules)
    requires TypedRules(g, rules)
    ensures TypedRules(g, LowerRules(rules)) && LoweredRules(LowerRules(rules))
  {
    forall rl ensures Typed(g, [], 0, LowerRules(rules)(rl)) { LowerTyped(g, [], 0, rules(rl)); }
  }
}

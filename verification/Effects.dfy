/** What an action may access, and which variables it mentions and assigns: the
    things that decide whether the order of two actions matters. */
module Effects {
  import opened BitVectors
  import opened Syntax
  import opened Logs
  import opened Semantics
  import opened Histories

  type Event = (nat, Access)

  /** Every access that appears in the action, calls included. */
  function AccessSet(a: Action): set<Event>
    decreases a
  {
    match a
    case Assign(_, _, ex) => AccessSet(ex)
    case Seq(r1, r2) => AccessSet(r1) + AccessSet(r2)
    case Bind(_, _, ex, body) => AccessSet(ex) + AccessSet(body)
    case If(cond, tbranch, fbranch) => AccessSet(cond) + AccessSet(tbranch) + AccessSet(fbranch)
    case Read(p, idx) => {(idx, Reading(p))}
    case Write(p, idx, value) => AccessSet(value) + {(idx, Writing(p))}
    case Unop(_, arg) => AccessSet(arg)
    case Binop(_, arg1, arg2) => AccessSet(arg1) + AccessSet(arg2)
    case ExternalCall(_, arg) => AccessSet(arg)
    case InternalCall(_, args, body) => ArgsAccessSet(args) + AccessSet(body)
    case APos(a) => AccessSet(a)
    case _ => {}
  }

  function ArgsAccessSet(args: Args): set<Event>
    decreases args
  {
    match args
    case NoArgs => {}
    case MoreArgs(_, _, arg, rest) => AccessSet(arg) + ArgsAccessSet(rest)
  }

  /** Positions seen from outside one binding. */
  function Outer(S: set<nat>): set<nat> { set m | m in S && m > 0 :: m - 1 }

  /** Positions seen from inside one more binding. */
  function Inner(S: set<nat>): set<nat> { set m | m in S :: m + 1 }

  /** The caller's variables that an action may assign; a call's body has its own. */
  function Assigned(a: Action): set<nat>
    decreases a
  {
    match a
    case Assign(_, m, ex) => Assigned(ex) + {m}
    case Seq(r1, r2) => Assigned(r1) + Assigned(r2)
    case Bind(_, _, ex, body) => Assigned(ex) + Outer(Assigned(body))
    case If(cond, tbranch, fbranch) => Assigned(cond) + Assigned(tbranch) + Assigned(fbranch)
    case Write(_, _, value) => Assigned(value)
    case Unop(_, arg) => Assigned(arg)
    case Binop(_, arg1, arg2) => Assigned(arg1) + Assigned(arg2)
    case ExternalCall(_, arg) => Assigned(arg)
    case InternalCall(_, args, _) => ArgsAssigned(args)
    case APos(a) => Assigned(a)
    case _ => {}
  }

  function ArgsAssigned(args: Args): set<nat>
    decreases args
  {
    match args
    case NoArgs => {}
    case MoreArgs(_, _, arg, rest) => Assigned(arg) + ArgsAssigned(rest)
  }

  /** The caller's variables that an action reads or assigns. */
  function Vars(a: Action): set<nat>
    decreases a
  {
    match a
    case Var(_, m) => {m}
    case Assign(_, m, ex) => Vars(ex) + {m}
    case Seq(r1, r2) => Vars(r1) + Vars(r2)
    case Bind(_, _, ex, body) => Vars(ex) + Outer(Vars(body))
    case If(cond, tbranch, fbranch) => Vars(cond) + Vars(tbranch) + Vars(fbranch)
    case Write(_, _, value) => Vars(value)
    case Unop(_, arg) => Vars(arg)
    case Binop(_, arg1, arg2) => Vars(arg1) + Vars(arg2)
    case ExternalCall(_, arg) => Vars(arg)
    case InternalCall(_, args, _) => ArgsVars(args)
    case APos(a) => Vars(a)
    case _ => {}
  }

  function ArgsVars(args: Args): set<nat>
    decreases args
  {
    match args
    case NoArgs => {}
    case MoreArgs(_, _, arg, rest) => Vars(arg) + ArgsVars(rest)
  }

  lemma {:induction false} AssignedIsVar(a: Action)
    ensures Assigned(a) <= Vars(a)
    decreases a
  {
    match a
    case Assign(_, _, ex) => AssignedIsVar(ex);
    case Seq(r1, r2) => AssignedIsVar(r1); AssignedIsVar(r2);
    case Bind(_, _, ex, body) => AssignedIsVar(ex); AssignedIsVar(body);
    case If(cond, tbranch, fbranch) => AssignedIsVar(cond); AssignedIsVar(tbranch); AssignedIsVar(fbranch);
    case Write(_, _, value) => AssignedIsVar(value);
    case Unop(_, arg) => AssignedIsVar(arg);
    case Binop(_, arg1, arg2) => AssignedIsVar(arg1); AssignedIsVar(arg2);
    case ExternalCall(_, arg) => AssignedIsVar(arg);
    case InternalCall(_, args, _) => ArgsAssignedIsVar(args);
    case APos(a) => AssignedIsVar(a);
    case _ =>
  }

  lemma {:induction false} ArgsAssignedIsVar(args: Args)
    ensures ArgsAssigned(args) <= ArgsVars(args)
    decreases args
  {
    match args
    case NoArgs =>
    case MoreArgs(_, _, arg, rest) => AssignedIsVar(arg); ArgsAssignedIsVar(rest);
  }

  predicate SameOutside(S: set<nat>, G: Ctx, G': Ctx) {
    |G| == |G'| && forall i: nat :: i < |G| && i !in S ==> G'[i] == G[i]
  }

  /** Variables that are not assigned keep their values. */
  lemma {:induction false} AssignedOnly(r: RegFile, sigma: ExtFun, G: Ctx, L: Log, l: Log, a: Action)
    requires Scoped(a, |r|, |G|) && |L| == |l| == |r|
    ensures var o := InterpAction(r, sigma, G, L, l, a); o.Ok? ==> SameOutside(Assigned(a), G, o.ctx)
    decreases a
  {
    match a
    case Assign(_, _, ex) => AssignedOnly(r, sigma, G, L, l, ex);
    case Seq(r1, r2) =>
      AssignedOnly(r, sigma, G, L, l, r1);
      var o := InterpAction(r, sigma, G, L, l, r1);
      if o.Ok? { AssignedOnly(r, sigma, o.ctx, L, o.log, r2); }
    case Bind(_, _, ex, body) =>
      AssignedOnly(r, sigma, G, L, l, ex);
      var o := InterpAction(r, sigma, G, L, l, ex);
      if o.Ok? {
        AssignedOnly(r, sigma, [o.val] + o.ctx, L, o.log, body);
        var o' := InterpAction(r, sigma, [o.val] + o.ctx, L, o.log, body);
        if o'.Ok? { OuterSame(Assigned(body), [o.val] + o.ctx, o'.ctx); }
      }
    case If(cond, tbranch, fbranch) =>
      AssignedOnly(r, sigma, G, L, l, cond);
      var o := InterpAction(r, sigma, G, L, l, cond);
      if o.Ok? { AssignedOnly(r, sigma, o.ctx, L, o.log, if Single(o.val) then tbranch else fbranch); }
    case Write(_, _, value) => AssignedOnly(r, sigma, G, L, l, value);
    case Unop(_, arg) => AssignedOnly(r, sigma, G, L, l, arg);
    case Binop(_, arg1, arg2) =>
      AssignedOnly(r, sigma, G, L, l, arg1);
      var o := InterpAction(r, sigma, G, L, l, arg1);
      if o.Ok? { AssignedOnly(r, sigma, o.ctx, L, o.log, arg2); }
    case ExternalCall(_, arg) => AssignedOnly(r, sigma, G, L, l, arg);
    case InternalCall(_, args, _) => ArgsAssignedOnly(r, sigma, G, L, l, args);
    case APos(a) => AssignedOnly(r, sigma, G, L, l, a);
    case _ =>
  }

  lemma InOuter(S: set<nat>)
    ensures forall i: nat {:trigger i + 1 in S} :: i + 1 in S ==> i in Outer(S)
  {
    forall i: nat | i + 1 in S ensures i in Outer(S) { assert (i + 1) - 1 == i; }
  }

  lemma OuterSame(S: set<nat>, G: Ctx, G': Ctx)
    requires |G| > 0 && SameOutside(S, G, G')
    ensures SameOutside(Outer(S), G[1..], G'[1..])
  {
    InOuter(S);
  }

  lemma {:induction false} ArgsAssignedOnly(r: RegFile, sigma: ExtFun, G: Ctx, L: Log, l: Log, args: Args)
    requires ScopedArgs(args, |r|, |G|) && |L| == |l| == |r|
    ensures var o := InterpArgs(r, sigma, G, L, l, args); o.ArgsOk? ==> SameOutside(ArgsAssigned(args), G, o.ctx)
    decreases args
  {
    match args
    case NoArgs =>
    case MoreArgs(_, _, arg, rest) =>
      ArgsAssignedOnly(r, sigma, G, L, l, rest);
      var o := InterpArgs(r, sigma, G, L, l, rest);
      if o.ArgsOk? { AssignedOnly(r, sigma, o.ctx, L, o.log, arg); }
  }
}

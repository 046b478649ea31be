/** The order in which the arguments of a call are evaluated.  The semantics goes from
    the last to the first, emitted code from the first to the last; this is when the
    two cannot be told apart. */
module CallOrder {
  import opened BitVectors
  import opened Primitives
  import opened Syntax
  import opened Logs
  import opened Semantics
  import opened Histories
  import opened Effects

  /** Arguments evaluated from the first to the last. */
  function InterpArgsForward(r: RegFile, sigma: ExtFun, G: Ctx, L: Log, l: Log, args: Args): (res: ArgsOutcome)
    requires ScopedArgs(args, |r|, |G|) && |L| == |l| == |r|
    ensures res.ArgsOk? ==> |res.log| == |r| && |res.ctx| == |G| && |res.vals| == ArgCount(args)
    decreases args
  {
    match args
    case NoArgs => ArgsOk(l, [], G)
    case MoreArgs(_, _, arg, rest) =>
      match InterpAction(r, sigma, G, L, l, arg)
      case Failed => ArgsFailed
      case Ok(l, v, G) =>
        match InterpArgsForward(r, sigma, G, L, l, rest)
        case ArgsFailed => ArgsFailed
        case ArgsOk(l, vals, G) => ArgsOk(l, [v] + vals, G)
  }

  // ----- logs that answer alike -----

  /** No question that the semantics or the simulator asks tells the two apart. */
  ghost predicate Alike(x: RLog, y: RLog) {
    && (forall p :: HasRead(x, p) == HasRead(y, p) && HasWrite(x, p) == HasWrite(y, p))
    && (forall p :: LatestAt(x, p) == LatestAt(y, p))
    && Latest(x) == Latest(y)
  }

  ghost predicate AlikeLogs(l: Log, l': Log) { |l| == |l'| && forall i :: 0 <= i < |l| ==> Alike(l[i], l'[i]) }

  ghost predicate SameArgs(o: ArgsOutcome, o': ArgsOutcome) {
    if o.ArgsFailed? then o'.ArgsFailed?
    else o'.ArgsOk? && o'.vals == o.vals && o'.ctx == o.ctx && AlikeLogs(o.log, o'.log)
  }

  lemma AlikeApp(x: RLog, y: RLog, z: RLog)
    requires Alike(x, y)
    ensures Alike(x + z, y + z)
  {
    AppLaws(x, z);
    AppLaws(y, z);
  }

  // ----- accesses that do not notice each other -----

  /** Two accesses to one register of which the second may see the first, either way round. */
  predicate Clash(e: Access, f: Access) {
    || (e == Reading(P1) && f == Writing(P0)) || (e == Writing(P0) && f == Reading(P1))
    || (e.Writing? && f.Writing?)
  }

  predicate NoClash(A: set<Event>, B: set<Event>) {
    forall x, y :: x in A && y in B && x.0 == y.0 ==> !Clash(x.1, y.1)
  }

  /** What the accesses in `S` ask about register `i` has the same answer in both logs. */
  ghost predicate Blind(S: set<Event>, i: nat, x: RLog, y: RLog) {
    && ((i, Reading(P1)) in S ==> LatestAt(x, P0) == LatestAt(y, P0))
    && ((i, Writing(P0)) in S ==>
          HasRead(x, P1) == HasRead(y, P1) && HasWrite(x, P0) == HasWrite(y, P0) && HasWrite(x, P1) == HasWrite(y, P1))
    && ((i, Writing(P1)) in S ==> HasWrite(x, P1) == HasWrite(y, P1))
  }

  ghost predicate BlindLogs(S: set<Event>, l: Log, l': Log) {
    |l| == |l'| && forall i :: 0 <= i < |l| ==> Blind(S, i, l[i], l'[i])
  }

  function EventOf(i: nat, e: Entry): Event { (i, if e.Rd? then Reading(e.port) else Writing(e.port)) }

  /** `N` holds only events of `S`. */
  predicate From(S: set<Event>, N: Log) {
    forall i, k :: 0 <= i < |N| && 0 <= k < |N[i]| ==> EventOf(i, N[i][k]) in S
  }

  lemma BlindApp(S: set<Event>, i: nat, n: RLog, x: RLog, y: RLog, z: RLog)
    requires Blind(S, i, x, y)
    ensures Blind(S, i, n + x, n + y) && Blind(S, i, x + z, y + z)
  {
    AppLaws(n, x);
    AppLaws(n, y);
    AppLaws(x, z);
    AppLaws(y, z);
  }

  lemma BlindLogsApp(S: set<Event>, N: Log, l: Log, l': Log)
    requires BlindLogs(S, l, l') && |N| == |l|
    ensures BlindLogs(S, App(N, l), App(N, l'))
  {
    forall i | 0 <= i < |l| ensures Blind(S, i, App(N, l)[i], App(N, l')[i]) {
      BlindApp(S, i, N[i], l[i], l'[i], []);
    }
  }

  lemma FromApp(S: set<Event>, N: Log, N': Log)
    requires From(S, N) && From(S, N') && |N| == |N'|
    ensures From(S, App(N', N))
  {
    forall i, k | 0 <= i < |N| && 0 <= k < |App(N', N)[i]| ensures EventOf(i, App(N', N)[i][k]) in S {
      if k >= |N'[i]| { assert App(N', N)[i][k] == N[i][k - |N'[i]|]; }
    }
  }

  // ----- an action in two surroundings -----

  /** The two outcomes fail together, or return the same value, the same new events
      `N` and the same variables outside `D`, where each keeps its own. */
  ghost predicate Moved(G: Ctx, G': Ctx, l: Log, l': Log, o: Outcome, o': Outcome, N: Log, D: set<nat>, S: set<Event>) {
    if o.Failed? then o'.Failed?
    else
      && o'.Ok? && o'.val == o.val && |N| == |l| == |l'|
      && o.log == App(N, l) && o'.log == App(N, l') && From(S, N)
      && MovedCtx(G, G', o.ctx, o'.ctx, D)
  }

  predicate MovedCtx(G: Ctx, G': Ctx, H: Ctx, H': Ctx, D: set<nat>) {
    && |G| == |G'| == |H| == |H'|
    && (forall i: nat :: i < |G| && i !in D ==> H'[i] == H[i])
    && (forall i: nat :: i < |G| && i in D ==> H[i] == G[i] && H'[i] == G'[i])
  }

  /** The two surroundings: the action cannot tell their logs or variables apart. */
  ghost predicate Beside(r: RegFile, G: Ctx, G': Ctx, L: Log, l: Log, l': Log, D: set<nat>, S: set<Event>, V: set<nat>) {
    && |G| == |G'| && |L| == |l| == |l'| == |r| && SameOutside(D, G, G') && BlindLogs(S, l, l') && V !! D
  }

  lemma {:induction false} MovedRefl(r: RegFile, G: Ctx, G': Ctx, L: Log, l: Log, l': Log, v: Bits, D: set<nat>, S: set<Event>)
    requires Beside(r, G, G', L, l, l', D, S, {})
    ensures Moved(G, G', l, l', Ok(l, v, G), Ok(l', v, G'), Empty(|l|), D, S)
  {
    AppEmpty(l);
    AppEmpty(l');
  }

  /** One step after another. */
  lemma {:induction false} MovedThen(G: Ctx, G': Ctx, l: Log, l': Log, o: Outcome, o': Outcome, N: Log, q: Outcome, q': Outcome,
                                     N': Log, D: set<nat>, S: set<Event>)
    requires o.Ok? && Moved(G, G', l, l', o, o', N, D, S)
    requires Moved(o.ctx, o'.ctx, o.log, o'.log, q, q', N', D, S)
    ensures q.Ok? ==> Moved(G, G', l, l', q, q', App(N', N), D, S)
  {
    if q.Ok? {
      AppAssoc(N', N, l);
      AppAssoc(N', N, l');
      FromApp(S, N, N');
    }
  }

  lemma {:induction false} MovedBeside(r: RegFile, G: Ctx, G': Ctx, L: Log, l: Log, l': Log, o: Outcome, o': Outcome, N: Log,
                                       D: set<nat>, S: set<Event>, V: set<nat>)
    requires o.Ok? && Beside(r, G, G', L, l, l', D, S, V) && Moved(G, G', l, l', o, o', N, D, S)
    ensures Beside(r, o.ctx, o'.ctx, L, o.log, o'.log, D, S, V)
  {
    BlindLogsApp(S, N, l, l');
  }

  lemma {:induction false} MovedPush(r: RegFile, G: Ctx, G': Ctx, L: Log, l: Log, l': Log, idx: nat, e: Entry, v: Bits,
                                     D: set<nat>, S: set<Event>) returns (N: Log)
    requires Beside(r, G, G', L, l, l', D, S, {}) && idx < |l| && EventOf(idx, e) in S
    ensures Moved(G, G', l, l', Ok(Push(l, idx, e), v, G), Ok(Push(l', idx, e), v, G'), N, D, S)
  {
    N := Empty(|l|)[idx := [e]];
    forall i | 0 <= i < |l| ensures N[i] + l[i] == Push(l, idx, e)[i] && N[i] + l'[i] == Push(l', idx, e)[i] {
      assert [] + l[i] == l[i] && [] + l'[i] == l'[i];
    }
  }

  /** The checks and the value of an access are the same in both surroundings. */
  lemma {:induction false} SameChecks(r: RegFile, G: Ctx, G': Ctx, L: Log, l: Log, l': Log, D: set<nat>, S: set<Event>, idx: nat, p: Port)
    requires Beside(r, G, G', L, l, l', D, S, {}) && idx < |r|
    ensures (idx, Reading(p)) in S ==> ReadValue(r, L, l, p, idx) == ReadValue(r, L, l', p, idx)
    ensures (idx, Writing(p)) in S ==> MayWrite(L, l, p, idx) == MayWrite(L, l', p, idx)
  {
    assert Blind(S, idx, l[idx], l'[idx]);
    BlindApp(S, idx, [], l[idx], l'[idx], L[idx]);
  }

  lemma MovedOuter(v: Bits, G: Ctx, G': Ctx, H: Ctx, H': Ctx, D: set<nat>)
    requires MovedCtx([v] + G, [v] + G', H, H', Inner(D))
    ensures MovedCtx(G, G', H[1..], H'[1..], D)
  {
    forall i: nat | i < |G| ensures (i in D ==> H[1..][i] == G[i] && H'[1..][i] == G'[i]) &&
                                    (i !in D ==> H'[1..][i] == H[1..][i]) {
      InInner(D, i);
      assert ([v] + G)[i + 1] == G[i] && ([v] + G')[i + 1] == G'[i];
    }
  }

  lemma InInner(D: set<nat>, i: nat)
    ensures i + 1 in Inner(D) <==> i in D
    ensures 0 !in Inner(D)
  {
  }

  lemma BesideInner(r: RegFile, v: Bits, G: Ctx, G': Ctx, L: Log, l: Log, l': Log, D: set<nat>, S: set<Event>, V: set<nat>)
    requires Beside(r, G, G', L, l, l', D, S, Outer(V))
    ensures Beside(r, [v] + G, [v] + G', L, l, l', Inner(D), S, V)
  {
    forall i: nat | i < |G| + 1 && i !in Inner(D) ensures ([v] + G')[i] == ([v] + G)[i] {
      if i > 0 { InInner(D, i - 1); }
    }
    InOuter(V);
    forall i | i in V ensures i !in Inner(D) {
      if i > 0 { InInner(D, i - 1); assert (i - 1) + 1 in V; }
    }
  }

  lemma BesideLess(r: RegFile, G: Ctx, G': Ctx, L: Log, l: Log, l': Log, D: set<nat>, S: set<Event>, V: set<nat>, V': set<nat>)
    requires Beside(r, G, G', L, l, l', D, S, V) && V' <= V
    ensures Beside(r, G, G', L, l, l', D, S, V')
  {
  }

  lemma {:induction false} MovedAssign(G: Ctx, G': Ctx, l: Log, l': Log, o: Outcome, o': Outcome, m: nat, N: Log, D: set<nat>, S: set<Event>)
    requires o.Ok? && Moved(G, G', l, l', o, o', N, D, S) && m < |G| && m !in D
    ensures m < |o.ctx| && m < |o'.ctx|
    ensures Moved(G, G', l, l', Ok(o.log, [], o.ctx[m := o.val]), Ok(o'.log, [], o'.ctx[m := o'.val]), N, D, S)
  {
  }

  lemma {:induction false} MovedValue(G: Ctx, G': Ctx, l: Log, l': Log, o: Outcome, o': Outcome, v: Bits, N: Log, D: set<nat>, S: set<Event>)
    requires o.Ok? && Moved(G, G', l, l', o, o', N, D, S)
    ensures Moved(G, G', l, l', Ok(o.log, v, o.ctx), Ok(o'.log, v, o'.ctx), N, D, S)
  {
  }

  lemma {:induction false} MovedBody(v: Bits, G: Ctx, G': Ctx, l: Log, l': Log, o: Outcome, o': Outcome, N: Log, D: set<nat>, S: set<Event>)
    requires o.Ok? && Moved([v] + G, [v] + G', l, l', o, o', N, Inner(D), S)
    ensures |o.ctx| == |o'.ctx| == |G| + 1
    ensures Moved(G, G', l, l', Ok(o.log, o.val, o.ctx[1..]), Ok(o'.log, o'.val, o'.ctx[1..]), N, D, S)
  {
    MovedOuter(v, G, G', o.ctx, o'.ctx, D);
  }

  lemma {:induction false} MovedFacts(G: Ctx, G': Ctx, l: Log, l': Log, o: Outcome, o': Outcome, N: Log, D: set<nat>, S: set<Event>)
    requires Moved(G, G', l, l', o, o', N, D, S)
    ensures o.Failed? == o'.Failed?
    ensures o.Ok? ==> o.val == o'.val && |N| == |l| && |o.ctx| == |o'.ctx| == |G|
  {
  }

  /** An action does the same in both. */
  lemma {:induction false} Frame(r: RegFile, sigma: ExtFun, G: Ctx, G': Ctx, L: Log, l: Log, l': Log, a: Action,
                                 D: set<nat>, S: set<Event>) returns (N: Log)
    requires Scoped(a, |r|, |G|) && AccessSet(a) <= S && Beside(r, G, G', L, l, l', D, S, Vars(a))
    requires |G'| == |G| && |l'| == |l| == |L| == |r|
    ensures Moved(G, G', l, l', InterpAction(r, sigma, G, L, l, a), InterpAction(r, sigma, G', L, l', a), N, D, S)
    decreases a, 2
  {
    hide Beside, Moved, MovedCtx, BlindLogs, From, App, Push, ReadValue, MayRead, MayWrite;
    match a
    case Fail(_) => N := FrameLeaf(r, sigma, G, G', L, l, l', a, D, S);
    case Var(_, _) => N := FrameLeaf(r, sigma, G, G', L, l, l', a, D, S);
    case Cst(_) => N := FrameLeaf(r, sigma, G, G', L, l, l', a, D, S);
    case Read(_, _) => N := FrameLeaf(r, sigma, G, G', L, l, l', a, D, S);
    case Seq(_, _) => N := FrameSeq(r, sigma, G, G', L, l, l', a, D, S);
    case Binop(_, _, _) => N := FrameBinop(r, sigma, G, G', L, l, l', a, D, S);
    case If(_, _, _) => N := FrameIf(r, sigma, G, G', L, l, l', a, D, S);
    case Bind(_, _, _, _) => N := FrameBind(r, sigma, G, G', L, l, l', a, D, S);
    case InternalCall(_, _, _) => N := FrameCall(r, sigma, G, G', L, l, l', a, D, S);
    case APos(a) => N := Frame(r, sigma, G, G', L, l, l', a, D, S);
    case _ => N := FrameUnary(r, sigma, G, G', L, l, l', a, D, S);
  }

  lemma {:induction false} FrameLeaf(r: RegFile, sigma: ExtFun, G: Ctx, G': Ctx, L: Log, l: Log, l': Log, a: Action,
                                     D: set<nat>, S: set<Event>) returns (N: Log)
    requires a.Fail? || a.Var? || a.Cst? || a.Read?
    requires Scoped(a, |r|, |G|) && AccessSet(a) <= S && Beside(r, G, G', L, l, l', D, S, Vars(a))
    ensures Moved(G, G', l, l', InterpAction(r, sigma, G, L, l, a), InterpAction(r, sigma, G', L, l', a), N, D, S)
  {
    N := Empty(|l|);
    BesideLess(r, G, G', L, l, l', D, S, Vars(a), {});
    match a
    case Fail(_) =>
    case Var(_, m) => assert m in Vars(a); MovedRefl(r, G, G', L, l, l', G[m], D, S);
    case Cst(cst) => MovedRefl(r, G, G', L, l, l', cst, D, S);
    case Read(p, idx) =>
      assert (idx, Reading(p)) in AccessSet(a);
      SameChecks(r, G, G', L, l, l', D, S, idx, p);
      N := MovedPush(r, G, G', L, l, l', idx, Rd(p), ReadValue(r, L, l, p, idx), D, S);
  }

  /** Two actions in a row. */
  lemma {:induction false} FrameTwo(r: RegFile, sigma: ExtFun, G: Ctx, G': Ctx, L: Log, l: Log, l': Log, a: Action, b: Action,
                                    whole: Action, D: set<nat>, S: set<Event>) returns (N: Log)
    requires a < whole && b < whole
    requires Scoped(a, |r|, |G|) && Scoped(b, |r|, |G|) && AccessSet(a) + AccessSet(b) <= S
    requires Beside(r, G, G', L, l, l', D, S, Vars(a) + Vars(b)) && |G'| == |G| && |l'| == |l| == |L| == |r|
    ensures var (o, o') := (InterpAction(r, sigma, G, L, l, a), InterpAction(r, sigma, G', L, l', a));
            if o.Failed? then o'.Failed?
            else o'.Ok? && o'.val == o.val &&
                 Moved(G, G', l, l', InterpAction(r, sigma, o.ctx, L, o.log, b), InterpAction(r, sigma, o'.ctx, L, o'.log, b), N, D, S)
    decreases whole, 0
  {
    hide Beside, Moved, MovedCtx, BlindLogs, From, InterpAction, App;
    BesideLess(r, G, G', L, l, l', D, S, Vars(a) + Vars(b), Vars(a));
    var N1 := Frame(r, sigma, G, G', L, l, l', a, D, S);
    var (o, o') := (InterpAction(r, sigma, G, L, l, a), InterpAction(r, sigma, G', L, l', a));
    MovedFacts(G, G', l, l', o, o', N1, D, S);
    N := Empty(|l|);
    if o.Ok? {
      MovedBeside(r, G, G', L, l, l', o, o', N1, D, S, Vars(a) + Vars(b));
      BesideLess(r, o.ctx, o'.ctx, L, o.log, o'.log, D, S, Vars(a) + Vars(b), Vars(b));
      var N2 := Frame(r, sigma, o.ctx, o'.ctx, L, o.log, o'.log, b, D, S);
      var (q, q') := (InterpAction(r, sigma, o.ctx, L, o.log, b), InterpAction(r, sigma, o'.ctx, L, o'.log, b));
      MovedFacts(o.ctx, o'.ctx, o.log, o'.log, q, q', N2, D, S);
      if q.Ok? {
        MovedThen(G, G', l, l', o, o', N1, q, q', N2, D, S);
        N := App(N2, N1);
      } else {
        MovedFailed(G, G', l, l', q, q', N, D, S);
      }
    }
  }

  lemma {:induction false} MovedFailed(G: Ctx, G': Ctx, l: Log, l': Log, o: Outcome, o': Outcome, N: Log, D: set<nat>, S: set<Event>)
    requires o.Failed? && o'.Failed?
    ensures Moved(G, G', l, l', o, o', N, D, S)
  {
  }

  lemma {:induction false} FrameSeq(r: RegFile, sigma: ExtFun, G: Ctx, G': Ctx, L: Log, l: Log, l': Log, a: Action,
                                    D: set<nat>, S: set<Event>) returns (N: Log)
    requires a.Seq? && Scoped(a, |r|, |G|) && AccessSet(a) <= S && Beside(r, G, G', L, l, l', D, S, Vars(a))
    requires |G'| == |G| && |l'| == |l| == |L| == |r|
    ensures Moved(G, G', l, l', InterpAction(r, sigma, G, L, l, a), InterpAction(r, sigma, G', L, l', a), N, D, S)
    decreases a, 1
  {
    hide Beside, Moved, MovedCtx, BlindLogs, From;
    N := FrameTwo(r, sigma, G, G', L, l, l', a.r1, a.r2, a, D, S);
    if InterpAction(r, sigma, G, L, l, a.r1).Failed? { MovedFailed(G, G', l, l', Failed, Failed, N, D, S); }
  }

  lemma {:induction false} FrameBinop(r: RegFile, sigma: ExtFun, G: Ctx, G': Ctx, L: Log, l: Log, l': Log, a: Action,
                                      D: set<nat>, S: set<Event>) returns (N: Log)
    requires a.Binop? && Scoped(a, |r|, |G|) && AccessSet(a) <= S && Beside(r, G, G', L, l, l', D, S, Vars(a))
    requires |G'| == |G| && |l'| == |l| == |L| == |r|
    ensures Moved(G, G', l, l', InterpAction(r, sigma, G, L, l, a), InterpAction(r, sigma, G', L, l', a), N, D, S)
    decreases a, 1
  {
    hide Beside, Moved, MovedCtx, BlindLogs, From;
    N := FrameTwo(r, sigma, G, G', L, l, l', a.arg1, a.arg2, a, D, S);
    var (o, o') := (InterpAction(r, sigma, G, L, l, a.arg1), InterpAction(r, sigma, G', L, l', a.arg1));
    if o.Ok? {
      var (q, q') := (InterpAction(r, sigma, o.ctx, L, o.log, a.arg2), InterpAction(r, sigma, o'.ctx, L, o'.log, a.arg2));
      MovedFacts(G, G', l, l', q, q', N, D, S);
      if q.Ok? {
        MovedValue(G, G', l, l', q, q', Sigma2(a.fn2, o.val, q.val), N, D, S);
      } else {
        MovedFailed(G, G', l, l', Failed, Failed, N, D, S);
      }
    } else {
      MovedFailed(G, G', l, l', Failed, Failed, N, D, S);
    }
  }

  lemma {:induction false} FrameIf(r: RegFile, sigma: ExtFun, G: Ctx, G': Ctx, L: Log, l: Log, l': Log, a: Action,
                                   D: set<nat>, S: set<Event>) returns (N: Log)
    requires a.If? && Scoped(a, |r|, |G|) && AccessSet(a) <= S && Beside(r, G, G', L, l, l', D, S, Vars(a))
    requires |G'| == |G| && |l'| == |l| == |L| == |r|
    ensures Moved(G, G', l, l', InterpAction(r, sigma, G, L, l, a), InterpAction(r, sigma, G', L, l', a), N, D, S)
    decreases a, 1
  {
    hide Beside, Moved, MovedCtx, BlindLogs, From;
    var o := InterpAction(r, sigma, G, L, l, a.cond);
    var b := if o.Ok? && Single(o.val) then a.tbranch else a.fbranch;
    BesideLess(r, G, G', L, l, l', D, S, Vars(a), Vars(a.cond) + Vars(b));
    N := FrameTwo(r, sigma, G, G', L, l, l', a.cond, b, a, D, S);
    if o.Failed? { MovedFailed(G, G', l, l', Failed, Failed, N, D, S); }
  }

  lemma {:induction false} FrameBind(r: RegFile, sigma: ExtFun, G: Ctx, G': Ctx, L: Log, l: Log, l': Log, a: Action,
                                     D: set<nat>, S: set<Event>) returns (N: Log)
    requires a.Bind? && Scoped(a, |r|, |G|) && AccessSet(a) <= S && Beside(r, G, G', L, l, l', D, S, Vars(a))
    requires |G'| == |G| && |l'| == |l| == |L| == |r|
    ensures Moved(G, G', l, l', InterpAction(r, sigma, G, L, l, a), InterpAction(r, sigma, G', L, l', a), N, D, S)
    decreases a, 1
  {
    hide Beside, Moved, MovedCtx, BlindLogs, From, App;
    var ex, body := a.ex, a.body;
    BesideLess(r, G, G', L, l, l', D, S, Vars(a), Vars(ex));
    var N1 := Frame(r, sigma, G, G', L, l, l', ex, D, S);
    var (o, o') := (InterpAction(r, sigma, G, L, l, ex), InterpAction(r, sigma, G', L, l', ex));
    MovedFacts(G, G', l, l', o, o', N1, D, S);
    N := Empty(|l|);
    if o.Ok? {
      MovedBeside(r, G, G', L, l, l', o, o', N1, D, S, Vars(a));
      BesideLess(r, o.ctx, o'.ctx, L, o.log, o'.log, D, S, Vars(a), Outer(Vars(body)));
      BesideInner(r, o.val, o.ctx, o'.ctx, L, o.log, o'.log, D, S, Vars(body));
      var N2 := Frame(r, sigma, [o.val] + o.ctx, [o.val] + o'.ctx, L, o.log, o'.log, body, Inner(D), S);
      var (q, q') := (InterpAction(r, sigma, [o.val] + o.ctx, L, o.log, body),
                      InterpAction(r, sigma, [o.val] + o'.ctx, L, o'.log, body));
      MovedFacts([o.val] + o.ctx, [o.val] + o'.ctx, o.log, o'.log, q, q', N2, Inner(D), S);
      if q.Ok? {
        MovedBody(o.val, o.ctx, o'.ctx, o.log, o'.log, q, q', N2, D, S);
        MovedThen(G, G', l, l', o, o', N1, Ok(q.log, q.val, q.ctx[1..]), Ok(q'.log, q'.val, q'.ctx[1..]), N2, D, S);
        N := App(N2, N1);
      } else {
        MovedFailed(G, G', l, l', Failed, Failed, N, D, S);
      }
    } else {
      MovedFailed(G, G', l, l', Failed, Failed, N, D, S);
    }
  }

  lemma {:induction false} FrameUnary(r: RegFile, sigma: ExtFun, G: Ctx, G': Ctx, L: Log, l: Log, l': Log, a: Action,
                                      D: set<nat>, S: set<Event>) returns (N: Log)
    requires a.Assign? || a.Write? || a.Unop? || a.ExternalCall?
    requires Scoped(a, |r|, |G|) && AccessSet(a) <= S && Beside(r, G, G', L, l, l', D, S, Vars(a))
    requires |G'| == |G| && |l'| == |l| == |L| == |r|
    ensures Moved(G, G', l, l', InterpAction(r, sigma, G, L, l, a), InterpAction(r, sigma, G', L, l', a), N, D, S)
    decreases a, 1
  {
    hide Moved, MovedCtx, BlindLogs, From, App, Push, MayWrite;
    var b := if a.Assign? then a.ex else if a.Write? then a.value else a.arg;
    BesideLess(r, G, G', L, l, l', D, S, Vars(a), Vars(b));
    N := Frame(r, sigma, G, G', L, l, l', b, D, S);
    var (o, o') := (InterpAction(r, sigma, G, L, l, b), InterpAction(r, sigma, G', L, l', b));
    MovedFacts(G, G', l, l', o, o', N, D, S);
    if o.Failed? {
      MovedFailed(G, G', l, l', Failed, Failed, N, D, S);
    } else {
      match a
      case Assign(_, m, _) => assert m in Vars(a); MovedAssign(G, G', l, l', o, o', m, N, D, S);
      case Unop(fn, _) => MovedValue(G, G', l, l', o, o', Sigma1(fn, o.val), N, D, S);
      case ExternalCall(ext, _) => MovedValue(G, G', l, l', o, o', sigma(ext, o.val), N, D, S);
      case Write(p, idx, _) =>
        assert (idx, Writing(p)) in AccessSet(a);
        MovedBeside(r, G, G', L, l, l', o, o', N, D, S, Vars(b));
        BesideLess(r, o.ctx, o'.ctx, L, o.log, o'.log, D, S, Vars(b), {});
        SameChecks(r, o.ctx, o'.ctx, L, o.log, o'.log, D, S, idx, p);
        if MayWrite(L, o.log, p, idx) {
          var N2 := MovedPush(r, o.ctx, o'.ctx, L, o.log, o'.log, idx, Wr(p, o.val), [], D, S);
          MovedThen(G, G', l, l', o, o', N, Ok(Push(o.log, idx, Wr(p, o.val)), [], o.ctx),
                    Ok(Push(o'.log, idx, Wr(p, o.val)), [], o'.ctx), N2, D, S);
          N := App(N2, N);
        } else {
          MovedFailed(G, G', l, l', Failed, Failed, N, D, S);
        }
    }
  }

  /** The same for argument lists. */
  ghost predicate MovedArgs(G: Ctx, G': Ctx, l: Log, l': Log, o: ArgsOutcome, o': ArgsOutcome, N: Log, D: set<nat>, S: set<Event>) {
    if o.ArgsFailed? then o'.ArgsFailed?
    else o'.ArgsOk? && o'.vals == o.vals && Moved(G, G', l, l', Ok(o.log, [], o.ctx), Ok(o'.log, [], o'.ctx), N, D, S)
  }

  lemma {:induction false} FrameArgs(r: RegFile, sigma: ExtFun, G: Ctx, G': Ctx, L: Log, l: Log, l': Log, args: Args,
                                     D: set<nat>, S: set<Event>) returns (N: Log)
    requires ScopedArgs(args, |r|, |G|) && ArgsAccessSet(args) <= S && Beside(r, G, G', L, l, l', D, S, ArgsVars(args))
    requires |G'| == |G| && |l'| == |l| == |L| == |r|
    ensures MovedArgs(G, G', l, l', InterpArgs(r, sigma, G, L, l, args), InterpArgs(r, sigma, G', L, l', args), N, D, S)
    decreases args
  {
    hide Moved, MovedCtx, BlindLogs, From, App;
    N := Empty(|l|);
    match args
    case NoArgs =>
      BesideLess(r, G, G', L, l, l', D, S, ArgsVars(args), {});
      MovedRefl(r, G, G', L, l, l', [], D, S);
    case MoreArgs(_, _, arg, rest) =>
      BesideLess(r, G, G', L, l, l', D, S, ArgsVars(args), ArgsVars(rest));
      var N1 := FrameArgs(r, sigma, G, G', L, l, l', rest, D, S);
      var (o, o') := (InterpArgs(r, sigma, G, L, l, rest), InterpArgs(r, sigma, G', L, l', rest));
      if o.ArgsOk? {
        var (x, x') := (Ok(o.log, [], o.ctx), Ok(o'.log, [], o'.ctx));
        MovedFacts(G, G', l, l', x, x', N1, D, S);
        MovedBeside(r, G, G', L, l, l', x, x', N1, D, S, ArgsVars(args));
        BesideLess(r, o.ctx, o'.ctx, L, o.log, o'.log, D, S, ArgsVars(args), Vars(arg));
        var N2 := Frame(r, sigma, o.ctx, o'.ctx, L, o.log, o'.log, arg, D, S);
        var (q, q') := (InterpAction(r, sigma, o.ctx, L, o.log, arg), InterpAction(r, sigma, o'.ctx, L, o'.log, arg));
        MovedFacts(o.ctx, o'.ctx, o.log, o'.log, q, q', N2, D, S);
        if q.Ok? {
          MovedThen(G, G', l, l', x, x', N1, q, q', N2, D, S);
          N := App(N2, N1);
          MovedValue(G, G', l, l', q, q', [], N, D, S);
        }
      }
  }

  lemma {:induction false} FrameCall(r: RegFile, sigma: ExtFun, G: Ctx, G': Ctx, L: Log, l: Log, l': Log, a: Action,
                                     D: set<nat>, S: set<Event>) returns (N: Log)
    requires a.InternalCall? && Scoped(a, |r|, |G|) && AccessSet(a) <= S && Beside(r, G, G', L, l, l', D, S, Vars(a))
    requires |G'| == |G| && |l'| == |l| == |L| == |r|
    ensures Moved(G, G', l, l', InterpAction(r, sigma, G, L, l, a), InterpAction(r, sigma, G', L, l', a), N, D, S)
    decreases a, 1
  {
    hide Moved, MovedCtx, BlindLogs, From, App;
    var N1 := FrameArgs(r, sigma, G, G', L, l, l', a.args, D, S);
    var (o, o') := (InterpArgs(r, sigma, G, L, l, a.args), InterpArgs(r, sigma, G', L, l', a.args));
    N := Empty(|l|);
    if o.ArgsOk? {
      var (x, x') := (Ok(o.log, [], o.ctx), Ok(o'.log, [], o'.ctx));
      MovedFacts(G, G', l, l', x, x', N1, D, S);
      MovedBeside(r, G, G', L, l, l', x, x', N1, D, S, Vars(a));
      BodyBeside(r, o.ctx, o'.ctx, o.vals, L, o.log, o'.log, D, S, Vars(a), Vars(a.body));
      var N2 := Frame(r, sigma, o.vals, o.vals, L, o.log, o'.log, a.body, {}, S);
      var (q, q') := (InterpAction(r, sigma, o.vals, L, o.log, a.body), InterpAction(r, sigma, o.vals, L, o'.log, a.body));
      MovedFacts(o.vals, o.vals, o.log, o'.log, q, q', N2, {}, S);
      if q.Ok? {
        MovedCaller(o.ctx, o'.ctx, o.vals, G, G', l, l', x, x', N1, q, q', N2, D, S);
        N := App(N2, N1);
      } else {
        MovedFailed(G, G', l, l', Failed, Failed, N, D, S);
      }
    } else {
      MovedFailed(G, G', l, l', Failed, Failed, N, D, S);
    }
  }

  lemma BodyBeside(r: RegFile, G: Ctx, G': Ctx, vals: Ctx, L: Log, l: Log, l': Log, D: set<nat>, S: set<Event>, V: set<nat>, V': set<nat>)
    requires Beside(r, G, G', L, l, l', D, S, V)
    ensures Beside(r, vals, vals, L, l, l', {}, S, V')
  {
  }

  /** A call's body adds its events; the caller's variables are those after the arguments. */
  lemma {:induction false} MovedCaller(H: Ctx, H': Ctx, vals: Ctx, G: Ctx, G': Ctx, l: Log, l': Log, x: Outcome, x': Outcome, N1: Log,
                                       q: Outcome, q': Outcome, N2: Log, D: set<nat>, S: set<Event>)
    requires x.Ok? && x'.Ok? && x.ctx == H && x'.ctx == H' && Moved(G, G', l, l', x, x', N1, D, S)
    requires q.Ok? && Moved(vals, vals, x.log, x'.log, q, q', N2, {}, S)
    ensures Moved(G, G', l, l', Ok(q.log, q.val, H), Ok(q'.log, q'.val, H'), App(N2, N1), D, S)
  {
    AppAssoc(N2, N1, l);
    AppAssoc(N2, N1, l');
    FromApp(S, N1, N2);
  }

  // ----- independent arguments -----

  /** Neither argument assigns a variable of the other, and no access of one clashes
      with one of the other. */
  predicate Independent(A: set<Event>, assignedA: set<nat>, varsA: set<nat>, B: set<Event>, assignedB: set<nat>, varsB: set<nat>) {
    NoClash(A, B) && assignedA !! varsB && assignedB !! varsA
  }

  predicate ArgsIndependent(args: Args) {
    match args
    case NoArgs => true
    case MoreArgs(_, _, arg, rest) =>
      && Independent(AccessSet(arg), Assigned(arg), Vars(arg), ArgsAccessSet(rest), ArgsAssigned(rest), ArgsVars(rest))
      && ArgsIndependent(rest)
  }

  function ArgAt(args: Args, k: nat): Action
    requires k < ArgCount(args)
  {
    if k == 0 then args.arg else ArgAt(args.rest, k - 1)
  }

  /** No two of their accesses to one register clash, and neither assigns a variable that
      the other mentions. */
  predicate Apart(a: Action, b: Action) {
    && (forall x, y :: x in AccessSet(a) && y in AccessSet(b) && x.0 == y.0 ==> !Clash(x.1, y.1))
    && (forall m :: m in Assigned(a) ==> m !in Vars(b)) && (forall m :: m in Assigned(b) ==> m !in Vars(a))
  }

  ghost predicate AllApart(a: Action, args: Args) { forall k: nat :: k < ArgCount(args) ==> Apart(a, ArgAt(args, k)) }

  ghost predicate Pairwise(args: Args) {
    forall j: nat, k: nat :: j < k < ArgCount(args) ==> Apart(ArgAt(args, j), ArgAt(args, k))
  }

  lemma AllApartStep(a: Action, args: Args)
    requires args.MoreArgs?
    ensures AllApart(a, args) <==> Apart(a, args.arg) && AllApart(a, args.rest)
  {
    hide Apart;
    assert ArgAt(args, 0) == args.arg;
    if AllApart(a, args) {
      forall k: nat | k < ArgCount(args.rest) ensures Apart(a, ArgAt(args.rest, k)) { assert Apart(a, ArgAt(args, k + 1)); }
    }
    if Apart(a, args.arg) && AllApart(a, args.rest) {
      forall k: nat | k < ArgCount(args) ensures Apart(a, ArgAt(args, k)) {
        if k > 0 { assert Apart(a, ArgAt(args.rest, k - 1)); }
      }
    }
  }

  lemma PairwiseStep(args: Args)
    requires args.MoreArgs?
    ensures Pairwise(args) <==> AllApart(args.arg, args.rest) && Pairwise(args.rest)
  {
    hide Apart;
    assert ArgAt(args, 0) == args.arg;
    if Pairwise(args) {
      forall k: nat | k < ArgCount(args.rest) ensures Apart(args.arg, ArgAt(args.rest, k)) {
        assert Apart(ArgAt(args, 0), ArgAt(args, k + 1));
      }
      forall j: nat, k: nat | j < k < ArgCount(args.rest) ensures Apart(ArgAt(args.rest, j), ArgAt(args.rest, k)) {
        assert Apart(ArgAt(args, j + 1), ArgAt(args, k + 1));
      }
    }
    if AllApart(args.arg, args.rest) && Pairwise(args.rest) {
      forall j: nat, k: nat | j < k < ArgCount(args) ensures Apart(ArgAt(args, j), ArgAt(args, k)) {
        if j > 0 {
          assert Apart(ArgAt(args.rest, j - 1), ArgAt(args.rest, k - 1));
        } else {
          assert Apart(args.arg, ArgAt(args.rest, k - 1));
        }
      }
    }
  }

  /** Arguments are independent of all later ones exactly when any two of them are. */
  lemma {:induction false} IndependentPairwise(args: Args)
    ensures ArgsIndependent(args) <==> Pairwise(args)
    decreases args
  {
    hide AllApart, Independent;
    if args.MoreArgs? {
      hide Pairwise;
      IndependentPairwise(args.rest);
      ApartFromAll(args.arg, args.rest);
      PairwiseStep(args);
    }
  }

  lemma {:induction false} ApartFromAll(a: Action, args: Args)
    ensures Independent(AccessSet(a), Assigned(a), Vars(a), ArgsAccessSet(args), ArgsAssigned(args), ArgsVars(args)) <==>
            AllApart(a, args)
    decreases args
  {
    if args.MoreArgs? {
      hide Apart, AllApart, Independent;
      ApartFromAll(a, args.rest);
      AllApartStep(a, args);
      ApartStep(a, args);
    }
  }

  lemma {:induction false} ApartStep(a: Action, args: Args)
    requires args.MoreArgs?
    ensures Independent(AccessSet(a), Assigned(a), Vars(a), ArgsAccessSet(args), ArgsAssigned(args), ArgsVars(args)) <==>
            Apart(a, args.arg) &&
            Independent(AccessSet(a), Assigned(a), Vars(a), ArgsAccessSet(args.rest), ArgsAssigned(args.rest), ArgsVars(args.rest))
  {
    NoClashUnion(AccessSet(a), AccessSet(args.arg), ArgsAccessSet(args.rest));
  }

  lemma NoClashUnion(A: set<Event>, B: set<Event>, C: set<Event>)
    ensures NoClash(A, B + C) <==> NoClash(A, B) && NoClash(A, C)
  {
  }

  /** Reads and writes in `N` are accesses of `S`. */
  lemma FromAccesses(S: set<Event>, N: Log, i: nat)
    requires From(S, N) && i < |N|
    ensures forall p :: HasRead(N[i], p) ==> (i, Reading(p)) in S
    ensures forall p :: HasWrite(N[i], p) || LatestAt(N[i], p).Some? ==> (i, Writing(p)) in S
  {
    forall p | HasRead(N[i], p) ensures (i, Reading(p)) in S {
      var k :| 0 <= k < |N[i]| && N[i][k] == Rd(p);
      assert EventOf(i, N[i][k]) == (i, Reading(p));
    }
    forall p: Port | HasWrite(N[i], p) || LatestAt(N[i], p).Some? ensures (i, Writing(p)) in S {
      LatestAtIffHasWrite(N[i], p);
      var e :| e in N[i] && e.Wr? && e.port == p;
      var k :| 0 <= k < |N[i]| && N[i][k] == e;
      assert EventOf(i, N[i][k]) == (i, Writing(p));
    }
  }

  /** An action does not notice the events of an independent one. */
  lemma {:induction false} BlindToOthers(A: set<Event>, B: set<Event>, N: Log, l: Log)
    requires NoClash(A, B) && From(A, N) && |N| == |l|
    ensures BlindLogs(B, l, App(N, l))
  {
    forall i | 0 <= i < |l| ensures Blind(B, i, l[i], App(N, l)[i]) {
      FromAccesses(A, N, i);
      AppLaws(N[i], l[i]);
      assert (i, Reading(P1)) in B ==> (i, Writing(P0)) !in A by { assert Clash(Writing(P0), Reading(P1)); }
      assert (i, Writing(P0)) in B ==> (i, Reading(P1)) !in A && (i, Writing(P0)) !in A && (i, Writing(P1)) !in A by {
        assert Clash(Reading(P1), Writing(P0)) && Clash(Writing(P0), Writing(P0)) && Clash(Writing(P1), Writing(P0));
      }
      assert (i, Writing(P1)) in B ==> (i, Writing(P0)) !in A && (i, Writing(P1)) !in A by {
        assert Clash(Writing(P0), Writing(P1)) && Clash(Writing(P1), Writing(P1));
      }
    }
  }

  /** The events of two independent actions answer alike in either order. */
  lemma {:induction false} EitherOrder(A: set<Event>, B: set<Event>, N: Log, M: Log, l: Log)
    requires NoClash(A, B) && From(A, N) && From(B, M) && |N| == |M| == |l|
    ensures AlikeLogs(App(N, App(M, l)), App(M, App(N, l)))
  {
    forall i | 0 <= i < |l| ensures Alike(App(N, App(M, l))[i], App(M, App(N, l))[i]) {
      var (n, m, x) := (N[i], M[i], l[i]);
      FromAccesses(A, N, i);
      FromAccesses(B, M, i);
      assert (HasWrite(n, P0) || HasWrite(n, P1)) ==> !HasWrite(m, P0) && !HasWrite(m, P1) by {
        assert forall p, q: Port :: Clash(Writing(p), Writing(q));
      }
      AppLaws(n, m);
      AppLaws(m, n);
      LatestIffHasWrite(n);
      LatestIffHasWrite(m);
      assert Alike(n + m, m + n);
      AlikeApp(n + m, m + n, x);
      assert n + (m + x) == (n + m) + x && m + (n + x) == (m + n) + x;
    }
  }

  lemma AlikeTrans(l: Log, l': Log, l'': Log)
    requires AlikeLogs(l, l') && AlikeLogs(l', l'')
    ensures AlikeLogs(l, l'')
  {
  }

  lemma AlikeRefl(l: Log)
    ensures AlikeLogs(l, l)
  {
  }

  /** What two independent parts leave in the variables, whichever goes first: each
      ends as its own run leaves it. */
  lemma CtxEitherOrder(G: Ctx, GA: Ctx, GB: Ctx, GAB: Ctx, GBA: Ctx, assignedA: set<nat>, assignedB: set<nat>)
    requires assignedA !! assignedB
    requires SameOutside(assignedA, G, GA) && SameOutside(assignedB, G, GB)
    requires MovedCtx(G, GA, GB, GAB, assignedA) && MovedCtx(G, GB, GA, GBA, assignedB)
    ensures GAB == GBA
  {
  }

  /** With independent arguments the two orders cannot be told apart: they fail
      together, or give the same values and variables and logs that answer alike. */
  lemma {:induction false} ForwardAgrees(r: RegFile, sigma: ExtFun, G: Ctx, L: Log, l: Log, args: Args)
    requires ScopedArgs(args, |r|, |G|) && |L| == |l| == |r| && ArgsIndependent(args)
    ensures SameArgs(InterpArgs(r, sigma, G, L, l, args), InterpArgsForward(r, sigma, G, L, l, args))
    decreases args
  {
    hide NoClash, AlikeLogs, BlindLogs, From, App, SameOutside, MovedCtx;
    match args
    case NoArgs => AlikeRefl(l);
    case MoreArgs(_, _, arg, rest) =>
      var (o, q) := (InterpAction(r, sigma, G, L, l, arg), InterpArgs(r, sigma, G, L, l, rest));
      if o.Ok? {
        ForwardAgrees(r, sigma, o.ctx, L, o.log, rest);
      }
      if o.Ok? && q.ArgsOk? {
        BothSucceed(r, sigma, G, L, l, arg, rest);
        var q' := InterpArgs(r, sigma, o.ctx, L, o.log, rest);
        var o' := InterpAction(r, sigma, q.ctx, L, q.log, arg);
        AlikeTrans(o'.log, q'.log, InterpArgsForward(r, sigma, o.ctx, L, o.log, rest).log);
      } else if o.Ok? {
        var _ := RestAfter(r, sigma, G, L, l, arg, rest);
      } else if q.ArgsOk? {
        var _ := FirstAfter(r, sigma, G, L, l, arg, rest);
      }
  }

  lemma OwnEvents(r: RegFile, sigma: ExtFun, G: Ctx, L: Log, l: Log, a: Action) returns (N: Log)
    requires Scoped(a, |r|, |G|) && |L| == |l| == |r|
    ensures var o := InterpAction(r, sigma, G, L, l, a);
            o.Ok? ==> |N| == |l| && o.log == App(N, l) && From(AccessSet(a), N)
  {
    N := Frame(r, sigma, G, G, L, l, l, a, {}, AccessSet(a));
  }

  lemma OwnArgsEvents(r: RegFile, sigma: ExtFun, G: Ctx, L: Log, l: Log, args: Args) returns (N: Log)
    requires ScopedArgs(args, |r|, |G|) && |L| == |l| == |r|
    ensures var o := InterpArgs(r, sigma, G, L, l, args);
            o.ArgsOk? ==> |N| == |l| && o.log == App(N, l) && From(ArgsAccessSet(args), N)
  {
    N := FrameArgs(r, sigma, G, G, L, l, l, args, {}, ArgsAccessSet(args));
  }

  /** The rest of the arguments does the same after the first one. */
  lemma {:induction false} RestAfter(r: RegFile, sigma: ExtFun, G: Ctx, L: Log, l: Log, arg: Action, rest: Args) returns (M: Log)
    requires Scoped(arg, |r|, |G|) && ScopedArgs(rest, |r|, |G|) && |L| == |l| == |r|
    requires Independent(AccessSet(arg), Assigned(arg), Vars(arg), ArgsAccessSet(rest), ArgsAssigned(rest), ArgsVars(rest))
    requires InterpAction(r, sigma, G, L, l, arg).Ok?
    ensures var o := InterpAction(r, sigma, G, L, l, arg);
            MovedArgs(G, o.ctx, l, o.log, InterpArgs(r, sigma, G, L, l, rest), InterpArgs(r, sigma, o.ctx, L, o.log, rest),
                      M, Assigned(arg), ArgsAccessSet(rest))
  {
    var o := InterpAction(r, sigma, G, L, l, arg);
    var N := OwnEvents(r, sigma, G, L, l, arg);
    AssignedOnly(r, sigma, G, L, l, arg);
    BlindToOthers(AccessSet(arg), ArgsAccessSet(rest), N, l);
    M := FrameArgs(r, sigma, G, o.ctx, L, l, o.log, rest, Assigned(arg), ArgsAccessSet(rest));
  }

  lemma NoClashSym(A: set<Event>, B: set<Event>)
    requires NoClash(A, B)
    ensures NoClash(B, A)
  {
    forall x, y | x in B && y in A && x.0 == y.0 ensures !Clash(x.1, y.1) { assert !Clash(y.1, x.1); }
  }

  /** The first argument does the same after the rest. */
  lemma {:induction false} FirstAfter(r: RegFile, sigma: ExtFun, G: Ctx, L: Log, l: Log, arg: Action, rest: Args) returns (N: Log)
    requires Scoped(arg, |r|, |G|) && ScopedArgs(rest, |r|, |G|) && |L| == |l| == |r|
    requires Independent(AccessSet(arg), Assigned(arg), Vars(arg), ArgsAccessSet(rest), ArgsAssigned(rest), ArgsVars(rest))
    requires InterpArgs(r, sigma, G, L, l, rest).ArgsOk?
    ensures var q := InterpArgs(r, sigma, G, L, l, rest);
            Moved(G, q.ctx, l, q.log, InterpAction(r, sigma, G, L, l, arg), InterpAction(r, sigma, q.ctx, L, q.log, arg),
                  N, ArgsAssigned(rest), AccessSet(arg))
  {
    var q := InterpArgs(r, sigma, G, L, l, rest);
    var M := OwnArgsEvents(r, sigma, G, L, l, rest);
    ArgsAssignedOnly(r, sigma, G, L, l, rest);
    NoClashSym(AccessSet(arg), ArgsAccessSet(rest));
    BlindToOthers(ArgsAccessSet(rest), AccessSet(arg), M, l);
    N := Frame(r, sigma, G, q.ctx, L, l, q.log, arg, ArgsAssigned(rest), AccessSet(arg));
  }

  lemma {:induction false} BothSucceed(r: RegFile, sigma: ExtFun, G: Ctx, L: Log, l: Log, arg: Action, rest: Args)
    requires Scoped(arg, |r|, |G|) && ScopedArgs(rest, |r|, |G|) && |L| == |l| == |r|
    requires Independent(AccessSet(arg), Assigned(arg), Vars(arg), ArgsAccessSet(rest), ArgsAssigned(rest), ArgsVars(rest))
    requires InterpAction(r, sigma, G, L, l, arg).Ok? && InterpArgs(r, sigma, G, L, l, rest).ArgsOk?
    ensures var (o, q) := (InterpAction(r, sigma, G, L, l, arg), InterpArgs(r, sigma, G, L, l, rest));
            var (o', q') := (InterpAction(r, sigma, q.ctx, L, q.log, arg), InterpArgs(r, sigma, o.ctx, L, o.log, rest));
            && o'.Ok? && q'.ArgsOk? && o'.val == o.val && q'.vals == q.vals
            && o'.ctx == q'.ctx && AlikeLogs(o'.log, q'.log)
  {
    hide NoClash, AlikeLogs, BlindLogs, From, App, SameOutside, MovedCtx, InterpAction, InterpArgs;
    var (o, q) := (InterpAction(r, sigma, G, L, l, arg), InterpArgs(r, sigma, G, L, l, rest));
    var M := RestAfter(r, sigma, G, L, l, arg, rest);
    var N := FirstAfter(r, sigma, G, L, l, arg, rest);
    var (o', q') := (InterpAction(r, sigma, q.ctx, L, q.log, arg), InterpArgs(r, sigma, o.ctx, L, o.log, rest));
    EitherOrder(AccessSet(arg), ArgsAccessSet(rest), N, M, l);
    AssignedOnly(r, sigma, G, L, l, arg);
    ArgsAssignedOnly(r, sigma, G, L, l, rest);
    AssignedIsVar(arg);
    CtxEitherOrder(G, o.ctx, q.ctx, q'.ctx, o'.ctx, Assigned(arg), ArgsAssigned(rest));
  }

  // ----- exactly, for single accesses -----

  function OneAccess(e: Access, idx: nat, v: Bits): (a: Action)
    ensures forall n: nat, vars: nat :: idx < n ==> Scoped(a, n, vars)
  {
    assert forall n: nat, vars: nat :: Scoped(Cst(v), n, vars);
    match e
    case Reading(p) => Read(p, idx)
    case Writing(p) => Write(p, idx, Cst(v))
  }

  function TwoArgs(a: Action, b: Action): (args: Args)
    ensures forall n: nat, vars: nat :: Scoped(a, n, vars) && Scoped(b, n, vars) ==> ScopedArgs(args, n, vars)
  {
    var rest := MoreArgs("y", 0, b, NoArgs);
    assert forall n: nat, vars: nat :: Scoped(b, n, vars) ==> ScopedArgs(rest, n, vars);
    MoreArgs("x", 0, a, rest)
  }

  /** Both orders of two arguments, spelled out. */
  lemma {:induction false} TwoArgsMeaning(r: RegFile, sigma: ExtFun, L: Log, l: Log, a: Action, b: Action)
    requires Scoped(a, |r|, 0) && Scoped(b, |r|, 0) && |L| == |l| == |r|
    ensures InterpArgs(r, sigma, [], L, l, TwoArgs(a, b)) ==
            match InterpAction(r, sigma, [], L, l, b)
            case Failed => ArgsFailed
            case Ok(l, y, G) =>
              match InterpAction(r, sigma, G, L, l, a)
              case Failed => ArgsFailed
              case Ok(l, x, G) => ArgsOk(l, [x, y], G)
    ensures InterpArgsForward(r, sigma, [], L, l, TwoArgs(a, b)) ==
            match InterpAction(r, sigma, [], L, l, a)
            case Failed => ArgsFailed
            case Ok(l, x, G) =>
              match InterpAction(r, sigma, G, L, l, b)
              case Failed => ArgsFailed
              case Ok(l, y, G) => ArgsOk(l, [x, y], G)
  {
    hide InterpAction;
    var rest := MoreArgs("y", 0, b, NoArgs);
    assert InterpArgs(r, sigma, [], L, l, NoArgs) == ArgsOk(l, [], []);
    assert ScopedArgs(rest, |r|, 0);
    var o := InterpAction(r, sigma, [], L, l, b);
    assert o.Ok? ==> [o.val] + [] == [o.val];
    var q := InterpAction(r, sigma, [], L, l, a);
    if q.Ok? {
      assert InterpArgsForward(r, sigma, q.ctx, L, q.log, rest) ==
        match InterpAction(r, sigma, q.ctx, L, q.log, b) case Failed => ArgsFailed case Ok(l, y, G) => ArgsOk(l, [y], G);
    }
  }

  /** A write at port 0 goes before a port-1 access or not at all. */
  predicate OneWayOnly(e: Access, f: Access) {
    || (e == Writing(P0) && (f == Reading(P1) || f == Writing(P1)))
    || (f == Writing(P0) && (e == Reading(P1) || e == Writing(P1)))
  }

  ghost predicate OrderImmaterial(a: Action, b: Action, n: nat) {
    forall r: RegFile, sigma: ExtFun, L: Log, l: Log ::
      |r| == |L| == |l| == n && Scoped(a, n, 0) && Scoped(b, n, 0) ==>
        SameArgs(InterpArgs(r, sigma, [], L, l, TwoArgs(a, b)), InterpArgsForward(r, sigma, [], L, l, TwoArgs(a, b)))
  }

  /** Two accesses as arguments may be swapped in every state exactly when they are to
      different registers, or neither is a port-0 write beside a port-1 access. */
  lemma {:induction false} SingleOrderExact(e: Access, f: Access, i: nat, j: nat, v: Bits, w: Bits, n: nat)
    requires i < n && j < n
    ensures OrderImmaterial(OneAccess(e, i, v), OneAccess(f, j, w), n) <==> !(i == j && OneWayOnly(e, f))
  {
    var (a, b) := (OneAccess(e, i, v), OneAccess(f, j, w));
    if i == j && OneWayOnly(e, f) {
      SingleOrderMatters(e, f, i, v, w, n);
    } else {
      forall r: RegFile, sigma: ExtFun, L: Log, l: Log | |r| == |L| == |l| == n
        ensures SameArgs(InterpArgs(r, sigma, [], L, l, TwoArgs(a, b)), InterpArgsForward(r, sigma, [], L, l, TwoArgs(a, b)))
      {
        SingleOrderFree(r, sigma, L, l, e, f, i, j, v, w);
      }
    }
  }

  lemma SingleParts(e: Access, i: nat, v: Bits)
    ensures AccessSet(OneAccess(e, i, v)) == {(i, e)} && Assigned(OneAccess(e, i, v)) == Vars(OneAccess(e, i, v)) == {}
  {
    assert AccessSet(Cst(v)) == {};
  }

  lemma {:induction false} SingleOrderFree(r: RegFile, sigma: ExtFun, L: Log, l: Log, e: Access, f: Access, i: nat, j: nat, v: Bits, w: Bits)
    requires |L| == |l| == |r| && i < |r| && j < |r| && !(i == j && OneWayOnly(e, f))
    ensures ScopedArgs(TwoArgs(OneAccess(e, i, v), OneAccess(f, j, w)), |r|, 0)
    ensures SameArgs(InterpArgs(r, sigma, [], L, l, TwoArgs(OneAccess(e, i, v), OneAccess(f, j, w))),
                     InterpArgsForward(r, sigma, [], L, l, TwoArgs(OneAccess(e, i, v), OneAccess(f, j, w))))
  {
    var (a, b) := (OneAccess(e, i, v), OneAccess(f, j, w));
    var rest := MoreArgs("y", 0, b, NoArgs);
    SingleParts(e, i, v);
    SingleParts(f, j, w);
    if i == j && e.Writing? && f.Writing? {
      assert (e.port == P0 || e.port == P1) && (f.port == P0 || f.port == P1);
      TwiceWritten(r, sigma, L, l, i, e.port, v, w);
      assert e == f == Writing(e.port);
    } else {
      assert ArgsAccessSet(rest) == {(j, f)} && ArgsAssigned(rest) == ArgsVars(rest) == {} by {
        assert ArgsAccessSet(NoArgs) == {} && ArgsAssigned(NoArgs) == {} && ArgsVars(NoArgs) == {};
      }
      assert ArgsIndependent(NoArgs) && ArgsIndependent(rest) by {
        assert Independent(AccessSet(b), Assigned(b), Vars(b), ArgsAccessSet(NoArgs), ArgsAssigned(NoArgs), ArgsVars(NoArgs));
      }
      ForwardAgrees(r, sigma, [], L, l, TwoArgs(a, b));
    }
  }

  /** Two writes at one port fail whichever goes first. */
  lemma {:induction false} TwiceWritten(r: RegFile, sigma: ExtFun, L: Log, l: Log, i: nat, p: Port, v: Bits, w: Bits)
    requires |L| == |l| == |r| && i < |r|
    ensures InterpArgs(r, sigma, [], L, l, TwoArgs(OneAccess(Writing(p), i, v), OneAccess(Writing(p), i, w))).ArgsFailed?
    ensures InterpArgsForward(r, sigma, [], L, l, TwoArgs(OneAccess(Writing(p), i, v), OneAccess(Writing(p), i, w))).ArgsFailed?
  {
    WrittenTwice(L, l, i, p, v);
    WrittenTwice(L, l, i, p, w);
    TwoArgsMeaning(r, sigma, L, l, OneAccess(Writing(p), i, v), OneAccess(Writing(p), i, w));
    WriteMeaning(r, sigma, L, l, i, p, v);
    WriteMeaning(r, sigma, L, l, i, p, w);
    WriteMeaning(r, sigma, L, Push(l, i, Wr(p, w)), i, p, v);
    WriteMeaning(r, sigma, L, Push(l, i, Wr(p, v)), i, p, w);
  }

  lemma {:induction false} WriteMeaning(r: RegFile, sigma: ExtFun, L: Log, l: Log, i: nat, p: Port, v: Bits)
    requires |L| == |l| == |r| && i < |r|
    ensures InterpAction(r, sigma, [], L, l, OneAccess(Writing(p), i, v)) ==
            if MayWrite(L, l, p, i) then Ok(Push(l, i, Wr(p, v)), [], []) else Failed
  {
    assert InterpAction(r, sigma, [], L, l, Cst(v)) == Ok(l, v, []);
  }

  lemma WrittenTwice(L: Log, l: Log, i: nat, p: Port, v: Bits)
    requires |L| == |l| && i < |l|
    ensures !MayWrite(L, Push(l, i, Wr(p, v)), p, i)
  {
    PushLaws(Wr(p, v), l[i]);
    AppLaws([Wr(p, v)] + l[i], L[i]);
  }

  /** From empty logs one order succeeds and the other fails. */
  lemma {:induction false} SingleOrderMatters(e: Access, f: Access, i: nat, v: Bits, w: Bits, n: nat)
    requires i < n && OneWayOnly(e, f)
    ensures !OrderImmaterial(OneAccess(e, i, v), OneAccess(f, i, w), n)
  {
    var r: RegFile := seq(n, k => []);
    var sigma: ExtFun := (x, b) => [];
    var l := Empty(n);
    var (a, b) := (OneAccess(e, i, v), OneAccess(f, i, w));
    assert Scoped(a, n, 0) && Scoped(b, n, 0) by { assert Scoped(Cst(v), n, 0) && Scoped(Cst(w), n, 0); }
    if e == Writing(P0) {
      PortZeroFirst(r, sigma, i, f, v, w);
    } else {
      PortZeroFirst(r, sigma, i, e, w, v);
    }
    TwoArgsMeaning(r, sigma, l, l, a, b);
    assert !SameArgs(InterpArgs(r, sigma, [], l, l, TwoArgs(a, b)), InterpArgsForward(r, sigma, [], l, l, TwoArgs(a, b)));
  }

  lemma {:induction false} PortZeroFirst(r: RegFile, sigma: ExtFun, i: nat, f: Access, v: Bits, w: Bits)
    requires i < |r| && (f == Reading(P1) || f == Writing(P1))
    ensures var l := Empty(|r|);
            var (a, b) := (OneAccess(Writing(P0), i, v), OneAccess(f, i, w));
            var (o, q) := (InterpAction(r, sigma, [], l, l, a), InterpAction(r, sigma, [], l, l, b));
            && o.Ok? && q.Ok? && o.ctx == [] && q.ctx == []
            && InterpAction(r, sigma, [], l, o.log, b).Ok? && InterpAction(r, sigma, [], l, q.log, a).Failed?
  {
    var l := Empty(|r|);
    WriteMeaning(r, sigma, l, l, i, P0, v);
    var l1 := Push(l, i, Wr(P0, v));
    PushLaws(Wr(P0, v), l[i]);
    assert l1[i] + l[i] == l1[i] && l[i] + l[i] == [];
    match f
    case Reading(_) =>
      var l2 := Push(l, i, Rd(P1));
      PushLaws(Rd(P1), l[i]);
      assert l2[i] + l[i] == l2[i];
      WriteMeaning(r, sigma, l, l2, i, P0, v);
    case Writing(_) =>
      var l2 := Push(l, i, Wr(P1, w));
      PushLaws(Wr(P1, w), l[i]);
      assert l2[i] + l[i] == l2[i];
      WriteMeaning(r, sigma, l, l, i, P1, w);
      WriteMeaning(r, sigma, l, l1, i, P1, w);
      WriteMeaning(r, sigma, l, l2, i, P0, v);
  }
}

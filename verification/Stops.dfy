/** Where a run that fails stops, in the order of the emitted code, and which reads it
    then leaves recorded.  All of this is about the semantics; nothing here mentions the
    state of the simulator. */
module Stops {
  import opened BitVectors
  import opened Syntax
  import opened Logs
  import opened Semantics
  import opened Histories
  import opened Cuttlesim
  import opened SimulatorSync

  // ----- the run up to the failure -----

  /** The semantics fails, or the rule writes a register with a leftover read at port 0. */
  ghost predicate Stuck(Z: set<nat>, o: Outcome) { o.Failed? || Blocked(Z, o.log) }

  ghost predicate ArgsStuck(Z: set<nat>, o: ArgsOutcome) { o.ArgsFailed? || Blocked(Z, o.log) }

  /** The rule's log where the run stops, if it stops at a failure that skips the reset.
      A failure in a called function does not: the caller resets.  It matters only for
      runs that are stuck. */
  ghost function StopLog(r: RegFile, sigma: ExtFun, G: Ctx, L: Log, l: Log, a: Action, h: HistoryMap, Z: set<nat>): (res: Option<Log>)
    requires Scoped(a, |r|, |G|) && |L| == |l| == |r|
    ensures res.Some? ==> |res.value| == |r|
    decreases a
  {
    match a
    case Fail(_) => if MayFailFast(h) then Some(l) else None
    case Assign(_, _, ex) => StopLog(r, sigma, G, L, l, ex, h, Z)
    case Seq(r1, r2) =>
      var o := InterpAction(r, sigma, G, L, l, r1);
      if Stuck(Z, o) then StopLog(r, sigma, G, L, l, r1, h, Z)
      else StopLog(r, sigma, o.ctx, L, o.log, r2, After(h, r1), Z)
    case Bind(_, _, ex, body) =>
      var o := InterpAction(r, sigma, G, L, l, ex);
      if Stuck(Z, o) then StopLog(r, sigma, G, L, l, ex, h, Z)
      else StopLog(r, sigma, [o.val] + o.ctx, L, o.log, body, After(h, ex), Z)
    case If(cond, tbranch, fbranch) =>
      var o := InterpAction(r, sigma, G, L, l, cond);
      if Stuck(Z, o) then StopLog(r, sigma, G, L, l, cond, h, Z)
      else if Single(o.val) then StopLog(r, sigma, o.ctx, L, o.log, tbranch, After(h, cond), Z)
      else StopLog(r, sigma, o.ctx, L, o.log, fbranch, After(h, cond), Z)
    case Write(_, _, value) =>
      if Stuck(Z, InterpAction(r, sigma, G, L, l, value)) then StopLog(r, sigma, G, L, l, value, h, Z) else None
    case Unop(_, arg) => StopLog(r, sigma, G, L, l, arg, h, Z)
    case Binop(_, arg1, arg2) =>
      var o := InterpAction(r, sigma, G, L, l, arg1);
      if Stuck(Z, o) then StopLog(r, sigma, G, L, l, arg1, h, Z)
      else StopLog(r, sigma, o.ctx, L, o.log, arg2, After(h, arg1), Z)
    case ExternalCall(_, arg) => StopLog(r, sigma, G, L, l, arg, h, Z)
    case InternalCall(_, args, _) =>
      if ArgsStuck(Z, InterpArgs(r, sigma, G, L, l, args)) then StopLogArgs(r, sigma, G, L, l, args, h, Z) else None
    case APos(a) => StopLog(r, sigma, G, L, l, a, h, Z)
    case _ => None
  }

  /** Arguments from the first to the last. */
  ghost function StopLogArgs(r: RegFile, sigma: ExtFun, G: Ctx, L: Log, l: Log, args: Args, h: HistoryMap, Z: set<nat>): (res: Option<Log>)
    requires ScopedArgs(args, |r|, |G|) && |L| == |l| == |r|
    ensures res.Some? ==> |res.value| == |r|
    decreases args
  {
    match args
    case NoArgs => None
    case MoreArgs(_, _, arg, rest) =>
      var o := InterpAction(r, sigma, G, L, l, arg);
      if Stuck(Z, o) then StopLog(r, sigma, G, L, l, arg, h, Z)
      else StopLogArgs(r, sigma, o.ctx, L, o.log, rest, After(h, arg), Z)
  }

  /** The leftovers after the stop. */
  function LeftAt(kinds: seq<Kind>, hf: HistoryMap, L: Log, Y: set<nat>, Z: set<nat>, stop: Option<Log>): set<nat>
    requires |kinds| == |hf|
  {
    match stop
    case None => AfterReset(kinds, hf, L, Y, Z)
    case Some(l) => AfterFastFail(kinds, L, Z, l)
  }

  // ----- what the text says about them -----

  /** The registers that a fast failure of the action, outside calls, may leave. */
  function LeftBy(kinds: seq<Kind>, h: HistoryMap, a: Action): set<nat>
    decreases a
  {
    match a
    case Fail(_) => if MayFailFast(h) then FastLeft(kinds, h) else {}
    case Assign(_, _, ex) => LeftBy(kinds, h, ex)
    case Seq(r1, r2) => LeftBy(kinds, h, r1) + LeftBy(kinds, After(h, r1), r2)
    case Bind(_, _, ex, body) => LeftBy(kinds, h, ex) + LeftBy(kinds, After(h, ex), body)
    case If(cond, tbranch, fbranch) =>
      var h' := After(h, cond);
      LeftBy(kinds, h, cond) + LeftBy(kinds, h', tbranch) + LeftBy(kinds, h', fbranch)
    case Write(_, _, value) => LeftBy(kinds, h, value)
    case Unop(_, arg) => LeftBy(kinds, h, arg)
    case Binop(_, arg1, arg2) => LeftBy(kinds, h, arg1) + LeftBy(kinds, After(h, arg1), arg2)
    case ExternalCall(_, arg) => LeftBy(kinds, h, arg)
    case InternalCall(_, args, _) => LeftByArgs(kinds, h, args)
    case APos(a) => LeftBy(kinds, h, a)
    case _ => {}
  }

  function LeftByArgs(kinds: seq<Kind>, h: HistoryMap, args: Args): set<nat>
    decreases args
  {
    match args
    case NoArgs => {}
    case MoreArgs(_, _, arg, rest) => LeftBy(kinds, h, arg) + LeftByArgs(kinds, After(h, arg), rest)
  }

  lemma BelowTrans(x: HistoryMap, y: HistoryMap, z: HistoryMap)
    requires BelowAll(x, y) && BelowAll(y, z)
    ensures BelowAll(x, z)
  {
  }

  /** No read is left but those that the text admits. */
  lemma {:induction false} StopWithin(kinds: seq<Kind>, r: RegFile, sigma: ExtFun, G: Ctx, L: Log, l: Log, a: Action, h: HistoryMap, Z: set<nat>)
    requires Scoped(a, |r|, |G|) && |L| == |l| == |r| && DescribesAll(h, l)
    ensures var stop := StopLog(r, sigma, G, L, l, a, h, Z);
            stop.Some? ==> AfterFastFail(kinds, L, Z, stop.value) <= Z + LeftBy(kinds, h, a)
    decreases a, 1
  {
    hide AfterFastFail, DescribesAll, FastLeft, After;
    match a
    case Fail(_) => FailWithin(kinds, L, l, h, Z);
    case Assign(_, _, ex) => StopWithin(kinds, r, sigma, G, L, l, ex, h, Z);
    case Seq(r1, r2) =>
      StopWithin(kinds, r, sigma, G, L, l, r1, h, Z);
      AfterDescribes(r, sigma, G, L, l, r1, h);
      var o := InterpAction(r, sigma, G, L, l, r1);
      if !Stuck(Z, o) { StopWithin(kinds, r, sigma, o.ctx, L, o.log, r2, After(h, r1), Z); }
    case Bind(_, _, ex, body) =>
      StopWithin(kinds, r, sigma, G, L, l, ex, h, Z);
      AfterDescribes(r, sigma, G, L, l, ex, h);
      var o := InterpAction(r, sigma, G, L, l, ex);
      if !Stuck(Z, o) { StopWithin(kinds, r, sigma, [o.val] + o.ctx, L, o.log, body, After(h, ex), Z); }
    case If(cond, tbranch, fbranch) =>
      StopWithin(kinds, r, sigma, G, L, l, cond, h, Z);
      AfterDescribes(r, sigma, G, L, l, cond, h);
      var o := InterpAction(r, sigma, G, L, l, cond);
      if !Stuck(Z, o) { StopWithin(kinds, r, sigma, o.ctx, L, o.log, if Single(o.val) then tbranch else fbranch, After(h, cond), Z); }
    case Write(_, _, value) => StopWithin(kinds, r, sigma, G, L, l, value, h, Z);
    case Unop(_, arg) => StopWithin(kinds, r, sigma, G, L, l, arg, h, Z);
    case Binop(_, arg1, arg2) =>
      StopWithin(kinds, r, sigma, G, L, l, arg1, h, Z);
      AfterDescribes(r, sigma, G, L, l, arg1, h);
      var o := InterpAction(r, sigma, G, L, l, arg1);
      if !Stuck(Z, o) { StopWithin(kinds, r, sigma, o.ctx, L, o.log, arg2, After(h, arg1), Z); }
    case ExternalCall(_, arg) => StopWithin(kinds, r, sigma, G, L, l, arg, h, Z);
    case InternalCall(_, args, _) => ArgsStopWithin(kinds, r, sigma, G, L, l, args, h, Z);
    case APos(a) => StopWithin(kinds, r, sigma, G, L, l, a, h, Z);
    case _ =>
  }

  lemma {:induction false} ArgsStopWithin(kinds: seq<Kind>, r: RegFile, sigma: ExtFun, G: Ctx, L: Log, l: Log, args: Args, h: HistoryMap, Z: set<nat>)
    requires ScopedArgs(args, |r|, |G|) && |L| == |l| == |r| && DescribesAll(h, l)
    ensures var stop := StopLogArgs(r, sigma, G, L, l, args, h, Z);
            stop.Some? ==> AfterFastFail(kinds, L, Z, stop.value) <= Z + LeftByArgs(kinds, h, args)
    decreases args, 0
  {
    hide AfterFastFail, DescribesAll, FastLeft, After;
    match args
    case NoArgs =>
    case MoreArgs(_, _, arg, rest) =>
      StopWithin(kinds, r, sigma, G, L, l, arg, h, Z);
      AfterDescribes(r, sigma, G, L, l, arg, h);
      var o := InterpAction(r, sigma, G, L, l, arg);
      if !Stuck(Z, o) { ArgsStopWithin(kinds, r, sigma, o.ctx, L, o.log, rest, After(h, arg), Z); }
  }

  lemma {:induction false} FailWithin(kinds: seq<Kind>, L: Log, l: Log, h: HistoryMap, Z: set<nat>)
    requires DescribesAll(h, l)
    ensures AfterFastFail(kinds, L, Z, l) <= Z + FastLeft(kinds, h)
  {
    forall i: nat | i < |kinds| && i < |l| && Records(kinds[i]) && HasRead(l[i], P1) ensures i in FastLeft(kinds, h) {
      assert Describes(h[i], l[i]);
    }
  }

  lemma {:induction false} LeftInFootprint(kinds: seq<Kind>, h: HistoryMap, a: Action, hf: HistoryMap)
    requires |h| == |kinds| == |hf| && BelowAll(After(h, a), hf)
    ensures forall i :: i in LeftBy(kinds, h, a) ==> i < |kinds| && InRwFootprint(kinds, hf, i)
    decreases a
  {
    match a
    case Assign(_, _, ex) => LeftInFootprint(kinds, h, ex, hf);
    case Seq(b, c) => LeftTwice(kinds, h, b, c, hf); LeftInFootprint(kinds, h, b, hf); LeftInFootprint(kinds, After(h, b), c, hf);
    case Bind(_, _, b, c) => LeftTwice(kinds, h, b, c, hf); LeftInFootprint(kinds, h, b, hf); LeftInFootprint(kinds, After(h, b), c, hf);
    case Binop(_, b, c) => LeftTwice(kinds, h, b, c, hf); LeftInFootprint(kinds, h, b, hf); LeftInFootprint(kinds, After(h, b), c, hf);
    case If(cond, tbranch, fbranch) =>
      var h' := After(h, cond);
      JoinBelow(After(h', tbranch), After(h', fbranch));
      BelowTrans(After(h', tbranch), After(h, a), hf);
      BelowTrans(After(h', fbranch), After(h, a), hf);
      LeftTwice(kinds, h, cond, tbranch, hf);
      LeftInFootprint(kinds, h, cond, hf);
      LeftInFootprint(kinds, h', tbranch, hf);
      LeftInFootprint(kinds, h', fbranch, hf);
    case Write(_, _, value) =>
      assert BelowAll(After(h, value), After(h, a));
      BelowTrans(After(h, value), After(h, a), hf);
      LeftInFootprint(kinds, h, value, hf);
    case Unop(_, arg) => LeftInFootprint(kinds, h, arg, hf);
    case ExternalCall(_, arg) => LeftInFootprint(kinds, h, arg, hf);
    case InternalCall(_, args, body) =>
      AfterBelow(AfterArgs(h, args), body);
      BelowTrans(AfterArgs(h, args), After(h, a), hf);
      ArgsLeftInFootprint(kinds, h, args, hf);
    case APos(a) => LeftInFootprint(kinds, h, a, hf);
    case _ =>
  }

  lemma {:induction false} LeftTwice(kinds: seq<Kind>, h: HistoryMap, b: Action, c: Action, hf: HistoryMap)
    requires BelowAll(After(After(h, b), c), hf)
    ensures BelowAll(After(h, b), hf)
  {
    AfterBelow(After(h, b), c);
    BelowTrans(After(h, b), After(After(h, b), c), hf);
  }

  lemma {:induction false} ArgsLeftInFootprint(kinds: seq<Kind>, h: HistoryMap, args: Args, hf: HistoryMap)
    requires |h| == |kinds| == |hf| && BelowAll(AfterArgs(h, args), hf)
    ensures forall i :: i in LeftByArgs(kinds, h, args) ==> i < |kinds| && InRwFootprint(kinds, hf, i)
    decreases args
  {
    match args
    case NoArgs =>
    case MoreArgs(_, _, arg, rest) =>
      AfterArgsBelow(After(h, arg), rest);
      BelowTrans(After(h, arg), AfterArgs(h, args), hf);
      LeftInFootprint(kinds, h, arg, hf);
      ArgsLeftInFootprint(kinds, After(h, arg), rest, hf);
  }

  /** Outside the rule's footprint nothing is added or removed. */
  lemma {:induction false} StopPlace(kinds: seq<Kind>, hf: HistoryMap, r: RegFile, sigma: ExtFun, G: Ctx, L: Log, l: Log, a: Action,
                                     h: HistoryMap, Y: set<nat>, Z: set<nat>)
    requires Scoped(a, |r|, |G|) && |L| == |l| == |r| == |kinds| == |hf| == |h| && DescribesAll(h, l) && BelowAll(After(h, a), hf)
    ensures var X := LeftAt(kinds, hf, L, Y, Z, StopLog(r, sigma, G, L, l, a, h, Z));
            var rf := RwFootprint(kinds, hf);
            Large(rf, |kinds|) || forall i: nat :: i !in rf ==> (i in X <==> i in Unread(L, Z))
  {
    hide Large, StopLog, DescribesAll, BelowAll, Below, LeftBy;
    LeftInFootprint(kinds, h, a, hf);
    StopWithin(kinds, r, sigma, G, L, l, a, h, Z);
  }

  /** The leftovers after a failure are old ones or such as the text admits. */
  lemma {:induction false} LeftWithin(kinds: seq<Kind>, hf: HistoryMap, r: RegFile, sigma: ExtFun, G: Ctx, L: Log, l: Log, a: Action,
                                      h: HistoryMap, Y: set<nat>, Z: set<nat>)
    requires Scoped(a, |r|, |G|) && |L| == |l| == |r| && |kinds| == |hf| && DescribesAll(h, l)
    ensures LeftAt(kinds, hf, L, Y, Z, StopLog(r, sigma, G, L, l, a, h, Z)) <= Y + Z + LeftBy(kinds, h, a)
  {
    hide Large, StopLog, DescribesAll, LeftBy;
    StopWithin(kinds, r, sigma, G, L, l, a, h, Z);
  }
}

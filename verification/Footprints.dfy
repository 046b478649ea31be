/** Footprints of lowered actions: what they log, and what they depend on. */
module Footprints {
  import opened BitVectors
  import opened Syntax
  import opened Logs
  import opened Semantics
  import opened Histories
  import CircuitGeneration

  type Event = (nat, Access)

  /** The source's footprint: every access that appears in the action. */
  function EventFootprint(acc: seq<Event>, a: Action): seq<Event>
    decreases a
  {
    match a
    case Assign(_, _, ex) => EventFootprint(acc, ex)
    case Seq(r1, r2) => EventFootprint(EventFootprint(acc, r1), r2)
    case Bind(_, _, ex, body) => EventFootprint(EventFootprint(acc, ex), body)
    case If(cond, tbranch, fbranch) => EventFootprint(EventFootprint(EventFootprint(acc, cond), tbranch), fbranch)
    case Read(p, idx) => [(idx, Reading(p))] + acc
    case Write(p, idx, value) => EventFootprint([(idx, Writing(p))] + acc, value)
    case Unop(_, arg) => EventFootprint(acc, arg)
    case Binop(_, arg1, arg2) => EventFootprint(EventFootprint(acc, arg1), arg2)
    case ExternalCall(_, arg) => EventFootprint(acc, arg)
    case APos(a) => EventFootprint(acc, a)
    case _ => acc
  }

  function Firsts(es: seq<Event>): seq<nat> { seq(|es|, i requires 0 <= i < |es| => es[i].0) }

  /** The registers of the footprint are those that the compiler collects. */
  lemma {:induction false} FootprintRegisters(acc: seq<Event>, a: Action)
    requires Lowered(a)
    ensures Firsts(EventFootprint(acc, a)) == CircuitGeneration.Footprint(Firsts(acc), a)
    decreases a
  {
    match a
    case Assign(_, _, ex) => FootprintRegisters(acc, ex);
    case Seq(r1, r2) => FootprintRegisters(acc, r1); FootprintRegisters(EventFootprint(acc, r1), r2);
    case Bind(_, _, ex, body) => FootprintRegisters(acc, ex); FootprintRegisters(EventFootprint(acc, ex), body);
    case If(cond, tbranch, fbranch) =>
      var acc1 := EventFootprint(acc, cond);
      FootprintRegisters(acc, cond);
      FootprintRegisters(acc1, tbranch);
      FootprintRegisters(EventFootprint(acc1, tbranch), fbranch);
    case Read(p, idx) => assert Firsts([(idx, Reading(p))] + acc) == [idx] + Firsts(acc);
    case Write(p, idx, value) =>
      assert Firsts([(idx, Writing(p))] + acc) == [idx] + Firsts(acc);
      FootprintRegisters([(idx, Writing(p))] + acc, value);
    case Unop(_, arg) => FootprintRegisters(acc, arg);
    case Binop(_, arg1, arg2) => FootprintRegisters(acc, arg1); FootprintRegisters(EventFootprint(acc, arg1), arg2);
    case ExternalCall(_, arg) => FootprintRegisters(acc, arg);
    case APos(a) => FootprintRegisters(acc, a);
    case _ =>
  }

  /** Every access in the action is one of `S`. */
  predicate Uses(a: Action, S: set<Event>) {
    match a
    case Assign(_, _, ex) => Uses(ex, S)
    case Seq(r1, r2) => Uses(r1, S) && Uses(r2, S)
    case Bind(_, _, ex, body) => Uses(ex, S) && Uses(body, S)
    case If(cond, tbranch, fbranch) => Uses(cond, S) && Uses(tbranch, S) && Uses(fbranch, S)
    case Read(p, idx) => (idx, Reading(p)) in S
    case Write(p, idx, value) => (idx, Writing(p)) in S && Uses(value, S)
    case Unop(_, arg) => Uses(arg, S)
    case Binop(_, arg1, arg2) => Uses(arg1, S) && Uses(arg2, S)
    case ExternalCall(_, arg) => Uses(arg, S)
    case APos(a) => Uses(a, S)
    case _ => true
  }

  predicate AllIn(es: seq<Event>, S: set<Event>) { forall e :: e in es ==> e in S }

  lemma AllInCons(e: Event, es: seq<Event>, S: set<Event>)
    ensures AllIn([e] + es, S) <==> e in S && AllIn(es, S)
  {
    if AllIn([e] + es, S) {
      assert e in [e] + es;
      forall x | x in es ensures x in S { assert x in [e] + es; }
    }
  }

  lemma {:induction false} FootprintIsUse(acc: seq<Event>, a: Action, S: set<Event>)
    ensures AllIn(EventFootprint(acc, a), S) <==> AllIn(acc, S) && Uses(a, S)
    decreases a
  {
    hide AllIn;
    match a
    case Assign(_, _, ex) => FootprintIsUse(acc, ex, S);
    case Seq(r1, r2) => FootprintIsUse(acc, r1, S); FootprintIsUse(EventFootprint(acc, r1), r2, S);
    case Bind(_, _, ex, body) => FootprintIsUse(acc, ex, S); FootprintIsUse(EventFootprint(acc, ex), body, S);
    case If(cond, tbranch, fbranch) =>
      var acc1 := EventFootprint(acc, cond);
      FootprintIsUse(acc, cond, S);
      FootprintIsUse(acc1, tbranch, S);
      FootprintIsUse(EventFootprint(acc1, tbranch), fbranch, S);
    case Read(p, idx) => AllInCons((idx, Reading(p)), acc, S);
    case Write(p, idx, value) =>
      AllInCons((idx, Writing(p)), acc, S);
      FootprintIsUse([(idx, Writing(p))] + acc, value, S);
    case Unop(_, arg) => FootprintIsUse(acc, arg, S);
    case Binop(_, arg1, arg2) => FootprintIsUse(acc, arg1, S); FootprintIsUse(EventFootprint(acc, arg1), arg2, S);
    case ExternalCall(_, arg) => FootprintIsUse(acc, arg, S);
    case APos(a) => FootprintIsUse(acc, a, S);
    case _ =>
  }

  // ----- what an action logs -----

  function EventOf(i: nat, e: Entry): Event { (i, if e.Rd? then Reading(e.port) else Writing(e.port)) }

  /** `l'` is `l` with newer events, all of them from `S`. */
  ghost predicate Grown(l: Log, l': Log, S: set<Event>) {
    |l| == |l'| && forall i :: 0 <= i < |l| ==> GrownAt(i, l[i], l'[i], S)
  }

  ghost predicate GrownAt(i: nat, es: RLog, es': RLog, S: set<Event>) {
    |es| <= |es'| && es'[|es'| - |es|..] == es &&
    forall k :: 0 <= k < |es'| - |es| ==> EventOf(i, es'[k]) in S
  }

  lemma GrownTrans(l: Log, l': Log, l'': Log, S: set<Event>)
    requires Grown(l, l', S) && Grown(l', l'', S)
    ensures Grown(l, l'', S)
  {
    forall i | 0 <= i < |l| ensures GrownAt(i, l[i], l''[i], S) {
      var (x, y, z) := (l[i], l'[i], l''[i]);
      assert GrownAt(i, x, y, S) && GrownAt(i, y, z, S);
      var d := |z| - |y|;
      forall k | 0 <= k < |z| - |x| ensures EventOf(i, z[k]) in S {
        if k >= d { assert z[k] == z[d..][k - d] == y[k - d]; }
      }
      assert z[|z| - |x|..] == z[d..][|y| - |x|..] == y[|y| - |x|..];
    }
  }

  lemma GrownPush(l: Log, idx: nat, e: Entry, S: set<Event>)
    requires idx < |l| && EventOf(idx, e) in S
    ensures Grown(l, Push(l, idx, e), S)
  {
  }

  /** Whatever a successful run logs is in the footprint. */
  lemma {:induction false} LogsWithinUse(r: RegFile, sigma: ExtFun, G: Ctx, L: Log, l: Log, a: Action, S: set<Event>)
    requires Lowered(a) && Scoped(a, |r|, |G|) && |L| == |l| == |r| && Uses(a, S)
    ensures var o := InterpAction(r, sigma, G, L, l, a); o.Ok? ==> Grown(l, o.log, S)
    decreases a
  {
    hide GrownAt;
    var o := InterpAction(r, sigma, G, L, l, a);
    match a
    case Assign(_, _, ex) => LogsWithinUse(r, sigma, G, L, l, ex, S);
    case Seq(r1, r2) =>
      LogsWithinUse(r, sigma, G, L, l, r1, S);
      var o1 := InterpAction(r, sigma, G, L, l, r1);
      if o1.Ok? {
        LogsWithinUse(r, sigma, o1.ctx, L, o1.log, r2, S);
        if o.Ok? { GrownTrans(l, o1.log, o.log, S); }
      }
    case Bind(_, _, ex, body) =>
      LogsWithinUse(r, sigma, G, L, l, ex, S);
      var o1 := InterpAction(r, sigma, G, L, l, ex);
      if o1.Ok? {
        LogsWithinUse(r, sigma, [o1.val] + o1.ctx, L, o1.log, body, S);
        if o.Ok? { GrownTrans(l, o1.log, o.log, S); }
      }
    case If(cond, tbranch, fbranch) =>
      LogsWithinUse(r, sigma, G, L, l, cond, S);
      var o1 := InterpAction(r, sigma, G, L, l, cond);
      if o1.Ok? {
        LogsWithinUse(r, sigma, o1.ctx, L, o1.log, if Single(o1.val) then tbranch else fbranch, S);
        if o.Ok? { GrownTrans(l, o1.log, o.log, S); }
      }
    case Read(p, idx) => GrownPush(l, idx, Rd(p), S);
    case Write(p, idx, value) =>
      LogsWithinUse(r, sigma, G, L, l, value, S);
      var o1 := InterpAction(r, sigma, G, L, l, value);
      if o.Ok? {
        GrownPush(o1.log, idx, Wr(p, o1.val), S);
        GrownTrans(l, o1.log, o.log, S);
      }
    case Unop(_, arg) => LogsWithinUse(r, sigma, G, L, l, arg, S);
    case Binop(_, arg1, arg2) =>
      LogsWithinUse(r, sigma, G, L, l, arg1, S);
      var o1 := InterpAction(r, sigma, G, L, l, arg1);
      if o1.Ok? {
        LogsWithinUse(r, sigma, o1.ctx, L, o1.log, arg2, S);
        if o.Ok? { GrownTrans(l, o1.log, o.log, S); }
      }
    case ExternalCall(_, arg) => LogsWithinUse(r, sigma, G, L, l, arg, S);
    case APos(a) => LogsWithinUse(r, sigma, G, L, l, a, S);
    case _ => GrownRefl(l, S);
  }

  lemma GrownRefl(l: Log, S: set<Event>)
    ensures Grown(l, l, S)
  {
  }

  lemma FirstsIn(es: seq<Event>)
    ensures forall e :: e in es ==> e.0 in Firsts(es)
  {
    forall e | e in es ensures e.0 in Firsts(es) {
      var k :| 0 <= k < |es| && es[k] == e;
      assert Firsts(es)[k] == e.0;
    }
  }

  /** A successful run logs only accesses of the action's footprint; the entries of
      registers that the action does not mention stay as they were. */
  lemma {:induction false} FootprintSound(r: RegFile, sigma: ExtFun, G: Ctx, L: Log, l: Log, a: Action)
    requires Lowered(a) && Scoped(a, |r|, |G|) && |L| == |l| == |r|
    ensures var o := InterpAction(r, sigma, G, L, l, a);
            o.Ok? ==>
              && Grown(l, o.log, set e | e in EventFootprint([], a))
              && forall i: nat :: i < |r| && i !in CircuitGeneration.ActionRegisters(a) ==> o.log[i] == l[i]
  {
    var es := EventFootprint([], a);
    var S := set e | e in es;
    FootprintIsUse([], a, S);
    LogsWithinUse(r, sigma, G, L, l, a, S);
    var o := InterpAction(r, sigma, G, L, l, a);
    if o.Ok? {
      FootprintRegisters([], a);
      assert Firsts([]) == [];
      CircuitGeneration.DedupKeeps([], Firsts(es));
      FirstsIn(es);
      forall i: nat | i < |r| && i !in CircuitGeneration.ActionRegisters(a) ensures o.log[i] == l[i] {
        assert GrownAt(i, l[i], o.log[i], S);
        assert |o.log[i]| > |l[i]| ==> EventOf(i, o.log[i][0]) in es;
        assert o.log[i][0..] == o.log[i];
      }
    }
  }

  // ----- what an action depends on -----

  predicate AgreeOn<T(==)>(R: set<nat>, x: seq<T>, y: seq<T>) {
    |x| == |y| && forall i: nat :: i in R && i < |x| ==> x[i] == y[i]
  }

  /** Same outcome, up to the log entries of other registers. */
  predicate SameOn(R: set<nat>, o: Outcome, o': Outcome) {
    if o.Failed? then o'.Failed? else o'.Ok? && o'.val == o.val && o'.ctx == o.ctx && AgreeOn(R, o.log, o'.log)
  }

  function Accesses(R: set<nat>): set<Event> {
    (set i | i in R :: (i, Reading(P0))) + (set i | i in R :: (i, Reading(P1))) +
    (set i | i in R :: (i, Writing(P0))) + (set i | i in R :: (i, Writing(P1)))
  }

  /** An action cannot tell apart two machines that agree on the registers it
      mentions: this is why a rule given to it from outside needs only those. */
  lemma {:induction false} DependsOnFootprint(r: RegFile, r': RegFile, sigma: ExtFun, G: Ctx, L: Log, L': Log, l: Log, l': Log,
                                              a: Action, R: set<nat>)
    requires Lowered(a) && Scoped(a, |r|, |G|) && |L| == |l| == |r| && Uses(a, Accesses(R))
    requires AgreeOn(R, r, r') && AgreeOn(R, L, L') && AgreeOn(R, l, l')
    ensures SameOn(R, InterpAction(r, sigma, G, L, l, a), InterpAction(r', sigma, G, L', l', a))
    decreases a
  {
    hide Accesses;
    match a
    case Assign(_, _, ex) => DependsOnFootprint(r, r', sigma, G, L, L', l, l', ex, R);
    case Seq(r1, r2) =>
      DependsOnFootprint(r, r', sigma, G, L, L', l, l', r1, R);
      var o, o' := InterpAction(r, sigma, G, L, l, r1), InterpAction(r', sigma, G, L', l', r1);
      if o.Ok? { DependsOnFootprint(r, r', sigma, o.ctx, L, L', o.log, o'.log, r2, R); }
    case Bind(_, _, ex, body) =>
      DependsOnFootprint(r, r', sigma, G, L, L', l, l', ex, R);
      var o, o' := InterpAction(r, sigma, G, L, l, ex), InterpAction(r', sigma, G, L', l', ex);
      if o.Ok? { DependsOnFootprint(r, r', sigma, [o.val] + o.ctx, L, L', o.log, o'.log, body, R); }
    case If(cond, tbranch, fbranch) =>
      DependsOnFootprint(r, r', sigma, G, L, L', l, l', cond, R);
      var o, o' := InterpAction(r, sigma, G, L, l, cond), InterpAction(r', sigma, G, L', l', cond);
      if o.Ok? {
        DependsOnFootprint(r, r', sigma, o.ctx, L, L', o.log, o'.log, if Single(o.val) then tbranch else fbranch, R);
      }
    case Read(p, idx) => InAccesses(R, idx, Reading(p));
    case Write(p, idx, value) =>
      InAccesses(R, idx, Writing(p));
      DependsOnFootprint(r, r', sigma, G, L, L', l, l', value, R);
    case Unop(_, arg) => DependsOnFootprint(r, r', sigma, G, L, L', l, l', arg, R);
    case Binop(_, arg1, arg2) =>
      DependsOnFootprint(r, r', sigma, G, L, L', l, l', arg1, R);
      var o, o' := InterpAction(r, sigma, G, L, l, arg1), InterpAction(r', sigma, G, L', l', arg1);
      if o.Ok? { DependsOnFootprint(r, r', sigma, o.ctx, L, L', o.log, o'.log, arg2, R); }
    case ExternalCall(_, arg) => DependsOnFootprint(r, r', sigma, G, L, L', l, l', arg, R);
    case APos(a) => DependsOnFootprint(r, r', sigma, G, L, L', l, l', a, R);
    case _ =>
  }

  lemma InAccesses(R: set<nat>, idx: nat, e: Access)
    ensures (idx, e) in Accesses(R) <==> idx in R
  {
    match e
    case Reading(P0) =>
    case Reading(P1) =>
    case Writing(P0) =>
    case Writing(P1) =>
  }

  function RegistersOf(a: Action): set<nat>
    requires Lowered(a)
  {
    set i | i in CircuitGeneration.ActionRegisters(a)
  }

  lemma {:induction false} UsesItsRegisters(a: Action)
    requires Lowered(a)
    ensures Uses(a, Accesses(RegistersOf(a)))
  {
    var R := RegistersOf(a);
    var es := EventFootprint([], a);
    FootprintRegisters([], a);
    assert Firsts([]) == [];
    CircuitGeneration.DedupKeeps([], Firsts(es));
    FirstsIn(es);
    forall e | e in es ensures e in Accesses(R) {
      InAccesses(R, e.0, e.1);
    }
    FootprintIsUse([], a, Accesses(R));
  }

  /** In particular it depends only on the registers that the compiler collects. */
  lemma {:induction false} DependsOnActionRegisters(r: RegFile, r': RegFile, sigma: ExtFun, G: Ctx, L: Log, L': Log, l: Log,
                                                    l': Log, a: Action)
    requires Lowered(a) && Scoped(a, |r|, |G|) && |L| == |l| == |r|
    requires var R := RegistersOf(a); AgreeOn(R, r, r') && AgreeOn(R, L, L') && AgreeOn(R, l, l')
    ensures SameOn(RegistersOf(a),
                   InterpAction(r, sigma, G, L, l, a), InterpAction(r', sigma, G, L', l', a))
  {
    UsesItsRegisters(a);
    DependsOnFootprint(r, r', sigma, G, L, L', l, l', a, RegistersOf(a));
  }
}

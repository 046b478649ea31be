/** What the compiled circuits compute, as a semantics of its own: a rule never
    stops, but drops its `canFire` wire when an access is not allowed and then
    goes on computing; the scheduler decides afterwards, from the accesses the
    rule made, whether they clash with earlier rules. */
module Wires {
  import opened BitVectors
  import opened Primitives
  import opened Syntax
  import opened Logs
  import opened Semantics

  datatype WireData = WireData(read0: bool, read1: bool, write0: bool, write1: bool, data0: Bits, data1: Bits)

  datatype RuleWires = RuleWires(canFire: bool, regs: seq<WireData>)

  datatype WireOutcome = WireOutcome(wires: RuleWires, val: Bits, ctx: Ctx)

  function AfterRead(d: WireData, p: Port): WireData {
    match p
    case P0 => d.(read0 := true)
    case P1 => d.(read1 := true)
  }

  function AfterWrite(d: WireData, p: Port, v: Bits): WireData {
    match p
    case P0 => d.(write0 := true, data0 := v)
    case P1 => d.(write1 := true, data1 := v)
  }

  /** Conflicts of a write with the rule's own earlier accesses. */
  predicate OwnWriteAllowed(d: WireData, p: Port) {
    match p
    case P0 => !d.read1 && !d.write0 && !d.write1
    case P1 => !d.write1
  }

  function RunAction(r: RegFile, sigma: ExtFun, G: Ctx, a: Action, w: RuleWires): (res: WireOutcome)
    requires Lowered(a) && Scoped(a, |r|, |G|) && |w.regs| == |r|
    ensures |res.wires.regs| == |r| && |res.ctx| == |G|
    decreases a
  {
    match a
    case Fail(sz) => WireOutcome(w.(canFire := false), Zeroes(sz), G)
    case Var(_, m) => WireOutcome(w, G[m], G)
    case Cst(cst) => WireOutcome(w, cst, G)
    case Seq(r1, r2) =>
      var o := RunAction(r, sigma, G, r1, w);
      RunAction(r, sigma, o.ctx, r2, o.wires)
    case Assign(_, m, ex) =>
      var o := RunAction(r, sigma, G, ex, w);
      WireOutcome(o.wires, [], o.ctx[m := o.val])
    case Bind(_, _, ex, body) =>
      var o := RunAction(r, sigma, G, ex, w);
      var b := RunAction(r, sigma, [o.val] + o.ctx, body, o.wires);
      WireOutcome(b.wires, b.val, b.ctx[1..])
    case If(cond, tbranch, fbranch) =>
      var o := RunAction(r, sigma, G, cond, w);
      RunAction(r, sigma, o.ctx, if Single(o.val) then tbranch else fbranch, o.wires)
    case Read(p, idx) =>
      var d := w.regs[idx];
      WireOutcome(w.(regs := w.regs[idx := AfterRead(d, p)]), if p.P0? then r[idx] else d.data0, G)
    case Write(p, idx, value) =>
      var o := RunAction(r, sigma, G, value, w);
      var d := o.wires.regs[idx];
      WireOutcome(
        RuleWires(o.wires.canFire && OwnWriteAllowed(d, p), o.wires.regs[idx := AfterWrite(d, p, o.val)]),
        [], o.ctx)
    case Unop(fn, arg) =>
      var o := RunAction(r, sigma, G, arg, w);
      o.(val := Sigma1(fn, o.val))
    case Binop(fn, arg1, arg2) =>
      var o1 := RunAction(r, sigma, G, arg1, w);
      var o2 := RunAction(r, sigma, o1.ctx, arg2, o1.wires);
      o2.(val := Sigma2(fn, o1.val, o2.val))
    case ExternalCall(ext, arg) =>
      var o := RunAction(r, sigma, G, arg, w);
      o.(val := sigma(ext, o.val))
    case APos(a) => RunAction(r, sigma, G, a, w)
  }

  /** A rule starts with no accesses of its own and the data written so far. */
  function Start(input: seq<WireData>): RuleWires {
    RuleWires(true, seq(|input|, i requires 0 <= i < |input| =>
      WireData(false, false, false, false, input[i].data0, input[i].data1)))
  }

  /** No access of the rule to this register conflicts with earlier rules. */
  predicate NoClash(rule: WireData, input: WireData) {
    && (rule.read0 ==> !input.write0 && !input.write1)
    && (rule.write0 ==> !input.write0 && !input.write1 && !input.read1)
    && (rule.read1 || rule.write1 ==> !input.write1)
  }

  predicate WillFire(rule: RuleWires, input: seq<WireData>)
    requires |rule.regs| == |input|
  {
    rule.canFire && forall i :: 0 <= i < |input| ==> NoClash(rule.regs[i], input[i])
  }

  function Accumulate(rule: seq<WireData>, input: seq<WireData>): seq<WireData>
    requires |rule| == |input|
  {
    seq(|rule|, i requires 0 <= i < |rule| =>
      WireData(rule[i].read0 || input[i].read0, rule[i].read1 || input[i].read1,
               rule[i].write0 || input[i].write0, rule[i].write1 || input[i].write1,
               rule[i].data0, rule[i].data1))
  }

  function RunRule(r: RegFile, sigma: ExtFun, rl: Action, input: seq<WireData>): (res: RuleWires)
    requires Lowered(rl) && Scoped(rl, |r|, 0) && |input| == |r|
    ensures |res.regs| == |r|
  {
    RunAction(r, sigma, [], rl, Start(input)).wires
  }

  ghost predicate Runnable(r: RegFile, rules: Rules) { ScopedRules(rules, |r|) && LoweredRules(rules) }

  function RunScheduler(r: RegFile, sigma: ExtFun, rules: Rules, s: Scheduler, input: seq<WireData>): (res: seq<WireData>)
    requires Runnable(r, rules) && |input| == |r|
    ensures |res| == |r|
    decreases s
  {
    match s
    case Done => input
    case Cons(rl, s) =>
      var w := RunRule(r, sigma, rules(rl), input);
      RunScheduler(r, sigma, rules, s, if WillFire(w, input) then Accumulate(w.regs, input) else input)
    case Try(rl, s1, s2) =>
      var w := RunRule(r, sigma, rules(rl), input);
      if WillFire(w, input) then RunScheduler(r, sigma, rules, s1, Accumulate(w.regs, input))
      else RunScheduler(r, sigma, rules, s2, input)
    case SPos(s) => RunScheduler(r, sigma, rules, s, input)
  }

  function Commit(d: WireData): Bits { if d.write1 then d.data1 else d.data0 }

  function Init(r: RegFile, sizes: seq<nat>): seq<WireData>
    requires |r| == |sizes|
  {
    seq(|r|, i requires 0 <= i < |r| => WireData(false, false, false, false, r[i], Zeroes(sizes[i])))
  }

  // ----- the wires only ever move towards "will not fire" -----

  /** `e` shows every access that `d` shows. */
  predicate MoreAccesses(d: WireData, e: WireData) {
    (d.read0 ==> e.read0) && (d.read1 ==> e.read1) && (d.write0 ==> e.write0) && (d.write1 ==> e.write1)
  }

  predicate Later(w: RuleWires, w': RuleWires)
    requires |w.regs| == |w'.regs|
  {
    (w'.canFire ==> w.canFire) &&
    forall i :: 0 <= i < |w.regs| ==> MoreAccesses(w.regs[i], w'.regs[i])
  }

  /** Nothing an action does can make a rule that will not fire fire again. */
  lemma {:induction false} RunActionLater(r: RegFile, sigma: ExtFun, G: Ctx, a: Action, w: RuleWires)
    requires Lowered(a) && Scoped(a, |r|, |G|) && |w.regs| == |r|
    ensures Later(w, RunAction(r, sigma, G, a, w).wires)
    decreases a
  {
    match a
    case Seq(r1, r2) =>
      RunActionLater(r, sigma, G, r1, w);
      var o := RunAction(r, sigma, G, r1, w);
      RunActionLater(r, sigma, o.ctx, r2, o.wires);
    case Assign(_, _, ex) => RunActionLater(r, sigma, G, ex, w);
    case Bind(_, _, ex, body) =>
      RunActionLater(r, sigma, G, ex, w);
      var o := RunAction(r, sigma, G, ex, w);
      RunActionLater(r, sigma, [o.val] + o.ctx, body, o.wires);
    case If(cond, tbranch, fbranch) =>
      RunActionLater(r, sigma, G, cond, w);
      var o := RunAction(r, sigma, G, cond, w);
      RunActionLater(r, sigma, o.ctx, if Single(o.val) then tbranch else fbranch, o.wires);
    case Write(_, _, value) => RunActionLater(r, sigma, G, value, w);
    case Unop(_, arg) => RunActionLater(r, sigma, G, arg, w);
    case Binop(_, arg1, arg2) =>
      RunActionLater(r, sigma, G, arg1, w);
      var o := RunAction(r, sigma, G, arg1, w);
      RunActionLater(r, sigma, o.ctx, arg2, o.wires);
    case ExternalCall(_, arg) => RunActionLater(r, sigma, G, arg, w);
    case APos(a) => RunActionLater(r, sigma, G, a, w);
    case _ =>
  }

  lemma LaterKeepsFailing(w: RuleWires, w': RuleWires, input: seq<WireData>)
    requires |w.regs| == |w'.regs| == |input| && Later(w, w')
    ensures WillFire(w', input) ==> WillFire(w, input)
  {
    if WillFire(w', input) {
      forall i | 0 <= i < |input| ensures NoClash(w.regs[i], input[i]) {
        assert NoClash(w'.regs[i], input[i]);
      }
    }
  }

  // ----- the wires against the logs -----

  /** The wires show exactly the accesses in `es`; the data wires show what reads
      at port 1 and the end of the cycle must see, given older events `old`. */
  predicate Shows(d: WireData, es: RLog, past: RLog, start: Bits) {
    && d.read0 == HasRead(es, P0)
    && d.read1 == HasRead(es, P1)
    && d.write0 == HasWrite(es, P0)
    && d.write1 == HasWrite(es, P1)
    && d.data0 == Default(LatestAt(es + past, P0), start)
    && (HasWrite(es + past, P1) ==> Some(d.data1) == LatestAt(es + past, P1))
  }

  predicate ShowsLog(ds: seq<WireData>, l: Log, L: Log, r: RegFile) {
    |ds| == |l| == |L| == |r| && forall i :: 0 <= i < |r| ==> Shows(ds[i], l[i], L[i], r[i])
  }

  /** The scheduler's wires: nothing is older than its log. */
  predicate ShowsAll(ds: seq<WireData>, L: Log, r: RegFile) { ShowsLog(ds, L, Empty(|L|), r) }

  lemma ShowsPush(d: WireData, es: RLog, past: RLog, start: Bits, e: Entry)
    requires Shows(d, es, past, start)
    ensures Shows(if e.Rd? then AfterRead(d, e.port) else AfterWrite(d, e.port, e.val), [e] + es, past, start)
  {
    PushLaws(e, es);
    assert ([e] + es) + past == [e] + (es + past);
    PushLaws(e, es + past);
  }

  /** For a write, the rule's own check and the scheduler's check together are the
      check of the reference semantics. */
  lemma WriteChecks(d: WireData, input: WireData, es: RLog, past: RLog, p: Port, v: Bits, start: Bits)
    requires Shows(d, es, past, start) && Shows(input, past, [], start) && NoClash(d, input)
    ensures MayWriteEntry(es + past, p) <==> OwnWriteAllowed(d, p) && NoClash(AfterWrite(d, p, v), input)
  {
    AppLaws(es, past);
  }

  lemma ReadChecks(d: WireData, input: WireData, es: RLog, past: RLog, p: Port, start: Bits)
    requires Shows(d, es, past, start) && Shows(input, past, [], start) && NoClash(d, input)
    ensures MayReadEntry(past, p) <==> NoClash(AfterRead(d, p), input)
  {
  }

  /** What the wires `o` say about a run that the reference semantics ends in `res`. */
  predicate Matches(o: WireOutcome, res: Outcome, input: seq<WireData>, L: Log, r: RegFile)
    requires |o.wires.regs| == |input|
  {
    match res
    case Failed => !WillFire(o.wires, input)
    case Ok(l, v, G) =>
      o.val == v && o.ctx == G && WillFire(o.wires, input) && ShowsLog(o.wires.regs, l, L, r)
  }

  lemma {:induction false} ActionWires(r: RegFile, sigma: ExtFun, G: Ctx, L: Log, l: Log, a: Action,
                                       w: RuleWires, input: seq<WireData>)
    requires Lowered(a) && Scoped(a, |r|, |G|) && |L| == |l| == |r|
    requires ShowsLog(w.regs, l, L, r) && ShowsAll(input, L, r) && WillFire(w, input)
    ensures Matches(RunAction(r, sigma, G, a, w), InterpAction(r, sigma, G, L, l, a), input, L, r)
    decreases a, 0
  {
    match a
    case Seq(r1, r2) =>
      ActionWires(r, sigma, G, L, l, r1, w, input);
      ThenWires(r, sigma, L, RunAction(r, sigma, G, r1, w), InterpAction(r, sigma, G, L, l, r1), r2, [], input);
    case Assign(_, _, ex) => ActionWires(r, sigma, G, L, l, ex, w, input);
    case Bind(_, _, ex, body) =>
      ActionWires(r, sigma, G, L, l, ex, w, input);
      var o := RunAction(r, sigma, G, ex, w);
      ThenWires(r, sigma, L, o, InterpAction(r, sigma, G, L, l, ex), body, [o.val], input);
    case If(cond, tbranch, fbranch) =>
      ActionWires(r, sigma, G, L, l, cond, w, input);
      var o := RunAction(r, sigma, G, cond, w);
      ThenWires(r, sigma, L, o, InterpAction(r, sigma, G, L, l, cond),
                if Single(o.val) then tbranch else fbranch, [], input);
    case Read(p, idx) => ReadWires(r, sigma, G, L, l, a, w, input);
    case Write(p, idx, value) =>
      ActionWires(r, sigma, G, L, l, value, w, input);
      WriteWires(r, L, RunAction(r, sigma, G, value, w), InterpAction(r, sigma, G, L, l, value), p, idx, input);
    case Unop(_, arg) => ActionWires(r, sigma, G, L, l, arg, w, input);
    case Binop(_, arg1, arg2) =>
      ActionWires(r, sigma, G, L, l, arg1, w, input);
      ThenWires(r, sigma, L, RunAction(r, sigma, G, arg1, w), InterpAction(r, sigma, G, L, l, arg1), arg2, [], input);
    case ExternalCall(_, arg) => ActionWires(r, sigma, G, L, l, arg, w, input);
    case APos(a) => ActionWires(r, sigma, G, L, l, a, w, input);
    case _ =>
  }

  /** Running `a` after a first part: if that failed, the wires stay failed. */
  lemma {:induction false} ThenWires(r: RegFile, sigma: ExtFun, L: Log, o: WireOutcome, res: Outcome, a: Action, X: Ctx,
                                     input: seq<WireData>)
    requires |L| == |r| == |o.wires.regs| == |input| && ShowsAll(input, L, r)
    requires Matches(o, res, input, L, r)
    requires res.Ok? ==> |res.log| == |r|
    requires Lowered(a) && Scoped(a, |r|, |X + o.ctx|)
    ensures var o' := RunAction(r, sigma, X + o.ctx, a, o.wires);
            if res.Ok? then Matches(o', InterpAction(r, sigma, X + res.ctx, L, res.log, a), input, L, r)
            else !WillFire(o'.wires, input)
    ensures [] + o.ctx == o.ctx
    decreases a, 1
  {
    if res.Ok? {
      ActionWires(r, sigma, X + o.ctx, L, res.log, a, o.wires, input);
    } else {
      RunActionLater(r, sigma, X + o.ctx, a, o.wires);
      LaterKeepsFailing(o.wires, RunAction(r, sigma, X + o.ctx, a, o.wires).wires, input);
    }
  }

  /** Changing one register's wires leaves the decision to that register. */
  lemma WillFireUpdate(w: RuleWires, input: seq<WireData>, idx: nat, canFire: bool, d: WireData)
    requires |w.regs| == |input| && idx < |input| && WillFire(w, input)
    ensures WillFire(RuleWires(canFire, w.regs[idx := d]), input) <==> canFire && NoClash(d, input[idx])
  {
    var regs := w.regs[idx := d];
    assert regs[idx] == d;
    if canFire && NoClash(d, input[idx]) {
      forall i | 0 <= i < |input| ensures NoClash(regs[i], input[i]) {
        assert i == idx || regs[i] == w.regs[i];
      }
    }
  }

  lemma ShowsUpdate(ds: seq<WireData>, l: Log, L: Log, r: RegFile, idx: nat, e: Entry)
    requires ShowsLog(ds, l, L, r) && idx < |r|
    ensures var d := if e.Rd? then AfterRead(ds[idx], e.port) else AfterWrite(ds[idx], e.port, e.val);
            ShowsLog(ds[idx := d], Push(l, idx, e), L, r)
  {
    ShowsPush(ds[idx], l[idx], L[idx], r[idx], e);
  }

  lemma {:induction false} ReadWires(r: RegFile, sigma: ExtFun, G: Ctx, L: Log, l: Log, a: Action, w: RuleWires, input: seq<WireData>)
    requires a.Read? && Scoped(a, |r|, |G|) && |L| == |l| == |r|
    requires ShowsLog(w.regs, l, L, r) && ShowsAll(input, L, r) && WillFire(w, input)
    ensures Matches(RunAction(r, sigma, G, a, w), InterpAction(r, sigma, G, L, l, a), input, L, r)
  {
    var p, idx := a.port, a.idx;
    assert Shows(w.regs[idx], l[idx], L[idx], r[idx]) && Shows(input[idx], L[idx], [], r[idx]);
    ReadChecks(w.regs[idx], input[idx], l[idx], L[idx], p, r[idx]);
    WillFireUpdate(w, input, idx, w.canFire, AfterRead(w.regs[idx], p));
    ShowsUpdate(w.regs, l, L, r, idx, Rd(p));
  }

  /** A write after its value has been computed. */
  lemma WriteWires(r: RegFile, L: Log, o: WireOutcome, res: Outcome, p: Port, idx: nat, input: seq<WireData>)
    requires idx < |r| == |L| == |o.wires.regs| && ShowsAll(input, L, r) && Matches(o, res, input, L, r)
    ensures var d := o.wires.regs[idx];
            var w' := RuleWires(o.wires.canFire && OwnWriteAllowed(d, p), o.wires.regs[idx := AfterWrite(d, p, o.val)]);
            var res' := if res.Ok? && MayWrite(L, res.log, p, idx) then Ok(Push(res.log, idx, Wr(p, res.val)), [], res.ctx)
                        else Failed;
            Matches(WireOutcome(w', [], o.ctx), res', input, L, r)
  {
    var d := o.wires.regs[idx];
    if res.Failed? {
      WriteLater(o.wires, idx, p, o.val);
      LaterKeepsFailing(o.wires, RuleWires(o.wires.canFire && OwnWriteAllowed(d, p),
                                           o.wires.regs[idx := AfterWrite(d, p, o.val)]), input);
    } else {
      assert Shows(d, res.log[idx], L[idx], r[idx]) && Shows(input[idx], L[idx], [], r[idx]);
      WriteChecks(d, input[idx], res.log[idx], L[idx], p, o.val, r[idx]);
      WillFireUpdate(o.wires, input, idx, o.wires.canFire && OwnWriteAllowed(d, p), AfterWrite(d, p, o.val));
      ShowsUpdate(o.wires.regs, res.log, L, r, idx, Wr(p, o.val));
    }
  }

  lemma WriteLater(w: RuleWires, idx: nat, p: Port, v: Bits)
    requires idx < |w.regs|
    ensures Later(w, RuleWires(w.canFire && OwnWriteAllowed(w.regs[idx], p), w.regs[idx := AfterWrite(w.regs[idx], p, v)]))
  {
  }

  /** A rule's will-fire wire is up exactly when the rule succeeds, and then the
      accumulated wires show the scheduler's new log. */
  lemma {:induction false} RuleWillFire(r: RegFile, sigma: ExtFun, L: Log, rl: Action, input: seq<WireData>)
    requires Lowered(rl) && Scoped(rl, |r|, 0) && |L| == |r| && ShowsAll(input, L, r)
    ensures var w, o := RunRule(r, sigma, rl, input), InterpRule(r, sigma, L, rl);
            && WillFire(w, input) == o.Some?
            && (o.Some? ==> ShowsAll(Accumulate(w.regs, input), App(o.value, L), r))
  {
    forall i | 0 <= i < |r| ensures Shows(Start(input).regs[i], Empty(|r|)[i], L[i], r[i]) {
      assert Shows(input[i], L[i], [], r[i]);
      assert [] + L[i] == L[i] == L[i] + [];
    }
    ActionWires(r, sigma, [], L, Empty(|r|), rl, Start(input), input);
    var w, o := RunRule(r, sigma, rl, input), InterpRule(r, sigma, L, rl);
    if o.Some? {
      var acc, l := Accumulate(w.regs, input), App(o.value, L);
      forall i | 0 <= i < |r| ensures Shows(acc[i], l[i], [], r[i]) {
        assert Shows(w.regs[i], o.value[i], L[i], r[i]) && Shows(input[i], L[i], [], r[i]);
        AppLaws(o.value[i], L[i]);
        assert l[i] + [] == l[i];
      }
    }
  }

  lemma {:induction false} SchedulerWires(r: RegFile, sigma: ExtFun, rules: Rules, L: Log, s: Scheduler, input: seq<WireData>)
    requires Runnable(r, rules) && |L| == |r| && ShowsAll(input, L, r)
    ensures ShowsAll(RunScheduler(r, sigma, rules, s, input), InterpScheduler(r, sigma, rules, L, s), r)
    decreases s
  {
    match s
    case Done =>
    case Cons(rl, s) =>
      RuleWillFire(r, sigma, L, rules(rl), input);
      var w, o := RunRule(r, sigma, rules(rl), input), InterpRule(r, sigma, L, rules(rl));
      if o.Some? {
        SchedulerWires(r, sigma, rules, App(o.value, L), s, Accumulate(w.regs, input));
      } else {
        SchedulerWires(r, sigma, rules, L, s, input);
      }
    case Try(rl, s1, s2) =>
      RuleWillFire(r, sigma, L, rules(rl), input);
      var w, o := RunRule(r, sigma, rules(rl), input), InterpRule(r, sigma, L, rules(rl));
      if o.Some? {
        SchedulerWires(r, sigma, rules, App(o.value, L), s1, Accumulate(w.regs, input));
      } else {
        SchedulerWires(r, sigma, rules, L, s2, input);
      }
    case SPos(s) => SchedulerWires(r, sigma, rules, L, s, input);
  }
}

/** Rules whose circuits are supplied from outside.  The compiler gives the rule's module
    a bundle with the wires of the registers that the rule mentions, and uses what the
    module drives in place of its own circuits. */
module ExternalRules {
  import opened BitVectors
  import opened Syntax
  import opened Logs
  import opened Semantics
  import opened Circuits
  import opened CircuitGeneration
  import opened Footprints
  import opened Histories
  import W = Wires

  function Bundle(input: seq<W.WireData>, rs: seq<nat>): seq<W.WireData>
    requires forall reg :: reg in rs ==> reg < |input|
  {
    seq(|rs|, k requires 0 <= k < |rs| => assert rs[k] in rs; input[rs[k]])
  }

  /** The rule's wires with those that the module drives in their place. */
  function Merged(o: W.RuleWires, rs: seq<nat>, w: W.RuleWires): W.RuleWires
    requires |o.regs| == |rs|
  {
    W.RuleWires(o.canFire, seq(|w.regs|, i requires 0 <= i < |w.regs| => if i in rs then o.regs[Index(rs, i)] else w.regs[i]))
  }

  /** The module decides as the rule does, and agrees with it whenever the rule fires. */
  ghost predicate Stands(o: W.RuleWires, rs: seq<nat>, w: W.RuleWires, input: seq<W.WireData>)
    requires |w.regs| == |input|
  {
    && |o.regs| == |rs|
    && W.WillFire(Merged(o, rs, w), input) == W.WillFire(w, input)
    && (W.WillFire(w, input) ==> Merged(o, rs, w) == w)
  }

  ghost predicate Implements(ext: External, sigma: ExtFun, rl: RuleName, rule: Action, r: RegFile, input: seq<W.WireData>)
    requires Lowered(rule) && Scoped(rule, |r|, 0) && |input| == |r|
  {
    RegistersInRange(rule, |r|);
    var rs := ActionRegisters(rule);
    Stands(ext(rl, rs, Bundle(input, rs)), rs, W.RunRule(r, sigma, rule, input), input)
  }

  /** The modules implement the external rules, whatever the registers and the log of the
      cycle when the rule is tried. */
  ghost predicate Faithful(m: Meaning, sigma: ExtFun, n: nat, rules: Rules, external: RuleName -> bool)
    requires ScopedRules(rules, n) && LoweredRules(rules)
  {
    m.ByModule? ==>
      forall rl, r: RegFile, L: Log, input {:trigger W.ShowsAll(input, L, r), external(rl)} ::
        external(rl) && |r| == |L| == n && W.ShowsAll(input, L, r) ==>
          Scoped(rules(rl), |r|, 0) && Lowered(rules(rl)) && Implements(m.ext, sigma, rl, rules(rl), r, input)
  }

  // ----- the bundle is enough -----

  const Idle := W.WireData(false, false, false, false, [], [])

  /** All wires, as far as the bundle tells them. */
  function Unbundled(n: nat, rs: seq<nat>, bundle: seq<W.WireData>): seq<W.WireData> {
    seq(n, i requires 0 <= i < n => if i in rs && Index(rs, i) < |bundle| then bundle[Index(rs, i)] else Idle)
  }

  function Data0(ds: seq<W.WireData>): RegFile { seq(|ds|, i requires 0 <= i < |ds| => ds[i].data0) }

  /** A module that knows the registers by its bundle alone. */
  ghost function ModuleOf(n: nat, sigma: ExtFun, rules: Rules): External
    requires ScopedRules(rules, n) && LoweredRules(rules)
  {
    (rl, rs, bundle) =>
      var full := Unbundled(n, rs, bundle);
      assert Scoped(rules(rl), n, 0) && Lowered(rules(rl));
      var w := W.RunRule(Data0(full), sigma, rules(rl), full);
      W.RuleWires(w.canFire, seq(|rs|, k requires 0 <= k < |rs| => if rs[k] < n then w.regs[rs[k]] else Idle))
  }

  /** The rule may still fire, as far as the registers in `R` decide it. */
  ghost predicate Live(R: set<nat>, w: W.RuleWires, input: seq<W.WireData>)
    requires |w.regs| == |input|
  {
    w.canFire && forall i: nat :: i in R && i < |input| ==> W.NoClash(w.regs[i], input[i])
  }

  lemma {:induction false} DeadStays(R: set<nat>, r: RegFile, sigma: ExtFun, G: Ctx, a: Action, w: W.RuleWires, input: seq<W.WireData>)
    requires Lowered(a) && Scoped(a, |r|, |G|) && |w.regs| == |r| == |input|
    ensures !Live(R, w, input) ==> !Live(R, W.RunAction(r, sigma, G, a, w).wires, input)
  {
    hide W.RunAction;
    var w' := W.RunAction(r, sigma, G, a, w).wires;
    W.RunActionLater(r, sigma, G, a, w);
    if Live(R, w', input) {
      forall i: nat | i in R && i < |input| ensures W.NoClash(w.regs[i], input[i]) {
        assert W.NoClash(w'.regs[i], input[i]) && W.MoreAccesses(w.regs[i], w'.regs[i]);
      }
    }
  }

  /** Two runs that the registers in `R` cannot tell apart. */
  ghost predicate Twins(R: set<nat>, o: W.WireOutcome, o': W.WireOutcome, input: seq<W.WireData>, input': seq<W.WireData>)
    requires |o.wires.regs| == |input| && |o'.wires.regs| == |input'|
  {
    if Live(R, o.wires, input)
    then Live(R, o'.wires, input') && o'.val == o.val && o'.ctx == o.ctx && AgreeOn(R, o.wires.regs, o'.wires.regs)
    else !Live(R, o'.wires, input')
  }

  /** Registers may differ where an earlier rule wrote: a read of such a register at
      port 0 keeps the rule from firing. */
  ghost predicate SameStart(R: set<nat>, r: RegFile, r': RegFile, input: seq<W.WireData>, input': seq<W.WireData>) {
    && |r| == |r'| == |input| == |input'| && AgreeOn(R, input, input')
    && forall i: nat :: i in R && i < |r| && !input[i].write0 ==> r[i] == r'[i]
  }

  lemma {:induction false} TwinRuns(R: set<nat>, r: RegFile, r': RegFile, sigma: ExtFun, G: Ctx, a: Action, w: W.RuleWires,
                                    w': W.RuleWires, input: seq<W.WireData>, input': seq<W.WireData>)
    requires Lowered(a) && Scoped(a, |r|, |G|) && Uses(a, Accesses(R)) && SameStart(R, r, r', input, input')
    requires |w.regs| == |w'.regs| == |r| == |r'| == |input| == |input'|
    requires AgreeOn(R, w.regs, w'.regs) && Live(R, w, input) && Live(R, w', input')
    ensures Twins(R, W.RunAction(r, sigma, G, a, w), W.RunAction(r', sigma, G, a, w'), input, input')
    decreases a, 0
  {
    hide Accesses, Live, AgreeOn;
    match a
    case Fail(_) => NeverLive(R, w, input); NeverLive(R, w', input');
    case Assign(_, _, ex) => TwinRuns(R, r, r', sigma, G, ex, w, w', input, input');
    case Seq(r1, r2) =>
      TwinRuns(R, r, r', sigma, G, r1, w, w', input, input');
      var (o, o') := (W.RunAction(r, sigma, G, r1, w), W.RunAction(r', sigma, G, r1, w'));
      TwinsGoOn(R, r, r', sigma, o.wires, o'.wires, o.ctx, o'.ctx, r2, r2, input, input');
    case Bind(_, _, ex, body) =>
      TwinRuns(R, r, r', sigma, G, ex, w, w', input, input');
      var (o, o') := (W.RunAction(r, sigma, G, ex, w), W.RunAction(r', sigma, G, ex, w'));
      TwinsGoOn(R, r, r', sigma, o.wires, o'.wires, [o.val] + o.ctx, [o'.val] + o'.ctx, body, body, input, input');
    case If(cond, tbranch, fbranch) =>
      TwinRuns(R, r, r', sigma, G, cond, w, w', input, input');
      var (o, o') := (W.RunAction(r, sigma, G, cond, w), W.RunAction(r', sigma, G, cond, w'));
      TwinsGoOn(R, r, r', sigma, o.wires, o'.wires, o.ctx, o'.ctx, if Single(o.val) then tbranch else fbranch,
                if Single(o'.val) then tbranch else fbranch, input, input');
    case Read(p, idx) => InAccesses(R, idx, Reading(p)); TwinReads(R, r, r', p, idx, w, w', input, input');
    case Write(p, idx, value) =>
      InAccesses(R, idx, Writing(p));
      TwinRuns(R, r, r', sigma, G, value, w, w', input, input');
      TwinWrites(R, p, idx, W.RunAction(r, sigma, G, value, w), W.RunAction(r', sigma, G, value, w'), input, input');
    case Unop(_, arg) => TwinRuns(R, r, r', sigma, G, arg, w, w', input, input');
    case Binop(_, arg1, arg2) =>
      TwinRuns(R, r, r', sigma, G, arg1, w, w', input, input');
      var (o, o') := (W.RunAction(r, sigma, G, arg1, w), W.RunAction(r', sigma, G, arg1, w'));
      TwinsGoOn(R, r, r', sigma, o.wires, o'.wires, o.ctx, o'.ctx, arg2, arg2, input, input');
    case ExternalCall(_, arg) => TwinRuns(R, r, r', sigma, G, arg, w, w', input, input');
    case APos(a) => TwinRuns(R, r, r', sigma, G, a, w, w', input, input');
    case _ =>
  }

  lemma NeverLive(R: set<nat>, w: W.RuleWires, input: seq<W.WireData>)
    requires |w.regs| == |input|
    ensures !Live(R, w.(canFire := false), input)
  {
  }

  /** Running on after twin runs, in contexts that are the same while the rule is live. */
  lemma {:induction false} TwinsGoOn(R: set<nat>, r: RegFile, r': RegFile, sigma: ExtFun, w: W.RuleWires, w': W.RuleWires, G: Ctx, G': Ctx,
                                     a: Action, a': Action, input: seq<W.WireData>, input': seq<W.WireData>)
    requires SameStart(R, r, r', input, input') && |w.regs| == |w'.regs| == |r| && |G| == |G'|
    requires Lowered(a) && Scoped(a, |r|, |G|) && Lowered(a') && Scoped(a', |r|, |G|) && Uses(a, Accesses(R))
    requires Live(R, w, input) <==> Live(R, w', input')
    requires Live(R, w, input) ==> a' == a && G' == G && AgreeOn(R, w.regs, w'.regs)
    ensures Twins(R, W.RunAction(r, sigma, G, a, w), W.RunAction(r', sigma, G', a', w'), input, input')
    ensures Live(R, W.RunAction(r, sigma, G, a, w).wires, input) ==> Live(R, w, input)
    decreases a, 1
  {
    hide W.RunAction, Accesses, AgreeOn, Live;
    DeadStays(R, r, sigma, G, a, w, input);
    if Live(R, w, input) {
      TwinRuns(R, r, r', sigma, G, a, w, w', input, input');
    } else {
      DeadStays(R, r', sigma, G', a', w', input');
    }
  }

  lemma LiveUpdate(R: set<nat>, w: W.RuleWires, input: seq<W.WireData>, canFire: bool, idx: nat, d: W.WireData)
    requires |w.regs| == |input| && idx in R && idx < |input| && Live(R, w, input)
    ensures Live(R, W.RuleWires(canFire, w.regs[idx := d]), input) <==> canFire && W.NoClash(d, input[idx])
  {
    var w' := W.RuleWires(canFire, w.regs[idx := d]);
    assert w'.regs[idx] == d;
    if canFire && W.NoClash(d, input[idx]) {
      forall i: nat | i in R && i < |input| ensures W.NoClash(w'.regs[i], input[i]) { assert i == idx || w'.regs[i] == w.regs[i]; }
    }
  }

  lemma {:induction false} TwinReads(R: set<nat>, r: RegFile, r': RegFile, p: Port, idx: nat, w: W.RuleWires, w': W.RuleWires,
                                     input: seq<W.WireData>, input': seq<W.WireData>)
    requires SameStart(R, r, r', input, input') && idx in R && idx < |r|
    requires |w.regs| == |w'.regs| == |r| && AgreeOn(R, w.regs, w'.regs) && Live(R, w, input) && Live(R, w', input')
    ensures var (d, d') := (W.AfterRead(w.regs[idx], p), W.AfterRead(w'.regs[idx], p));
            var (u, u') := (w.(regs := w.regs[idx := d]), w'.(regs := w'.regs[idx := d']));
            && (Live(R, u, input) <==> Live(R, u', input')) && AgreeOn(R, u.regs, u'.regs)
            && (Live(R, u, input) ==> (if p.P0? then r[idx] else w.regs[idx].data0) == (if p.P0? then r'[idx] else w'.regs[idx].data0))
  {
    LiveUpdate(R, w, input, w.canFire, idx, W.AfterRead(w.regs[idx], p));
    LiveUpdate(R, w', input', w'.canFire, idx, W.AfterRead(w'.regs[idx], p));
  }

  lemma {:induction false} TwinWrites(R: set<nat>, p: Port, idx: nat, o: W.WireOutcome, o': W.WireOutcome,
                                      input: seq<W.WireData>, input': seq<W.WireData>)
    requires |o.wires.regs| == |o'.wires.regs| == |input| == |input'| && AgreeOn(R, input, input') && idx in R && idx < |input|
    requires Twins(R, o, o', input, input')
    ensures var (d, d') := (o.wires.regs[idx], o'.wires.regs[idx]);
            var u := W.RuleWires(o.wires.canFire && W.OwnWriteAllowed(d, p), o.wires.regs[idx := W.AfterWrite(d, p, o.val)]);
            var u' := W.RuleWires(o'.wires.canFire && W.OwnWriteAllowed(d', p), o'.wires.regs[idx := W.AfterWrite(d', p, o'.val)]);
            Twins(R, W.WireOutcome(u, [], o.ctx), W.WireOutcome(u', [], o'.ctx), input, input')
  {
    var (d, d') := (o.wires.regs[idx], o'.wires.regs[idx]);
    if Live(R, o.wires, input) {
      LiveUpdate(R, o.wires, input, o.wires.canFire && W.OwnWriteAllowed(d, p), idx, W.AfterWrite(d, p, o.val));
      LiveUpdate(R, o'.wires, input', o'.wires.canFire && W.OwnWriteAllowed(d', p), idx, W.AfterWrite(d', p, o'.val));
    } else {
      WriteKeepsDead(R, o.wires, input, p, idx, o.val);
      WriteKeepsDead(R, o'.wires, input', p, idx, o'.val);
    }
  }

  lemma WriteKeepsDead(R: set<nat>, w: W.RuleWires, input: seq<W.WireData>, p: Port, idx: nat, v: Bits)
    requires |w.regs| == |input| && idx < |input| && !Live(R, w, input)
    ensures !Live(R, W.RuleWires(w.canFire && W.OwnWriteAllowed(w.regs[idx], p), w.regs[idx := W.AfterWrite(w.regs[idx], p, v)]), input)
  {
    if w.canFire {
      var i: nat :| i in R && i < |input| && !W.NoClash(w.regs[i], input[i]);
      assert !W.NoClash(w.regs[idx := W.AfterWrite(w.regs[idx], p, v)][i], input[i]);
    }
  }

  /** What the rule does not mention cannot keep it from firing. */
  lemma {:induction false} UnmentionedIdle(R: set<nat>, r: RegFile, sigma: ExtFun, G: Ctx, a: Action, w: W.RuleWires)
    requires Lowered(a) && Scoped(a, |r|, |G|) && Uses(a, Accesses(R)) && |w.regs| == |r|
    ensures forall i: nat :: i < |r| && i !in R ==> W.RunAction(r, sigma, G, a, w).wires.regs[i] == w.regs[i]
    decreases a
  {
    hide Accesses;
    match a
    case Assign(_, _, ex) => UnmentionedIdle(R, r, sigma, G, ex, w);
    case Seq(r1, r2) =>
      UnmentionedIdle(R, r, sigma, G, r1, w);
      var o := W.RunAction(r, sigma, G, r1, w);
      UnmentionedIdle(R, r, sigma, o.ctx, r2, o.wires);
    case Bind(_, _, ex, body) =>
      UnmentionedIdle(R, r, sigma, G, ex, w);
      var o := W.RunAction(r, sigma, G, ex, w);
      UnmentionedIdle(R, r, sigma, [o.val] + o.ctx, body, o.wires);
    case If(cond, tbranch, fbranch) =>
      UnmentionedIdle(R, r, sigma, G, cond, w);
      var o := W.RunAction(r, sigma, G, cond, w);
      UnmentionedIdle(R, r, sigma, o.ctx, if Single(o.val) then tbranch else fbranch, o.wires);
    case Read(p, idx) => InAccesses(R, idx, Reading(p));
    case Write(p, idx, value) => InAccesses(R, idx, Writing(p)); UnmentionedIdle(R, r, sigma, G, value, w);
    case Unop(_, arg) => UnmentionedIdle(R, r, sigma, G, arg, w);
    case Binop(_, arg1, arg2) =>
      UnmentionedIdle(R, r, sigma, G, arg1, w);
      var o := W.RunAction(r, sigma, G, arg1, w);
      UnmentionedIdle(R, r, sigma, o.ctx, arg2, o.wires);
    case ExternalCall(_, arg) => UnmentionedIdle(R, r, sigma, G, arg, w);
    case APos(a) => UnmentionedIdle(R, r, sigma, G, a, w);
    case _ =>
  }

  /** So the registers it mentions decide. */
  lemma {:induction false} LiveIsWillFire(r: RegFile, sigma: ExtFun, rule: Action, input: seq<W.WireData>)
    requires Lowered(rule) && Scoped(rule, |r|, 0) && |input| == |r|
    ensures var w := W.RunRule(r, sigma, rule, input);
            && (Live(RegistersOf(rule), w, input) <==> W.WillFire(w, input))
            && forall i: nat :: i < |r| && i !in RegistersOf(rule) ==> w.regs[i] == W.Start(input).regs[i]
  {
    hide RegistersOf, Uses, Accesses;
    UsesItsRegisters(rule);
    UnmentionedIdle(RegistersOf(rule), r, sigma, [], rule, W.Start(input));
    var w := W.RunRule(r, sigma, rule, input);
    if Live(RegistersOf(rule), w, input) {
      forall i: nat | i < |input| ensures W.NoClash(w.regs[i], input[i]) {
        if i !in RegistersOf(rule) { assert w.regs[i] == W.Start(input).regs[i]; }
      }
    }
  }

  lemma {:induction false} BundleTells(rule: Action, r: RegFile, L: Log, input: seq<W.WireData>)
    requires Lowered(rule) && Scoped(rule, |r|, 0) && |L| == |r| && W.ShowsAll(input, L, r)
    requires forall reg :: reg in ActionRegisters(rule) ==> reg < |r|
    ensures var rs := ActionRegisters(rule);
            var full := Unbundled(|r|, rs, Bundle(input, rs));
            && (forall i: nat :: i < |r| && i in rs ==> full[i] == input[i])
            && SameStart(RegistersOf(rule), r, Data0(full), input, full)
  {
    var rs := ActionRegisters(rule);
    var full := Unbundled(|r|, rs, Bundle(input, rs));
    forall i: nat | i in RegistersOf(rule) && i < |r| && !input[i].write0 ensures r[i] == Data0(full)[i] {
      assert W.Shows(input[i], L[i], [], r[i]);
      assert L[i] + [] == L[i];
      LatestAtIffHasWrite(L[i], P0);
    }
  }

  /** What the module drives, put in place of the rule's own wires. */
  lemma {:induction false} ModuleStands(n: nat, sigma: ExtFun, rules: Rules, rl: RuleName, r: RegFile, L: Log, input: seq<W.WireData>)
    requires ScopedRules(rules, n) && LoweredRules(rules) && |r| == |L| == n && W.ShowsAll(input, L, r)
    ensures Scoped(rules(rl), |r|, 0) && Lowered(rules(rl))
    ensures Implements(ModuleOf(n, sigma, rules), sigma, rl, rules(rl), r, input)
  {
    var rule := rules(rl);
    assert Scoped(rule, n, 0) && Lowered(rule);
    RegistersInRange(rule, n);
    var (rs, R) := (ActionRegisters(rule), RegistersOf(rule));
    var full := Unbundled(n, rs, Bundle(input, rs));
    BundleTells(rule, r, L, input);
    UsesItsRegisters(rule);
    var (s, s') := (W.Start(input), W.Start(full));
    TwinRuns(R, r, Data0(full), sigma, [], rule, s, s', input, full);
    LiveIsWillFire(r, sigma, rule, input);
    LiveIsWillFire(Data0(full), sigma, rule, full);
    MergedModule(rs, W.RunRule(r, sigma, rule, input), W.RunRule(Data0(full), sigma, rule, full), input, full,
                 ModuleOf(n, sigma, rules)(rl, rs, Bundle(input, rs)));
  }

  lemma {:induction false} MergedModule(rs: seq<nat>, w: W.RuleWires, w': W.RuleWires, input: seq<W.WireData>, full: seq<W.WireData>,
                                        o: W.RuleWires)
    requires |w.regs| == |w'.regs| == |input| == |full| && forall i :: i in rs ==> i < |input| && full[i] == input[i]
    requires var R := set i | i in rs;
             && (Live(R, w, input) <==> Live(R, w', full)) && (Live(R, w, input) <==> W.WillFire(w, input))
             && (Live(R, w, input) ==> AgreeOn(R, w.regs, w'.regs))
             && forall i: nat :: i < |w.regs| && i !in R ==> w.regs[i] == W.Start(input).regs[i]
    requires o == W.RuleWires(w'.canFire, seq(|rs|, k requires 0 <= k < |rs| => if rs[k] < |w'.regs| then w'.regs[rs[k]] else Idle))
    ensures Stands(o, rs, w, input)
  {
    var R := set i | i in rs;
    var x := Merged(o, rs, w);
    forall i: nat | i < |w.regs| ensures x.regs[i] == if i in R then w'.regs[i] else w.regs[i] {}
    if W.WillFire(x, input) {
      forall i: nat | i in R && i < |full| ensures W.NoClash(w'.regs[i], full[i]) { assert W.NoClash(x.regs[i], input[i]); }
      assert Live(R, w', full);
    }
  }

  /** Modules that know nothing but their bundles can implement every rule. */
  lemma {:induction false} BundlesSuffice(n: nat, sigma: ExtFun, rules: Rules, external: RuleName -> bool)
    requires ScopedRules(rules, n) && LoweredRules(rules)
    ensures Faithful(ByModule(ModuleOf(n, sigma, rules)), sigma, n, rules, external)
  {
    forall rl, r: RegFile, L: Log, input | external(rl) && |r| == |L| == n && W.ShowsAll(input, L, r)
      ensures Scoped(rules(rl), |r|, 0) && Lowered(rules(rl)) && Implements(ModuleOf(n, sigma, rules), sigma, rl, rules(rl), r, input)
    {
      ModuleStands(n, sigma, rules, rl, r, L, input);
    }
  }
}

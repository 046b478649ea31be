/** Static register histories: what a rule, and a scheduler, may do to each
    register, and the kind of read-write set the simulator then needs for it. */
module Histories {
  import opened BitVectors
  import opened Syntax
  import opened Logs
  import opened Semantics

  datatype Tribool = TTrue | TFalse | TUnknown

  /** Which of the four accesses happened, and whether they are known not to conflict. */
  datatype History = History(r0: Tribool, r1: Tribool, w0: Tribool, w1: Tribool, cf: Tribool)

  type HistoryMap = seq<History>

  datatype Access = Reading(port: Port) | Writing(port: Port)

  const EmptyHistory := History(TFalse, TFalse, TFalse, TFalse, TTrue)

  function EmptyMap(n: nat): HistoryMap { seq(n, i => EmptyHistory) }

  // ----- three-valued logic -----

  function JoinT(x: Tribool, y: Tribool): Tribool { if x == y then x else TUnknown }

  function AndT(x: Tribool, y: Tribool): Tribool {
    if x == TFalse || y == TFalse then TFalse
    else if x == TTrue && y == TTrue then TTrue
    else TUnknown
  }

  function NotT(x: Tribool): Tribool {
    match x
    case TFalse => TTrue
    case TTrue => TFalse
    case TUnknown => TUnknown
  }

  function OrT(x: Tribool, y: Tribool): Tribool {
    if x == TTrue || y == TTrue then TTrue
    else if x == TFalse && y == TFalse then TFalse
    else TUnknown
  }

  function ImpliesT(x: Tribool, y: Tribool): Tribool { OrT(NotT(x), y) }

  // ----- histories of rules -----

  function JoinHistory(x: History, y: History): History {
    History(JoinT(x.r0, y.r0), JoinT(x.r1, y.r1), JoinT(x.w0, y.w0), JoinT(x.w1, y.w1), JoinT(x.cf, y.cf))
  }

  function JoinMaps(x: HistoryMap, y: HistoryMap): (m: HistoryMap)
    requires |x| == |y|
    ensures |m| == |x|
  {
    seq(|x|, i requires 0 <= i < |x| => JoinHistory(x[i], y[i]))
  }

  function UpdateCf(h: History, e: Access): Tribool {
    match e
    case Reading(_) => TTrue
    case Writing(P0) => AndT(AndT(NotT(h.r1), NotT(h.w0)), NotT(h.w1))
    case Writing(P1) => NotT(h.w1)
  }

  function UpdateHistory(h: History, e: Access): History {
    var h' := h.(cf := AndT(h.cf, UpdateCf(h, e)));
    match e
    case Reading(P0) => h'.(r0 := TTrue)
    case Reading(P1) => h'.(r1 := TTrue)
    case Writing(P0) => h'.(w0 := TTrue)
    case Writing(P1) => h'.(w1 := TTrue)
  }

  function UpdateMap(h: HistoryMap, idx: nat, e: Access): (m: HistoryMap)
    ensures |m| == |h|
  {
    if idx < |h| then h[idx := UpdateHistory(h[idx], e)] else h
  }

  /** The history that annotates the point after `a`, given the one before it.
      The arguments of a call are annotated from the first to the last. */
  function After(h: HistoryMap, a: Action): (m: HistoryMap)
    ensures |m| == |h|
    decreases a
  {
    match a
    case Assign(_, _, ex) => After(h, ex)
    case Seq(r1, r2) => After(After(h, r1), r2)
    case Bind(_, _, ex, body) => After(After(h, ex), body)
    case If(cond, tbranch, fbranch) =>
      var h := After(h, cond);
      JoinMaps(After(h, tbranch), After(h, fbranch))
    case Read(p, idx) => UpdateMap(h, idx, Reading(p))
    case Write(p, idx, value) => UpdateMap(After(h, value), idx, Writing(p))
    case Unop(_, arg) => After(h, arg)
    case Binop(_, arg1, arg2) => After(After(h, arg1), arg2)
    case ExternalCall(_, arg) => After(h, arg)
    case InternalCall(_, args, body) => After(AfterArgs(h, args), body)
    case APos(a) => After(h, a)
    case _ => h
  }

  function AfterArgs(h: HistoryMap, args: Args): (m: HistoryMap)
    ensures |m| == |h|
    decreases args
  {
    match args
    case NoArgs => h
    case MoreArgs(_, _, arg, rest) => AfterArgs(After(h, arg), rest)
  }

  function RuleHistories(n: nat, rule: Action): (m: HistoryMap)
    ensures |m| == n
  {
    After(EmptyMap(n), rule)
  }

  // ----- histories of schedulers -----

  function AppendT(x: Tribool, y: Tribool): Tribool { JoinT(x, OrT(x, y)) }

  /** Whether a rule of history `l` never conflicts with a log of history `L`. */
  function AppendCf(L: History, l: History): Tribool {
    AndT(AndT(AndT(ImpliesT(l.r0, AndT(NotT(L.w0), NotT(L.w1))),
                   ImpliesT(l.w0, AndT(AndT(NotT(L.r1), NotT(L.w0)), NotT(L.w1)))),
              ImpliesT(l.r1, NotT(L.w1))),
         ImpliesT(l.w1, NotT(L.w1)))
  }

  function AppendHistory(L: History, l: History): History {
    History(AppendT(L.r0, l.r0), AppendT(L.r1, l.r1), AppendT(L.w0, l.w0), AppendT(L.w1, l.w1),
            AndT(AndT(L.cf, l.cf), AppendCf(L, l)))
  }

  function AppendMaps(L: HistoryMap, l: HistoryMap): (m: HistoryMap)
    requires |L| == |l|
    ensures |m| == |L|
  {
    seq(|L|, i requires 0 <= i < |L| => AppendHistory(L[i], l[i]))
  }

  function SchedulerHistories(rules: Rules, L: HistoryMap, s: Scheduler): (m: HistoryMap)
    ensures |m| == |L|
    decreases s
  {
    match s
    case Done => L
    case Cons(rl, s) => SchedulerHistories(rules, AppendMaps(L, RuleHistories(|L|, rules(rl))), s)
    case Try(rl, s1, s2) =>
      var L := AppendMaps(L, RuleHistories(|L|, rules(rl)));
      JoinMaps(SchedulerHistories(rules, L, s1), SchedulerHistories(rules, L, s2))
    case SPos(s) => SchedulerHistories(rules, L, s)
  }

  // ----- register kinds -----

  /** A value never conflicts, a register only uses port 0, a wire only writes at
      port 0 and reads at port 1, an ephemeral history register may do everything. */
  datatype Kind = Value | Register | Wire | EHR

  function ComputeKind(h: History): Kind {
    if h.cf == TTrue then Value
    else if h.r1 == TFalse && h.w1 == TFalse then Register
    else if h.r0 == TFalse && h.w1 == TFalse then Wire
    else EHR
  }

  function Classify(n: nat, rules: Rules, s: Scheduler): (kinds: seq<Kind>)
    ensures |kinds| == n
  {
    var H := SchedulerHistories(rules, EmptyMap(n), s);
    seq(n, i requires 0 <= i < n => ComputeKind(H[i]))
  }

  /** The source's test for leaving a rule without undoing what it did. */
  predicate MayFailFast(h: HistoryMap) {
    forall i :: 0 <= i < |h| ==>
      || (h[i].r1 == TFalse && h[i].w0 == TFalse && h[i].w1 == TFalse)
      || (h[i].w0 == TFalse && h[i].w1 == TFalse && h[i].cf == TTrue)
  }

  // ----- what histories say about logs -----

  predicate Tells(t: Tribool, b: bool) { t == TUnknown || (t == TTrue <==> b) }

  ghost predicate Describes(h: History, es: RLog) {
    && Tells(h.r0, HasRead(es, P0)) && Tells(h.r1, HasRead(es, P1))
    && Tells(h.w0, HasWrite(es, P0)) && Tells(h.w1, HasWrite(es, P1))
  }

  ghost predicate DescribesAll(h: HistoryMap, l: Log) {
    |h| == |l| && forall i :: 0 <= i < |h| ==> Describes(h[i], l[i])
  }

  lemma EmptyDescribes(n: nat)
    ensures DescribesAll(EmptyMap(n), Empty(n))
  {
  }

  lemma {:induction false} OneMoreEvent(h: History, es: RLog, e: Entry)
    requires Describes(h, es)
    ensures Describes(UpdateHistory(h, if e.Rd? then Reading(e.port) else Writing(e.port)), [e] + es)
  {
    PushLaws(e, es);
  }

  lemma {:induction false} PushDescribes(h: HistoryMap, l: Log, idx: nat, e: Entry)
    requires DescribesAll(h, l) && idx < |l|
    ensures DescribesAll(UpdateMap(h, idx, if e.Rd? then Reading(e.port) else Writing(e.port)), Push(l, idx, e))
  {
    hide Describes, UpdateHistory;
    OneMoreEvent(h[idx], l[idx], e);
  }

  // ----- the order of arguments does not matter for which accesses happen -----

  /** What an action does to one flag of one register. */
  datatype Effect = Keep | Maybe | Must

  function Apply(f: Effect, t: Tribool): Tribool {
    match f
    case Keep => t
    case Maybe => JoinT(t, TTrue)
    case Must => TTrue
  }

  function Both(f: Effect, g: Effect): Effect {
    if f == Must || g == Must then Must else if f == Maybe || g == Maybe then Maybe else Keep
  }

  function Either(f: Effect, g: Effect): Effect { if f == g then f else Maybe }

  function Flag(h: History, e: Access): Tribool {
    match e
    case Reading(P0) => h.r0
    case Reading(P1) => h.r1
    case Writing(P0) => h.w0
    case Writing(P1) => h.w1
  }

  function EffectOf(a: Action, i: nat, e: Access): Effect
    decreases a
  {
    match a
    case Assign(_, _, ex) => EffectOf(ex, i, e)
    case Seq(r1, r2) => Both(EffectOf(r1, i, e), EffectOf(r2, i, e))
    case Bind(_, _, ex, body) => Both(EffectOf(ex, i, e), EffectOf(body, i, e))
    case If(cond, tbranch, fbranch) =>
      Both(EffectOf(cond, i, e), Either(EffectOf(tbranch, i, e), EffectOf(fbranch, i, e)))
    case Read(p, idx) => if i == idx && e == Reading(p) then Must else Keep
    case Write(p, idx, value) => Both(EffectOf(value, i, e), if i == idx && e == Writing(p) then Must else Keep)
    case Unop(_, arg) => EffectOf(arg, i, e)
    case Binop(_, arg1, arg2) => Both(EffectOf(arg1, i, e), EffectOf(arg2, i, e))
    case ExternalCall(_, arg) => EffectOf(arg, i, e)
    case InternalCall(_, args, body) => Both(ArgsEffect(args, i, e), EffectOf(body, i, e))
    case APos(a) => EffectOf(a, i, e)
    case _ => Keep
  }

  function ArgsEffect(args: Args, i: nat, e: Access): Effect
    decreases args
  {
    match args
    case NoArgs => Keep
    case MoreArgs(_, _, arg, rest) => Both(EffectOf(arg, i, e), ArgsEffect(rest, i, e))
  }

  lemma BothLaw(f: Effect, g: Effect, t: Tribool)
    ensures Apply(Both(f, g), t) == Apply(g, Apply(f, t)) == Apply(f, Apply(g, t))
  {
  }

  lemma JoinLaw(f: Effect, g: Effect, x: HistoryMap, y: HistoryMap, t: Tribool, i: nat, e: Access)
    requires i < |x| == |y| && Flag(x[i], e) == Apply(f, t) && Flag(y[i], e) == Apply(g, t)
    ensures Flag(JoinMaps(x, y)[i], e) == Apply(Either(f, g), t)
  {
  }

  lemma UpdateLaw(h: HistoryMap, idx: nat, acc: Access, i: nat, e: Access)
    requires i < |h|
    ensures Flag(UpdateMap(h, idx, acc)[i], e) == Apply(if i == idx && e == acc then Must else Keep, Flag(h[i], e))
  {
  }

  lemma {:induction false} AfterEffect(h: HistoryMap, a: Action, i: nat, e: Access)
    requires i < |h|
    ensures Flag(After(h, a)[i], e) == Apply(EffectOf(a, i, e), Flag(h[i], e))
    decreases a
  {
    hide UpdateMap, JoinMaps, Flag, Apply, Both, Either;
    var t := Flag(h[i], e);
    match a
    case Fail(_) => KeepLaw(t);
    case Var(_, _) => KeepLaw(t);
    case Cst(_) => KeepLaw(t);
    case Assign(_, _, ex) => AfterEffect(h, ex, i, e);
    case Seq(r1, r2) =>
      AfterEffect(h, r1, i, e);
      AfterEffect(After(h, r1), r2, i, e);
      BothLaw(EffectOf(r1, i, e), EffectOf(r2, i, e), t);
    case Bind(_, _, ex, body) =>
      AfterEffect(h, ex, i, e);
      AfterEffect(After(h, ex), body, i, e);
      BothLaw(EffectOf(ex, i, e), EffectOf(body, i, e), t);
    case If(cond, tbranch, fbranch) =>
      var h' := After(h, cond);
      var (f, g) := (EffectOf(tbranch, i, e), EffectOf(fbranch, i, e));
      AfterEffect(h, cond, i, e);
      AfterEffect(h', tbranch, i, e);
      AfterEffect(h', fbranch, i, e);
      JoinLaw(f, g, After(h', tbranch), After(h', fbranch), Flag(h'[i], e), i, e);
      BothLaw(EffectOf(cond, i, e), Either(f, g), t);
    case Read(p, idx) => UpdateLaw(h, idx, Reading(p), i, e);
    case Write(p, idx, value) =>
      AfterEffect(h, value, i, e);
      UpdateLaw(After(h, value), idx, Writing(p), i, e);
      BothLaw(EffectOf(value, i, e), if i == idx && e == Writing(p) then Must else Keep, t);
    case Unop(_, arg) => AfterEffect(h, arg, i, e);
    case Binop(_, arg1, arg2) =>
      AfterEffect(h, arg1, i, e);
      AfterEffect(After(h, arg1), arg2, i, e);
      BothLaw(EffectOf(arg1, i, e), EffectOf(arg2, i, e), t);
    case ExternalCall(_, arg) => AfterEffect(h, arg, i, e);
    case InternalCall(_, args, body) =>
      AfterArgsEffect(h, args, i, e);
      AfterEffect(AfterArgs(h, args), body, i, e);
      BothLaw(ArgsEffect(args, i, e), EffectOf(body, i, e), t);
    case APos(a) => AfterEffect(h, a, i, e);
  }

  lemma KeepLaw(t: Tribool)
    ensures Apply(Keep, t) == t
  {
  }

  lemma {:induction false} AfterArgsEffect(h: HistoryMap, args: Args, i: nat, e: Access)
    requires i < |h|
    ensures Flag(AfterArgs(h, args)[i], e) == Apply(ArgsEffect(args, i, e), Flag(h[i], e))
    decreases args
  {
    match args
    case NoArgs =>
    case MoreArgs(_, _, arg, rest) => AfterEffect(h, arg, i, e); AfterArgsEffect(After(h, arg), rest, i, e);
  }

  /** Annotating one more argument before or after the others sets the same flags. */
  lemma {:induction false} ArgumentOrder(h: HistoryMap, arg: Action, rest: Args, l: Log)
    ensures DescribesAll(After(AfterArgs(h, rest), arg), l) ==> DescribesAll(AfterArgs(After(h, arg), rest), l)
  {
    var x, y := After(AfterArgs(h, rest), arg), AfterArgs(After(h, arg), rest);
    if DescribesAll(x, l) {
      forall i | 0 <= i < |h| ensures Describes(y[i], l[i]) {
        forall e: Access ensures Flag(x[i], e) == Flag(y[i], e) {
          AfterArgsEffect(h, rest, i, e);
          AfterEffect(AfterArgs(h, rest), arg, i, e);
          AfterEffect(h, arg, i, e);
          AfterArgsEffect(After(h, arg), rest, i, e);
        }
        assert Describes(x[i], l[i]);
        assert forall p :: Flag(x[i], Reading(p)) == Flag(y[i], Reading(p)) && Flag(x[i], Writing(p)) == Flag(y[i], Writing(p));
        SameFlags(x[i], y[i], l[i]);
      }
    }
  }

  lemma {:induction false} SameFlags(x: History, y: History, es: RLog)
    requires forall p :: Flag(x, Reading(p)) == Flag(y, Reading(p)) && Flag(x, Writing(p)) == Flag(y, Writing(p))
    requires Describes(x, es)
    ensures Describes(y, es)
  {
    assert Flag(x, Reading(P0)) == Flag(y, Reading(P0)) && Flag(x, Writing(P0)) == Flag(y, Writing(P0));
    assert Flag(x, Reading(P1)) == Flag(y, Reading(P1)) && Flag(x, Writing(P1)) == Flag(y, Writing(P1));
  }

  /** When an action succeeds, its log is as the history after it says. */
  lemma {:induction false} AfterDescribes(r: RegFile, sigma: ExtFun, G: Ctx, L: Log, l: Log, a: Action, h: HistoryMap)
    requires Scoped(a, |r|, |G|) && |L| == |l| == |r| && DescribesAll(h, l)
    ensures var o := InterpAction(r, sigma, G, L, l, a);
            o.Ok? ==> DescribesAll(After(h, a), o.log)
    decreases a
  {
    match a
    case Assign(_, _, ex) => AfterDescribes(r, sigma, G, L, l, ex, h);
    case Seq(r1, r2) =>
      AfterDescribes(r, sigma, G, L, l, r1, h);
      var o := InterpAction(r, sigma, G, L, l, r1);
      if o.Ok? { AfterDescribes(r, sigma, o.ctx, L, o.log, r2, After(h, r1)); }
    case Bind(_, _, ex, body) =>
      AfterDescribes(r, sigma, G, L, l, ex, h);
      var o := InterpAction(r, sigma, G, L, l, ex);
      if o.Ok? { AfterDescribes(r, sigma, [o.val] + o.ctx, L, o.log, body, After(h, ex)); }
    case If(cond, tbranch, fbranch) =>
      AfterDescribes(r, sigma, G, L, l, cond, h);
      var o := InterpAction(r, sigma, G, L, l, cond);
      if o.Ok? {
        AfterDescribes(r, sigma, o.ctx, L, o.log, if Single(o.val) then tbranch else fbranch, After(h, cond));
      }
    case Read(p, idx) => if MayRead(L, p, idx) { PushDescribes(h, l, idx, Rd(p)); }
    case Write(p, idx, value) =>
      AfterDescribes(r, sigma, G, L, l, value, h);
      var o := InterpAction(r, sigma, G, L, l, value);
      if o.Ok? { PushDescribes(After(h, value), o.log, idx, Wr(p, o.val)); }
    case Unop(_, arg) => AfterDescribes(r, sigma, G, L, l, arg, h);
    case Binop(_, arg1, arg2) =>
      AfterDescribes(r, sigma, G, L, l, arg1, h);
      var o := InterpAction(r, sigma, G, L, l, arg1);
      if o.Ok? { AfterDescribes(r, sigma, o.ctx, L, o.log, arg2, After(h, arg1)); }
    case ExternalCall(_, arg) => AfterDescribes(r, sigma, G, L, l, arg, h);
    case InternalCall(_, args, body) =>
      AfterArgsDescribes(r, sigma, G, L, l, args, h);
      var o := InterpArgs(r, sigma, G, L, l, args);
      if o.ArgsOk? { AfterDescribes(r, sigma, o.vals, L, o.log, body, AfterArgs(h, args)); }
    case APos(a) => AfterDescribes(r, sigma, G, L, l, a, h);
    case _ =>
  }

  lemma {:induction false} AfterArgsDescribes(r: RegFile, sigma: ExtFun, G: Ctx, L: Log, l: Log, args: Args, h: HistoryMap)
    requires ScopedArgs(args, |r|, |G|) && |L| == |l| == |r| && DescribesAll(h, l)
    ensures var o := InterpArgs(r, sigma, G, L, l, args);
            o.ArgsOk? ==> DescribesAll(AfterArgs(h, args), o.log)
    decreases args
  {
    match args
    case NoArgs =>
    case MoreArgs(_, _, arg, rest) =>
      AfterArgsDescribes(r, sigma, G, L, l, rest, h);
      var o := InterpArgs(r, sigma, G, L, l, rest);
      if o.ArgsOk? {
        AfterDescribes(r, sigma, o.ctx, L, o.log, arg, AfterArgs(h, rest));
        var o' := InterpAction(r, sigma, o.ctx, L, o.log, arg);
        if o'.Ok? { ArgumentOrder(h, arg, rest, o'.log); }
      }
  }

  lemma AppendDescribes(H: HistoryMap, L: Log, h: HistoryMap, l: Log)
    requires DescribesAll(H, L) && |h| == |l| == |H|
    ensures DescribesAll(AppendMaps(H, h), L)
    ensures DescribesAll(h, l) ==> DescribesAll(AppendMaps(H, h), App(l, L))
  {
    forall i | 0 <= i < |H| && DescribesAll(h, l) ensures Describes(AppendMaps(H, h)[i], App(l, L)[i]) {
      assert Describes(H[i], L[i]) && Describes(h[i], l[i]);
      AppLaws(l[i], L[i]);
    }
  }

  /** Joining keeps describing what either side describes. */
  lemma JoinDescribes(x: HistoryMap, y: HistoryMap, l: Log)
    requires |x| == |y|
    ensures DescribesAll(x, l) || DescribesAll(y, l) ==> DescribesAll(JoinMaps(x, y), l)
  {
  }

  /** The whole-scheduler histories describe the log that the scheduler leaves. */
  lemma {:induction false} SchedulerDescribes(r: RegFile, sigma: ExtFun, rules: Rules, H: HistoryMap, L: Log, s: Scheduler)
    requires ScopedRules(rules, |r|) && |L| == |r| && DescribesAll(H, L)
    ensures DescribesAll(SchedulerHistories(rules, H, s), InterpScheduler(r, sigma, rules, L, s))
    decreases s
  {
    match s
    case Done =>
    case SPos(s) => SchedulerDescribes(r, sigma, rules, H, L, s);
    case Cons(rl, s1) =>
      RuleDescribes(r, sigma, rules(rl), H, L);
      var o := InterpRule(r, sigma, L, rules(rl));
      SchedulerDescribes(r, sigma, rules, AppendMaps(H, RuleHistories(|r|, rules(rl))),
                         if o.Some? then App(o.value, L) else L, s1);
    case Try(rl, s1, s2) =>
      RuleDescribes(r, sigma, rules(rl), H, L);
      var o := InterpRule(r, sigma, L, rules(rl));
      var H' := AppendMaps(H, RuleHistories(|r|, rules(rl)));
      if o.Some? {
        SchedulerDescribes(r, sigma, rules, H', App(o.value, L), s1);
        JoinDescribes(SchedulerHistories(rules, H', s1), SchedulerHistories(rules, H', s2),
                      InterpScheduler(r, sigma, rules, App(o.value, L), s1));
      } else {
        SchedulerDescribes(r, sigma, rules, H', L, s2);
        JoinDescribes(SchedulerHistories(rules, H', s1), SchedulerHistories(rules, H', s2),
                      InterpScheduler(r, sigma, rules, L, s2));
      }
  }

  lemma {:induction false} RuleDescribes(r: RegFile, sigma: ExtFun, rule: Action, H: HistoryMap, L: Log)
    requires Scoped(rule, |r|, 0) && |L| == |r| && DescribesAll(H, L)
    ensures var o := InterpRule(r, sigma, L, rule);
            DescribesAll(AppendMaps(H, RuleHistories(|r|, rule)), if o.Some? then App(o.value, L) else L)
  {
    EmptyDescribes(|r|);
    AfterDescribes(r, sigma, [], L, Empty(|r|), rule, EmptyMap(|r|));
    var o := InterpRule(r, sigma, L, rule);
    AppendDescribes(H, L, RuleHistories(|r|, rule), if o.Some? then o.value else L);
  }

  // ----- histories only lose information -----

  /** Whatever `y` excludes or guarantees, `x` does too. */
  predicate Below(x: History, y: History) {
    && (y.r0 == TFalse ==> x.r0 == TFalse) && (y.r1 == TFalse ==> x.r1 == TFalse)
    && (y.w0 == TFalse ==> x.w0 == TFalse) && (y.w1 == TFalse ==> x.w1 == TFalse)
    && (y.cf == TTrue ==> x.cf == TTrue)
  }

  predicate BelowAll(x: HistoryMap, y: HistoryMap) {
    |x| == |y| && forall i :: 0 <= i < |x| ==> Below(x[i], y[i])
  }

  lemma {:induction false} AfterBelow(h: HistoryMap, a: Action)
    ensures BelowAll(h, After(h, a))
    decreases a
  {
    match a
    case Assign(_, _, ex) => AfterBelow(h, ex);
    case Seq(r1, r2) => AfterBelow(h, r1); AfterBelow(After(h, r1), r2);
    case Bind(_, _, ex, body) => AfterBelow(h, ex); AfterBelow(After(h, ex), body);
    case If(cond, tbranch, fbranch) =>
      AfterBelow(h, cond);
      AfterBelow(After(h, cond), tbranch);
      JoinBelow(After(After(h, cond), tbranch), After(After(h, cond), fbranch));
    case Write(_, _, value) => AfterBelow(h, value);
    case Unop(_, arg) => AfterBelow(h, arg);
    case Binop(_, arg1, arg2) => AfterBelow(h, arg1); AfterBelow(After(h, arg1), arg2);
    case ExternalCall(_, arg) => AfterBelow(h, arg);
    case InternalCall(_, args, body) => AfterArgsBelow(h, args); AfterBelow(AfterArgs(h, args), body);
    case APos(a) => AfterBelow(h, a);
    case _ =>
  }

  lemma {:induction false} AfterArgsBelow(h: HistoryMap, args: Args)
    ensures BelowAll(h, AfterArgs(h, args))
    decreases args
  {
    match args
    case NoArgs =>
    case MoreArgs(_, _, arg, rest) => AfterBelow(h, arg); AfterArgsBelow(After(h, arg), rest);
  }

  lemma JoinBelow(x: HistoryMap, y: HistoryMap)
    requires |x| == |y|
    ensures BelowAll(x, JoinMaps(x, y)) && BelowAll(y, JoinMaps(x, y))
  {
  }

  lemma {:induction false} SchedulerBelow(rules: Rules, H: HistoryMap, s: Scheduler)
    ensures BelowAll(H, SchedulerHistories(rules, H, s))
    decreases s
  {
    match s
    case Done =>
    case SPos(s) => SchedulerBelow(rules, H, s);
    case Cons(rl, s) => SchedulerBelow(rules, AppendMaps(H, RuleHistories(|H|, rules(rl))), s);
    case Try(rl, s1, s2) =>
      var H' := AppendMaps(H, RuleHistories(|H|, rules(rl)));
      SchedulerBelow(rules, H', s1);
      JoinBelow(SchedulerHistories(rules, H', s1), SchedulerHistories(rules, H', s2));
  }

  // ----- kinds are right -----

  /** What a kind promises about a register's history. */
  predicate KindFits(k: Kind, h: History) {
    match k
    case Value => h.cf == TTrue
    case Register => h.r1 == TFalse && h.w1 == TFalse
    case Wire => h.r0 == TFalse && h.w1 == TFalse
    case EHR => true
  }

  predicate KindsFit(kinds: seq<Kind>, h: HistoryMap) {
    |kinds| == |h| && forall i :: 0 <= i < |h| ==> KindFits(kinds[i], h[i])
  }

  lemma ClassifyFits(n: nat, rules: Rules, s: Scheduler)
    ensures KindsFit(Classify(n, rules, s), SchedulerHistories(rules, EmptyMap(n), s))
  {
  }

  lemma BelowFits(kinds: seq<Kind>, x: HistoryMap, y: HistoryMap)
    requires BelowAll(x, y) && KindsFit(kinds, y)
    ensures KindsFit(kinds, x)
  {
  }

  /** An access the rule makes to a conflict-free register is always allowed:
      nothing in the rule's own log or in the scheduler's log stands in its way. */
  lemma {:induction false} ValueNeverConflicts(H: History, L: RLog, h: History, l: RLog, hf: History, e: Access)
    requires Describes(H, L) && Describes(h, l)
    requires Below(UpdateHistory(h, e), hf) && AppendHistory(H, hf).cf == TTrue
    ensures e.Reading? ==> MayReadEntry(L, e.port)
    ensures e.Writing? ==> MayWriteEntry(l + L, e.port)
  {
    AppLaws(l, L);
  }

  // ----- port-1 reads after port-1 writes -----

  /** The registers that an action may write at port 1. */
  function Port1Writes(a: Action): set<nat>
    decreases a
  {
    match a
    case Assign(_, _, ex) => Port1Writes(ex)
    case Seq(r1, r2) => Port1Writes(r1) + Port1Writes(r2)
    case Bind(_, _, ex, body) => Port1Writes(ex) + Port1Writes(body)
    case If(cond, tbranch, fbranch) => Port1Writes(cond) + Port1Writes(tbranch) + Port1Writes(fbranch)
    case Write(p, idx, value) => Port1Writes(value) + if p == P1 then {idx} else {}
    case Unop(_, arg) => Port1Writes(arg)
    case Binop(_, arg1, arg2) => Port1Writes(arg1) + Port1Writes(arg2)
    case ExternalCall(_, arg) => Port1Writes(arg)
    case InternalCall(_, args, body) => ArgsPort1Writes(args) + Port1Writes(body)
    case APos(a) => Port1Writes(a)
    case _ => {}
  }

  function ArgsPort1Writes(args: Args): set<nat>
    decreases args
  {
    match args
    case NoArgs => {}
    case MoreArgs(_, _, arg, rest) => Port1Writes(arg) + ArgsPort1Writes(rest)
  }

  /** In which order the arguments of calls are evaluated. */
  datatype Order = FirstToLast | LastToFirst

  /** With `W` written at port 1 before, no read at port 1 comes after a write at
      port 1 to the same register. */
  predicate ReadsFresh(ord: Order, W: set<nat>, a: Action)
    decreases a
  {
    match a
    case Assign(_, _, ex) => ReadsFresh(ord, W, ex)
    case Seq(r1, r2) => ReadsFresh(ord, W, r1) && ReadsFresh(ord, W + Port1Writes(r1), r2)
    case Bind(_, _, ex, body) => ReadsFresh(ord, W, ex) && ReadsFresh(ord, W + Port1Writes(ex), body)
    case If(cond, tbranch, fbranch) =>
      && ReadsFresh(ord, W, cond)
      && ReadsFresh(ord, W + Port1Writes(cond), tbranch) && ReadsFresh(ord, W + Port1Writes(cond), fbranch)
    case Read(p, idx) => p == P1 ==> idx !in W
    case Write(_, _, value) => ReadsFresh(ord, W, value)
    case Unop(_, arg) => ReadsFresh(ord, W, arg)
    case Binop(_, arg1, arg2) => ReadsFresh(ord, W, arg1) && ReadsFresh(ord, W + Port1Writes(arg1), arg2)
    case ExternalCall(_, arg) => ReadsFresh(ord, W, arg)
    case InternalCall(_, args, body) =>
      ArgsReadFresh(ord, W, args) && ReadsFresh(ord, W + ArgsPort1Writes(args), body)
    case APos(a) => ReadsFresh(ord, W, a)
    case _ => true
  }

  predicate ArgsReadFresh(ord: Order, W: set<nat>, args: Args)
    decreases args
  {
    match args
    case NoArgs => true
    case MoreArgs(_, _, arg, rest) =>
      match ord
      case FirstToLast => ReadsFresh(ord, W, arg) && ArgsReadFresh(ord, W + Port1Writes(arg), rest)
      case LastToFirst => ArgsReadFresh(ord, W, rest) && ReadsFresh(ord, W + ArgsPort1Writes(rest), arg)
  }

  /** The flag that stands for such writes is lowered outside `W` and the action's own writes. */
  lemma {:induction false} Port1Flag(h: HistoryMap, a: Action, i: nat)
    requires i < |h| && h[i].w1 == TFalse && i !in Port1Writes(a)
    ensures After(h, a)[i].w1 == TFalse
    decreases a
  {
    AfterEffect(h, a, i, Writing(P1));
    Port1Effect(a, i);
  }

  lemma {:induction false} Port1Effect(a: Action, i: nat)
    requires i !in Port1Writes(a)
    ensures EffectOf(a, i, Writing(P1)) == Keep
    decreases a
  {
    match a
    case Assign(_, _, ex) => Port1Effect(ex, i);
    case Seq(r1, r2) => Port1Effect(r1, i); Port1Effect(r2, i);
    case Bind(_, _, ex, body) => Port1Effect(ex, i); Port1Effect(body, i);
    case If(cond, tbranch, fbranch) => Port1Effect(cond, i); Port1Effect(tbranch, i); Port1Effect(fbranch, i);
    case Write(_, _, value) => Port1Effect(value, i);
    case Unop(_, arg) => Port1Effect(arg, i);
    case Binop(_, arg1, arg2) => Port1Effect(arg1, i); Port1Effect(arg2, i);
    case ExternalCall(_, arg) => Port1Effect(arg, i);
    case InternalCall(_, args, body) => Port1ArgsEffect(args, i); Port1Effect(body, i);
    case APos(a) => Port1Effect(a, i);
    case _ =>
  }

  lemma {:induction false} Port1ArgsEffect(args: Args, i: nat)
    requires i !in ArgsPort1Writes(args)
    ensures ArgsEffect(args, i, Writing(P1)) == Keep
    decreases args
  {
    match args
    case NoArgs =>
    case MoreArgs(_, _, arg, rest) => Port1Effect(arg, i); Port1ArgsEffect(rest, i);
  }

  datatype Found = Found(written1: set<nat>, conflicts: set<nat>)

  /** The source's warning about such reads.  It walks arguments from the last to the
      first, and it does not look at the values written. */
  function FindRead1s(acc: Found, a: Action): Found
    decreases a
  {
    match a
    case Assign(_, _, ex) => FindRead1s(acc, ex)
    case Seq(r1, r2) => FindRead1s(FindRead1s(acc, r1), r2)
    case Bind(_, _, ex, body) => FindRead1s(FindRead1s(acc, ex), body)
    case If(cond, tbranch, fbranch) =>
      var acc := FindRead1s(acc, cond);
      var t := FindRead1s(acc, tbranch);
      var f := FindRead1s(acc, fbranch);
      Found(t.written1 + f.written1, t.conflicts + f.conflicts)
    case Read(P1, idx) => if idx in acc.written1 then acc.(conflicts := acc.conflicts + {idx}) else acc
    case Write(P1, idx, _) => acc.(written1 := acc.written1 + {idx})
    case Unop(_, arg) => FindRead1s(acc, arg)
    case Binop(_, arg1, arg2) => FindRead1s(FindRead1s(acc, arg1), arg2)
    case ExternalCall(_, arg) => FindRead1s(acc, arg)
    case InternalCall(_, args, body) => FindRead1s(FindArgsRead1s(acc, args), body)
    case APos(a) => FindRead1s(acc, a)
    case _ => acc
  }

  function FindArgsRead1s(acc: Found, args: Args): Found
    decreases args
  {
    match args
    case NoArgs => acc
    case MoreArgs(_, _, arg, rest) => FindRead1s(FindArgsRead1s(acc, rest), arg)
  }

  /** `a` with the values of its writes taken away. */
  function Stripped(a: Action): Action
    decreases a
  {
    match a
    case Assign(k, m, ex) => Assign(k, m, Stripped(ex))
    case Seq(r1, r2) => Seq(Stripped(r1), Stripped(r2))
    case Bind(k, sz, ex, body) => Bind(k, sz, Stripped(ex), Stripped(body))
    case If(cond, tbranch, fbranch) => If(Stripped(cond), Stripped(tbranch), Stripped(fbranch))
    case Write(p, idx, _) => Write(p, idx, Cst([]))
    case Unop(fn, arg) => Unop(fn, Stripped(arg))
    case Binop(fn, arg1, arg2) => Binop(fn, Stripped(arg1), Stripped(arg2))
    case ExternalCall(ext, arg) => ExternalCall(ext, Stripped(arg))
    case InternalCall(f, args, body) => InternalCall(f, StrippedArgs(args), Stripped(body))
    case APos(a) => APos(Stripped(a))
    case _ => a
  }

  function StrippedArgs(args: Args): Args
    decreases args
  {
    match args
    case NoArgs => NoArgs
    case MoreArgs(k, sz, arg, rest) => MoreArgs(k, sz, Stripped(arg), StrippedArgs(rest))
  }

  /** The warning is silent exactly when the rule without its written values, its
      arguments evaluated as the semantics does, makes no such read. */
  lemma {:induction false} WarningExact(acc: Found, a: Action)
    ensures FindRead1s(acc, a).written1 == acc.written1 + Port1Writes(Stripped(a))
    ensures FindRead1s(acc, a).conflicts == {} <==>
            acc.conflicts == {} && ReadsFresh(LastToFirst, acc.written1, Stripped(a))
    decreases a
  {
    match a
    case Assign(_, _, ex) => WarningExact(acc, ex);
    case Seq(r1, r2) => WarningExact(acc, r1); WarningExact(FindRead1s(acc, r1), r2);
    case Bind(_, _, ex, body) => WarningExact(acc, ex); WarningExact(FindRead1s(acc, ex), body);
    case If(cond, tbranch, fbranch) =>
      WarningExact(acc, cond);
      WarningExact(FindRead1s(acc, cond), tbranch);
      WarningExact(FindRead1s(acc, cond), fbranch);
    case Unop(_, arg) => WarningExact(acc, arg);
    case Binop(_, arg1, arg2) => WarningExact(acc, arg1); WarningExact(FindRead1s(acc, arg1), arg2);
    case ExternalCall(_, arg) => WarningExact(acc, arg);
    case InternalCall(_, args, body) => ArgsWarningExact(acc, args); WarningExact(FindArgsRead1s(acc, args), body);
    case APos(a) => WarningExact(acc, a);
    case _ =>
  }

  lemma {:induction false} ArgsWarningExact(acc: Found, args: Args)
    ensures FindArgsRead1s(acc, args).written1 == acc.written1 + ArgsPort1Writes(StrippedArgs(args))
    ensures FindArgsRead1s(acc, args).conflicts == {} <==>
            acc.conflicts == {} && ArgsReadFresh(LastToFirst, acc.written1, StrippedArgs(args))
    decreases args
  {
    match args
    case NoArgs =>
    case MoreArgs(_, _, arg, rest) => ArgsWarningExact(acc, rest); WarningExact(FindArgsRead1s(acc, rest), arg);
  }

  /** No access at port 1 inside the value of a write. */
  predicate PlainWrites(a: Action)
    decreases a
  {
    match a
    case Assign(_, _, ex) => PlainWrites(ex)
    case Seq(r1, r2) => PlainWrites(r1) && PlainWrites(r2)
    case Bind(_, _, ex, body) => PlainWrites(ex) && PlainWrites(body)
    case If(cond, tbranch, fbranch) => PlainWrites(cond) && PlainWrites(tbranch) && PlainWrites(fbranch)
    case Write(_, _, value) => AvoidsPort1(value)
    case Unop(_, arg) => PlainWrites(arg)
    case Binop(_, arg1, arg2) => PlainWrites(arg1) && PlainWrites(arg2)
    case ExternalCall(_, arg) => PlainWrites(arg)
    case InternalCall(_, args, body) => ArgsPlainWrites(args) && PlainWrites(body)
    case APos(a) => PlainWrites(a)
    case _ => true
  }

  predicate ArgsPlainWrites(args: Args)
    decreases args
  {
    match args
    case NoArgs => true
    case MoreArgs(_, _, arg, rest) => PlainWrites(arg) && ArgsPlainWrites(rest)
  }

  predicate AvoidsPort1(a: Action)
    decreases a
  {
    match a
    case Assign(_, _, ex) => AvoidsPort1(ex)
    case Seq(r1, r2) => AvoidsPort1(r1) && AvoidsPort1(r2)
    case Bind(_, _, ex, body) => AvoidsPort1(ex) && AvoidsPort1(body)
    case If(cond, tbranch, fbranch) => AvoidsPort1(cond) && AvoidsPort1(tbranch) && AvoidsPort1(fbranch)
    case Read(p, _) => p == P0
    case Write(p, _, value) => p == P0 && AvoidsPort1(value)
    case Unop(_, arg) => AvoidsPort1(arg)
    case Binop(_, arg1, arg2) => AvoidsPort1(arg1) && AvoidsPort1(arg2)
    case ExternalCall(_, arg) => AvoidsPort1(arg)
    case InternalCall(_, args, body) => ArgsAvoidPort1(args) && AvoidsPort1(body)
    case APos(a) => AvoidsPort1(a)
    case _ => true
  }

  predicate ArgsAvoidPort1(args: Args)
    decreases args
  {
    match args
    case NoArgs => true
    case MoreArgs(_, _, arg, rest) => AvoidsPort1(arg) && ArgsAvoidPort1(rest)
  }

  lemma {:induction false} AvoidsPort1Fresh(ord: Order, W: set<nat>, a: Action)
    requires AvoidsPort1(a)
    ensures Port1Writes(a) == {} && ReadsFresh(ord, W, a)
    decreases a
  {
    match a
    case Assign(_, _, ex) => AvoidsPort1Fresh(ord, W, ex);
    case Seq(r1, r2) => AvoidsPort1Fresh(ord, W, r1); AvoidsPort1Fresh(ord, W + Port1Writes(r1), r2);
    case Bind(_, _, ex, body) => AvoidsPort1Fresh(ord, W, ex); AvoidsPort1Fresh(ord, W + Port1Writes(ex), body);
    case If(cond, tbranch, fbranch) =>
      AvoidsPort1Fresh(ord, W, cond);
      AvoidsPort1Fresh(ord, W + Port1Writes(cond), tbranch);
      AvoidsPort1Fresh(ord, W + Port1Writes(cond), fbranch);
    case Write(_, _, value) => AvoidsPort1Fresh(ord, W, value);
    case Unop(_, arg) => AvoidsPort1Fresh(ord, W, arg);
    case Binop(_, arg1, arg2) => AvoidsPort1Fresh(ord, W, arg1); AvoidsPort1Fresh(ord, W + Port1Writes(arg1), arg2);
    case ExternalCall(_, arg) => AvoidsPort1Fresh(ord, W, arg);
    case InternalCall(_, args, body) =>
      ArgsAvoidPort1Fresh(ord, W, args);
      AvoidsPort1Fresh(ord, W + ArgsPort1Writes(args), body);
    case APos(a) => AvoidsPort1Fresh(ord, W, a);
    case _ =>
  }

  lemma {:induction false} ArgsAvoidPort1Fresh(ord: Order, W: set<nat>, args: Args)
    requires ArgsAvoidPort1(args)
    ensures ArgsPort1Writes(args) == {} && ArgsReadFresh(ord, W, args)
    decreases args
  {
    match args
    case NoArgs =>
    case MoreArgs(_, _, arg, rest) =>
      AvoidsPort1Fresh(ord, W, arg);
      ArgsAvoidPort1Fresh(ord, W, rest);
      assert W + {} == W;
  }

  /** When written values stay away from port 1, stripping them changes nothing here. */
  lemma {:induction false} StrippedSame(ord: Order, W: set<nat>, a: Action)
    requires PlainWrites(a)
    ensures Port1Writes(Stripped(a)) == Port1Writes(a)
    ensures ReadsFresh(ord, W, Stripped(a)) <==> ReadsFresh(ord, W, a)
    decreases a
  {
    match a
    case Assign(_, _, ex) => StrippedSame(ord, W, ex);
    case Seq(r1, r2) => StrippedSame(ord, W, r1); StrippedSame(ord, W + Port1Writes(r1), r2);
    case Bind(_, _, ex, body) => StrippedSame(ord, W, ex); StrippedSame(ord, W + Port1Writes(ex), body);
    case If(cond, tbranch, fbranch) =>
      StrippedSame(ord, W, cond);
      StrippedSame(ord, W + Port1Writes(cond), tbranch);
      StrippedSame(ord, W + Port1Writes(cond), fbranch);
    case Write(_, _, value) => AvoidsPort1Fresh(ord, W, value);
    case Unop(_, arg) => StrippedSame(ord, W, arg);
    case Binop(_, arg1, arg2) => StrippedSame(ord, W, arg1); StrippedSame(ord, W + Port1Writes(arg1), arg2);
    case ExternalCall(_, arg) => StrippedSame(ord, W, arg);
    case InternalCall(_, args, body) =>
      StrippedArgsSame(ord, W, args);
      StrippedSame(ord, W + ArgsPort1Writes(args), body);
    case APos(a) => StrippedSame(ord, W, a);
    case _ =>
  }

  lemma {:induction false} StrippedArgsSame(ord: Order, W: set<nat>, args: Args)
    requires ArgsPlainWrites(args)
    ensures ArgsPort1Writes(StrippedArgs(args)) == ArgsPort1Writes(args)
    ensures ArgsReadFresh(ord, W, StrippedArgs(args)) <==> ArgsReadFresh(ord, W, args)
    decreases args
  {
    match args
    case NoArgs =>
    case MoreArgs(_, _, arg, rest) =>
      StrippedSame(ord, W, arg);
      StrippedArgsSame(ord, W, rest);
      StrippedSame(ord, W + ArgsPort1Writes(rest), arg);
      StrippedArgsSame(ord, W + Port1Writes(arg), rest);
  }

  /** So for such rules a silent warning means that no such read exists, in the order
      of the semantics. */
  lemma {:induction false} SilentWarningMeansFresh(rule: Action)
    requires PlainWrites(rule)
    ensures FindRead1s(Found({}, {}), rule).conflicts == {} <==> ReadsFresh(LastToFirst, {}, rule)
  {
    WarningExact(Found({}, {}), rule);
    StrippedSame(LastToFirst, {}, rule);
  }

  /** For others it does not: the value written here reads at port 1 what the rule
      has just written there, and the warning is silent. */
  lemma {:induction false} SilentWarningMissesValues()
    ensures var rule := Seq(Write(P1, 0, Cst([true])), Write(P0, 1, Read(P1, 0)));
            && Scoped(rule, 2, 0) && FindRead1s(Found({}, {}), rule).conflicts == {}
            && !ReadsFresh(LastToFirst, {}, rule)
  {
  }

  /** Nor in the order in which emitted code evaluates arguments: the first one here
      writes at port 1 what the second one reads there. */
  lemma {:induction false} SilentWarningMissesCalls()
    ensures var args := MoreArgs("x", 0, Write(P1, 0, Cst([true])), MoreArgs("y", 1, Read(P1, 0), NoArgs));
            var rule := InternalCall("f", args, Var("x", 0));
            && Scoped(rule, 1, 0) && PlainWrites(rule) && FindRead1s(Found({}, {}), rule).conflicts == {}
            && !ReadsFresh(FirstToLast, {}, rule)
  {
    var rest := MoreArgs("y", 1, Read(P1, 0), NoArgs);
    var args := MoreArgs("x", 0, Write(P1, 0, Cst([true])), rest);
    assert Port1Writes(Cst([true])) == {} && Port1Writes(Write(P1, 0, Cst([true]))) == {0};
    assert !ReadsFresh(FirstToLast, {0}, Read(P1, 0));
    assert !ArgsReadFresh(FirstToLast, {} + {0}, rest);
    assert !ArgsReadFresh(FirstToLast, {}, args);
    assert ArgsPort1Writes(rest) == {} && ReadsFresh(LastToFirst, {}, Read(P1, 0));
    assert ArgsPlainWrites(rest) && ArgsPlainWrites(args);
    SilentWarningMeansFresh(InternalCall("f", args, Var("x", 0)));
    assert ArgsReadFresh(LastToFirst, {}, rest) && ReadsFresh(LastToFirst, {} + {}, Write(P1, 0, Cst([true])));
    assert ArgsReadFresh(LastToFirst, {}, args);
  }
}

/** One rule at a time: whatever a scheduler does concurrently in one cycle is
    what its rules do when each is given a cycle of its own. */
module OneRuleAtATime {
  import opened BitVectors
  import opened Primitives
  import opened Syntax
  import opened Logs
  import opened Semantics

  function SchedulerRules(s: Scheduler): seq<RuleName> {
    match s
    case Done => []
    case Cons(rl, s) => [rl] + SchedulerRules(s)
    case Try(rl, s1, s2) => [rl] + SchedulerRules(s1) + SchedulerRules(s2)
    case SPos(s) => SchedulerRules(s)
  }

  function PrefixAll(rl: RuleName, paths: seq<seq<RuleName>>): (r: seq<seq<RuleName>>)
    ensures |r| == |paths| && forall i :: 0 <= i < |r| ==> r[i] == [rl] + paths[i]
  {
    seq(|paths|, i requires 0 <= i < |paths| => [rl] + paths[i])
  }

  /** All ways a scheduler can be walked, as lists of the rules tried. */
  function AllSchedulerPaths(s: Scheduler): seq<seq<RuleName>> {
    match s
    case Done => [[]]
    case Cons(rl, s) => PrefixAll(rl, AllSchedulerPaths(s))
    case Try(rl, s1, s2) => PrefixAll(rl, AllSchedulerPaths(s1)) + PrefixAll(rl, AllSchedulerPaths(s2))
    case SPos(s) => AllSchedulerPaths(s)
  }

  predicate Subsequence(xs: seq<RuleName>, ys: seq<RuleName>) {
    if xs == [] then true
    else if ys == [] then false
    else if xs[0] == ys[0] then Subsequence(xs[1..], ys[1..])
    else Subsequence(xs, ys[1..])
  }

  /** The rules that fire, and the log they leave. */
  function Trace(r: RegFile, sigma: ExtFun, rules: Rules, L: Log, s: Scheduler): (res: (seq<RuleName>, Log))
    requires ScopedRules(rules, |r|) && |L| == |r|
    decreases s
  {
    match s
    case Done => ([], L)
    case Cons(rl, s) =>
      (match InterpRule(r, sigma, L, rules(rl))
       case Some(l) => var (rs, log) := Trace(r, sigma, rules, App(l, L), s); ([rl] + rs, log)
       case None => Trace(r, sigma, rules, L, s))
    case Try(rl, s1, s2) =>
      (match InterpRule(r, sigma, L, rules(rl))
       case Some(l) => var (rs, log) := Trace(r, sigma, rules, App(l, L), s1); ([rl] + rs, log)
       case None => Trace(r, sigma, rules, L, s2))
    case SPos(s) => Trace(r, sigma, rules, L, s)
  }

  /** A cycle with a single rule in it. */
  function InterpOraat(sigma: ExtFun, rules: Rules, r: RegFile, rl: RuleName): (res: RegFile)
    requires ScopedRules(rules, |r|)
    ensures |res| == |r|
  {
    InterpCycle(sigma, rules, Try(rl, Done, Done), r)
  }

  function FoldOraat(sigma: ExtFun, rules: Rules, r: RegFile, rs: seq<RuleName>): (res: RegFile)
    requires ScopedRules(rules, |r|)
    ensures |res| == |r|
    decreases |rs|
  {
    if rs == [] then r else FoldOraat(sigma, rules, InterpOraat(sigma, rules, r, rs[0]), rs[1..])
  }

  /** Every rule of `rs` succeeds when its own cycle comes. */
  predicate AllFire(sigma: ExtFun, rules: Rules, r: RegFile, rs: seq<RuleName>)
    requires ScopedRules(rules, |r|)
    decreases |rs|
  {
    rs == [] ||
    (InterpRule(r, sigma, Empty(|r|), rules(rs[0])).Some? &&
     AllFire(sigma, rules, InterpOraat(sigma, rules, r, rs[0]), rs[1..]))
  }

  // ----- moving part of the scheduler log into the registers -----

  lemma ReadCommit(r: RegFile, sl: Log, sl': Log, l: Log, p: Port, idx: nat)
    requires idx < |r| == |sl| == |sl'| == |l|
    requires MayRead(App(sl, sl'), p, idx)
    ensures MayRead(sl, p, idx)
    ensures ReadValue(CommitUpdate(r, sl'), sl, l, p, idx) == ReadValue(r, App(sl, sl'), l, p, idx)
  {
    AppLaws(sl[idx], sl'[idx]);
    LatestIffHasWrite(sl'[idx]);
    if p.P1? {
      assert l[idx] + (sl[idx] + sl'[idx]) == (l[idx] + sl[idx]) + sl'[idx];
      LatestAtApp(l[idx] + sl[idx], sl'[idx], P0);
      LatestIsPort0(sl'[idx]);
    }
  }

  lemma {:induction false} LatestIsPort0(es: RLog)
    requires !HasWrite(es, P1)
    ensures Latest(es) == LatestAt(es, P0)
  {
    if es != [] {
      assert es == [es[0]] + es[1..];
      PushLaws(es[0], es[1..]);
      LatestIsPort0(es[1..]);
    }
  }

  lemma WriteCommit(sl: Log, sl': Log, l: Log, p: Port, idx: nat)
    requires idx < |sl| == |sl'| == |l|
    requires MayWrite(App(sl, sl'), l, p, idx)
    ensures MayWrite(sl, l, p, idx)
  {
    assert l[idx] + (sl[idx] + sl'[idx]) == (l[idx] + sl[idx]) + sl'[idx];
    AppLaws(l[idx] + sl[idx], sl'[idx]);
  }

  /** A run that succeeds on top of two logs succeeds in the same way once the
      older of the two has been committed. */
  lemma {:induction false} ActionCommit(r: RegFile, sigma: ExtFun, G: Ctx, sl: Log, sl': Log, l: Log, a: Action)
    requires Scoped(a, |r|, |G|) && |sl| == |sl'| == |l| == |r|
    requires InterpAction(r, sigma, G, App(sl, sl'), l, a).Ok?
    ensures InterpAction(CommitUpdate(r, sl'), sigma, G, sl, l, a) ==
            InterpAction(r, sigma, G, App(sl, sl'), l, a)
    decreases a
  {
    var L := App(sl, sl');
    match a
    case Assign(_, _, ex) => ActionCommit(r, sigma, G, sl, sl', l, ex);
    case Seq(r1, r2) =>
      ActionCommit(r, sigma, G, sl, sl', l, r1);
      var o := InterpAction(r, sigma, G, L, l, r1);
      ActionCommit(r, sigma, o.ctx, sl, sl', o.log, r2);
    case Bind(_, _, ex, body) =>
      ActionCommit(r, sigma, G, sl, sl', l, ex);
      var o := InterpAction(r, sigma, G, L, l, ex);
      ActionCommit(r, sigma, [o.val] + o.ctx, sl, sl', o.log, body);
    case If(cond, tbranch, fbranch) =>
      ActionCommit(r, sigma, G, sl, sl', l, cond);
      var o := InterpAction(r, sigma, G, L, l, cond);
      ActionCommit(r, sigma, o.ctx, sl, sl', o.log, if Single(o.val) then tbranch else fbranch);
    case Read(p, idx) => ReadCommit(r, sl, sl', l, p, idx);
    case Write(p, idx, value) =>
      ActionCommit(r, sigma, G, sl, sl', l, value);
      var o := InterpAction(r, sigma, G, L, l, value);
      WriteCommit(sl, sl', o.log, p, idx);
    case Unop(_, arg) => ActionCommit(r, sigma, G, sl, sl', l, arg);
    case Binop(_, arg1, arg2) =>
      ActionCommit(r, sigma, G, sl, sl', l, arg1);
      var o := InterpAction(r, sigma, G, L, l, arg1);
      ActionCommit(r, sigma, o.ctx, sl, sl', o.log, arg2);
    case ExternalCall(_, arg) => ActionCommit(r, sigma, G, sl, sl', l, arg);
    case InternalCall(_, args, body) =>
      ArgsCommit(r, sigma, G, sl, sl', l, args);
      var o := InterpArgs(r, sigma, G, L, l, args);
      ActionCommit(r, sigma, o.vals, sl, sl', o.log, body);
    case APos(a) => ActionCommit(r, sigma, G, sl, sl', l, a);
    case _ =>
  }

  lemma {:induction false} ArgsCommit(r: RegFile, sigma: ExtFun, G: Ctx, sl: Log, sl': Log, l: Log, args: Args)
    requires ScopedArgs(args, |r|, |G|) && |sl| == |sl'| == |l| == |r|
    requires InterpArgs(r, sigma, G, App(sl, sl'), l, args).ArgsOk?
    ensures InterpArgs(CommitUpdate(r, sl'), sigma, G, sl, l, args) ==
            InterpArgs(r, sigma, G, App(sl, sl'), l, args)
    decreases args
  {
    match args
    case NoArgs =>
    case MoreArgs(_, _, arg, rest) =>
      ArgsCommit(r, sigma, G, sl, sl', l, rest);
      var o := InterpArgs(r, sigma, G, App(sl, sl'), l, rest);
      ActionCommit(r, sigma, o.ctx, sl, sl', o.log, arg);
  }

  /** A rule that fires on top of `L` fires alone once `L` is committed, and its
      own cycle ends in the registers that appending its log would give. */
  lemma FiredRuleAlone(r: RegFile, sigma: ExtFun, rules: Rules, L: Log, rl: RuleName)
    requires ScopedRules(rules, |r|) && |L| == |r|
    requires InterpRule(r, sigma, L, rules(rl)).Some?
    ensures InterpRule(CommitUpdate(r, L), sigma, Empty(|r|), rules(rl)) == InterpRule(r, sigma, L, rules(rl))
    ensures InterpOraat(sigma, rules, CommitUpdate(r, L), rl) ==
            CommitUpdate(r, App(InterpRule(r, sigma, L, rules(rl)).value, L))
  {
    var l := InterpRule(r, sigma, L, rules(rl)).value;
    AppEmpty(L);
    ActionCommit(r, sigma, [], Empty(|r|), L, Empty(|r|), rules(rl));
    AppEmpty(l);
    CommitAssoc(r, L, l);
    var r' := CommitUpdate(r, L);
    assert InterpScheduler(r', sigma, rules, App(l, Empty(|r|)), Done) == l;
  }

  lemma {:induction false} TraceIsOraat(r: RegFile, sigma: ExtFun, rules: Rules, L: Log, s: Scheduler)
    requires ScopedRules(rules, |r|) && |L| == |r|
    ensures var rs := Trace(r, sigma, rules, L, s).0;
            && Trace(r, sigma, rules, L, s).1 == InterpScheduler(r, sigma, rules, L, s)
            && FoldOraat(sigma, rules, CommitUpdate(r, L), rs) ==
               CommitUpdate(r, InterpScheduler(r, sigma, rules, L, s))
            && AllFire(sigma, rules, CommitUpdate(r, L), rs)
    decreases s
  {
    match s
    case Done =>
    case SPos(s) => TraceIsOraat(r, sigma, rules, L, s);
    case Cons(rl, s1) => TryIsOraat(r, sigma, rules, L, s, rl, s1, s1);
    case Try(rl, s1, s2) => TryIsOraat(r, sigma, rules, L, s, rl, s1, s2);
  }

  lemma {:induction false} TryIsOraat(r: RegFile, sigma: ExtFun, rules: Rules, L: Log, s: Scheduler,
                                      rl: RuleName, s1: Scheduler, s2: Scheduler)
    requires ScopedRules(rules, |r|) && |L| == |r|
    requires s == Try(rl, s1, s2) || (s == Cons(rl, s1) && s1 == s2)
    ensures var rs := Trace(r, sigma, rules, L, s).0;
            && Trace(r, sigma, rules, L, s).1 == InterpScheduler(r, sigma, rules, L, s)
            && FoldOraat(sigma, rules, CommitUpdate(r, L), rs) ==
               CommitUpdate(r, InterpScheduler(r, sigma, rules, L, s))
            && AllFire(sigma, rules, CommitUpdate(r, L), rs)
    decreases s, 0
  {
    match InterpRule(r, sigma, L, rules(rl))
    case None => TraceIsOraat(r, sigma, rules, L, s2);
    case Some(l) =>
      FiredRuleAlone(r, sigma, rules, L, rl);
      TraceIsOraat(r, sigma, rules, App(l, L), s1);
      var rs := Trace(r, sigma, rules, App(l, L), s1).0;
      assert ([rl] + rs)[1..] == rs;
  }

  lemma {:induction false} TraceFollowsPath(r: RegFile, sigma: ExtFun, rules: Rules, L: Log, s: Scheduler) returns (path: seq<RuleName>)
    requires ScopedRules(rules, |r|) && |L| == |r|
    ensures path in AllSchedulerPaths(s) && Subsequence(Trace(r, sigma, rules, L, s).0, path)
    decreases s
  {
    match s
    case Done => path := [];
    case SPos(s) => path := TraceFollowsPath(r, sigma, rules, L, s);
    case Cons(rl, s1) =>
      var o := InterpRule(r, sigma, L, rules(rl));
      var rest := TraceFollowsPath(r, sigma, rules, if o.Some? then App(o.value, L) else L, s1);
      path := PathStep(rl, rest, AllSchedulerPaths(s1));
      SubsequenceStep(rl, Trace(r, sigma, rules, if o.Some? then App(o.value, L) else L, s1).0, rest);
    case Try(rl, s1, s2) =>
      var o := InterpRule(r, sigma, L, rules(rl));
      var s' := if o.Some? then s1 else s2;
      var rest := TraceFollowsPath(r, sigma, rules, if o.Some? then App(o.value, L) else L, s');
      path := PathStep(rl, rest, AllSchedulerPaths(s'));
      SubsequenceStep(rl, Trace(r, sigma, rules, if o.Some? then App(o.value, L) else L, s').0, rest);
  }

  lemma PathStep(rl: RuleName, rest: seq<RuleName>, paths: seq<seq<RuleName>>) returns (path: seq<RuleName>)
    requires rest in paths
    ensures path == [rl] + rest && path in PrefixAll(rl, paths)
  {
    path := [rl] + rest;
    var i :| 0 <= i < |paths| && paths[i] == rest;
    assert PrefixAll(rl, paths)[i] == path;
  }

  lemma {:induction false} SubsequenceStep(rl: RuleName, xs: seq<RuleName>, ys: seq<RuleName>)
    requires Subsequence(xs, ys)
    ensures Subsequence(xs, [rl] + ys) && Subsequence([rl] + xs, [rl] + ys)
    decreases |ys|
  {
    assert ([rl] + ys)[1..] == ys && ([rl] + xs)[1..] == xs;
    if xs != [] && xs[0] == rl {
      SubsequenceDrop(xs, ys);
    }
  }

  lemma {:induction false} SubsequenceDrop(xs: seq<RuleName>, ys: seq<RuleName>)
    requires xs != [] && Subsequence(xs, ys)
    ensures Subsequence(xs[1..], ys)
    decreases |ys|
  {
    if xs[0] == ys[0] {
      var zs := ys[1..];
      if |xs| > 1 {
        if xs[1] == ys[0] {
          SubsequenceDrop(xs[1..], zs);
        }
      }
    } else {
      SubsequenceDrop(xs, ys[1..]);
      if |xs| > 1 && xs[1] == ys[0] {
        SubsequenceDrop(xs[1..], ys[1..]);
      }
    }
  }

  lemma {:induction false} PathsUseSchedulerRules(s: Scheduler, path: seq<RuleName>)
    requires path in AllSchedulerPaths(s)
    ensures forall rl :: rl in path ==> rl in SchedulerRules(s)
    decreases s
  {
    match s
    case Done =>
    case SPos(s) => PathsUseSchedulerRules(s, path);
    case Cons(_, s1) => PathsUseSchedulerRules(s1, path[1..]);
    case Try(rl, s1, s2) =>
      if path in PrefixAll(rl, AllSchedulerPaths(s1)) {
        PathsUseSchedulerRules(s1, path[1..]);
      } else {
        PathsUseSchedulerRules(s2, path[1..]);
      }
  }

  /** The one-rule-at-a-time theorem, for every scheduler and register file: the
      rules that fire in a cycle are a subsequence of a path of the scheduler;
      running them one per cycle each fires again, and ends in the registers of
      the concurrent cycle. */
  lemma {:induction false} OneRuleAtATimeCycle(sigma: ExtFun, rules: Rules, s: Scheduler, r: RegFile)
    requires ScopedRules(rules, |r|)
    ensures var rs := Trace(r, sigma, rules, Empty(|r|), s).0;
            && (exists path :: path in AllSchedulerPaths(s) && Subsequence(rs, path))
            && AllFire(sigma, rules, r, rs)
            && FoldOraat(sigma, rules, r, rs) == InterpCycle(sigma, rules, s, r)
  {
    CommitEmpty(r);
    TraceIsOraat(r, sigma, rules, Empty(|r|), s);
    var path := TraceFollowsPath(r, sigma, rules, Empty(|r|), s);
  }

  lemma {:induction false} FoldOraatApp(sigma: ExtFun, rules: Rules, r: RegFile, rs: seq<RuleName>, rs': seq<RuleName>)
    requires ScopedRules(rules, |r|)
    ensures FoldOraat(sigma, rules, r, rs + rs') == FoldOraat(sigma, rules, FoldOraat(sigma, rules, r, rs), rs')
    ensures AllFire(sigma, rules, r, rs) && AllFire(sigma, rules, FoldOraat(sigma, rules, r, rs), rs') ==>
            AllFire(sigma, rules, r, rs + rs')
    decreases |rs|
  {
    if rs == [] {
      assert rs + rs' == rs';
    } else {
      assert (rs + rs')[1..] == rs[1..] + rs';
      FoldOraatApp(sigma, rules, InterpOraat(sigma, rules, r, rs[0]), rs[1..], rs');
    }
  }

  lemma {:induction false} SubsequenceIn(xs: seq<RuleName>, ys: seq<RuleName>)
    requires Subsequence(xs, ys)
    ensures forall x :: x in xs ==> x in ys
    decreases |ys|
  {
    if xs != [] {
      assert xs == [xs[0]] + xs[1..] && ys == [ys[0]] + ys[1..];
      SubsequenceIn(if xs[0] == ys[0] then xs[1..] else xs, ys[1..]);
    }
  }

  /** The rules that fire over `k` cycles, in order. */
  function FiredOver(sigma: ExtFun, rules: Rules, s: Scheduler, r: RegFile, k: nat): seq<RuleName>
    requires ScopedRules(rules, |r|)
    decreases k
  {
    if k == 0 then []
    else Trace(r, sigma, rules, Empty(|r|), s).0 +
         FiredOver(sigma, rules, s, InterpCycle(sigma, rules, s, r), k - 1)
  }

  /** The theorem over whole runs. */
  lemma {:induction false} OneRuleAtATimeCycles(sigma: ExtFun, rules: Rules, s: Scheduler, r: RegFile, k: nat)
    requires ScopedRules(rules, |r|)
    ensures FoldOraat(sigma, rules, r, FiredOver(sigma, rules, s, r, k)) == InterpCycles(sigma, rules, s, r, k)
    ensures AllFire(sigma, rules, r, FiredOver(sigma, rules, s, r, k))
    ensures forall rl :: rl in FiredOver(sigma, rules, s, r, k) ==> rl in SchedulerRules(s)
    decreases k
  {
    if k > 0 {
      var r' := InterpCycle(sigma, rules, s, r);
      var rs := Trace(r, sigma, rules, Empty(|r|), s).0;
      OneRuleAtATimeCycle(sigma, rules, s, r);
      OneRuleAtATimeCycles(sigma, rules, s, r', k - 1);
      FoldOraatApp(sigma, rules, r, rs, FiredOver(sigma, rules, s, r', k - 1));
      var path :| path in AllSchedulerPaths(s) && Subsequence(rs, path);
      SubsequenceIn(rs, path);
      PathsUseSchedulerRules(s, path);
    }
  }

  // ----- what paths, subsequences and firing mean -----

  /** The rules that the scheduler tries when the k-th of them fires or fails as
      `choose[k]` says. */
  function Follow(s: Scheduler, choose: seq<bool>): Option<seq<RuleName>>
    decreases s
  {
    match s
    case Done => if choose == [] then Some([]) else None
    case Cons(rl, s) => if choose == [] then None else After(rl, Follow(s, choose[1..]))
    case Try(rl, s1, s2) => if choose == [] then None else After(rl, Follow(if choose[0] then s1 else s2, choose[1..]))
    case SPos(s) => Follow(s, choose)
  }

  function After(rl: RuleName, path: Option<seq<RuleName>>): Option<seq<RuleName>> {
    if path.Some? then Some([rl] + path.value) else None
  }

  lemma InPrefixAll(rl: RuleName, paths: seq<seq<RuleName>>, path: seq<RuleName>)
    ensures path in PrefixAll(rl, paths) <==> path != [] && path[0] == rl && path[1..] in paths
  {
    if path != [] && path[0] == rl && path[1..] in paths {
      var p := PathStep(rl, path[1..], paths);
      assert p == path;
    }
    if path in PrefixAll(rl, paths) {
      var i :| 0 <= i < |paths| && PrefixAll(rl, paths)[i] == path;
      assert path[1..] == paths[i];
    }
  }

  /** Some sequence of successes and failures makes the scheduler try these rules. */
  ghost predicate Takes(s: Scheduler, path: seq<RuleName>) { exists choose :: Follow(s, choose) == Some(path) }

  lemma TakesBy(s: Scheduler, choose: seq<bool>, path: seq<RuleName>)
    requires Follow(s, choose) == Some(path)
    ensures Takes(s, path)
  {
  }

  /** The listed paths are those that some sequence of successes and failures takes. */
  lemma {:induction false} PathsExact(s: Scheduler, path: seq<RuleName>)
    ensures path in AllSchedulerPaths(s) <==> Takes(s, path)
    decreases s
  {
    hide Takes;
    match s
    case Done => TakesNothing(path);
    case SPos(s1) => PathsExact(s1, path); TakesInner(s1, path);
    case Cons(rl, s1) =>
      InPrefixAll(rl, AllSchedulerPaths(s1), path);
      if path != [] { PathsExact(s1, path[1..]); }
      TakesStep(s, rl, s1, s1, path);
    case Try(rl, s1, s2) =>
      InPrefixAll(rl, AllSchedulerPaths(s1), path);
      InPrefixAll(rl, AllSchedulerPaths(s2), path);
      if path != [] {
        PathsExact(s1, path[1..]);
        PathsExact(s2, path[1..]);
      }
      TakesStep(s, rl, s1, s2, path);
  }

  lemma TakesNothing(path: seq<RuleName>)
    ensures Takes(Done, path) <==> path == []
  {
    if path == [] { TakesBy(Done, [], path); }
  }

  lemma TakesInner(s: Scheduler, path: seq<RuleName>)
    ensures Takes(SPos(s), path) <==> Takes(s, path)
  {
    if choose :| Follow(s, choose) == Some(path) { TakesBy(SPos(s), choose, path); }
    if choose :| Follow(SPos(s), choose) == Some(path) { TakesBy(s, choose, path); }
  }

  lemma {:induction false} TakesStep(s: Scheduler, rl: RuleName, s1: Scheduler, s2: Scheduler, path: seq<RuleName>)
    requires (s == Cons(rl, s1) && s2 == s1) || s == Try(rl, s1, s2)
    ensures Takes(s, path) <==> path != [] && path[0] == rl && (Takes(s1, path[1..]) || Takes(s2, path[1..]))
  {
    if choose :| Follow(s, choose) == Some(path) {
      var rest := Follow(if choose[0] then s1 else s2, choose[1..]);
      assert path == [rl] + rest.value && path[1..] == rest.value;
      TakesBy(if choose[0] then s1 else s2, choose[1..], path[1..]);
    }
    if choose :| path != [] && path[0] == rl && Follow(s1, choose) == Some(path[1..]) {
      Choose(s, rl, s1, s2, path, choose, true);
      TakesBy(s, [true] + choose, path);
    }
    if choose :| path != [] && path[0] == rl && Follow(s2, choose) == Some(path[1..]) {
      Choose(s, rl, s1, s2, path, choose, false);
      TakesBy(s, [false] + choose, path);
    }
  }

  lemma {:induction false} Choose(s: Scheduler, rl: RuleName, s1: Scheduler, s2: Scheduler, path: seq<RuleName>, choose: seq<bool>, fires: bool)
    requires (s == Cons(rl, s1) && s2 == s1) || s == Try(rl, s1, s2)
    requires path != [] && path[0] == rl && Follow(if fires then s1 else s2, choose) == Some(path[1..])
    ensures Follow(s, [fires] + choose) == Some(path)
  {
    assert ([fires] + choose)[1..] == choose && path == [rl] + path[1..];
  }

  /** Which of the rules tried fire, in order. */
  function Outcomes(r: RegFile, sigma: ExtFun, rules: Rules, L: Log, s: Scheduler): seq<bool>
    requires ScopedRules(rules, |r|) && |L| == |r|
    decreases s
  {
    match s
    case Done => []
    case Cons(rl, s) =>
      var o := InterpRule(r, sigma, L, rules(rl));
      [o.Some?] + Outcomes(r, sigma, rules, if o.Some? then App(o.value, L) else L, s)
    case Try(rl, s1, s2) =>
      var o := InterpRule(r, sigma, L, rules(rl));
      [o.Some?] + Outcomes(r, sigma, rules, if o.Some? then App(o.value, L) else L, if o.Some? then s1 else s2)
    case SPos(s) => Outcomes(r, sigma, rules, L, s)
  }

  function Chosen(path: seq<RuleName>, choose: seq<bool>): seq<RuleName>
    requires |path| == |choose|
  {
    if path == [] then [] else (if choose[0] then [path[0]] else []) + Chosen(path[1..], choose[1..])
  }

  /** The traced rules are exactly those on the path taken that fire there. */
  lemma {:induction false} TraceIsChosen(r: RegFile, sigma: ExtFun, rules: Rules, L: Log, s: Scheduler)
    requires ScopedRules(rules, |r|) && |L| == |r|
    ensures var (choose, path) := (Outcomes(r, sigma, rules, L, s), Follow(s, Outcomes(r, sigma, rules, L, s)));
            path.Some? && |path.value| == |choose| && Trace(r, sigma, rules, L, s).0 == Chosen(path.value, choose)
    decreases s
  {
    match s
    case Done =>
    case SPos(s1) => TraceIsChosen(r, sigma, rules, L, s1);
    case Cons(rl, s1) =>
      var o := InterpRule(r, sigma, L, rules(rl));
      TraceIsChosen(r, sigma, rules, if o.Some? then App(o.value, L) else L, s1);
      ChosenStep(rl, o.Some?, Follow(s1, Outcomes(r, sigma, rules, L, s)[1..]).value, Outcomes(r, sigma, rules, L, s)[1..]);
    case Try(rl, s1, s2) =>
      var o := InterpRule(r, sigma, L, rules(rl));
      var s' := if o.Some? then s1 else s2;
      TraceIsChosen(r, sigma, rules, if o.Some? then App(o.value, L) else L, s');
      ChosenStep(rl, o.Some?, Follow(s', Outcomes(r, sigma, rules, L, s)[1..]).value, Outcomes(r, sigma, rules, L, s)[1..]);
  }

  lemma ChosenStep(rl: RuleName, fired: bool, path: seq<RuleName>, choose: seq<bool>)
    requires |path| == |choose|
    ensures Chosen([rl] + path, [fired] + choose) == (if fired then [rl] else []) + Chosen(path, choose)
  {
    assert ([rl] + path)[1..] == path && ([fired] + choose)[1..] == choose;
  }

  /** The positions in `ys`, in order, where `xs` is found. */
  predicate Embeds(f: seq<nat>, xs: seq<RuleName>, ys: seq<RuleName>) {
    && |f| == |xs| && (forall k :: 0 <= k < |f| ==> f[k] < |ys| && ys[f[k]] == xs[k])
    && forall j, k :: 0 <= j < k < |f| ==> f[j] < f[k]
  }

  lemma {:induction false} Shifted(g: seq<nat>, xs: seq<RuleName>, ys: seq<RuleName>) returns (f: seq<nat>)
    requires ys != [] && Embeds(g, xs, ys[1..])
    ensures Embeds(f, xs, ys) && forall k :: 0 <= k < |f| ==> f[k] > 0
  {
    f := seq(|g|, k requires 0 <= k < |g| => g[k] + 1);
  }

  lemma {:induction false} Embedding(xs: seq<RuleName>, ys: seq<RuleName>) returns (f: seq<nat>)
    requires Subsequence(xs, ys)
    ensures Embeds(f, xs, ys)
    decreases |ys|
  {
    if xs == [] {
      f := [];
    } else {
      var first := xs[0] == ys[0];
      var g := Embedding(if first then xs[1..] else xs, ys[1..]);
      f := Shifted(g, if first then xs[1..] else xs, ys);
      if first {
        assert forall k :: 0 < k < |xs| ==> xs[k] == xs[1..][k - 1];
        f := [0] + f;
      }
    }
  }

  lemma {:induction false} Embedded(f: seq<nat>, xs: seq<RuleName>, ys: seq<RuleName>)
    requires Embeds(f, xs, ys)
    ensures Subsequence(xs, ys)
    decreases |ys|
  {
    if xs != [] {
      assert f[0] < |ys|;
      assert forall k :: 0 < k < |f| ==> f[k] > f[0];
      var g := if xs[0] == ys[0] then f[1..] else f;
      assert forall k :: 0 <= k < |g| ==> g[k] > 0;
      Embedded(seq(|g|, k requires 0 <= k < |g| => g[k] - 1), if xs[0] == ys[0] then xs[1..] else xs, ys[1..]);
    }
  }

  lemma {:induction false} SubsequenceExact(xs: seq<RuleName>, ys: seq<RuleName>)
    ensures Subsequence(xs, ys) <==> exists f :: Embeds(f, xs, ys)
  {
    hide Embeds, Subsequence;
    if Subsequence(xs, ys) { var f := Embedding(xs, ys); }
    if f :| Embeds(f, xs, ys) { Embedded(f, xs, ys); }
  }

  /** All fire: each, in the registers that those before it leave. */
  lemma {:induction false} AllFireExact(sigma: ExtFun, rules: Rules, r: RegFile, rs: seq<RuleName>)
    requires ScopedRules(rules, |r|)
    ensures AllFire(sigma, rules, r, rs) <==>
            forall k :: 0 <= k < |rs| ==> FiresIn(sigma, rules, FoldOraat(sigma, rules, r, rs[..k]), rs[k])
    decreases |rs|
  {
    if rs != [] {
      var (r', tail) := (InterpOraat(sigma, rules, r, rs[0]), rs[1..]);
      AllFireExact(sigma, rules, r', tail);
      assert FoldOraat(sigma, rules, r, rs[..0]) == r;
      forall k | 0 <= k < |tail|
        ensures rs[k + 1] == tail[k] && FoldOraat(sigma, rules, r, rs[..k + 1]) == FoldOraat(sigma, rules, r', tail[..k])
      {
        assert rs[..k + 1][0] == rs[0] && rs[..k + 1][1..] == tail[..k];
      }
      forall k | 1 <= k < |rs| ensures rs[k] == tail[k - 1] {}
    }
  }

  predicate FiresIn(sigma: ExtFun, rules: Rules, r: RegFile, rl: RuleName)
    requires ScopedRules(rules, |r|)
  {
    InterpRule(r, sigma, Empty(|r|), rules(rl)).Some?
  }

  lemma {:induction false} SomePath(s: Scheduler)
    ensures AllSchedulerPaths(s) != []
    decreases s
  {
    match s
    case Done =>
    case Cons(_, s1) => SomePath(s1);
    case Try(_, s1, _) => SomePath(s1);
    case SPos(s1) => SomePath(s1);
  }

  /** The rules of a scheduler are those that some path tries. */
  lemma {:induction false} SchedulerRulesExact(s: Scheduler, rl: RuleName)
    ensures rl in SchedulerRules(s) <==> exists path :: path in AllSchedulerPaths(s) && rl in path
    decreases s
  {
    if path :| path in AllSchedulerPaths(s) && rl in path { PathsUseSchedulerRules(s, path); }
    if rl in SchedulerRules(s) { var path := PathWith(s, rl); }
  }

  lemma {:induction false} PathWith(s: Scheduler, rl: RuleName) returns (path: seq<RuleName>)
    requires rl in SchedulerRules(s)
    ensures path in AllSchedulerPaths(s) && rl in path
    decreases s, 0
  {
    match s
    case SPos(s1) => path := PathWith(s1, rl);
    case Cons(first, s1) => path := PathThrough(first, s1, rl);
    case Try(first, s1, s2) =>
      if rl == first || rl in SchedulerRules(s1) {
        path := PathThrough(first, s1, rl);
      } else {
        path := PathThrough(first, s2, rl);
      }
  }

  lemma {:induction false} PathThrough(first: RuleName, s: Scheduler, rl: RuleName) returns (path: seq<RuleName>)
    requires rl == first || rl in SchedulerRules(s)
    ensures path in PrefixAll(first, AllSchedulerPaths(s)) && rl in path
    decreases s, 1
  {
    SomePath(s);
    var rest := AllSchedulerPaths(s)[0];
    if rl != first { rest := PathWith(s, rl); }
    path := PathStep(first, rest, AllSchedulerPaths(s));
  }
}

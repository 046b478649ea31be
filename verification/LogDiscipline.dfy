/** What every run keeps true of the log of a cycle: each write was allowed by
    the events before it.  So a register is written at most once per port, and
    never at port 0 after a write or a read at port 1. */
module LogDiscipline {
  import opened BitVectors
  import opened Primitives
  import opened Syntax
  import opened Logs
  import opened Semantics

  predicate Disciplined(es: RLog) {
    es == [] ||
    (Disciplined(es[1..]) && (es[0].Wr? ==> MayWriteEntry(es[1..], es[0].port)))
  }

  predicate DisciplinedLog(L: Log) { forall i :: 0 <= i < |L| ==> Disciplined(L[i]) }

  /** The conflict table between two events of one cycle on one register. */
  predicate Conflicts(older: Entry, newer: Entry) {
    newer.Wr? &&
    if newer.port.P0? then older.Wr? || older == Rd(P1) else older.Wr? && older.port.P1?
  }

  predicate ConflictFree(es: RLog) { forall i, j :: 0 <= i < j < |es| ==> !Conflicts(es[j], es[i]) }

  lemma WriteAllowedIff(e: Entry, es: RLog)
    ensures (e.Wr? ==> MayWriteEntry(es, e.port)) <==> (forall j :: 0 <= j < |es| ==> !Conflicts(es[j], e))
  {
    if e.Wr? && !MayWriteEntry(es, e.port) {
      if e.port.P0? && HasRead(es, P1) {
        var j :| 0 <= j < |es| && es[j] == Rd(P1);
        assert Conflicts(es[j], e);
      } else {
        var p := if HasWrite(es, P1) then P1 else P0;
        var x :| x in es && x.Wr? && x.port == p;
        var j :| 0 <= j < |es| && es[j] == x;
        assert Conflicts(es[j], e);
      }
    }
  }

  /** The invariant says exactly that no event conflicts with an older one. */
  lemma {:induction false} DisciplinedIffConflictFree(es: RLog)
    ensures Disciplined(es) <==> ConflictFree(es)
  {
    if es != [] {
      var rest := es[1..];
      DisciplinedIffConflictFree(rest);
      WriteAllowedIff(es[0], rest);
      if ConflictFree(es) {
        forall i, j | 0 <= i < j < |rest| ensures !Conflicts(rest[j], rest[i]) {
          assert !Conflicts(es[j + 1], es[i + 1]);
        }
        forall j | 0 <= j < |rest| ensures !Conflicts(rest[j], es[0]) {
          assert !Conflicts(es[j + 1], es[0]);
        }
      }
      if Disciplined(es) {
        forall i, j | 0 <= i < j < |es| ensures !Conflicts(es[j], es[i]) {
          assert es[j] == rest[j - 1];
          if i > 0 { assert es[i] == rest[i - 1]; }
        }
      }
    }
  }

  /** With the invariant, a cycle ends with the port 1 value if there is one. */
  lemma {:induction false} DisciplinedLatest(es: RLog)
    requires Disciplined(es)
    ensures Latest(es) == OptOr(LatestAt(es, P1), LatestAt(es, P0))
  {
    if es != [] {
      DisciplinedLatest(es[1..]);
      LatestAtIffHasWrite(es[1..], P0);
      LatestAtIffHasWrite(es[1..], P1);
    }
  }

  lemma DisciplinedPush(L: Log, l: Log, idx: nat, e: Entry)
    requires idx < |L| == |l| && DisciplinedLog(App(l, L))
    requires e.Wr? ==> MayWrite(L, l, e.port, idx)
    ensures DisciplinedLog(App(Push(l, idx, e), L))
  {
    forall i | 0 <= i < |L| ensures Disciplined(App(Push(l, idx, e), L)[i]) {
      assert Disciplined(App(l, L)[i]);
      if i == idx {
        assert ([e] + l[i]) + L[i] == [e] + (l[i] + L[i]);
        assert ([e] + (l[i] + L[i]))[1..] == l[i] + L[i];
      }
    }
  }

  lemma {:induction false} ActionDisciplined(r: RegFile, sigma: ExtFun, G: Ctx, L: Log, l: Log, a: Action)
    requires Scoped(a, |r|, |G|) && |L| == |l| == |r|
    requires DisciplinedLog(App(l, L))
    ensures var o := InterpAction(r, sigma, G, L, l, a); o.Ok? ==> DisciplinedLog(App(o.log, L))
    decreases a
  {
    match a
    case Assign(_, _, ex) => ActionDisciplined(r, sigma, G, L, l, ex);
    case Seq(r1, r2) =>
      ActionDisciplined(r, sigma, G, L, l, r1);
      var o := InterpAction(r, sigma, G, L, l, r1);
      if o.Ok? { ActionDisciplined(r, sigma, o.ctx, L, o.log, r2); }
    case Bind(_, _, ex, body) =>
      ActionDisciplined(r, sigma, G, L, l, ex);
      var o := InterpAction(r, sigma, G, L, l, ex);
      if o.Ok? { ActionDisciplined(r, sigma, [o.val] + o.ctx, L, o.log, body); }
    case If(cond, tbranch, fbranch) =>
      ActionDisciplined(r, sigma, G, L, l, cond);
      var o := InterpAction(r, sigma, G, L, l, cond);
      if o.Ok? { ActionDisciplined(r, sigma, o.ctx, L, o.log, if Single(o.val) then tbranch else fbranch); }
    case Read(p, idx) => DisciplinedPush(L, l, idx, Rd(p));
    case Write(p, idx, value) =>
      ActionDisciplined(r, sigma, G, L, l, value);
      var o := InterpAction(r, sigma, G, L, l, value);
      if o.Ok? && MayWrite(L, o.log, p, idx) { DisciplinedPush(L, o.log, idx, Wr(p, o.val)); }
    case Unop(_, arg) => ActionDisciplined(r, sigma, G, L, l, arg);
    case Binop(_, arg1, arg2) =>
      ActionDisciplined(r, sigma, G, L, l, arg1);
      var o := InterpAction(r, sigma, G, L, l, arg1);
      if o.Ok? { ActionDisciplined(r, sigma, o.ctx, L, o.log, arg2); }
    case ExternalCall(_, arg) => ActionDisciplined(r, sigma, G, L, l, arg);
    case InternalCall(_, args, body) =>
      ArgsDisciplined(r, sigma, G, L, l, args);
      var o := InterpArgs(r, sigma, G, L, l, args);
      if o.ArgsOk? { ActionDisciplined(r, sigma, o.vals, L, o.log, body); }
    case APos(a) => ActionDisciplined(r, sigma, G, L, l, a);
    case _ =>
  }

  lemma {:induction false} ArgsDisciplined(r: RegFile, sigma: ExtFun, G: Ctx, L: Log, l: Log, args: Args)
    requires ScopedArgs(args, |r|, |G|) && |L| == |l| == |r|
    requires DisciplinedLog(App(l, L))
    ensures var o := InterpArgs(r, sigma, G, L, l, args); o.ArgsOk? ==> DisciplinedLog(App(o.log, L))
    decreases args
  {
    match args
    case NoArgs =>
    case MoreArgs(_, _, arg, rest) =>
      ArgsDisciplined(r, sigma, G, L, l, rest);
      var o := InterpArgs(r, sigma, G, L, l, rest);
      if o.ArgsOk? { ActionDisciplined(r, sigma, o.ctx, L, o.log, arg); }
  }

  lemma RuleDisciplined(r: RegFile, sigma: ExtFun, L: Log, rl: Action)
    requires Scoped(rl, |r|, 0) && |L| == |r| && DisciplinedLog(L)
    ensures var o := InterpRule(r, sigma, L, rl); o.Some? ==> DisciplinedLog(App(o.value, L))
  {
    AppEmpty(L);
    ActionDisciplined(r, sigma, [], L, Empty(|r|), rl);
  }

  lemma {:induction false} SchedulerDisciplined(r: RegFile, sigma: ExtFun, rules: Rules, L: Log, s: Scheduler)
    requires ScopedRules(rules, |r|) && |L| == |r| && DisciplinedLog(L)
    ensures DisciplinedLog(InterpScheduler(r, sigma, rules, L, s))
    decreases s
  {
    match s
    case Done =>
    case Cons(rl, s) =>
      RuleDisciplined(r, sigma, L, rules(rl));
      var o := InterpRule(r, sigma, L, rules(rl));
      SchedulerDisciplined(r, sigma, rules, if o.Some? then App(o.value, L) else L, s);
    case Try(rl, s1, s2) =>
      RuleDisciplined(r, sigma, L, rules(rl));
      var o := InterpRule(r, sigma, L, rules(rl));
      if o.Some? {
        SchedulerDisciplined(r, sigma, rules, App(o.value, L), s1);
      } else {
        SchedulerDisciplined(r, sigma, rules, L, s2);
      }
    case SPos(s) => SchedulerDisciplined(r, sigma, rules, L, s);
  }

  /** In every cycle of every program no two events conflict. */
  lemma CycleDisciplined(r: RegFile, sigma: ExtFun, rules: Rules, s: Scheduler)
    requires ScopedRules(rules, |r|)
    ensures DisciplinedLog(InterpScheduler(r, sigma, rules, Empty(|r|), s))
  {
    SchedulerDisciplined(r, sigma, rules, Empty(|r|), s);
  }
}

/** How precise the register histories are.  A walk is the sequence of accesses on one way
    through the branches of a rule; histories say exactly what all walks have in common,
    and a register's kind is decided exactly by the walks of the scheduler. */
module Walks {
  import opened Syntax
  import opened Logs
  import opened Histories
  import opened Footprints
  import CircuitGeneration
  import Cuttlesim
  import Effects

  type Walk = seq<Event>

  const NoAccess: Walk := []

  function Joined(X: set<Walk>, Y: set<Walk>): set<Walk> { set x, y | x in X && y in Y :: x + y }

  /** All ways through an action, in the order in which its code is emitted; a failure
      does not end a walk. */
  function WalksOf(a: Action): set<Walk>
    decreases a
  {
    match a
    case Assign(_, _, ex) => WalksOf(ex)
    case Seq(r1, r2) => Joined(WalksOf(r1), WalksOf(r2))
    case Bind(_, _, ex, body) => Joined(WalksOf(ex), WalksOf(body))
    case If(cond, tbranch, fbranch) => Joined(WalksOf(cond), WalksOf(tbranch) + WalksOf(fbranch))
    case Read(p, idx) => {[(idx, Reading(p))]}
    case Write(p, idx, value) => Joined(WalksOf(value), {[(idx, Writing(p))]})
    case Unop(_, arg) => WalksOf(arg)
    case Binop(_, arg1, arg2) => Joined(WalksOf(arg1), WalksOf(arg2))
    case ExternalCall(_, arg) => WalksOf(arg)
    case InternalCall(_, args, body) => Joined(ArgWalks(args), WalksOf(body))
    case APos(a) => WalksOf(a)
    case _ => {[]}
  }

  function ArgWalks(args: Args): set<Walk>
    decreases args
  {
    match args
    case NoArgs => {[]}
    case MoreArgs(_, _, arg, rest) => Joined(WalksOf(arg), ArgWalks(rest))
  }

  // ----- conflicts, as the semantics has them -----

  function EntryFor(x: Access): Entry {
    match x
    case Reading(p) => Rd(p)
    case Writing(p) => Wr(p, [])
  }

  /** After `x` in an earlier rule, `y` is refused. */
  predicate Refused(x: Access, y: Access) {
    match y
    case Reading(p) => !MayReadEntry([EntryFor(x)], p)
    case Writing(p) => !MayWriteEntry([EntryFor(x)], p)
  }

  /** After `x` in the same rule, `y` is refused: a rule's own accesses do not stand in
      the way of its reads. */
  predicate OwnRefused(x: Access, y: Access) { y.Writing? && Refused(x, y) }

  lemma RefusedTable(x: Access, y: Access)
    ensures Refused(x, y) <==>
            match y
            case Reading(P0) => x.Writing?
            case Reading(P1) => x == Writing(P1)
            case Writing(P0) => x != Reading(P0)
            case Writing(P1) => x == Writing(P1)
  {
    PushLaws(EntryFor(x), []);
    assert [EntryFor(x)] + [] == [EntryFor(x)];
  }

  ghost predicate Clean(p: Walk, i: nat) {
    forall j, k :: 0 <= j < k < |p| && p[j].0 == i && p[k].0 == i ==> !OwnRefused(p[j].1, p[k].1)
  }

  // ----- what a history says of a set of walks -----

  ghost predicate Exactly(t: Tribool, e: Event, P: set<Walk>) {
    && (t == TFalse <==> forall p :: p in P ==> e !in p)
    && (t == TTrue <==> forall p :: p in P ==> e in p)
  }

  ghost predicate Matches(h: History, i: nat, P: set<Walk>) {
    && (forall e: Access :: Exactly(Flag(h, e), (i, e), P))
    && (h.cf == TTrue <==> forall p :: p in P ==> Clean(p, i))
  }

  lemma EmptyMatches(i: nat)
    ensures Matches(EmptyHistory, i, {[]})
  {
    forall e: Access ensures Exactly(Flag(EmptyHistory, e), (i, e), {[]}) {
      assert NoAccess in {NoAccess};
    }
  }

  lemma JoinedUnit(P: set<Walk>)
    ensures Joined(P, {[]}) == P
  {
    forall p | p in P ensures p in Joined(P, {[]}) { assert p + [] == p; }
    forall p | p in Joined(P, {[]}) ensures p in P {
      var x, y :| x in P && y in {[]} && p == x + y;
      assert x + [] == x;
    }
  }

  lemma UnitJoined(P: set<Walk>)
    ensures Joined({[]}, P) == P
  {
    forall p | p in P ensures p in Joined({[]}, P) { assert NoAccess + p == p && NoAccess in {NoAccess}; }
    forall p | p in Joined({[]}, P) ensures p in P {
      var x, y :| x in {[]} && y in P && p == x + y;
      assert NoAccess + y == y;
    }
  }

  lemma JoinedAssoc(X: set<Walk>, Y: set<Walk>, Z: set<Walk>)
    ensures Joined(X, Joined(Y, Z)) == Joined(Joined(X, Y), Z)
  {
    forall p | p in Joined(X, Joined(Y, Z)) ensures p in Joined(Joined(X, Y), Z) {
      var x, yz :| x in X && yz in Joined(Y, Z) && p == x + yz;
      var y, z :| y in Y && z in Z && yz == y + z;
      assert x + y in Joined(X, Y) && p == (x + y) + z;
    }
    forall p | p in Joined(Joined(X, Y), Z) ensures p in Joined(X, Joined(Y, Z)) {
      var xy, z :| xy in Joined(X, Y) && z in Z && p == xy + z;
      var x, y :| x in X && y in Y && xy == x + y;
      assert y + z in Joined(Y, Z) && p == x + (y + z);
    }
  }

  lemma JoinedBoth(X: set<Walk>, Y: set<Walk>, Z: set<Walk>)
    ensures Joined(X, Y + Z) == Joined(X, Y) + Joined(X, Z)
  {
  }

  lemma JoinedSome(X: set<Walk>, Y: set<Walk>)
    requires X != {} && Y != {}
    ensures Joined(X, Y) != {}
  {
    var x :| x in X;
    var y :| y in Y;
    assert x + y in Joined(X, Y);
  }

  lemma {:induction false} WalksSome(a: Action)
    ensures WalksOf(a) != {}
    decreases a
  {
    match a
    case Assign(_, _, ex) => WalksSome(ex);
    case Seq(r1, r2) => WalksSome(r1); WalksSome(r2); JoinedSome(WalksOf(r1), WalksOf(r2));
    case Bind(_, _, ex, body) => WalksSome(ex); WalksSome(body); JoinedSome(WalksOf(ex), WalksOf(body));
    case If(cond, tbranch, fbranch) =>
      WalksSome(cond);
      WalksSome(tbranch);
      JoinedSome(WalksOf(cond), WalksOf(tbranch) + WalksOf(fbranch));
    case Write(p, idx, value) => WalksSome(value); JoinedSome(WalksOf(value), {[(idx, Writing(p))]});
    case Unop(_, arg) => WalksSome(arg);
    case Binop(_, arg1, arg2) => WalksSome(arg1); WalksSome(arg2); JoinedSome(WalksOf(arg1), WalksOf(arg2));
    case ExternalCall(_, arg) => WalksSome(arg);
    case InternalCall(_, args, body) => ArgWalksSome(args); WalksSome(body); JoinedSome(ArgWalks(args), WalksOf(body));
    case APos(a) => WalksSome(a);
    case _ =>
  }

  lemma {:induction false} ArgWalksSome(args: Args)
    ensures ArgWalks(args) != {}
    decreases args
  {
    match args
    case NoArgs =>
    case MoreArgs(_, _, arg, rest) => WalksSome(arg); ArgWalksSome(rest); JoinedSome(WalksOf(arg), ArgWalks(rest));
  }

  // ----- one more access -----

  function Extended(P: set<Walk>, e: Event): set<Walk> { Joined(P, {[e]}) }

  /** What holds of all longer walks is what holds of all walks so far. */
  lemma {:induction false} Lift(P: set<Walk>, e: Event, phi: Walk -> bool, psi: Walk -> bool)
    requires forall p :: psi(p + [e]) == phi(p)
    ensures (forall q :: q in Extended(P, e) ==> psi(q)) <==> (forall p :: p in P ==> phi(p))
  {
    if p :| p in P && !phi(p) {
      assert p + [e] in Extended(P, e) && !psi(p + [e]);
    } else {
      forall q | q in Extended(P, e) ensures psi(q) {
        var x, y :| x in P && y in {[e]} && q == x + y;
        assert psi(x + [e]) == phi(x);
      }
    }
  }

  lemma CleanLonger(p: Walk, e: Event, i: nat)
    ensures Clean(p + [e], i) <==> Clean(p, i) && (e.0 == i ==> Allows(p, i, e.1))
  {
    var q := p + [e];
    if Clean(q, i) {
      forall j, k | 0 <= j < k < |p| && p[j].0 == i && p[k].0 == i ensures !OwnRefused(p[j].1, p[k].1) {
        assert q[j] == p[j] && q[k] == p[k];
      }
      forall x | e.0 == i && (i, x) in p ensures !OwnRefused(x, e.1) {
        var j :| 0 <= j < |p| && p[j] == (i, x);
        assert q[j] == p[j] && q[|p|] == e;
      }
    }
  }

  lemma {:induction false} ExtendedFlag(t: Tribool, ev: Event, P: set<Walk>, e: Event)
    requires Exactly(t, ev, P) && P != {}
    ensures Exactly(if ev == e then TTrue else t, ev, Extended(P, e))
  {
    hide Extended;
    forall p ensures ev in p + [e] <==> ev == e || ev in p {}
    Lift(P, e, p => ev != e && ev !in p, q => ev !in q);
    Lift(P, e, p => ev == e || ev in p, q => ev in q);
  }

  lemma {:induction false} ExtendedClean(h: History, i: nat, P: set<Walk>, e: Access)
    requires Matches(h, i, P) && P != {}
    ensures AndT(h.cf, UpdateCf(h, e)) == TTrue <==> forall q :: q in Extended(P, (i, e)) ==> Clean(q, i)
  {
    hide Extended, UpdateCf, Clean, OwnRefused;
    UpdateCfWalks(h, i, P, e);
    forall p ensures Clean(p + [(i, e)], i) <==> Clean(p, i) && Allows(p, i, e) { CleanLonger(p, (i, e), i); }
    Lift(P, (i, e), p => Clean(p, i) && Allows(p, i, e), q => Clean(q, i));
  }

  ghost predicate Allows(p: Walk, i: nat, e: Access) { forall x :: (i, x) in p ==> !OwnRefused(x, e) }

  /** The flag for one more access is exact: it is raised when no walk so far has an access
      that refuses it. */
  lemma {:induction false} UpdateCfWalks(h: History, i: nat, P: set<Walk>, e: Access)
    requires Matches(h, i, P) && P != {}
    ensures UpdateCf(h, e) == TTrue <==> forall p :: p in P ==> Allows(p, i, e)
  {
    forall x: Access ensures Exactly(Flag(h, x), (i, x), P) && (OwnRefused(x, e) <==> e.Writing? && Refused(x, e)) { RefusedTable(x, e); }
    if e.Writing? {
      forall x: Access | Refused(x, e) && Flag(h, x) != TFalse ensures exists p :: p in P && (i, x) in p {}
      forall p, x | p in P && (i, x) in p && Refused(x, e) ensures Flag(h, x) != TFalse {}
      RefusedTable(Reading(P0), e);
      RefusedTable(Reading(P1), e);
      RefusedTable(Writing(P0), e);
      RefusedTable(Writing(P1), e);
      assert Flag(h, Reading(P1)) == h.r1 && Flag(h, Writing(P0)) == h.w0 && Flag(h, Writing(P1)) == h.w1;
    }
  }

  lemma {:induction false} UpdateMatches(h: History, i: nat, P: set<Walk>, e: Access)
    requires Matches(h, i, P) && P != {}
    ensures Matches(UpdateHistory(h, e), i, Extended(P, (i, e)))
  {
    hide Extended, Clean, Exactly, UpdateCf;
    ExtendedClean(h, i, P, e);
    forall x: Access ensures Exactly(Flag(UpdateHistory(h, e), x), (i, x), Extended(P, (i, e))) {
      ExtendedFlag(Flag(h, x), (i, x), P, (i, e));
      assert Flag(UpdateHistory(h, e), x) == if x == e then TTrue else Flag(h, x);
    }
  }

  lemma {:induction false} OtherMatches(h: History, i: nat, P: set<Walk>, e: Event)
    requires Matches(h, i, P) && P != {} && e.0 != i
    ensures Matches(h, i, Extended(P, e))
  {
    hide Extended, Clean, Exactly;
    forall x: Access ensures Exactly(Flag(h, x), (i, x), Extended(P, e)) { ExtendedFlag(Flag(h, x), (i, x), P, e); }
    forall p ensures Clean(p + [e], i) <==> Clean(p, i) { CleanLonger(p, e, i); }
    Lift(P, e, p => Clean(p, i), q => Clean(q, i));
  }

  lemma {:induction false} AccessMatches(h: HistoryMap, i: nat, P: set<Walk>, idx: nat, e: Access)
    requires i < |h| && Matches(h[i], i, P) && P != {}
    ensures Matches(UpdateMap(h, idx, e)[i], i, Extended(P, (idx, e)))
  {
    hide Matches;
    if idx == i { UpdateMatches(h[i], i, P, e); } else { OtherMatches(h[i], i, P, (idx, e)); }
  }

  lemma {:induction false} JoinMatches(x: History, y: History, i: nat, P: set<Walk>, Q: set<Walk>)
    requires Matches(x, i, P) && Matches(y, i, Q) && P != {} && Q != {}
    ensures Matches(JoinHistory(x, y), i, P + Q)
  {
    var h := JoinHistory(x, y);
    forall e: Access ensures Exactly(Flag(h, e), (i, e), P + Q) {
      assert Exactly(Flag(x, e), (i, e), P) && Exactly(Flag(y, e), (i, e), Q);
      assert Flag(h, e) == JoinT(Flag(x, e), Flag(y, e));
      var p :| p in P;
      var q :| q in Q;
    }
  }

  /** The history after an action says exactly what the walks through it have in common. */
  lemma {:induction false} AfterExact(h: HistoryMap, i: nat, P: set<Walk>, a: Action)
    requires i < |h| && Matches(h[i], i, P) && P != {}
    ensures Matches(After(h, a)[i], i, Joined(P, WalksOf(a)))
    decreases a, 0
  {
    hide Matches, UpdateMap, Joined, JoinHistory;
    match a
    case Fail(_) => JoinedUnit(P);
    case Var(_, _) => JoinedUnit(P);
    case Cst(_) => JoinedUnit(P);
    case Assign(_, _, ex) => AfterExact(h, i, P, ex);
    case Seq(r1, r2) => ThenExact(h, i, P, r1); AfterExact(After(h, r1), i, Joined(P, WalksOf(r1)), r2); JoinedAssoc(P, WalksOf(r1), WalksOf(r2));
    case Bind(_, _, ex, body) =>
      ThenExact(h, i, P, ex);
      AfterExact(After(h, ex), i, Joined(P, WalksOf(ex)), body);
      JoinedAssoc(P, WalksOf(ex), WalksOf(body));
    case If(cond, tbranch, fbranch) =>
      ThenExact(h, i, P, cond);
      var (h', P') := (After(h, cond), Joined(P, WalksOf(cond)));
      ThenExact(h', i, P', tbranch);
      ThenExact(h', i, P', fbranch);
      JoinMatches(After(h', tbranch)[i], After(h', fbranch)[i], i, Joined(P', WalksOf(tbranch)), Joined(P', WalksOf(fbranch)));
      JoinedBoth(P', WalksOf(tbranch), WalksOf(fbranch));
      JoinedAssoc(P, WalksOf(cond), WalksOf(tbranch) + WalksOf(fbranch));
    case Read(p, idx) => AccessMatches(h, i, P, idx, Reading(p));
    case Write(p, idx, value) =>
      ThenExact(h, i, P, value);
      AccessMatches(After(h, value), i, Joined(P, WalksOf(value)), idx, Writing(p));
      JoinedAssoc(P, WalksOf(value), {[(idx, Writing(p))]});
    case Unop(_, arg) => AfterExact(h, i, P, arg);
    case Binop(_, arg1, arg2) =>
      ThenExact(h, i, P, arg1);
      AfterExact(After(h, arg1), i, Joined(P, WalksOf(arg1)), arg2);
      JoinedAssoc(P, WalksOf(arg1), WalksOf(arg2));
    case ExternalCall(_, arg) => AfterExact(h, i, P, arg);
    case InternalCall(_, args, body) =>
      ArgsExact(h, i, P, args);
      ArgWalksSome(args);
      JoinedSome(P, ArgWalks(args));
      AfterExact(AfterArgs(h, args), i, Joined(P, ArgWalks(args)), body);
      JoinedAssoc(P, ArgWalks(args), WalksOf(body));
    case APos(a) => AfterExact(h, i, P, a);
  }

  lemma {:induction false} ThenExact(h: HistoryMap, i: nat, P: set<Walk>, a: Action)
    requires i < |h| && Matches(h[i], i, P) && P != {}
    ensures Matches(After(h, a)[i], i, Joined(P, WalksOf(a))) && Joined(P, WalksOf(a)) != {}
    decreases a, 1
  {
    AfterExact(h, i, P, a);
    WalksSome(a);
    JoinedSome(P, WalksOf(a));
  }

  lemma {:induction false} ArgsExact(h: HistoryMap, i: nat, P: set<Walk>, args: Args)
    requires i < |h| && Matches(h[i], i, P) && P != {}
    ensures Matches(AfterArgs(h, args)[i], i, Joined(P, ArgWalks(args)))
    decreases args, 0
  {
    hide Matches, Joined;
    match args
    case NoArgs => JoinedUnit(P);
    case MoreArgs(_, _, arg, rest) =>
      ThenExact(h, i, P, arg);
      ArgsExact(After(h, arg), i, Joined(P, WalksOf(arg)), rest);
      JoinedAssoc(P, WalksOf(arg), ArgWalks(rest));
  }

  lemma {:induction false} RuleExact(n: nat, rule: Action, i: nat)
    requires i < n
    ensures Matches(RuleHistories(n, rule)[i], i, WalksOf(rule)) && WalksOf(rule) != {}
  {
    hide Matches;
    EmptyMatches(i);
    AfterExact(EmptyMap(n), i, {[]}, rule);
    WalksSome(rule);
    UnitJoined(WalksOf(rule));
  }

  // ----- schedulers -----

  /** The walks of the rules that a scheduler commits, the oldest first. */
  type Day = seq<Walk>

  const NoRule: Day := []

  /** The rule is tried after each of `P`, and may fail. */
  function Tried(P: set<Day>, W: set<Walk>): set<Day> { P + set p, w | p in P && w in W :: p + [w] }

  /** All ways through a scheduler.  As in the analysis, the accesses of a rule may precede
      the scheduler that runs when it fails. */
  function Days(rules: Rules, P: set<Day>, s: Scheduler): set<Day>
    decreases s
  {
    match s
    case Done => P
    case Cons(rl, s) => Days(rules, Tried(P, WalksOf(rules(rl))), s)
    case Try(rl, s1, s2) =>
      var P := Tried(P, WalksOf(rules(rl)));
      Days(rules, P, s1) + Days(rules, P, s2)
    case SPos(s) => Days(rules, P, s)
  }

  predicate Has(p: Day, e: Event) { exists w :: w in p && e in w }

  /** Nothing in `w` is refused because of `p`. */
  ghost predicate Apart(p: Day, w: Walk, i: nat) { forall x, y :: Has(p, (i, x)) && (i, y) in w ==> !Refused(x, y) }

  /** No rule is refused an access to register `i`, by its own accesses or by those of
      earlier rules. */
  ghost predicate Peaceful(p: Day, i: nat) {
    forall k :: 0 <= k < |p| ==> Clean(p[k], i) && Apart(p[..k], p[k], i)
  }

  ghost predicate DaysExactly(t: Tribool, e: Event, P: set<Day>) {
    && (t == TFalse <==> forall p :: p in P ==> !Has(p, e))
    && (t == TTrue <==> forall p :: p in P ==> Has(p, e))
  }

  ghost predicate DaysMatch(h: History, i: nat, P: set<Day>) {
    && (forall e: Access :: DaysExactly(Flag(h, e), (i, e), P))
    && (h.cf == TTrue <==> forall p :: p in P ==> Peaceful(p, i))
  }

  lemma HasLonger(p: Day, w: Walk, e: Event)
    ensures Has(p + [w], e) <==> Has(p, e) || e in w
  {
    if Has(p, e) {
      var v :| v in p && e in v;
      assert v in p + [w];
    }
    if e in w { assert w in p + [w]; }
  }

  lemma {:induction false} PeacefulLonger(p: Day, w: Walk, i: nat)
    ensures Peaceful(p + [w], i) <==> Peaceful(p, i) && Clean(w, i) && Apart(p, w, i)
  {
    hide Clean, Apart;
    var q := p + [w];
    assert q[|p|] == w && q[..|p|] == p;
    forall k | 0 <= k < |p| ensures q[k] == p[k] && q[..k] == p[..k] {}
  }

  lemma {:induction false} LiftDays(P: set<Day>, W: set<Walk>, phi: Day -> bool, psi: (Day, Walk) -> bool)
    requires W != {}
    requires forall p, w :: psi(p, w) == phi(p + [w])
    ensures (forall q :: q in Tried(P, W) ==> phi(q)) <==>
            (forall p :: p in P ==> phi(p)) && (forall p, w :: p in P && w in W ==> psi(p, w))
  {
    if forall q :: q in Tried(P, W) ==> phi(q) {
      forall p, w | p in P && w in W ensures psi(p, w) { assert p + [w] in Tried(P, W); }
    } else {
      var q :| q in Tried(P, W) && !phi(q);
      if q !in P {
        var p, w :| p in P && w in W && q == p + [w];
        assert !psi(p, w);
      }
    }
  }

  lemma {:induction false} AppendFlag(t: Tribool, u: Tribool, e: Event, P: set<Day>, W: set<Walk>)
    requires DaysExactly(t, e, P) && Exactly(u, e, W) && P != {} && W != {}
    ensures DaysExactly(AppendT(t, u), e, Tried(P, W))
  {
    hide Tried, Has;
    forall p, w ensures Has(p + [w], e) <==> Has(p, e) || e in w { HasLonger(p, w, e); }
    LiftDays(P, W, p => !Has(p, e), (p, w) => !Has(p, e) && e !in w);
    LiftDays(P, W, p => Has(p, e), (p, w) => Has(p, e) || e in w);
    var p0 :| p0 in P;
    var w0 :| w0 in W;
  }

  /** The conflict test is exact: it is passed when no access of the rule is refused
      because of any walk before it. */
  lemma {:induction false} AppendCfWalks(L: History, l: History, i: nat, P: set<Day>, W: set<Walk>)
    requires DaysMatch(L, i, P) && Matches(l, i, W)
    ensures AppendCf(L, l) == TTrue <==> forall p, w :: p in P && w in W ==> Apart(p, w, i)
  {
    hide Has, Refused, AppendCf;
    AppendCfTable(L, l);
    forall x: Access ensures DaysExactly(Flag(L, x), (i, x), P) && Exactly(Flag(l, x), (i, x), W) {}
    if AppendCf(L, l) == TTrue {
      forall p, w | p in P && w in W ensures Apart(p, w, i) {
        forall x, y | Has(p, (i, x)) && (i, y) in w ensures !Refused(x, y) {
          assert Flag(L, x) != TFalse && Flag(l, y) != TFalse;
        }
      }
    } else {
      var x, y :| Flag(L, x) != TFalse && Flag(l, y) != TFalse && Refused(x, y);
      var p :| p in P && Has(p, (i, x));
      var w :| w in W && (i, y) in w;
      assert !Apart(p, w, i);
    }
  }

  lemma {:induction false} AppendCfTable(L: History, l: History)
    ensures AppendCf(L, l) == TTrue <==>
            forall x: Access, y: Access :: Flag(L, x) != TFalse && Flag(l, y) != TFalse ==> !Refused(x, y)
  {
    hide Refused;
    forall x: Access, y: Access ensures Refused(x, y) <==>
            match y
            case Reading(P0) => x.Writing?
            case Reading(P1) => x == Writing(P1)
            case Writing(P0) => x != Reading(P0)
            case Writing(P1) => x == Writing(P1)
    { RefusedTable(x, y); }
    var (r0, r1, w0, w1) := (Reading(P0), Reading(P1), Writing(P0), Writing(P1));
    assert Flag(L, r1) == L.r1 && Flag(L, w0) == L.w0 && Flag(L, w1) == L.w1;
    assert Flag(l, r0) == l.r0 && Flag(l, r1) == l.r1 && Flag(l, w0) == l.w0 && Flag(l, w1) == l.w1;
    assert Refused(w0, r0) && Refused(w1, r0) && Refused(w1, r1) && Refused(r1, w0) && Refused(w0, w0) && Refused(w1, w0) && Refused(w1, w1);
  }

  lemma {:induction false} AppendMatches(L: History, l: History, i: nat, P: set<Day>, W: set<Walk>)
    requires DaysMatch(L, i, P) && Matches(l, i, W) && P != {} && W != {}
    ensures DaysMatch(AppendHistory(L, l), i, Tried(P, W)) && Tried(P, W) != {}
  {
    hide Tried, Exactly, DaysExactly, Clean, Apart, Peaceful, AppendCf;
    var h := AppendHistory(L, l);
    forall e: Access ensures DaysExactly(Flag(h, e), (i, e), Tried(P, W)) {
      AppendFlag(Flag(L, e), Flag(l, e), (i, e), P, W);
      assert Flag(h, e) == AppendT(Flag(L, e), Flag(l, e));
    }
    AppendCfWalks(L, l, i, P, W);
    forall p, w ensures Peaceful(p + [w], i) <==> Peaceful(p, i) && Clean(w, i) && Apart(p, w, i) { PeacefulLonger(p, w, i); }
    LiftDays(P, W, p => Peaceful(p, i), (p, w) => Peaceful(p, i) && Clean(w, i) && Apart(p, w, i));
    var p0 :| p0 in P;
    var w0 :| w0 in W;
    assert p0 in Tried(P, W) by { TriedKeeps(P, W); }
  }

  lemma TriedKeeps(P: set<Day>, W: set<Walk>)
    ensures P <= Tried(P, W)
  {
  }

  lemma {:induction false} DaysJoin(x: History, y: History, i: nat, P: set<Day>, Q: set<Day>)
    requires DaysMatch(x, i, P) && DaysMatch(y, i, Q) && P != {} && Q != {}
    ensures DaysMatch(JoinHistory(x, y), i, P + Q)
  {
    hide Has, Peaceful, DaysExactly;
    var h := JoinHistory(x, y);
    forall e: Access ensures DaysExactly(Flag(h, e), (i, e), P + Q) {
      DaysJoinFlag(Flag(x, e), Flag(y, e), (i, e), P, Q);
      assert Flag(h, e) == JoinT(Flag(x, e), Flag(y, e));
    }
  }

  lemma DaysJoinFlag(t: Tribool, u: Tribool, e: Event, P: set<Day>, Q: set<Day>)
    requires DaysExactly(t, e, P) && DaysExactly(u, e, Q) && P != {} && Q != {}
    ensures DaysExactly(JoinT(t, u), e, P + Q)
  {
    hide Has;
    var p :| p in P;
    var q :| q in Q;
  }

  /** The history of a scheduler says exactly what all ways through it have in common. */
  lemma {:induction false} SchedulerExact(rules: Rules, L: HistoryMap, i: nat, P: set<Day>, s: Scheduler)
    requires i < |L| && DaysMatch(L[i], i, P) && P != {}
    ensures DaysMatch(SchedulerHistories(rules, L, s)[i], i, Days(rules, P, s)) && Days(rules, P, s) != {}
    decreases s
  {
    hide DaysMatch, Matches, Tried, AppendHistory, JoinHistory;
    match s
    case Done =>
    case Cons(rl, s) =>
      RuleExact(|L|, rules(rl), i);
      AppendMatches(L[i], RuleHistories(|L|, rules(rl))[i], i, P, WalksOf(rules(rl)));
      SchedulerExact(rules, AppendMaps(L, RuleHistories(|L|, rules(rl))), i, Tried(P, WalksOf(rules(rl))), s);
    case Try(rl, s1, s2) =>
      RuleExact(|L|, rules(rl), i);
      AppendMatches(L[i], RuleHistories(|L|, rules(rl))[i], i, P, WalksOf(rules(rl)));
      var (L', P') := (AppendMaps(L, RuleHistories(|L|, rules(rl))), Tried(P, WalksOf(rules(rl))));
      SchedulerExact(rules, L', i, P', s1);
      SchedulerExact(rules, L', i, P', s2);
      DaysJoin(SchedulerHistories(rules, L', s1)[i], SchedulerHistories(rules, L', s2)[i], i, Days(rules, P', s1), Days(rules, P', s2));
    case SPos(s) => SchedulerExact(rules, L, i, P, s);
  }

  /** No way through the scheduler makes access `e` to register `i`. */
  ghost predicate Never(P: set<Day>, i: nat, e: Access) { forall p :: p in P ==> !Has(p, (i, e)) }

  /** A register's kind is the cheapest that the ways through the scheduler allow: a value
      if no access to it is ever refused, else a register if port 1 is never used, else a
      wire if nothing reads it at port 0 or writes it at port 1. */
  lemma {:induction false} ClassifyExact(n: nat, rules: Rules, s: Scheduler, i: nat)
    requires i < n
    ensures var (kind, P) := (Classify(n, rules, s)[i], Days(rules, {NoRule}, s));
            && (kind == Value <==> forall p :: p in P ==> Peaceful(p, i))
            && (kind == Register <==> kind != Value && Never(P, i, Reading(P1)) && Never(P, i, Writing(P1)))
            && (kind == Wire <==> kind != Value && kind != Register && Never(P, i, Reading(P0)) && Never(P, i, Writing(P1)))
  {
    hide Has, Peaceful;
    assert DaysMatch(EmptyHistory, i, {NoRule}) by { EmptyDay(i); }
    SchedulerExact(rules, EmptyMap(n), i, {NoRule}, s);
    var (h, P) := (SchedulerHistories(rules, EmptyMap(n), s)[i], Days(rules, {NoRule}, s));
    assert DaysMatch(h, i, P);
    forall e: Access ensures Flag(h, e) == TFalse <==> Never(P, i, e) { assert DaysExactly(Flag(h, e), (i, e), P); }
    assert Flag(h, Reading(P0)) == h.r0 && Flag(h, Reading(P1)) == h.r1 && Flag(h, Writing(P1)) == h.w1;
  }

  lemma EmptyDay(i: nat)
    ensures DaysMatch(EmptyHistory, i, {NoRule})
  {
    forall e: Access ensures DaysExactly(Flag(EmptyHistory, e), (i, e), {NoRule}) { assert NoRule in {NoRule} && !Has(NoRule, (i, e)); }
  }

  /** A rule may leave without undoing its effects exactly when no walk to that point
      writes anything: the flags for reads at port 1 do not matter. */
  lemma {:induction false} FailFastExact(h: HistoryMap, P: set<Walk>)
    requires (forall i: nat :: i < |h| ==> Matches(h[i], i, P)) && P != {}
    ensures MayFailFast(h) <==> forall p, i: nat, port :: p in P && i < |h| ==> (i, Writing(port)) !in p
  {
    forall i: nat, port | i < |h| ensures Flag(h[i], Writing(port)) == TFalse <==> forall p :: p in P ==> (i, Writing(port)) !in p {
      assert Matches(h[i], i, P);
      assert Exactly(Flag(h[i], Writing(port)), (i, Writing(port)), P);
    }
    forall i: nat | i < |h| ensures Flag(h[i], Writing(P0)) == h[i].w0 && Flag(h[i], Writing(P1)) == h[i].w1 {}
    if forall p, i: nat, port :: p in P && i < |h| ==> (i, Writing(port)) !in p {
      forall i: nat | i < |h| ensures h[i].w0 == TFalse && h[i].w1 == TFalse && h[i].cf == TTrue {
        forall p | p in P ensures Clean(p, i) { ReadsAreClean(p, i); }
        assert Matches(h[i], i, P);
      }
    } else {
      var p, i: nat, port :| p in P && i < |h| && (i, Writing(port)) in p;
      assert Flag(h[i], Writing(port)) != TFalse;
    }
  }

  lemma EventParts(p: Walk, k: nat)
    requires k < |p|
    ensures p[k] in p && (p[k].1.Writing? ==> p[k] == (p[k].0, Writing(p[k].1.port)))
  {
  }

  lemma ReadsAreClean(p: Walk, i: nat)
    requires forall port :: (i, Writing(port)) !in p
    ensures Clean(p, i)
  {
    forall k | 0 <= k < |p| && p[k].0 == i ensures p[k].1.Reading? {
      EventParts(p, k);
    }
  }

  // ----- the conflict flags against logs -----

  /** A log with every access that the history admits. */
  function MostOf(h: History): RLog {
    Admit(h.r0, Reading(P0), Admit(h.r1, Reading(P1), Admit(h.w0, Writing(P0), Admit(h.w1, Writing(P1), []))))
  }

  function Admit(t: Tribool, e: Access, es: RLog): RLog { if t != TFalse then [EntryFor(e)] + es else es }

  predicate AccessRefused(es: RLog, e: Access) {
    match e
    case Reading(p) => !MayReadEntry(es, p)
    case Writing(p) => !MayWriteEntry(es, p)
  }

  predicate Made(es: RLog, e: Access) {
    match e
    case Reading(p) => HasRead(es, p)
    case Writing(p) => HasWrite(es, p)
  }

  /** Some access of the rule's log is refused because of the older log. */
  ghost predicate Conflict(rule: RLog, older: RLog) { exists e: Access :: Made(rule, e) && AccessRefused(older, e) }

  lemma AdmitMakes(t: Tribool, e: Access, es: RLog)
    ensures forall x: Access :: Made(Admit(t, e, es), x) <==> (t != TFalse && x == e) || Made(es, x)
  {
    PushLaws(EntryFor(e), es);
  }

  lemma {:induction false} MostMade(h: History)
    ensures forall e: Access :: Made(MostOf(h), e) <==> Flag(h, e) != TFalse
  {
    hide Made, Admit;
    var d := Admit(h.w1, Writing(P1), []);
    var c := Admit(h.w0, Writing(P0), d);
    var b := Admit(h.r1, Reading(P1), c);
    AdmitMakes(h.w1, Writing(P1), []);
    AdmitMakes(h.w0, Writing(P0), d);
    AdmitMakes(h.r1, Reading(P1), c);
    AdmitMakes(h.r0, Reading(P0), b);
    NothingMade();
  }

  lemma NothingMade()
    ensures forall e: Access :: !Made([], e)
  {
  }

  lemma {:induction false} MostDescribes(h: History)
    ensures Describes(h, MostOf(h)) && forall e: Access :: Made(MostOf(h), e) <==> Flag(h, e) != TFalse
  {
    hide Made, MostOf;
    MostMade(h);
    MadeMeans(MostOf(h));
    assert Made(MostOf(h), Reading(P0)) == (h.r0 != TFalse) && Made(MostOf(h), Reading(P1)) == (h.r1 != TFalse);
    assert Made(MostOf(h), Writing(P0)) == (h.w0 != TFalse) && Made(MostOf(h), Writing(P1)) == (h.w1 != TFalse);
  }

  lemma RefusedByMade(es: RLog, e: Access)
    ensures AccessRefused(es, e) <==> exists x: Access :: Made(es, x) && Refused(x, e)
  {
    RefusedTable(Reading(P0), e);
    RefusedTable(Reading(P1), e);
    RefusedTable(Writing(P0), e);
    RefusedTable(Writing(P1), e);
    assert Made(es, Reading(P1)) == HasRead(es, P1);
    assert Made(es, Writing(P0)) == HasWrite(es, P0) && Made(es, Writing(P1)) == HasWrite(es, P1);
  }

  lemma MadeIsAdmitted(h: History, es: RLog, e: Access)
    requires Describes(h, es) && Made(es, e)
    ensures Flag(h, e) != TFalse
  {
  }

  /** The conflict test between rules is passed exactly when no logs of these histories
      conflict; when it is not, the fullest logs do. */
  lemma {:induction false} AppendCfExact(L: History, l: History)
    ensures AppendCf(L, l) == TTrue <==>
            forall es, rule :: Describes(L, es) && Describes(l, rule) ==> !Conflict(rule, es)
    ensures AppendCf(L, l) != TTrue ==>
              Describes(L, MostOf(L)) && Describes(l, MostOf(l)) && Conflict(MostOf(l), MostOf(L))
  {
    hide Made, AccessRefused, Refused, Describes, MostOf, AppendCf;
    AppendCfTable(L, l);
    MostDescribes(L);
    MostDescribes(l);
    if AppendCf(L, l) == TTrue {
      forall es, rule | Describes(L, es) && Describes(l, rule) ensures !Conflict(rule, es) {
        forall e: Access | Made(rule, e) ensures !AccessRefused(es, e) {
          RefusedByMade(es, e);
          MadeIsAdmitted(l, rule, e);
          forall x: Access | Made(es, x) ensures !Refused(x, e) { MadeIsAdmitted(L, es, x); }
        }
      }
    } else {
      var x: Access, y: Access :| Flag(L, x) != TFalse && Flag(l, y) != TFalse && Refused(x, y);
      assert Made(MostOf(L), x) && Made(MostOf(l), y);
      RefusedByMade(MostOf(L), y);
    }
  }

  /** The conflict test inside a rule is passed exactly when no log of the history
      refuses the access; when it is not, the fullest log does. */
  lemma {:induction false} UpdateCfExact(h: History, e: Access)
    ensures UpdateCf(h, e) == TTrue <==> forall es :: Describes(h, es) ==> !(e.Writing? && AccessRefused(es, e))
    ensures UpdateCf(h, e) != TTrue ==> Describes(h, MostOf(h)) && e.Writing? && AccessRefused(MostOf(h), e)
  {
    hide Made, MostOf;
    MostDescribes(h);
    MadeMeans(MostOf(h));
    assert Flag(h, Reading(P1)) == h.r1 && Flag(h, Writing(P0)) == h.w0 && Flag(h, Writing(P1)) == h.w1;
  }

  lemma MadeMeans(es: RLog)
    ensures forall p :: Made(es, Reading(p)) == HasRead(es, p) && Made(es, Writing(p)) == HasWrite(es, p)
  {
  }

  // ----- footprints -----

  predicate OnAWalk(e: Event, W: set<Walk>) { exists w :: w in W && e in w }

  lemma JoinedWalked(X: set<Walk>, Y: set<Walk>, e: Event)
    requires X != {} && Y != {}
    ensures OnAWalk(e, Joined(X, Y)) <==> OnAWalk(e, X) || OnAWalk(e, Y)
  {
    var x0 :| x0 in X;
    var y0 :| y0 in Y;
    if OnAWalk(e, Joined(X, Y)) {
      var w :| w in Joined(X, Y) && e in w;
      var x, y :| x in X && y in Y && w == x + y;
      assert e in x || e in y;
    }
    if x :| x in X && e in x { assert x + y0 in Joined(X, Y) && e in x + y0; }
    if y :| y in Y && e in y { assert x0 + y in Joined(X, Y) && e in x0 + y; }
  }

  /** The footprint of a lowered action is what its walks access. */
  lemma {:induction false} FootprintIsWalked(acc: seq<Event>, a: Action, e: Event)
    requires Lowered(a)
    ensures e in EventFootprint(acc, a) <==> e in acc || OnAWalk(e, WalksOf(a))
    decreases a
  {
    hide Joined, OnAWalk;
    match a
    case Fail(_) => NowhereOnNoAccess(e);
    case Var(_, _) => NowhereOnNoAccess(e);
    case Cst(_) => NowhereOnNoAccess(e);
    case Assign(_, _, ex) => FootprintIsWalked(acc, ex, e);
    case Seq(r1, r2) => FootprintIsWalked(acc, r1, e); FootprintIsWalked(EventFootprint(acc, r1), r2, e); ThenWalked(r1, WalksOf(r2), e, r2);
    case Bind(_, _, ex, body) =>
      FootprintIsWalked(acc, ex, e);
      FootprintIsWalked(EventFootprint(acc, ex), body, e);
      ThenWalked(ex, WalksOf(body), e, body);
    case If(cond, tbranch, fbranch) =>
      var acc1 := EventFootprint(acc, cond);
      FootprintIsWalked(acc, cond, e);
      FootprintIsWalked(acc1, tbranch, e);
      FootprintIsWalked(EventFootprint(acc1, tbranch), fbranch, e);
      EitherWalked(WalksOf(tbranch), WalksOf(fbranch), e);
      ThenWalked(cond, WalksOf(tbranch) + WalksOf(fbranch), e, tbranch);
    case Read(p, idx) => OneWalked((idx, Reading(p)), e);
    case Write(p, idx, value) =>
      FootprintIsWalked([(idx, Writing(p))] + acc, value, e);
      OneWalked((idx, Writing(p)), e);
      WalksSome(value);
      JoinedWalked(WalksOf(value), {[(idx, Writing(p))]}, e);
    case Unop(_, arg) => FootprintIsWalked(acc, arg, e);
    case Binop(_, arg1, arg2) =>
      FootprintIsWalked(acc, arg1, e);
      FootprintIsWalked(EventFootprint(acc, arg1), arg2, e);
      ThenWalked(arg1, WalksOf(arg2), e, arg2);
    case ExternalCall(_, arg) => FootprintIsWalked(acc, arg, e);
    case APos(a) => FootprintIsWalked(acc, a, e);
  }

  lemma {:induction false} ThenWalked(a: Action, Y: set<Walk>, e: Event, b: Action)
    requires WalksOf(b) <= Y
    ensures OnAWalk(e, Joined(WalksOf(a), Y)) <==> OnAWalk(e, WalksOf(a)) || OnAWalk(e, Y)
  {
    WalksSome(a);
    WalksSome(b);
    JoinedWalked(WalksOf(a), Y, e);
  }

  lemma EitherWalked(X: set<Walk>, Y: set<Walk>, e: Event)
    ensures OnAWalk(e, X + Y) <==> OnAWalk(e, X) || OnAWalk(e, Y)
  {
    if w :| w in X && e in w { assert w in X + Y; }
    if w :| w in Y && e in w { assert w in X + Y; }
  }

  lemma OneWalked(x: Event, e: Event)
    ensures OnAWalk(e, {[x]}) <==> e == x
  {
    assert [x] in {[x]};
  }

  lemma NowhereOnNoAccess(e: Event)
    ensures !OnAWalk(e, {[]})
  {
  }

  /** The bundle of an external rule has exactly the registers that some way through the
      rule accesses, each once. */
  lemma {:induction false} BundleRegistersExact(a: Action)
    requires Lowered(a)
    ensures CircuitGeneration.NoRepeats(CircuitGeneration.ActionRegisters(a))
    ensures forall reg :: reg in CircuitGeneration.ActionRegisters(a) <==> exists e: Access :: OnAWalk((reg, e), WalksOf(a))
  {
    hide OnAWalk;
    var es := EventFootprint([], a);
    FootprintRegisters([], a);
    assert Firsts([]) == [];
    CircuitGeneration.DedupOnce([], Firsts(es));
    CircuitGeneration.DedupKeeps([], Firsts(es));
    FirstsIn(es);
    forall reg ensures reg in Firsts(es) <==> exists e: Access :: OnAWalk((reg, e), WalksOf(a)) {
      forall e: Access ensures (reg, e) in es <==> OnAWalk((reg, e), WalksOf(a)) { FootprintIsWalked([], a, (reg, e)); }
      if reg in Firsts(es) {
        var k :| 0 <= k < |es| && Firsts(es)[k] == reg;
        assert es[k] == (reg, es[k].1) && es[k] in es;
      }
      if e :| OnAWalk((reg, e), WalksOf(a)) { assert (reg, e).0 in Firsts(es); }
    }
  }

  /** So are the accesses that decide whether arguments may change places. */
  lemma {:induction false} AccessSetIsWalked(a: Action, e: Event)
    ensures e in Effects.AccessSet(a) <==> OnAWalk(e, WalksOf(a))
    decreases a
  {
    hide Joined, OnAWalk;
    match a
    case Fail(_) => NowhereOnNoAccess(e);
    case Var(_, _) => NowhereOnNoAccess(e);
    case Cst(_) => NowhereOnNoAccess(e);
    case Assign(_, _, ex) => AccessSetIsWalked(ex, e);
    case Seq(r1, r2) => AccessSetIsWalked(r1, e); AccessSetIsWalked(r2, e); ThenWalked(r1, WalksOf(r2), e, r2);
    case Bind(_, _, ex, body) => AccessSetIsWalked(ex, e); AccessSetIsWalked(body, e); ThenWalked(ex, WalksOf(body), e, body);
    case If(cond, tbranch, fbranch) =>
      AccessSetIsWalked(cond, e);
      AccessSetIsWalked(tbranch, e);
      AccessSetIsWalked(fbranch, e);
      EitherWalked(WalksOf(tbranch), WalksOf(fbranch), e);
      ThenWalked(cond, WalksOf(tbranch) + WalksOf(fbranch), e, tbranch);
    case Read(p, idx) => OneWalked((idx, Reading(p)), e);
    case Write(p, idx, value) =>
      AccessSetIsWalked(value, e);
      OneWalked((idx, Writing(p)), e);
      WalksSome(value);
      JoinedWalked(WalksOf(value), {[(idx, Writing(p))]}, e);
    case Unop(_, arg) => AccessSetIsWalked(arg, e);
    case Binop(_, arg1, arg2) => AccessSetIsWalked(arg1, e); AccessSetIsWalked(arg2, e); ThenWalked(arg1, WalksOf(arg2), e, arg2);
    case ExternalCall(_, arg) => AccessSetIsWalked(arg, e);
    case InternalCall(_, args, body) =>
      ArgsAccessSetIsWalked(args, e);
      AccessSetIsWalked(body, e);
      ArgWalksSome(args);
      WalksSome(body);
      JoinedWalked(ArgWalks(args), WalksOf(body), e);
    case APos(a) => AccessSetIsWalked(a, e);
  }

  lemma {:induction false} ArgsAccessSetIsWalked(args: Args, e: Event)
    ensures e in Effects.ArgsAccessSet(args) <==> OnAWalk(e, ArgWalks(args))
    decreases args
  {
    hide Joined, OnAWalk;
    match args
    case NoArgs => NowhereOnNoAccess(e);
    case MoreArgs(_, _, arg, rest) =>
      AccessSetIsWalked(arg, e);
      ArgsAccessSetIsWalked(rest, e);
      WalksSome(arg);
      ArgWalksSome(rest);
      JoinedWalked(WalksOf(arg), ArgWalks(rest), e);
  }

  /** What a rule's commit and reset copy: the data of the registers that some walk
      writes, and the read-write sets in which some walk records anything. */
  lemma {:induction false} CopiedExact(kinds: seq<Kind>, rule: Action, i: nat)
    requires i < |kinds|
    ensures i in Cuttlesim.DataFootprint(RuleHistories(|kinds|, rule)) <==> exists p :: OnAWalk((i, Writing(p)), WalksOf(rule))
    ensures i in Cuttlesim.RwFootprint(kinds, RuleHistories(|kinds|, rule)) <==>
            kinds[i] != Value && exists e: Access :: e != Reading(P0) && OnAWalk((i, e), WalksOf(rule))
  {
    hide OnAWalk;
    var h := RuleHistories(|kinds|, rule)[i];
    RuleExact(|kinds|, rule, i);
    forall e: Access ensures Flag(h, e) != TFalse <==> OnAWalk((i, e), WalksOf(rule)) { SomeWalk(h, i, rule, e); }
    assert Flag(h, Reading(P1)) == h.r1 && Flag(h, Writing(P0)) == h.w0 && Flag(h, Writing(P1)) == h.w1;
    if e: Access :| e != Reading(P0) && OnAWalk((i, e), WalksOf(rule)) {
      assert e == Reading(P1) || e == Writing(P0) || e == Writing(P1);
    }
  }

  lemma {:induction false} SomeWalk(h: History, i: nat, rule: Action, e: Access)
    requires Matches(h, i, WalksOf(rule))
    ensures Flag(h, e) != TFalse <==> OnAWalk((i, e), WalksOf(rule))
  {
    assert Exactly(Flag(h, e), (i, e), WalksOf(rule));
  }

  // ----- port 1 -----

  lemma {:induction false} AvoidsPort1Exact(a: Action)
    ensures AvoidsPort1(a) <==> forall e :: e in Effects.AccessSet(a) ==> e.1.port == P0
    decreases a
  {
    match a
    case Assign(_, _, ex) => AvoidsPort1Exact(ex);
    case Seq(r1, r2) => AvoidsPort1Exact(r1); AvoidsPort1Exact(r2);
    case Bind(_, _, ex, body) => AvoidsPort1Exact(ex); AvoidsPort1Exact(body);
    case If(cond, tbranch, fbranch) => AvoidsPort1Exact(cond); AvoidsPort1Exact(tbranch); AvoidsPort1Exact(fbranch);
    case Read(p, idx) => assert (idx, Reading(p)) in Effects.AccessSet(a);
    case Write(p, idx, value) => AvoidsPort1Exact(value); assert (idx, Writing(p)) in Effects.AccessSet(a);
    case Unop(_, arg) => AvoidsPort1Exact(arg);
    case Binop(_, arg1, arg2) => AvoidsPort1Exact(arg1); AvoidsPort1Exact(arg2);
    case ExternalCall(_, arg) => AvoidsPort1Exact(arg);
    case InternalCall(_, args, body) => ArgsAvoidPort1Exact(args); AvoidsPort1Exact(body);
    case APos(a) => AvoidsPort1Exact(a);
    case _ =>
  }

  lemma {:induction false} ArgsAvoidPort1Exact(args: Args)
    ensures ArgsAvoidPort1(args) <==> forall e :: e in Effects.ArgsAccessSet(args) ==> e.1.port == P0
    decreases args
  {
    match args
    case NoArgs =>
    case MoreArgs(_, _, arg, rest) => AvoidsPort1Exact(arg); ArgsAvoidPort1Exact(rest);
  }
}

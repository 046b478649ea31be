/** States of the simulator that stand for logs.  A rule that leaves without a reset
    may leave a recorded port-1 read behind, so a state stands for a log up to such
    leftovers. */
module SimulatorSync {
  import opened BitVectors
  import opened Primitives
  import opened Syntax
  import opened Logs
  import opened Semantics
  import opened Histories
  import opened Cuttlesim
  import opened CallOrder
  import Oraat = OneRuleAtATime

  // ----- read-write sets and states that stand for logs -----

  /** The kinds that record reads at port 1. */
  predicate Records(k: Kind) { k == Wire || k == EHR }

  /** `left`: a read is recorded that the log does not have. */
  predicate Tracks(k: Kind, s: RwSet, es: RLog, left: bool) {
    match k
    case Value => s == NoSet
    case Register => s == RegSet(HasWrite(es, P0))
    case Wire => s == WireSet(HasRead(es, P1) || left, HasWrite(es, P0))
    case EHR => s == EhrSet(HasRead(es, P1) || left, HasWrite(es, P0), HasWrite(es, P1))
  }

  /** `Z` are the registers with a leftover read. */
  ghost predicate Mirrors(kinds: seq<Kind>, lg: LogT, r: RegFile, es: Log, Z: set<nat>) {
    && |lg.rwset| == |lg.state| == |kinds| == |r| == |es|
    && (forall i :: 0 <= i < |r| ==> Tracks(kinds[i], lg.rwset[i], es[i], i in Z))
    && (forall i :: 0 <= i < |r| ==> lg.state[i] == Default(Latest(es[i]), r[i]))
  }

  /** `L` is the cycle's log and `l` the rule's; `Y` and `Z` the leftovers in the two copies. */
  ghost predicate InSync(kinds: seq<Kind>, st: State, r: RegFile, L: Log, l: Log, Y: set<nat>, Z: set<nat>) {
    && |r| == |L| == |l| == |kinds|
    && Mirrors(kinds, st.total, r, L, Y) && Mirrors(kinds, st.log, r, App(l, L), Z)
  }

  /** The leftovers of a copy that stands for `es`. */
  function Leftover(kinds: seq<Kind>, lg: LogT, es: Log): set<nat>
    requires Shaped(kinds, lg) && |es| == |kinds|
  {
    set i: nat | i < |kinds| && IsLeft(kinds, lg, es, i)
  }

  predicate IsLeft(kinds: seq<Kind>, lg: LogT, es: Log, i: nat)
    requires Shaped(kinds, lg) && i < |es| == |kinds|
  {
    assert HasShape(kinds[i], lg.rwset[i]);
    Records(kinds[i]) && lg.rwset[i].r1 && !HasRead(es[i], P1)
  }

  /** Between rules: both copies stand for `L`, up to leftovers, of which the rule's
      copy has at least those of the cycle's. */
  ghost predicate Settled(kinds: seq<Kind>, st: State, r: RegFile, L: Log) {
    && WellShaped(kinds, st) && |L| == |r| == |kinds|
    && Mirrors(kinds, st.total, r, L, Leftover(kinds, st.total, L))
    && Mirrors(kinds, st.log, r, L, Leftover(kinds, st.log, L))
    && Leftover(kinds, st.total, L) <= Leftover(kinds, st.log, L)
  }

  /** Those of `Z` that are no read of `L`. */
  function Unread(L: Log, Z: set<nat>): set<nat> { set i | i in Z && i < |L| && !HasRead(L[i], P1) }

  predicate AllRecord(kinds: seq<Kind>, Z: set<nat>) { forall i :: i in Z ==> i < |kinds| && Records(kinds[i]) }

  /** Any description of the leftovers will do. */
  lemma MirrorsLeftover(kinds: seq<Kind>, lg: LogT, r: RegFile, es: Log, Z: set<nat>)
    requires Mirrors(kinds, lg, r, es, Z) && AllRecord(kinds, Z)
    ensures Shaped(kinds, lg) && |es| == |kinds|
    ensures Mirrors(kinds, lg, r, es, Leftover(kinds, lg, es)) && Leftover(kinds, lg, es) <= Z
    ensures Leftover(kinds, lg, es) == Unread(es, Z)
  {
    forall i: nat | i < |r|
      ensures HasShape(kinds[i], lg.rwset[i])
      ensures Records(kinds[i]) ==> lg.rwset[i].r1 == (HasRead(es[i], P1) || i in Z)
    {
      assert Tracks(kinds[i], lg.rwset[i], es[i], i in Z);
    }
  }

  // ----- what becomes of leftovers -----

  /** `Y` and `Z` are the leftovers in the cycle's copy and the rule's before the rule.
      A reset takes the registers of the footprint from the cycle's copy. */
  function AfterReset(kinds: seq<Kind>, hf: HistoryMap, L: Log, Y: set<nat>, Z: set<nat>): set<nat>
    requires |kinds| == |hf|
  {
    var rf := RwFootprint(kinds, hf);
    Unread(L, if Large(rf, |kinds|) then Y else set i | i in Z && (i in rf ==> i in Y))
  }

  /** A failure without a reset, where the rule's log is `l`, adds its port-1 reads. */
  function AfterFastFail(kinds: seq<Kind>, L: Log, Z: set<nat>, l: Log): set<nat> {
    Unread(L, Z + set i: nat | i < |kinds| && i < |l| && Records(kinds[i]) && HasRead(l[i], P1))
  }

  /** In the cycle's copy, after a commit that leaves the log `L`. */
  function AfterCommit(kinds: seq<Kind>, hf: HistoryMap, L: Log, Y: set<nat>, Z: set<nat>): set<nat>
    requires |kinds| == |hf|
  {
    var rf := RwFootprint(kinds, hf);
    Unread(L, if Large(rf, |kinds|) then Z else set i | i in Z && (i in rf || i in Y))
  }

  // ----- the fixed surroundings of a running rule -----

  /** `H` describes the cycle so far, `ru.hf` the whole rule. */
  datatype Point = Point(ru: Rule, r: RegFile, L: Log, H: HistoryMap, Y: set<nat>, Z: set<nat>) {
    ghost predicate Valid() {
      && |r| == |L| == |H| == |ru.kinds| == |ru.hf|
      && DescribesAll(H, L) && KindsFit(ru.kinds, AppendMaps(H, ru.hf))
      && Y <= Z && AllRecord(ru.kinds, Z)
    }
    /** At a program point annotated `h`, where the rule's log is `l`, with no port-0
        write to a leftover register yet. */
    ghost predicate At(h: HistoryMap, l: Log, st: State) {
      && |h| == |l| == |r|
      && DescribesAll(h, l) && BelowAll(h, ru.hf) && InSync(ru.kinds, st, r, L, l, Y, Z) && !Blocked(Z, l)
    }
    /** The rule has stopped, and `X` are exactly the leftovers in its copy. */
    ghost predicate StopOk(X: set<nat>, st: State) {
      && |r| == |L| == |ru.kinds|
      && Settled(ru.kinds, st, r, L)
      && Leftover(ru.kinds, st.log, L) == X && Leftover(ru.kinds, st.total, L) == Unread(L, Y)
    }
    /** The leftovers once the rule has been undone. */
    function Undone(): set<nat>
      requires |ru.kinds| == |ru.hf|
    {
      AfterReset(ru.kinds, ru.hf, L, Y, Z)
    }
  }

  /** The rule writes a register at port 0 that still has an old read recorded. */
  ghost predicate Blocked(Z: set<nat>, l: Log) { exists i :: i in Z && i < |l| && HasWrite(l[i], P0) }

  lemma BlockedGrows(Z: set<nat>, l: Log, N: Log)
    requires Blocked(Z, l) && |N| == |l|
    ensures Blocked(Z, App(N, l))
  {
    var i :| i in Z && i < |l| && HasWrite(l[i], P0);
    AppLaws(N[i], l[i]);
    assert HasWrite(App(N, l)[i], P0);
  }

  lemma AlikeBlocked(Z: set<nat>, l: Log, l': Log)
    requires AlikeLogs(l, l')
    ensures Blocked(Z, l) <==> Blocked(Z, l')
  {
    forall i | i in Z && i < |l| ensures HasWrite(l[i], P0) == HasWrite(l'[i], P0) { assert Alike(l[i], l'[i]); }
  }

  /** Logs that answer alike are in the same place. */
  lemma AtAlike(pt: Point, h: HistoryMap, l: Log, l': Log, st: State)
    requires pt.At(h, l, st) && AlikeLogs(l, l')
    ensures pt.At(h, l', st)
  {
    AlikeBlocked(pt.Z, l, l');
    forall i | 0 <= i < |l|
      ensures Describes(h[i], l'[i]) && Alike(App(l, pt.L)[i], App(l', pt.L)[i])
    {
      assert Alike(l[i], l'[i]) && Describes(h[i], l[i]);
      AlikeApp(l[i], l'[i], pt.L[i]);
    }
    AlikeMirrors(pt.ru.kinds, st.log, pt.r, App(l, pt.L), App(l', pt.L), pt.Z);
  }

  lemma AlikeMirrors(kinds: seq<Kind>, lg: LogT, r: RegFile, es: Log, es': Log, Z: set<nat>)
    requires Mirrors(kinds, lg, r, es, Z) && AlikeLogs(es, es')
    ensures Mirrors(kinds, lg, r, es', Z)
  {
    forall i | 0 <= i < |r|
      ensures Tracks(kinds[i], lg.rwset[i], es'[i], i in Z) && lg.state[i] == Default(Latest(es'[i]), r[i])
    {
      assert Alike(es[i], es'[i]) && Tracks(kinds[i], lg.rwset[i], es[i], i in Z);
    }
  }

  // ----- undoing a rule -----

  lemma NotDescribed(h: HistoryMap, l: Log, L: Log, i: nat)
    requires DescribesAll(h, l) && |L| == |l| && i < |l|
    ensures h[i].r1 == TFalse ==> HasRead(l[i] + L[i], P1) == HasRead(L[i], P1)
    ensures h[i].w0 == TFalse ==> HasWrite(l[i] + L[i], P0) == HasWrite(L[i], P0)
    ensures h[i].w1 == TFalse ==> HasWrite(l[i] + L[i], P1) == HasWrite(L[i], P1)
    ensures h[i].w0 == TFalse && h[i].w1 == TFalse ==> Latest(l[i] + L[i]) == Latest(L[i])
  {
    assert Describes(h[i], l[i]);
    AppLaws(l[i], L[i]);
    LatestIffHasWrite(l[i]);
  }

  /** Outside the rule's footprints nothing needs to be restored. */
  lemma OutsideFootprint(pt: Point, h: HistoryMap, l: Log, st: State, i: nat)
    requires pt.Valid() && pt.At(h, l, st) && i < |pt.r|
    ensures !InRwFootprint(pt.ru.kinds, pt.ru.hf, i) ==> Tracks(pt.ru.kinds[i], st.log.rwset[i], pt.L[i], i in pt.Z)
    ensures !InDataFootprint(pt.ru.hf, i) ==> st.log.state[i] == st.total.state[i]
    ensures Tracks(pt.ru.kinds[i], st.total.rwset[i], pt.L[i], i in pt.Y)
  {
    NotDescribed(h, l, pt.L, i);
    assert App(l, pt.L)[i] == l[i] + pt.L[i];
    assert Below(h[i], pt.ru.hf[i]);
    assert Tracks(pt.ru.kinds[i], st.log.rwset[i], App(l, pt.L)[i], i in pt.Z);
    assert Tracks(pt.ru.kinds[i], st.total.rwset[i], pt.L[i], i in pt.Y);
  }

  /** A copy by footprint is a full copy exactly when nothing else differs. */
  lemma {:induction false} CopyIsFull<T>(dst: seq<T>, src: seq<T>, footprint: set<nat>)
    requires |dst| == |src|
    ensures Copy(dst, src, footprint) == src <==>
            Large(footprint, |dst|) || forall i: nat | i < |dst| && i !in footprint :: dst[i] == src[i]
  {
    if !Large(footprint, |dst|) {
      var c := Copy(dst, src, footprint);
      if c == src {
        forall i: nat | i < |dst| && i !in footprint ensures dst[i] == src[i] { assert c[i] == dst[i]; }
      }
    }
  }

  /** What is left of a state whose copy differs from a state in place at footprint
      registers only, after a reset. */
  lemma {:induction false} ResetStops(pt: Point, h: HistoryMap, l: Log, st0: State, st: State)
    requires pt.Valid() && pt.At(h, l, st0) && WellShaped(pt.ru.kinds, st) && st.total == st0.total
    requires forall i: nat | i < |pt.r| && !InRwFootprint(pt.ru.kinds, pt.ru.hf, i) :: st.log.rwset[i] == st0.log.rwset[i]
    requires forall i: nat | i < |pt.r| && !InDataFootprint(pt.ru.hf, i) :: st.log.state[i] == st0.log.state[i]
    ensures pt.StopOk(pt.Undone(), Reset(pt.ru.kinds, pt.ru.hf, st))
  {
    var kinds, hf := pt.ru.kinds, pt.ru.hf;
    var (rf, df) := (RwFootprint(kinds, hf), DataFootprint(hf));
    var res := Reset(kinds, hf, st);
    var Z' := if Large(rf, |kinds|) then pt.Y else set i | i in pt.Z && (i in rf ==> i in pt.Y);
    forall i: nat | i < |pt.r|
      ensures res.log.state[i] == st.total.state[i] && Tracks(kinds[i], res.log.rwset[i], pt.L[i], i in Z')
    {
      OutsideFootprint(pt, h, l, st0, i);
    }
    assert Mirrors(kinds, res.log, pt.r, pt.L, Z');
    MirrorsLeftover(kinds, res.log, pt.r, pt.L, Z');
    MirrorsLeftover(kinds, res.total, pt.r, pt.L, pt.Y);
    assert pt.Y <= Z';
  }

  /** Resetting once more changes nothing, and undoes what a fast failure has left. */
  lemma {:induction false} ResetAgain(pt: Point, X: set<nat>, st: State)
    requires pt.Valid() && pt.StopOk(X, st)
    requires var rf := RwFootprint(pt.ru.kinds, pt.ru.hf);
             Large(rf, |pt.ru.kinds|) || forall i: nat :: i !in rf ==> (i in X <==> i in Unread(pt.L, pt.Z))
    ensures pt.StopOk(pt.Undone(), Reset(pt.ru.kinds, pt.ru.hf, st))
  {
    hide Large;
    var kinds, hf := pt.ru.kinds, pt.ru.hf;
    var (rf, df) := (RwFootprint(kinds, hf), DataFootprint(hf));
    var res := Reset(kinds, hf, st);
    var Y := Unread(pt.L, pt.Y);
    var Z' := if Large(rf, |kinds|) then Y else set i | i in X && (i in rf ==> i in Y);
    forall i: nat | i < |pt.r|
      ensures res.log.state[i] == st.total.state[i] && Tracks(kinds[i], res.log.rwset[i], pt.L[i], i in Z')
    {
      assert Tracks(kinds[i], st.log.rwset[i], pt.L[i], i in X) && Tracks(kinds[i], st.total.rwset[i], pt.L[i], i in Y);
    }
    assert Mirrors(kinds, res.log, pt.r, pt.L, Z');
    MirrorsLeftover(kinds, res.log, pt.r, pt.L, Z');
    assert Y <= Z' && Unread(pt.L, Z') == Z' == pt.Undone();
  }

  /** The reads that a fast failure at a point annotated `h` may leave. */
  function FastLeft(kinds: seq<Kind>, h: HistoryMap): set<nat> {
    set i: nat | i < |kinds| && i < |h| && MayLeave(kinds[i], h[i])
  }

  predicate MayLeave(k: Kind, h: History) { Records(k) && h.r1 != TFalse }

  /** Such a failure leaves the rule's port-1 reads, which the annotation admits. */
  lemma {:induction false} FastStops(pt: Point, h: HistoryMap, l: Log, st: State)
    requires pt.Valid() && pt.At(h, l, st) && MayFailFast(h)
    ensures pt.StopOk(AfterFastFail(pt.ru.kinds, pt.L, pt.Z, l), st)
    ensures AfterFastFail(pt.ru.kinds, pt.L, pt.Z, l) <= pt.Z + FastLeft(pt.ru.kinds, h)
  {
    var kinds := pt.ru.kinds;
    var Z' := pt.Z + set i: nat | i < |kinds| && i < |l| && Records(kinds[i]) && HasRead(l[i], P1);
    forall i: nat | i < |pt.r|
      ensures st.log.state[i] == st.total.state[i] && Tracks(kinds[i], st.log.rwset[i], pt.L[i], i in Z')
      ensures HasRead(l[i], P1) && Records(kinds[i]) ==> i in FastLeft(kinds, h)
    {
      NotDescribed(h, l, pt.L, i);
      AppLaws(l[i], pt.L[i]);
      assert Describes(h[i], l[i]);
      assert App(l, pt.L)[i] == l[i] + pt.L[i];
      assert Tracks(kinds[i], st.log.rwset[i], App(l, pt.L)[i], i in pt.Z);
      assert Tracks(kinds[i], st.total.rwset[i], pt.L[i], i in pt.Y);
    }
    assert Mirrors(kinds, st.log, pt.r, pt.L, Z');
    MirrorsLeftover(kinds, st.log, pt.r, pt.L, Z');
    MirrorsLeftover(kinds, st.total, pt.r, pt.L, pt.Y);
    forall i | i in Unread(pt.L, pt.Y) ensures i in Unread(pt.L, Z') {}
  }

  /** A commit makes the cycle's copy stand for the appended log. */
  lemma {:induction false} CommitSettles(pt: Point, h: HistoryMap, l: Log, st: State)
    requires pt.Valid() && pt.At(h, l, st) && WellShaped(pt.ru.kinds, st)
    ensures var st' := Commit(pt.ru.kinds, pt.ru.hf, st);
            && Settled(pt.ru.kinds, st', pt.r, App(l, pt.L))
            && Leftover(pt.ru.kinds, st'.log, App(l, pt.L)) == Unread(App(l, pt.L), pt.Z)
            && Leftover(pt.ru.kinds, st'.total, App(l, pt.L)) == AfterCommit(pt.ru.kinds, pt.ru.hf, App(l, pt.L), pt.Y, pt.Z)
  {
    var kinds, hf := pt.ru.kinds, pt.ru.hf;
    var (rf, df) := (RwFootprint(kinds, hf), DataFootprint(hf));
    var res := Commit(kinds, hf, st);
    var L' := App(l, pt.L);
    var Y' := if Large(rf, |kinds|) then pt.Z else set i | i in pt.Z && (i in rf || i in pt.Y);
    forall i: nat | i < |pt.r|
      ensures res.total.state[i] == st.log.state[i] && Tracks(kinds[i], res.total.rwset[i], L'[i], i in Y')
    {
      OutsideFootprint(pt, h, l, st, i);
      NotDescribed(h, l, pt.L, i);
      assert Below(h[i], hf[i]);
      assert Tracks(kinds[i], st.log.rwset[i], L'[i], i in pt.Z);
    }
    assert Mirrors(kinds, res.total, pt.r, L', Y');
    MirrorsLeftover(kinds, res.total, pt.r, L', Y');
    MirrorsLeftover(kinds, res.log, pt.r, L', pt.Z);
  }

  // ----- accesses -----

  /** The check the simulator makes is the check of the semantics, except that a
      leftover read refuses a write at port 0. */
  lemma {:induction false} ChecksAgree(pt: Point, h: HistoryMap, l: Log, st: State, idx: nat, e: Access)
    requires pt.Valid() && pt.At(h, l, st) && idx < |pt.r| && WellShaped(pt.ru.kinds, st)
    requires Below(UpdateHistory(h[idx], e), pt.ru.hf[idx]) && Supports(pt.ru.kinds[idx], e)
    ensures Checked(pt.ru.kinds, st, e, idx) <==>
            && (if e.Reading? then MayRead(pt.L, e.port, idx) else MayWrite(pt.L, l, e.port, idx))
            && !(e == Writing(P0) && idx in pt.Z)
  {
    var k, H, hf := pt.ru.kinds[idx], pt.H[idx], pt.ru.hf[idx];
    assert KindFits(k, AppendMaps(pt.H, pt.ru.hf)[idx]);
    assert Describes(H, pt.L[idx]) && Describes(h[idx], l[idx]);
    assert App(l, pt.L)[idx] == l[idx] + pt.L[idx];
    assert Tracks(k, st.log.rwset[idx], l[idx] + pt.L[idx], idx in pt.Z);
    assert Tracks(k, st.total.rwset[idx], pt.L[idx], idx in pt.Y);
    AppLaws(l[idx], pt.L[idx]);
    if k == Value {
      ValueNeverConflicts(H, pt.L[idx], h[idx], l[idx], hf, e);
    }
  }

  /** What an access records is what the semantics logs. */
  lemma RecordTracks(k: Kind, s: RwSet, es: RLog, e: Entry, left: bool)
    requires Tracks(k, s, es, left) && Supports(k, if e.Rd? then Reading(e.port) else Writing(e.port))
    ensures Tracks(k, Record(if e.Rd? then Reading(e.port) else Writing(e.port), s), [e] + es, left)
  {
    PushLaws(e, es);
  }

  lemma PushApp(l: Log, L: Log, idx: nat, e: Entry)
    requires |l| == |L| && idx < |l|
    ensures App(Push(l, idx, e), L) == Push(App(l, L), idx, e)
  {
    assert ([e] + l[idx]) + L[idx] == [e] + (l[idx] + L[idx]);
  }

  lemma {:induction false} AccessMirrors(kinds: seq<Kind>, lg: LogT, r: RegFile, es: Log, idx: nat, e: Entry, lg': LogT, Z: set<nat>)
    requires Mirrors(kinds, lg, r, es, Z) && idx < |r|
    requires var acc := if e.Rd? then Reading(e.port) else Writing(e.port);
             && Supports(kinds[idx], acc)
             && lg'.rwset == lg.rwset[idx := Record(acc, lg.rwset[idx])]
             && lg'.state == if e.Rd? then lg.state else lg.state[idx := e.val]
    ensures Mirrors(kinds, lg', r, Push(es, idx, e), Z)
  {
    RecordTracks(kinds[idx], lg.rwset[idx], es[idx], e, idx in Z);
    PushLaws(e, es[idx]);
  }

  lemma BlockedPush(Z: set<nat>, l: Log, idx: nat, e: Entry)
    requires idx < |l| && !Blocked(Z, l) && !(e.Wr? && e.port == P0 && idx in Z)
    ensures !Blocked(Z, Push(l, idx, e))
  {
    PushLaws(e, l[idx]);
  }

  lemma {:induction false} AccessInSync(pt: Point, h: HistoryMap, l: Log, st: State, idx: nat, e: Entry, st': State)
    requires pt.Valid() && pt.At(h, l, st) && idx < |pt.r| && !(e.Wr? && e.port == P0 && idx in pt.Z)
    requires var acc := if e.Rd? then Reading(e.port) else Writing(e.port);
             && Below(UpdateHistory(h[idx], acc), pt.ru.hf[idx])
             && Supports(pt.ru.kinds[idx], acc)
             && st'.total == st.total
             && st'.log.rwset == st.log.rwset[idx := Record(acc, st.log.rwset[idx])]
             && st'.log.state == if e.Rd? then st.log.state else st.log.state[idx := e.val]
    ensures pt.At(UpdateMap(h, idx, if e.Rd? then Reading(e.port) else Writing(e.port)), Push(l, idx, e), st')
  {
    hide Mirrors, Describes, App, Push, UpdateHistory, Below, Record, Blocked;
    PushDescribes(h, l, idx, e);
    PushApp(l, pt.L, idx, e);
    AccessMirrors(pt.ru.kinds, st.log, pt.r, App(l, pt.L), idx, e, st'.log, pt.Z);
    BlockedPush(pt.Z, l, idx, e);
  }

  /** The value found in the state is the value of the semantics. */
  lemma {:induction false} ReadSees(pt: Point, h: HistoryMap, l: Log, st: State, p: Port, idx: nat)
    requires pt.Valid() && pt.At(h, l, st) && idx < |pt.r| && MayRead(pt.L, p, idx)
    requires p == P1 ==> h[idx].w1 == TFalse
    ensures (if p == P0 then st.total.state[idx] else st.log.state[idx]) == ReadValue(pt.r, pt.L, l, p, idx)
  {
    var es := l[idx] + pt.L[idx];
    assert App(l, pt.L)[idx] == es;
    assert Describes(h[idx], l[idx]);
    AppLaws(l[idx], pt.L[idx]);
    LatestIffHasWrite(pt.L[idx]);
    if p == P1 {
      Oraat.LatestIsPort0(es);
    }
  }

  /** A read as the simulator makes it. */
  lemma {:induction false} ReadMeets(pt: Point, h: HistoryMap, l: Log, st: State, env: Env, dst: Option<nat>, p: Port, idx: nat)
    requires pt.Valid() && pt.At(h, l, st) && idx < |pt.r| && WellShaped(pt.ru.kinds, st)
    requires Below(UpdateHistory(h[idx], Reading(p)), pt.ru.hf[idx]) && Supports(pt.ru.kinds[idx], Reading(p))
    requires p == P1 ==> h[idx].w1 == TFalse
    ensures var res := ReadStep(pt.ru, st, env, dst, p, idx);
            if MayRead(pt.L, p, idx) then
              && res.Running? && res.env == Set(env, dst, ReadValue(pt.r, pt.L, l, p, idx))
              && pt.At(UpdateMap(h, idx, Reading(p)), Push(l, idx, Rd(p)), res.st)
            else res.Stopped? && pt.StopOk(pt.Undone(), res.st)
  {
    hide Below, Point.StopOk, InSync, DescribesAll, Describes;
    ChecksAgree(pt, h, l, st, idx, Reading(p));
    var st' := Recorded(pt.ru.kinds, st, Reading(p), idx);
    if MayRead(pt.L, p, idx) {
      AccessInSync(pt, h, l, st, idx, Rd(p), st');
      ReadSees(pt, h, l, st, p, idx);
    } else {
      OnlyFootprint(pt, h, st, idx, Reading(p));
      ResetStops(pt, h, l, st, st');
    }
  }

  /** An access records only in a register of the footprint. */
  lemma {:induction false} OnlyFootprint(pt: Point, h: HistoryMap, st: State, idx: nat, e: Access)
    requires WellShaped(pt.ru.kinds, st) && idx < |pt.ru.kinds| == |pt.ru.hf| == |h|
    requires Below(UpdateHistory(h[idx], e), pt.ru.hf[idx])
    ensures Record(e, st.log.rwset[idx]) == st.log.rwset[idx] || InRwFootprint(pt.ru.kinds, pt.ru.hf, idx)
    ensures e.Writing? ==> InDataFootprint(pt.ru.hf, idx)
  {
    assert HasShape(pt.ru.kinds[idx], st.log.rwset[idx]);
  }

  /** A write as the simulator makes it. */
  lemma {:induction false} WriteMeets(pt: Point, h: HistoryMap, l: Log, st: State, env: Env, p: Port, idx: nat, v: Bits)
    requires pt.Valid() && pt.At(h, l, st) && idx < |pt.r| && WellShaped(pt.ru.kinds, st)
    requires Below(UpdateHistory(h[idx], Writing(p)), pt.ru.hf[idx]) && Supports(pt.ru.kinds[idx], Writing(p))
    ensures var res := WriteStep(pt.ru, st, env, p, idx, v);
            if MayWrite(pt.L, l, p, idx) && !(p == P0 && idx in pt.Z) then
              && res.Running? && res.env == env
              && pt.At(UpdateMap(h, idx, Writing(p)), Push(l, idx, Wr(p, v)), res.st)
            else res.Stopped? && pt.StopOk(pt.Undone(), res.st)
    ensures MayWrite(pt.L, l, p, idx) && p == P0 && idx in pt.Z ==> Blocked(pt.Z, Push(l, idx, Wr(p, v)))
  {
    hide Below, Point.StopOk, InSync, DescribesAll, Describes;
    ChecksAgree(pt, h, l, st, idx, Writing(p));
    var st' := Recorded(pt.ru.kinds, st.(log := st.log.(state := st.log.state[idx := v])), Writing(p), idx);
    if MayWrite(pt.L, l, p, idx) && !(p == P0 && idx in pt.Z) {
      AccessInSync(pt, h, l, st, idx, Wr(p, v), st');
    } else {
      OnlyFootprint(pt, h, st, idx, Writing(p));
      ResetStops(pt, h, l, st, st');
    }
    PushLaws(Wr(p, v), l[idx]);
    assert HasWrite(Push(l, idx, Wr(p, v))[idx], p);
  }
}

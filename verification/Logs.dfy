/** Logs of reads and writes: per register, a list of events with the newest first. */
module Logs {
  import opened BitVectors
  import opened Syntax

  datatype Entry = Rd(port: Port) | Wr(port: Port, val: Bits)

  type RLog = seq<Entry>
  type Log = seq<RLog>
  type RegFile = seq<Bits>

  function Empty(n: nat): Log { seq(n, i => []) }

  /** `l1` holds the newer events. */
  function App(l1: Log, l2: Log): Log
    requires |l1| == |l2|
  {
    seq(|l1|, i requires 0 <= i < |l1| => l1[i] + l2[i])
  }

  function Push(l: Log, idx: nat, e: Entry): Log
    requires idx < |l|
  {
    l[idx := [e] + l[idx]]
  }

  predicate HasRead(es: RLog, p: Port) { Rd(p) in es }

  predicate HasWrite(es: RLog, p: Port) { exists e | e in es :: e.Wr? && e.port == p }

  /** The value of the newest write at port `p`. */
  function LatestAt(es: RLog, p: Port): Option<Bits> {
    if es == [] then None
    else if es[0].Wr? && es[0].port == p then Some(es[0].val)
    else LatestAt(es[1..], p)
  }

  /** The value of the newest write at either port. */
  function Latest(es: RLog): Option<Bits> {
    if es == [] then None
    else if es[0].Wr? then Some(es[0].val)
    else Latest(es[1..])
  }

  function OptOr<T>(x: Option<T>, y: Option<T>): Option<T> { if x.Some? then x else y }

  function Default<T>(x: Option<T>, d: T): T { if x.Some? then x.value else d }

  predicate MayReadEntry(schedLog: RLog, p: Port) {
    match p
    case P0 => !HasWrite(schedLog, P0) && !HasWrite(schedLog, P1)
    case P1 => !HasWrite(schedLog, P1)
  }

  /** `es` is the rule log on top of the scheduler log. */
  predicate MayWriteEntry(es: RLog, p: Port) {
    match p
    case P0 => !HasRead(es, P1) && !HasWrite(es, P0) && !HasWrite(es, P1)
    case P1 => !HasWrite(es, P1)
  }

  predicate MayRead(schedLog: Log, p: Port, idx: nat)
    requires idx < |schedLog|
  {
    MayReadEntry(schedLog[idx], p)
  }

  predicate MayWrite(schedLog: Log, ruleLog: Log, p: Port, idx: nat)
    requires idx < |schedLog| == |ruleLog|
  {
    MayWriteEntry(ruleLog[idx] + schedLog[idx], p)
  }

  function CommitUpdate(r: RegFile, log: Log): RegFile
    requires |r| == |log|
  {
    seq(|r|, k requires 0 <= k < |r| => Default(Latest(log[k]), r[k]))
  }

  // ----- laws, register by register -----

  lemma {:induction false} LatestAtApp(x: RLog, y: RLog, p: Port)
    ensures LatestAt(x + y, p) == OptOr(LatestAt(x, p), LatestAt(y, p))
  {
    if x == [] {
      assert x + y == y;
    } else {
      assert (x + y)[1..] == x[1..] + y;
      LatestAtApp(x[1..], y, p);
    }
  }

  lemma {:induction false} LatestApp(x: RLog, y: RLog)
    ensures Latest(x + y) == OptOr(Latest(x), Latest(y))
  {
    if x == [] {
      assert x + y == y;
    } else {
      assert (x + y)[1..] == x[1..] + y;
      LatestApp(x[1..], y);
    }
  }

  lemma HasWriteApp(x: RLog, y: RLog, p: Port)
    ensures HasWrite(x + y, p) == (HasWrite(x, p) || HasWrite(y, p))
  {
    if HasWrite(x, p) {
      var e :| e in x && e.Wr? && e.port == p;
      assert e in x + y;
    }
    if HasWrite(y, p) {
      var e :| e in y && e.Wr? && e.port == p;
      assert e in x + y;
    }
  }

  lemma {:induction false} LatestAtIffHasWrite(x: RLog, p: Port)
    ensures LatestAt(x, p).Some? == HasWrite(x, p)
  {
    if x != [] {
      LatestAtIffHasWrite(x[1..], p);
      HasWriteApp([x[0]], x[1..], p);
      assert x == [x[0]] + x[1..];
      assert HasWrite([x[0]], p) == (x[0].Wr? && x[0].port == p) by { assert x[0] in [x[0]]; }
    }
  }

  lemma {:induction false} LatestIffHasWrite(x: RLog)
    ensures Latest(x).Some? == (HasWrite(x, P0) || HasWrite(x, P1))
  {
    if x != [] {
      LatestIffHasWrite(x[1..]);
      HasWriteApp([x[0]], x[1..], P0);
      HasWriteApp([x[0]], x[1..], P1);
      assert x == [x[0]] + x[1..];
      assert forall p :: HasWrite([x[0]], p) == (x[0].Wr? && x[0].port == p) by { assert x[0] in [x[0]]; }
    }
  }

  /** Everything one new event does to the questions asked of a register's log. */
  lemma PushLaws(e: Entry, x: RLog)
    ensures forall p :: HasRead([e] + x, p) == (e == Rd(p) || HasRead(x, p))
    ensures forall p :: HasWrite([e] + x, p) == ((e.Wr? && e.port == p) || HasWrite(x, p))
    ensures forall p :: LatestAt([e] + x, p) == if e.Wr? && e.port == p then Some(e.val) else LatestAt(x, p)
    ensures Latest([e] + x) == if e.Wr? then Some(e.val) else Latest(x)
  {
    assert ([e] + x)[1..] == x;
    forall p ensures HasWrite([e] + x, p) == ((e.Wr? && e.port == p) || HasWrite(x, p)) {
      HasWriteApp([e], x, p);
      assert e in [e];
    }
  }

  /** Everything appending does to the questions asked of a register's log. */
  lemma AppLaws(x: RLog, y: RLog)
    ensures forall p :: HasRead(x + y, p) == (HasRead(x, p) || HasRead(y, p))
    ensures forall p :: HasWrite(x + y, p) == (HasWrite(x, p) || HasWrite(y, p))
    ensures forall p :: LatestAt(x + y, p) == OptOr(LatestAt(x, p), LatestAt(y, p))
    ensures Latest(x + y) == OptOr(Latest(x), Latest(y))
    ensures forall p :: LatestAt(x, p).Some? == HasWrite(x, p)
    ensures forall p :: LatestAt(y, p).Some? == HasWrite(y, p)
  {
    LatestApp(x, y);
    forall p: Port
      ensures HasWrite(x + y, p) == (HasWrite(x, p) || HasWrite(y, p))
      ensures LatestAt(x + y, p) == OptOr(LatestAt(x, p), LatestAt(y, p))
      ensures LatestAt(x, p).Some? == HasWrite(x, p)
      ensures LatestAt(y, p).Some? == HasWrite(y, p)
    {
      HasWriteApp(x, y, p);
      LatestAtApp(x, y, p);
      LatestAtIffHasWrite(x, p);
      LatestAtIffHasWrite(y, p);
    }
  }

  lemma AppAssoc(x: Log, y: Log, z: Log)
    requires |x| == |y| == |z|
    ensures App(x, App(y, z)) == App(App(x, y), z)
  {
    forall i | 0 <= i < |x| ensures x[i] + (y[i] + z[i]) == (x[i] + y[i]) + z[i] {}
  }

  lemma AppEmpty(x: Log)
    ensures App(x, Empty(|x|)) == x && App(Empty(|x|), x) == x
  {
    forall i | 0 <= i < |x| ensures x[i] + [] == x[i] == [] + x[i] {}
  }

  /** Committing two logs in turn is committing them appended. */
  lemma CommitAssoc(r: RegFile, l: Log, l': Log)
    requires |r| == |l| == |l'|
    ensures CommitUpdate(CommitUpdate(r, l), l') == CommitUpdate(r, App(l', l))
  {
    forall k | 0 <= k < |r|
      ensures CommitUpdate(CommitUpdate(r, l), l')[k] == CommitUpdate(r, App(l', l))[k]
    {
      LatestApp(l'[k], l[k]);
    }
  }

  lemma CommitEmpty(r: RegFile)
    ensures CommitUpdate(r, Empty(|r|)) == r
  {
  }
}

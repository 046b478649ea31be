/** The C++ code that the simulator back end emits for a rule.  An operand that needs
    no statement of its own is returned as text and evaluated where it is used, and a
    first operand may be stored into the variable that the whole expression is for.
    A C++ variable is known here by a number; names are resolved as C++ does it, to
    the innermost variable declared at that point. */
module Emission {
  import opened BitVectors
  import opened Primitives
  import opened Syntax
  import opened Histories
  import opened Effects
  import opened CallOrder

  /** Text that reads variables and changes nothing. */
  datatype Expr = Lit(v: Bits) | Loc(x: nat) | Op1(fn1: Fbits1, a: Expr) | Op2(fn2: Fbits2, a1: Expr, a2: Expr)

  /** `dst` is the variable that takes the result, if any does. */
  datatype Code =
    | Skip
    | Then(c1: Code, c2: Code)
    | Put(x: nat, e: Expr)
    | ReadInto(dst: Option<nat>, port: Port, idx: nat)
    | WriteReg(port: Port, idx: nat, e: Expr)
    | ExternInto(dst: Option<nat>, ext: nat, e: Expr)
    | CallInto(dst: Option<nat>, args: seq<Expr>, body: Code)
    | FailNow(fast: bool)
    | Branch(e: Expr, c1: Code, c2: Code)

  /** What an expression is emitted for.  A variable of the source has a name, and it
      may be passed down before it is declared. */
  datatype Target = NoTarget | Into(name: Option<string>, x: nat, declared: bool)

  /** The variables declared at a point, the innermost first. */
  type Scope = seq<(string, nat)>

  /** What emitting an action yields: statements, the text of the result, whether the
      target has been declared by now, and the next unused variable. */
  datatype Emitted = Emitted(code: Code, res: Option<Expr>, declared: bool, next: nat)

  function Resolve(scope: Scope, name: string): nat {
    if scope == [] then 0
    else if scope[0].0 == name then scope[0].1
    else Resolve(scope[1..], name)
  }

  /** The variable that an assignment to the target's name reaches. */
  function Reached(scope: Scope, t: Target): nat
    requires t.Into?
  {
    if t.declared && t.name.Some? then Resolve(scope, t.name.value) else t.x
  }

  function Dst(scope: Scope, t: Target): Option<nat> { if t.Into? then Some(Reached(scope, t)) else None }

  /** The scope once the target is declared. */
  function Declaring(scope: Scope, t: Target, declared: bool): Scope {
    if t.Into? && t.name.Some? && !t.declared && declared then [(t.name.value, t.x)] + scope else scope
  }

  function Declared(t: Target): Target { if t.Into? then t.(declared := true) else t }

  /** Stores a result into the target, unless it is there already. */
  function AssignTo(scope: Scope, t: Target, res: Option<Expr>): (Code, Option<Expr>) {
    if t.NoTarget? || res.None? then (Skip, None)
    else
      var x := Reached(scope, t);
      (if t.declared && res.value == Loc(x) then Skip else Put(x, res.value), Some(Loc(x)))
  }

  function TextOf(res: Option<Expr>): Expr { if res.Some? then res.value else Lit([]) }

  /** Whether the target of an operation also fits its first operand. */
  predicate Reuses(fn: Fbits2) { fn.Arg1() == fn.Ret() }

  /** A struct is copied to where the result goes, and its field assigned there. */
  predicate InPlace(fn: Fbits2) { fn.Subst? && fn.field }

  function SetField(fn: Fbits2, x: nat, whole: Expr, part: Expr): Code {
    Then(Put(x, whole), Put(x, Op2(fn, Loc(x), part)))
  }

  /** Whether a variable of this name is read anywhere, in the bodies of calls too. */
  predicate Mentions(name: string, a: Action)
    decreases a
  {
    match a
    case Var(k, _) => k == name
    case Assign(_, _, ex) => Mentions(name, ex)
    case Seq(r1, r2) => Mentions(name, r1) || Mentions(name, r2)
    case Bind(_, _, ex, body) => Mentions(name, ex) || Mentions(name, body)
    case If(cond, tbranch, fbranch) => Mentions(name, cond) || Mentions(name, tbranch) || Mentions(name, fbranch)
    case Write(_, _, value) => Mentions(name, value)
    case Unop(_, arg) => Mentions(name, arg)
    case Binop(_, arg1, arg2) => Mentions(name, arg1) || Mentions(name, arg2)
    case ExternalCall(_, arg) => Mentions(name, arg)
    case InternalCall(_, args, body) => ArgsMention(name, args) || Mentions(name, body)
    case APos(a) => Mentions(name, a)
    case _ => false
  }

  predicate ArgsMention(name: string, args: Args)
    decreases args
  {
    match args
    case NoArgs => false
    case MoreArgs(_, _, arg, rest) => Mentions(name, arg) || ArgsMention(name, rest)
  }

  /** Parameters are variables 1, 2, ... of the function, and 0 is its result. */
  function Params(args: Args, x: nat): Scope {
    match args
    case NoArgs => []
    case MoreArgs(k, _, _, rest) => [(k, x)] + Params(rest, x + 1)
  }

  /** `h` is the annotation of the point where `a` starts and `k` the next unused variable. */
  function Emit(h: HistoryMap, scope: Scope, k: nat, t: Target, a: Action): (e: Emitted)
    ensures e.next >= k && (t.Into? ==> e.res.Some?)
    decreases a, 0
  {
    var declared := t.Into? && t.declared;
    match a
    case Fail(_) =>
      Emitted(FailNow(MayFailFast(h)),
              if t.NoTarget? then None else if t.declared then Some(Loc(Reached(scope, t))) else Some(Lit([])), declared, k)
    case Var(x, _) => Emitted(Skip, Some(Loc(Resolve(scope, x))), declared, k)
    case Cst(cst) => Emitted(Skip, Some(Lit(cst)), declared, k)
    case Assign(x, _, ex) =>
      var t' := Into(Some(x), Resolve(scope, x), true);
      var e := Emit(h, scope, k, t', ex);
      var (c, _) := AssignTo(scope, t', e.res);
      Emitted(Then(e.code, c), Some(Lit([])), declared, e.next)
    case Seq(r1, r2) =>
      var e1 := Emit(h, scope, k, NoTarget, r1);
      var e2 := Emit(After(h, r1), scope, e1.next, t, r2);
      Emitted(Then(e1.code, e2.code), e2.res, e2.declared, e2.next)
    case Bind(x, _, ex, body) =>
      var scope := Declaring(scope, t, true);
      var b := EmitBinding(h, scope, k, x, ex);
      var inner := [(x, k)] + scope;
      var e := Emit(After(h, ex), inner, b.next, Declared(t), body);
      var (c, _) := AssignTo(inner, Declared(t), e.res);
      Emitted(Then(b.code, Then(e.code, c)), if t.Into? then Some(Loc(Reached(scope, Declared(t)))) else None, true, e.next)
    case If(cond, tbranch, fbranch) =>
      var scope := Declaring(scope, t, true);
      var e := Emit(h, scope, k + 1, Into(None, k, false), cond);
      var e1 := Emit(After(h, cond), scope, e.next, Declared(t), tbranch);
      var e2 := Emit(After(h, cond), scope, e1.next, Declared(t), fbranch);
      var (c1, res) := AssignTo(scope, Declared(t), e1.res);
      var (c2, _) := AssignTo(scope, Declared(t), e2.res);
      Emitted(Then(e.code, Branch(TextOf(e.res), Then(e1.code, c1), Then(e2.code, c2))), res, true, e2.next)
    case Read(p, idx) =>
      var dst := Dst(scope, t);
      Emitted(ReadInto(dst, p, idx), if dst.Some? then Some(Loc(dst.value)) else None, true, k)
    case Write(p, idx, value) =>
      var e := Emit(h, scope, k + 1, Into(None, k, false), value);
      Emitted(Then(e.code, WriteReg(p, idx, TextOf(e.res))), Some(Lit([])), declared, e.next)
    case Unop(fn, arg) =>
      if fn.IgnoreBits? then
        var e := Emit(h, scope, k, NoTarget, arg);
        Emitted(e.code, Some(Lit([])), declared, e.next)
      else
        var e := Emit(h, scope, k + 1, Into(None, k, false), arg);
        var text := Op1(fn, TextOf(e.res));
        if fn.DisplayBits? then
          var dst := Dst(scope, t);
          Emitted(Then(e.code, if dst.Some? then Put(dst.value, text) else Skip),
                  if dst.Some? then Some(Loc(dst.value)) else None, true, e.next)
        else Emitted(e.code, Some(text), declared, e.next)
    case Binop(fn, arg1, arg2) =>
      var reused := t.Into? && Reuses(fn);
      var e1 := Emit(h, scope, if reused then k else k + 1, if reused then t else Into(None, k, false), arg1);
      var scope' := if reused then Declaring(scope, t, e1.declared) else scope;
      var e2 := Emit(After(h, arg1), scope', e1.next + 1, Into(None, e1.next, false), arg2);
      var code := Then(e1.code, e2.code);
      if InPlace(fn) then
        var x := if t.Into? then Reached(Declaring(scope, t, true), Declared(t)) else e2.next;
        Emitted(Then(code, SetField(fn, x, TextOf(e1.res), TextOf(e2.res))), Some(Loc(x)), true, e2.next + 1)
      else
        Emitted(code, Some(Op2(fn, TextOf(e1.res), TextOf(e2.res))), if reused then e1.declared else declared, e2.next)
    case ExternalCall(ext, arg) =>
      var e := Emit(h, scope, k + 1, Into(None, k, false), arg);
      var dst := Dst(scope, t);
      Emitted(Then(e.code, ExternInto(dst, ext, TextOf(e.res))),
              if dst.Some? then Some(Loc(dst.value)) else None, true, e.next)
    case InternalCall(_, args, body) =>
      var (code, texts, next) := EmitArgs(h, scope, k, args);
      var dst := Dst(scope, t);
      Emitted(Then(code, CallInto(dst, texts, EmitFunction(AfterArgs(h, args), args, body))),
              if dst.Some? then Some(Loc(dst.value)) else None, true, next)
    case APos(a) => Emit(h, scope, k, t, a)
  }

  /** The variable `x` is number `k`.  If its own expression reads a variable of that
      name, the value goes through a temporary. */
  function EmitBinding(h: HistoryMap, scope: Scope, k: nat, x: string, ex: Action): (e: Emitted)
    ensures e.next > k
    decreases ex, 1
  {
    if Mentions(x, ex) then
      var t := Into(None, k + 1, false);
      var e := Emit(h, scope, k + 2, t, ex);
      var (c, res) := AssignTo(scope, t.(declared := e.declared), e.res);
      Emitted(Then(Then(e.code, c), Put(k, TextOf(res))), None, true, e.next)
    else
      var t := Into(Some(x), k, false);
      var e := Emit(h, scope, k + 1, t, ex);
      var (c, _) := AssignTo(Declaring(scope, t, e.declared), t.(declared := e.declared), e.res);
      Emitted(Then(e.code, c), None, true, e.next)
  }

  /** Arguments are emitted from the first to the last; their texts are used in the call. */
  function EmitArgs(h: HistoryMap, scope: Scope, k: nat, args: Args): (e: (Code, seq<Expr>, nat))
    ensures e.2 >= k && |e.1| == ArgCount(args)
    decreases args, 0
  {
    match args
    case NoArgs => (Skip, [], k)
    case MoreArgs(_, _, arg, rest) =>
      var e := Emit(h, scope, k + 1, Into(None, k, false), arg);
      var (code, texts, next) := EmitArgs(After(h, arg), scope, e.next, rest);
      (Then(e.code, code), [TextOf(e.res)] + texts, next)
  }

  function EmitFunction(h: HistoryMap, args: Args, body: Action): Code
    decreases body, 1
  {
    var t := Into(None, 0, true);
    var e := Emit(h, Params(args, 1), ArgCount(args) + 1, t, body);
    Then(e.code, AssignTo(Params(args, 1), t, e.res).0)
  }

  function EmitRule(n: nat, rule: Action): Code { Emit(EmptyMap(n), [], 0, NoTarget, rule).code }

  // ----- what the emitter and the C++ compiler accept -----

  /** Each variable is named as bound, and no later binding hides it; parameters differ.
      The emitter asks this of the variables of operands and assignments.  It does not ask
      it of the variable of a switch that it rebuilds from nested conditionals
      (ocaml/backends/cpp.ml:309-333), which are emitted here as they stand. */
  predicate Accepted(names: seq<string>, a: Action)
    decreases a
  {
    match a
    case Var(k, m) => Visible(names, k, m)
    case Assign(k, m, ex) => Visible(names, k, m) && Accepted(names, ex)
    case Seq(r1, r2) => Accepted(names, r1) && Accepted(names, r2)
    case Bind(k, _, ex, body) => Accepted(names, ex) && Accepted([k] + names, body)
    case If(cond, tbranch, fbranch) => Accepted(names, cond) && Accepted(names, tbranch) && Accepted(names, fbranch)
    case Write(_, _, value) => Accepted(names, value)
    case Unop(_, arg) => Accepted(names, arg)
    case Binop(_, arg1, arg2) => Accepted(names, arg1) && Accepted(names, arg2)
    case ExternalCall(_, arg) => Accepted(names, arg)
    case InternalCall(_, args, body) =>
      AcceptedArgs(names, args) && Distinct(ArgNames(args)) && Accepted(ArgNames(args), body)
    case APos(a) => Accepted(names, a)
    case _ => true
  }

  predicate AcceptedArgs(names: seq<string>, args: Args)
    decreases args
  {
    match args
    case NoArgs => true
    case MoreArgs(_, _, arg, rest) => Accepted(names, arg) && AcceptedArgs(names, rest)
  }

  function ArgNames(args: Args): (names: seq<string>)
    ensures |names| == ArgCount(args)
  {
    match args
    case NoArgs => []
    case MoreArgs(k, _, _, rest) => [k] + ArgNames(rest)
  }

  predicate Visible(names: seq<string>, k: string, m: nat) {
    m < |names| && names[m] == k && forall j :: 0 <= j < m ==> names[j] != k
  }

  predicate Distinct(names: seq<string>) { forall i, j :: 0 <= i < j < |names| ==> names[i] != names[j] }

  // ----- when emitted code keeps the order of the source -----

  /** The variables that the text of the result still reads. */
  function Delayed(a: Action): set<nat> {
    match a
    case Var(_, m) => {m}
    case Seq(_, r2) => Delayed(r2)
    case Unop(fn, arg) => if fn.IgnoreBits? || fn.DisplayBits? then {} else Delayed(arg)
    case Binop(fn, arg1, arg2) => if InPlace(fn) then {} else Delayed(arg1) + Delayed(arg2)
    case APos(a) => Delayed(a)
    case _ => {}
  }

  /** Whether statements of the action store into the target. */
  predicate Lands(a: Action) {
    match a
    case Seq(_, r2) => Lands(r2)
    case Bind(_, _, _, _) => true
    case If(_, _, _) => true
    case Read(_, _) => true
    case Unop(fn, _) => fn.DisplayBits?
    case Binop(fn, arg1, _) => InPlace(fn) || (Reuses(fn) && Lands(arg1))
    case ExternalCall(_, _) => true
    case InternalCall(_, _, _) => true
    case APos(a) => Lands(a)
    case _ => false
  }

  /** No operand that is still text mentions a variable that a later operand assigns;
      no later operand mentions the variable that a first operand is stored into; and no
      field's new value that is still text mentions the variable that another struct is
      copied to.
      `tv` is the position of the variable that the action's result is assigned to. */
  predicate Ordered(tv: Option<nat>, a: Action)
    decreases a
  {
    match a
    case Assign(_, m, ex) => Ordered(Some(m), ex)
    case Seq(r1, r2) => Ordered(None, r1) && Ordered(tv, r2)
    case Bind(_, _, ex, body) => Ordered(None, ex) && Ordered(InnerVar(tv), body)
    case If(cond, tbranch, fbranch) => Ordered(None, cond) && Ordered(tv, tbranch) && Ordered(tv, fbranch)
    case Write(_, _, value) => Ordered(None, value)
    case Unop(_, arg) => Ordered(None, arg)
    case Binop(fn, arg1, arg2) =>
      var tv1 := if Reuses(fn) then tv else None;
      && Ordered(tv1, arg1) && Ordered(None, arg2) && Delayed(arg1) !! Assigned(arg2)
      && (tv1.Some? && Lands(arg1) ==> tv1.value !in Vars(arg2))
      && (tv1.Some? && InPlace(fn) && !Itself(tv1.value, arg1) ==> tv1.value !in Delayed(arg2))
    case ExternalCall(_, arg) => Ordered(None, arg)
    case InternalCall(_, args, body) => OrderedArgs(args) && Ordered(None, body)
    case APos(a) => Ordered(tv, a)
    case _ => true
  }

  predicate Itself(m: nat, a: Action) {
    match a
    case Var(_, m') => m' == m
    case APos(a) => Itself(m, a)
    case _ => false
  }

  predicate OrderedArgs(args: Args)
    decreases args
  {
    match args
    case NoArgs => true
    case MoreArgs(_, _, arg, rest) => Ordered(None, arg) && OrderedArgs(rest)
  }

  function InnerVar(tv: Option<nat>): Option<nat> { if tv.Some? then Some(tv.value + 1) else None }

  /** The arguments of every call may be evaluated in either order. */
  predicate CallsIndependent(a: Action)
    decreases a
  {
    match a
    case Assign(_, _, ex) => CallsIndependent(ex)
    case Seq(r1, r2) => CallsIndependent(r1) && CallsIndependent(r2)
    case Bind(_, _, ex, body) => CallsIndependent(ex) && CallsIndependent(body)
    case If(cond, tbranch, fbranch) => CallsIndependent(cond) && CallsIndependent(tbranch) && CallsIndependent(fbranch)
    case Write(_, _, value) => CallsIndependent(value)
    case Unop(_, arg) => CallsIndependent(arg)
    case Binop(_, arg1, arg2) => CallsIndependent(arg1) && CallsIndependent(arg2)
    case ExternalCall(_, arg) => CallsIndependent(arg)
    case InternalCall(_, args, body) => ArgsIndependent(args) && ArgsCallsIndependent(args) && CallsIndependent(body)
    case APos(a) => CallsIndependent(a)
    case _ => true
  }

  predicate ArgsCallsIndependent(args: Args)
    decreases args
  {
    match args
    case NoArgs => true
    case MoreArgs(_, _, arg, rest) => CallsIndependent(arg) && ArgsCallsIndependent(rest)
  }

  /** The names that are read, assigned or bound, not counting the bodies of calls. */
  function Names(a: Action): set<string>
    decreases a
  {
    match a
    case Var(k, _) => {k}
    case Assign(k, _, ex) => {k} + Names(ex)
    case Seq(r1, r2) => Names(r1) + Names(r2)
    case Bind(k, _, ex, body) => {k} + Names(ex) + Names(body)
    case If(cond, tbranch, fbranch) => Names(cond) + Names(tbranch) + Names(fbranch)
    case Write(_, _, value) => Names(value)
    case Unop(_, arg) => Names(arg)
    case Binop(_, arg1, arg2) => Names(arg1) + Names(arg2)
    case ExternalCall(_, arg) => Names(arg)
    case InternalCall(_, args, _) => NamesOfArgs(args)
    case APos(a) => Names(a)
    case _ => {}
  }

  function NamesOfArgs(args: Args): set<string>
    decreases args
  {
    match args
    case NoArgs => {}
    case MoreArgs(_, _, arg, rest) => Names(arg) + NamesOfArgs(rest)
  }

  /** The names bound where the target is passed down. */
  function SpineBinders(a: Action): set<string> {
    match a
    case Seq(_, r2) => SpineBinders(r2)
    case Bind(k, _, _, body) => {k} + SpineBinders(body)
    case If(_, tbranch, fbranch) => SpineBinders(tbranch) + SpineBinders(fbranch)
    case Binop(fn, arg1, _) => if Reuses(fn) then SpineBinders(arg1) else {}
    case APos(a) => SpineBinders(a)
    case _ => {}
  }

  /** No statement means one variable and reaches another of the same name: an
      assignment's expression does not bind that name where the target is passed down,
      and a binding's expression uses the name only if the value goes through a
      temporary. */
  predicate CaptureFree(a: Action)
    decreases a
  {
    match a
    case Assign(k, _, ex) => k !in SpineBinders(ex) && CaptureFree(ex)
    case Seq(r1, r2) => CaptureFree(r1) && CaptureFree(r2)
    case Bind(k, _, ex, body) => (Mentions(k, ex) || k !in Names(ex)) && CaptureFree(ex) && CaptureFree(body)
    case If(cond, tbranch, fbranch) => CaptureFree(cond) && CaptureFree(tbranch) && CaptureFree(fbranch)
    case Write(_, _, value) => CaptureFree(value)
    case Unop(_, arg) => CaptureFree(arg)
    case Binop(_, arg1, arg2) => CaptureFree(arg1) && CaptureFree(arg2)
    case ExternalCall(_, arg) => CaptureFree(arg)
    case InternalCall(_, args, body) => ArgsCaptureFree(args) && CaptureFree(body)
    case APos(a) => CaptureFree(a)
    case _ => true
  }

  predicate ArgsCaptureFree(args: Args)
    decreases args
  {
    match args
    case NoArgs => true
    case MoreArgs(_, _, arg, rest) => CaptureFree(arg) && ArgsCaptureFree(rest)
  }

  lemma {:induction false} DelayedIsVar(a: Action)
    ensures Delayed(a) <= Vars(a)
    decreases a
  {
    match a
    case Seq(_, r2) => DelayedIsVar(r2);
    case Unop(_, arg) => DelayedIsVar(arg);
    case Binop(_, arg1, arg2) => DelayedIsVar(arg1); DelayedIsVar(arg2);
    case APos(a) => DelayedIsVar(a);
    case _ =>
  }

  lemma {:induction false} SpineIsNamed(a: Action)
    ensures SpineBinders(a) <= Names(a)
    decreases a
  {
    match a
    case Seq(_, r2) => SpineIsNamed(r2);
    case Bind(_, _, _, body) => SpineIsNamed(body);
    case If(_, tbranch, fbranch) => SpineIsNamed(tbranch); SpineIsNamed(fbranch);
    case Binop(_, arg1, _) => SpineIsNamed(arg1);
    case APos(a) => SpineIsNamed(a);
    case _ =>
  }
}

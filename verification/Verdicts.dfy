/**
  What the generator says to any tree, in or out of the fragment: it crashes on lists nested in
  later elements and on callees without an opcode, and reports addresses that do not exist.
*/
module Verdicts {
  import opened Word64
  import opened Ir
  import opened Source
  import opened Codegen

  /** The expressions that leave an opcode a parent may rewrite: names, `@e`, and whatever
      passes on the one of its left operand. */
  predicate HasAddress(e: Expr)
    decreases e
  {
    match e
    case Ident(_) => true
    case Deref(_) => true
    case Unary(_, a) => HasAddress(a)
    case Binary(_, a, _) => HasAddress(a)
    case LogOr(a, _) => HasAddress(a)
    case LogAnd(a, _) => HasAddress(a)
    case Ref(a) => HasAddress(a)
    case Assign(l, _) => HasAddress(l)
    case Call(callee, _) => HasAddress(callee)
    case _ => false
  }

  /** That opcode loads through a pointer. */
  predicate EndsInDeref(e: Expr)
    decreases e
  {
    match e
    case Deref(_) => true
    case Unary(_, a) => EndsInDeref(a)
    case Binary(_, a, _) => EndsInDeref(a)
    case LogOr(a, _) => EndsInDeref(a)
    case LogAnd(a, _) => EndsInDeref(a)
    case _ => false
  }

  /** The targets of a parallel assignment that are compiled: up to the first `@e`. */
  function Compiled(targets: seq<Expr>): (r: seq<Expr>)
    ensures |r| <= |targets| && forall i :: 0 <= i < |r| ==> r[i] == targets[i]
  {
    if targets == [] then []
    else if EndsInDeref(targets[0]) then [targets[0]]
    else [targets[0]] + Compiled(targets[1..])
  }

  /** A list is visited somewhere in the tree, which empties the shared `reverse` stack. */
  predicate MeetsList(e: Expr)
    decreases e
  {
    match e
    case Unary(_, a) => MeetsList(a)
    case Binary(_, a, b) => MeetsList(a) || MeetsList(b)
    case LogOr(a, b) => MeetsList(a) || MeetsList(b)
    case LogAnd(a, b) => MeetsList(a) || MeetsList(b)
    case Ref(a) => MeetsList(a)
    case Deref(a) => MeetsList(a)
    case Assign(l, b) => MeetsList(l) || MeetsList(b)
    case Swap(targets, b) =>
      MeetsList(b) || exists i :: 0 <= i < |Compiled(targets)| && MeetsList(targets[i])
    case Call(callee, args) => MeetsList(callee) || MeetsList(args)
    case List(_) => true
    case _ => false
  }

  /** The generator gets through the tree: every callee leaves an opcode, and only the first
      element of a list meets lists. */
  predicate Survives(e: Expr)
    decreases e
  {
    match e
    case Unary(_, a) => Survives(a)
    case Binary(_, a, b) => Survives(a) && Survives(b)
    case LogOr(a, b) => Survives(a) && Survives(b)
    case LogAnd(a, b) => Survives(a) && Survives(b)
    case Ref(a) => Survives(a)
    case Deref(a) => Survives(a)
    case Assign(l, b) => Survives(l) && Survives(b)
    case Swap(targets, b) => Survives(b) && forall i :: 0 <= i < |Compiled(targets)| ==> Survives(targets[i])
    case Call(callee, args) => Survives(callee) && Survives(args) && HasAddress(callee)
    case List(es) =>
      && (forall i :: 0 <= i < |es| ==> Survives(es[i]))
      && forall i :: 0 < i < |es| ==> !MeetsList(es[i])
    case _ => true
  }

  /** The operand of every `^` and every target that is compiled has an address. */
  predicate Addressed(e: Expr)
    decreases e
  {
    match e
    case Unary(_, a) => Addressed(a)
    case Binary(_, a, b) => Addressed(a) && Addressed(b)
    case LogOr(a, b) => Addressed(a) && Addressed(b)
    case LogAnd(a, b) => Addressed(a) && Addressed(b)
    case Ref(a) => Addressed(a) && HasAddress(a)
    case Deref(a) => Addressed(a)
    case Assign(l, b) => Addressed(l) && HasAddress(l) && Addressed(b)
    case Swap(targets, b) =>
      Addressed(b) && forall i :: 0 <= i < |Compiled(targets)| ==> Addressed(targets[i]) && HasAddress(targets[i])
    case Call(callee, args) => Addressed(callee) && Addressed(args)
    case List(es) => forall i :: 0 <= i < |es| ==> Addressed(es[i])
    case _ => true
  }

  // ----- expressions -----

  /** The generator sees of the tree what the predicates say. */
  ghost predicate Agrees(e: Expr, slots: Slots) {
    var g := Gen(e, slots);
    && g.last.Some? == HasAddress(e) && EndsInLoad(e, slots) == EndsInDeref(e) && VisitsList(e, slots) == MeetsList(e)
    && Compilable(e, slots) == Survives(e) && g.valid == Addressed(e)
  }

  lemma ExprAgrees(e: Expr, slots: Slots)
    ensures Agrees(e, slots)
    decreases e, 1
  {
    match e
    case Const(_) =>
    case Ident(_) =>
    case Unary(_, a) => ExprAgrees(a, slots);
    case Binary(_, _, _) => PairAgrees(e, slots);
    case LogOr(_, _) => PairAgrees(e, slots);
    case LogAnd(_, _) => PairAgrees(e, slots);
    case Ref(_) => RefAgrees(e, slots);
    case Deref(a) => ExprAgrees(a, slots);
    case Assign(_, _) => AssignAgrees(e, slots);
    case Swap(targets, b) => SwapAgrees(e, slots);
    case Call(_, _) => CallAgrees(e, slots);
    case List(es) => ListAgrees(es, slots);
    case Empty =>
  }

  lemma PairAgrees(e: Expr, slots: Slots)
    requires e.Binary? || e.LogOr? || e.LogAnd?
    ensures Agrees(e, slots)
    decreases e, 0
  {
    ExprAgrees(e.left, slots);
    ExprAgrees(e.right, slots);
    PairParts(e, slots);
    hide Gen, EndsInLoad, Compilable, VisitsList;
  }

  /** What a pair has from its operands. */
  lemma PairParts(e: Expr, slots: Slots)
    requires e.Binary? || e.LogOr? || e.LogAnd?
    ensures Gen(e, slots).last.Some? == Gen(e.left, slots).last.Some?
    ensures EndsInLoad(e, slots) == EndsInLoad(e.left, slots)
    ensures Gen(e, slots).valid == (Gen(e.left, slots).valid && Gen(e.right, slots).valid)
    ensures Compilable(e, slots) == (Compilable(e.left, slots) && Compilable(e.right, slots))
    ensures VisitsList(e, slots) == (VisitsList(e.left, slots) || VisitsList(e.right, slots))
  {
  }

  lemma RefAgrees(e: Expr, slots: Slots)
    requires e.Ref?
    ensures Agrees(e, slots)
    decreases e, 0
  {
    ExprAgrees(e.operand, slots);
  }

  lemma AssignAgrees(e: Expr, slots: Slots)
    requires e.Assign?
    ensures Agrees(e, slots)
    decreases e, 0
  {
    ExprAgrees(e.left, slots);
    ExprAgrees(e.right, slots);
  }

  lemma CallAgrees(e: Expr, slots: Slots)
    requires e.Call?
    ensures Agrees(e, slots)
    decreases e, 0
  {
    ExprAgrees(e.callee, slots);
    ExprAgrees(e.args, slots);
  }

  lemma SwapAgrees(e: Expr, slots: Slots)
    requires e.Swap?
    ensures Agrees(e, slots)
    decreases e, 0
  {
    ExprAgrees(e.right, slots);
    TargetsAgree(e.targets, slots);
    hide Compiled, GenTargets, CompilableTargets, VisitsListTargets;
  }

  lemma TargetsAgree(targets: seq<Expr>, slots: Slots)
    ensures var n := |Compiled(targets)|;
            && (VisitsListTargets(targets, slots) <==> exists i :: 0 <= i < n && MeetsList(targets[i]))
            && (CompilableTargets(targets, slots) <==> forall i :: 0 <= i < n ==> Survives(targets[i]))
            && (GenTargets(targets, slots).valid <==>
                forall i :: 0 <= i < n ==> Addressed(targets[i]) && HasAddress(targets[i]))
    decreases targets, 0
  {
    if targets != [] {
      ExprAgrees(targets[0], slots);
      TargetsAgree(targets[1..], slots);
      TargetsMore(targets, slots);
      FirstTarget(targets);
      hide *;
    }
  }

  /** What the first target adds to what is said of all that are compiled. */
  lemma FirstTarget(targets: seq<Expr>)
    requires targets != []
    ensures var n, first, stop, rest := |Compiled(targets)|, targets[0], EndsInDeref(targets[0]), targets[1..];
            var m := |Compiled(rest)|;
            && ((exists i :: 0 <= i < n && MeetsList(targets[i])) <==>
                MeetsList(first) || (!stop && exists i :: 0 <= i < m && MeetsList(rest[i])))
            && ((forall i :: 0 <= i < n ==> Survives(targets[i])) <==>
                Survives(first) && (stop || forall i :: 0 <= i < m ==> Survives(rest[i])))
            && ((forall i :: 0 <= i < n ==> Addressed(targets[i]) && HasAddress(targets[i])) <==>
                Addressed(first) && HasAddress(first) &&
                (stop || forall i :: 0 <= i < m ==> Addressed(rest[i]) && HasAddress(rest[i])))
  {
    hide MeetsList, Survives, Addressed, HasAddress, EndsInDeref;
    var rest := targets[1..];
    assert forall i :: 0 < i < |targets| ==> targets[i] == rest[i - 1];
    assert forall i :: 0 <= i < |rest| ==> rest[i] == targets[i + 1];
  }

  /** What the first target adds. */
  lemma TargetsMore(targets: seq<Expr>, slots: Slots)
    requires targets != []
    ensures var first, rest, stop := targets[0], targets[1..], EndsInLoad(targets[0], slots);
            && GenTargets(targets, slots).valid ==
               (Gen(first, slots).valid && Gen(first, slots).last.Some? && (stop || GenTargets(rest, slots).valid))
            && CompilableTargets(targets, slots) ==
               (Compilable(first, slots) && (stop || CompilableTargets(rest, slots)))
            && VisitsListTargets(targets, slots) ==
               (VisitsList(first, slots) || (!stop && VisitsListTargets(rest, slots)))
  {
    hide Gen, Compilable, VisitsList;
  }

  lemma ListAgrees(es: seq<Expr>, slots: Slots)
    ensures CompilableList(es, slots) == Survives(List(es)) && GenList(es, slots).valid == Addressed(List(es))
    decreases es, 0
  {
    if es != [] {
      hide Gen, Compilable, VisitsList, Survives, Addressed, MeetsList;
      ExprAgrees(es[|es| - 1], slots);
      ListAgrees(es[..|es| - 1], slots);
      LastElement(es);
    }
  }

  lemma LastElement(es: seq<Expr>)
    requires es != []
    ensures var last, init := es[|es| - 1], es[..|es| - 1];
            && (Survives(List(es)) <==> Survives(List(init)) && Survives(last) && (|es| > 1 ==> !MeetsList(last)))
            && (Addressed(List(es)) <==> Addressed(List(init)) && Addressed(last))
  {
    var last, init := es[|es| - 1], es[..|es| - 1];
    assert es == init + [last];
    assert forall i :: 0 <= i < |init| ==> es[i] == init[i];
  }

  /** The verdict on an expression, whatever the names in sight. */
  lemma ExprVerdictExact(e: Expr, slots: Slots)
    ensures ExprVerdict(e, slots) == if Survives(e) then Some(Addressed(e)) else None
  {
    ExprAgrees(e, slots);
  }

  // ----- statements -----

  /** All the expressions of a statement. */
  function Parts(s: Stmt): seq<Expr>
    decreases s, 1
  {
    match s
    case Declare(ds) => DeclParts(ds)
    case Compound(body) => AllParts(body)
    case If(c, body) => [c] + AllParts(body)
    case IfElse(c, body, els) => [c] + AllParts(body) + Parts(els)
    case While(c, body) => [c] + AllParts(body)
    case Return(e) => [e]
    case Eval(e) => [e]
    case _ => []
  }

  function AllParts(ss: seq<Stmt>): seq<Expr>
    decreases ss, 0
  {
    if ss == [] then [] else Parts(ss[0]) + AllParts(ss[1..])
  }

  function DeclParts(ds: seq<Decl>): seq<Expr> {
    if ds == [] then []
    else (if ds[0].init.Some? then [ds[0].init.value] else []) + DeclParts(ds[1..])
  }

  /** A crash on one expression is a crash; otherwise one report is a report. */
  function Judgement(es: seq<Expr>): Verdict {
    if forall i :: 0 <= i < |es| ==> Survives(es[i])
    then Some(forall i :: 0 <= i < |es| ==> Addressed(es[i]))
    else None
  }

  lemma JudgedTogether(a: seq<Expr>, b: seq<Expr>)
    ensures Judgement(a + b) == Both(Judgement(a), Judgement(b))
  {
    hide Survives, Addressed;
    var c := a + b;
    assert forall i :: 0 <= i < |a| ==> c[i] == a[i];
    assert forall i :: 0 <= i < |b| ==> c[|a| + i] == b[i];
    assert forall i :: |a| <= i < |c| ==> c[i] == b[i - |a|];
  }

  lemma JudgedAlone(e: Expr, slots: Slots)
    ensures Judgement([e]) == ExprVerdict(e, slots)
  {
    hide Survives, Addressed, ExprVerdict;
    ExprVerdictExact(e, slots);
    assert [e][0] == e;
  }

  lemma {:induction false} DeclsExact(ds: seq<Decl>, slots: Slots, index: int)
    ensures DeclsVerdict(ds, slots, index) == Judgement(DeclParts(ds))
    decreases |ds|
  {
    hide Judgement, ExprVerdict;
    if ds == [] {
      NothingJudged();
    } else {
      var d := ds[0];
      var first := if d.init.Some? then [d.init.value] else [];
      NothingJudged();
      if d.init.Some? {
        JudgedAlone(d.init.value, slots);
      }
      DeclsExact(ds[1..], slots[d.name := index + 1], index + 1);
      JudgedTogether(first, DeclParts(ds[1..]));
    }
  }

  lemma NothingJudged()
    ensures Judgement([]) == Some(true)
  {
  }

  lemma StmtExact(s: Stmt, slots: Slots, index: int)
    ensures StmtVerdict(s, slots, index) == Judgement(Parts(s))
    decreases s, 1
  {
    hide Judgement, ExprVerdict;
    NothingJudged();
    match s
    case Declare(ds) => DeclsExact(ds, slots, index);
    case Compound(body) => StmtsExact(body, slots, index);
    case If(c, body) => TestExact(c, body, slots, index);
    case IfElse(c, body, els) =>
      TestExact(c, body, slots, index);
      StmtExact(els, slots, index);
      JudgedTogether([c] + AllParts(body), Parts(els));
    case While(c, body) => TestExact(c, body, slots, index);
    case Return(e) => JudgedAlone(e, slots);
    case Eval(e) => JudgedAlone(e, slots);
    case _ =>
  }

  lemma TestExact(c: Expr, body: seq<Stmt>, slots: Slots, index: int)
    ensures Both(ExprVerdict(c, slots), StmtsVerdict(body, slots, index)) == Judgement([c] + AllParts(body))
    decreases body, 1
  {
    hide Judgement, ExprVerdict;
    JudgedAlone(c, slots);
    StmtsExact(body, slots, index);
    JudgedTogether([c], AllParts(body));
  }

  lemma StmtsExact(ss: seq<Stmt>, slots: Slots, index: int)
    ensures StmtsVerdict(ss, slots, index) == Judgement(AllParts(ss))
    decreases ss, 0
  {
    hide Judgement, StmtVerdict;
    NothingJudged();
    if ss != [] {
      StmtExact(ss[0], slots, index);
      StmtsExact(ss[1..], SlotsAfter(ss[0], slots, index), IndexAfter(ss[0], index));
      JudgedTogether(Parts(ss[0]), AllParts(ss[1..]));
    }
  }

  /** The generator crashes on a function exactly when it does not survive one of its expressions,
      and otherwise accepts it exactly when every address asked for exists. */
  lemma VerdictExact(f: Function)
    ensures FunctionVerdict(f) == Judgement(AllParts(f.body))
  {
    StmtsExact(f.body, ParamSlots(f.params), |f.params|);
  }

  /** An address of what has none, as in `^5`, is reported. */
  lemma NoAddressReported(e: Expr, results: nat)
    requires Survives(e) && !HasAddress(e)
    ensures FunctionVerdict(Function([], [Return(Ref(e))], results)) == Some(false)
  {
    hide FunctionVerdict;
    var f := Function([], [Return(Ref(e))], results);
    VerdictExact(f);
    assert f.body[1..] == [];
    assert AllParts(f.body) == Parts(f.body[0]) + AllParts([]) == [Ref(e)];
    assert [Ref(e)][0] == Ref(e);
  }
}

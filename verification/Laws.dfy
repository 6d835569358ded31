/**
  Consequences of the semantics a programmer relies on: lvalues and their addresses,
  distinct locals, parallel assignment; and the block list under `get_variable_address`.
*/
module Laws {
  import opened Word64
  import opened Ir
  import opened Source
  import opened Codegen
  import opened Simulation
  import opened Correctness

  // ----- lvalues -----

  /** `@^l` is `l`, and `^@e` is `e`. */
  lemma AddressAndBack(p: Program, l: Expr, e: Expr, env: Env, mem: seq<int>, fuel: nat)
    requires l.Ident? || l.Deref?
    requires Fits(|mem|)
    ensures EvalExpr(p, Deref(Ref(l)), env, mem, fuel) == EvalExpr(p, l, env, mem, fuel)
    ensures EvalExpr(p, Ref(Deref(e)), env, mem, fuel) == Single(EvalExpr(p, e, env, mem, fuel))
  {
    assert EvalExpr(p, Ref(Deref(e)), env, mem, fuel) == Address(p, Deref(e), env, mem, fuel);
    assert EvalExpr(p, Ref(l), env, mem, fuel) == Address(p, l, env, mem, fuel);
  }

  /** The code at `pos` and the code at `pos'` do the same: push the values of `r`, or stop. */
  ghost predicate RunAlike(w: Site, code: seq<Op>, pos: int, n: nat, code': seq<Op>, pos': int, n': nat, r: Value,
                           exec: seq<int>,
                           mem: seq<int>, fuel: nat) {
    && Matches(w.image, Conf(w.c, pos, exec, mem), n, r, w.c, pos + |code|, exec, fuel)
    && Matches(w.image, Conf(w.c, pos', exec, mem), n', r, w.c, pos' + |code'|, exec, fuel)
  }

  /** Two pieces of code that push the same leave the same machine behind. */
  lemma AlikeMachines(w: Site, code: seq<Op>, pos: int, n: nat, code': seq<Op>, pos': int, n': nat, r: Value,
                      exec: seq<int>,
                      mem: seq<int>, fuel: nat)
    requires r.Done? && RunAlike(w, code, pos, n, code', pos', n', r, exec, mem, fuel)
    ensures var m, m' := Run(w.image, Conf(w.c, pos, exec, mem), n), Run(w.image, Conf(w.c, pos', exec, mem), n');
            m.status.Running? && m' == m.(ip := pos' + |code'|)
  {
    hide Run, UnitBlocks;
  }

  /** Run on the machine, the code of `@^l` does what the code of `l` does. */
  lemma AddressAndBackRuns(w: Site, l: Expr, pos: int, pos': int, exec: seq<int>, mem: seq<int>, fuel: nat)
    returns (n: nat, n': nat)
    requires Lvalue(l, w.slots)
    requires Placed(w, pos, Gen(l, w.slots).code, |mem|) && Placed(w, pos', Gen(Deref(Ref(l)), w.slots).code, |mem|)
    ensures RunAlike(w, Gen(l, w.slots).code, pos, n, Gen(Deref(Ref(l)), w.slots).code, pos', n',
                     EvalExpr(w.p, l, w.env, mem, fuel), exec, mem, fuel)
    ensures var m, m' := Run(w.image, Conf(w.c, pos, exec, mem), n), Run(w.image, Conf(w.c, pos', exec, mem), n');
            EvalExpr(w.p, l, w.env, mem, fuel).Done? ==>
              m.status.Running? && m' == m.(ip := pos' + |Gen(Deref(Ref(l)), w.slots).code|)
  {
    hide Run, UnitBlocks, CodeAt, Matches;
    AddressAndBack(w.p, l, l, w.env, mem, fuel);
    n := ExprOk(w, l, pos, exec, mem, fuel);
    n' := ExprOk(w, Deref(Ref(l)), pos', exec, mem, fuel);
    var r := EvalExpr(w.p, l, w.env, mem, fuel);
    if r.Done? {
      AlikeMachines(w, Gen(l, w.slots).code, pos, n, Gen(Deref(Ref(l)), w.slots).code, pos', n', r, exec, mem, fuel);
    }
  }

  /** And the code of `^@e` does what the code of `e` does, where `e` has one value. */
  lemma BackAndAddressRuns(w: Site, e: Expr, pos: int, pos': int, exec: seq<int>, mem: seq<int>, fuel: nat)
    returns (n: nat, n': nat)
    requires Placed(w, pos, Gen(e, w.slots).code, |mem|) && Placed(w, pos', Gen(Ref(Deref(e)), w.slots).code, |mem|)
    ensures RunAlike(w, Gen(e, w.slots).code, pos, n, Gen(Ref(Deref(e)), w.slots).code, pos', n',
                     Single(EvalExpr(w.p, e, w.env, mem, fuel)), exec, mem, fuel)
  {
    hide Run, UnitBlocks, CodeAt, EvalExpr, Gen;
    RefMeaning(w.p, Deref(e), w.env, mem, fuel);
    n := ExprOk(w, e, pos, exec, mem, fuel);
    n' := ExprOk(w, Ref(Deref(e)), pos', exec, mem, fuel);
  }

  // ----- locals do not alias -----

  ghost predicate Separate(env: Env, size: nat) {
    && (forall x :: x in env ==> 0 <= env[x] < size)
    && (forall x, y :: x in env && y in env && x != y ==> env[x] != env[y])
  }

  lemma {:induction false} ParamsSeparate(params: seq<string>, base: nat)
    ensures Separate(BindParams(params, base), base + |params|)
    ensures forall x :: x in BindParams(params, base) ==> base <= BindParams(params, base)[x]
  {
    if params != [] {
      ParamsSeparate(params[..|params| - 1], base);
    }
  }

  lemma {:induction false} DeclsSeparate(p: Program, ds: seq<Decl>, env: Env, mem: seq<int>, fuel: nat)
    requires Separate(env, |mem|)
    ensures var o := DeclareAll(p, ds, env, mem, fuel);
            o.Next? ==> Separate(o.env, |o.mem|)
    decreases |ds|
  {
    if ds != [] {
      var d := ds[0];
      var r := if d.init.Some? then Single(EvalExpr(p, d.init.value, env, mem, fuel)) else Done([0], mem);
      if r.Done? && Fits(|r.mem| + 1) {
        DeclsSeparate(p, ds[1..], env[d.name := |r.mem|], r.mem + [r.vals[0]], fuel);
      }
    }
  }

  /** Whatever a statement does, the locals visible after it still live in distinct cells. */
  lemma {:induction false} LocalsStaySeparate(p: Program, s: Stmt, env: Env, mem: seq<int>, live: nat, fuel: nat)
    requires Separate(env, |mem|)
    ensures var o := Exec(p, s, env, mem, live, fuel);
            o.Next? ==> Separate(o.env, |o.mem|)
    decreases fuel, s
  {
    match s
    case Declare(ds) => DeclsSeparate(p, ds, env, mem, fuel);
    case IfElse(c, body, els) =>
      var r := Single(EvalExpr(p, c, env, mem, fuel));
      if r.Done? {
        LocalsStaySeparate(p, els, env, r.mem, 0, fuel);
      }
    case While(c, body) =>
      var r := Single(EvalExpr(p, c, env, mem, fuel));
      if r.Done? {
        var o := ExecBlock(p, body, env, r.mem, fuel);
        if o.Next? && fuel > 0 {
          LocalsStaySeparate(p, s, env, o.mem, live, fuel - 1);
        }
      }
    case _ =>
  }

  /** Assigning to one local gives it the value and leaves every other local as it was. */
  lemma AssignmentIsLocal(p: Program, x: string, y: string, e: Expr, env: Env, mem: seq<int>, fuel: nat)
    requires Separate(env, |mem|) && x in env && y in env && x != y
    ensures var re, r := Single(EvalExpr(p, e, env, mem, fuel)), EvalExpr(p, Assign(Ident(x), e), env, mem, fuel);
            r.Done? ==>
              re.Done? && EvalExpr(p, Ident(x), env, r.mem, fuel) == Done(re.vals, r.mem)
              && EvalExpr(p, Ident(y), env, r.mem, fuel) == Done([re.mem[env[y]]], r.mem)
  {
  }

  // ----- parallel assignment -----

  predicate DistinctLocals(targets: seq<Expr>, env: Env) {
    && (forall i :: 0 <= i < |targets| ==> targets[i].Ident? && targets[i].name in env)
    && (forall i, j :: 0 <= i < j < |targets| ==> targets[i].name != targets[j].name)
  }

  lemma {:induction false} StoresIndependent(targets: seq<Expr>, vals: seq<int>, env: Env, mem: seq<int>)
    requires Separate(env, |mem|) && Fits(|mem|) && DistinctLocals(targets, env) && |vals| == |targets|
    ensures var r := StoreAll(targets, vals, env, mem);
            && r.Done?
            && (forall i :: 0 <= i < |targets| ==> r.mem[env[targets[i].name]] == vals[i])
            && (forall a :: 0 <= a < |mem| && (forall i :: 0 <= i < |targets| ==> env[targets[i].name] != a) ==>
                r.mem[a] == mem[a])
    decreases |targets|
  {
    if targets != [] {
      var a0 := env[targets[0].name];
      var mem1 := mem[a0 := vals[0]];
      StoresIndependent(targets[1..], vals[1..], env, mem1);
      var r := StoreAll(targets, vals, env, mem);
      assert r == StoreAll(targets[1..], vals[1..], env, mem1);
      forall i | 0 <= i < |targets|
        ensures r.mem[env[targets[i].name]] == vals[i]
      {
        if i > 0 {
          assert targets[i] == targets[1..][i - 1];
        } else {
          assert forall k :: 0 <= k < |targets[1..]| ==> targets[1..][k] == targets[k + 1];
        }
      }
      forall a | 0 <= a < |mem| && (forall i :: 0 <= i < |targets| ==> env[targets[i].name] != a)
        ensures r.mem[a] == mem[a]
      {
        assert env[targets[0].name] != a;
        assert forall k :: 0 <= k < |targets[1..]| ==> targets[1..][k] == targets[k + 1];
      }
    }
  }

  /** `x1, …, xn = e1, …, en`: all right sides are evaluated before the first store, and each
      target receives its own value. */
  lemma ParallelAssignment(p: Program, targets: seq<Expr>, e: Expr, env: Env, mem: seq<int>, fuel: nat)
    requires Separate(env, |mem|) && Fits(|mem|) && DistinctLocals(targets, env)
    ensures var re, r := EvalExpr(p, e, env, mem, fuel), EvalExpr(p, Swap(targets, e), env, mem, fuel);
            && (r.Done? <==> re.Done? && |re.vals| == |targets|)
            && (r.Done? ==> forall i :: 0 <= i < |targets| ==> r.mem[env[targets[i].name]] == re.vals[i])
            && (r.Done? ==>
                forall a :: 0 <= a < |mem| && (forall i :: 0 <= i < |targets| ==> env[targets[i].name] != a) ==>
                  r.mem[a] == re.mem[a])
  {
    var re := EvalExpr(p, e, env, mem, fuel);
    if re.Done? {
      if |re.vals| == |targets| {
        StoresIndependent(targets, re.vals, env, re.mem);
      } else {
        StoresNeedAllValues(targets, re.vals, env, re.mem);
      }
    }
  }

  lemma {:induction false} StoresNeedAllValues(targets: seq<Expr>, vals: seq<int>, env: Env, mem: seq<int>)
    requires |vals| != |targets|
    ensures StoreAll(targets, vals, env, mem).Stopped?
    decreases |targets|
  {
    if targets != [] && vals != [] && targets[0].Ident? && targets[0].name in env {
      var r := Write(mem, env[targets[0].name], vals[0]);
      if r.Done? {
        StoresNeedAllValues(targets[1..], vals[1..], env, r.mem);
      }
    }
  }

  // ----- allocation blocks -----

  /** The blocks lie end to end and cover exactly the first `size` cells. */
  ghost predicate Tiled(blocks: seq<Block>, size: int)
    decreases |blocks|
  {
    if blocks == [] then size == 0
    else
      var last := blocks[|blocks| - 1];
      last.size >= 1 && last.start + last.size == size && Tiled(blocks[..|blocks| - 1], last.start)
  }

  lemma {:induction false} TiledBounds(blocks: seq<Block>, size: int)
    requires Tiled(blocks, size)
    ensures size >= 0
    ensures forall k :: 0 <= k < |blocks| ==>
              0 <= blocks[k].start && blocks[k].start + blocks[k].size <= size && blocks[k].size >= 1
    ensures forall i, j :: 0 <= i < j < |blocks| ==> blocks[i].start + blocks[i].size <= blocks[j].start
    decreases |blocks|
  {
    if blocks != [] {
      TiledBounds(blocks[..|blocks| - 1], blocks[|blocks| - 1].start);
    }
  }

  lemma {:induction false} FreeKeepsTiles(blocks: seq<Block>, data: seq<int>, size: int)
    requires Tiled(blocks, |data|)
    ensures var r := FreeMemory(blocks, data, size);
            r.Some? ==> Tiled(r.value.0, |r.value.1|) && r.value.1 <= data
    decreases |blocks|
  {
    if size > 0 && blocks != [] {
      TiledBounds(blocks, |data|);
      var block := blocks[|blocks| - 1];
      FreeKeepsTiles(Rest(blocks), data[..block.start], size - block.size);
    }
  }

  predicate PositiveAllocs(image: Image) {
    forall f, i :: f in image && 0 <= i < |image[f]| && image[f][i].operation.Alloc? ==> image[f][i].operand >= 1
  }

  /** No opcode of any program, scalar or array, breaks the tiling of the data stack. */
  lemma StepKeepsTiles(image: Image, m: Machine)
    requires PositiveAllocs(image) && Tiled(m.allocations, |m.data|)
    ensures Tiled(Step(image, m).allocations, |Step(image, m).data|)
  {
    if m.status.Running? && m.currFunc != [] {
      var f := m.currFunc[|m.currFunc| - 1];
      if f in image && 0 <= m.ip < |image[f]| {
        ExecuteKeepsTiles(image, image[f][m.ip], m.(ip := m.ip + 1));
      }
    }
  }

  lemma ExecuteKeepsTiles(image: Image, op: Op, m: Machine)
    requires op.operation.Alloc? ==> op.operand >= 1
    requires Tiled(m.allocations, |m.data|)
    ensures Tiled(Execute(image, op, m).allocations, |Execute(image, op, m).data|)
  {
    hide Tiled, FreeMemory, FindBlock, EvalBinary, EvalUnary;
    match op.operation
    case StackFramePop => FreeKeepsTiles(m.allocations, m.data, |m.data| - Top(m.fp));
    case Free => FreeKeepsTiles(m.allocations, m.data, op.operand);
    case Alloc => TiledAppend(m.allocations, |m.data|, op.operand);
    case _ =>
  }

  lemma TiledAppend(blocks: seq<Block>, size: nat, n: int)
    requires Tiled(blocks, size) && n >= 1
    ensures Tiled(blocks + [Block(n, size)], size + n)
  {
  }

  lemma {:induction false} RunKeepsTiles(image: Image, m: Machine, n: nat)
    requires PositiveAllocs(image) && Tiled(m.allocations, |m.data|)
    ensures Tiled(Run(image, m, n).allocations, |Run(image, m, n).data|)
    decreases n
  {
    if n > 0 {
      StepKeepsTiles(image, m);
      RunKeepsTiles(image, Step(image, m), n - 1);
    }
  }

  /** With tiled blocks the search for a slot finds the one block the slot lies in. */
  lemma SlotHasOneBlock(m: Machine, slot: int, k: nat)
    requires Tiled(m.allocations, |m.data|) && k < |m.allocations|
    requires m.allocations[k].start <= Top(m.fp) + slot < m.allocations[k].start + m.allocations[k].size
    ensures VariableAddress(m, slot) == Some(m.allocations[k].start)
  {
    TiledBounds(m.allocations, |m.data|);
    SearchFinds(m.allocations, Top(m.fp) + slot, 0, k);
  }

  lemma {:induction false} SearchFinds(blocks: seq<Block>, address: int, from: nat, k: nat)
    requires from <= k < |blocks|
    requires blocks[k].start <= address <= blocks[k].start + (blocks[k].size - 1)
    requires forall i :: 0 <= i < k ==> blocks[i].start + blocks[i].size <= blocks[k].start
    ensures FindBlock(blocks, address, from) == Some(k)
    decreases k - from
  {
    if from < k {
      SearchFinds(blocks, address, from + 1, k);
    }
  }
}

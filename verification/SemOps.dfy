/**
 The semaphore helpers of common_sem.h over System V semaphores (POSIX.1-2017, semop()): a call
 performs a whole list of operations atomically or blocks, operations with SEM_UNDO also move the
 process's adjustment (semadj) the other way, and the adjustments are added back when the process
 ends. `semop_adj` asks for a change of semadj alone; `semop_many` turns it into two operations.
 */
module SemOps {
  import opened Collections

  datatype Flag = Plain | Undo | AdjustOnly

  datatype SemBuf = SemBuf(num: nat, op: int, flag: Flag)

  function SemopEntry(num: nat, op: int, flag: Flag): SemBuf {
    SemBuf(num, op, flag)
  }

  function SemopAdj(num: nat, adj: int): SemBuf {
    SemBuf(num, adj, AdjustOnly)
  }

  /** The operations handed to the kernel for one argument. */
  function ExpandOne(arg: SemBuf): seq<SemBuf> {
    if arg.flag != AdjustOnly then [arg]
    else if arg.op > 0 then [SemBuf(arg.num, arg.op, Plain), SemBuf(arg.num, -arg.op, Undo)]
    else [SemBuf(arg.num, -arg.op, Undo), SemBuf(arg.num, arg.op, Plain)]
  }

  function Expand(args: seq<SemBuf>): seq<SemBuf> {
    if args == [] then [] else Expand(args[..|args| - 1]) + ExpandOne(args[|args| - 1])
  }

  /** One turn of the loop: the operations for one argument are stored behind those so far. */
  method StoreOps(ops: array<SemBuf>, count: nat, op: SemBuf) returns (more: nat)
    requires count + 2 <= ops.Length
    modifies ops
    ensures count <= more <= count + 2
    ensures ops[..more] == old(ops[..count]) + ExpandOne(op)
  {
    if op.flag != AdjustOnly {
      ops[count] := op;
      more := count + 1;
    } else {
      var adjust := SemopEntry(op.num, op.op, Plain);
      var revert := SemopEntry(op.num, -op.op, Undo);
      if op.op > 0 {
        ops[count] := adjust;
        ops[count + 1] := revert;
      } else {
        ops[count] := revert;
        ops[count + 1] := adjust;
      }
      more := count + 2;
    }
  }

  lemma ExpandSnoc(args: seq<SemBuf>, i: nat)
    requires i < |args|
    ensures Expand(args[..i + 1]) == Expand(args[..i]) + ExpandOne(args[i])
  {
    assert args[..i + 1][..i] == args[..i];
  }

  /** The loop that fills the operation array. It takes `opsNr` arguments, however many are passed. */
  method BuildOps(opsNr: nat, args: seq<SemBuf>) returns (ops: array<SemBuf>, count: nat)
    requires opsNr <= |args|
    ensures fresh(ops) && count <= ops.Length == 2 * opsNr
    ensures ops[..count] == Expand(args[..opsNr])
  {
    ops := new SemBuf[2 * opsNr](_ => SemBuf(0, 0, Plain));
    count := 0;
    for i := 0 to opsNr
      invariant count <= 2 * i
      invariant ops[..count] == Expand(args[..i])
    {
      ExpandSnoc(args, i);
      count := StoreOps(ops, count, args[i]);
    }
  }

  /** The semaphore values, and the adjustments recorded for the calling process. */
  datatype Sems = Sems(values: seq<nat>, adj: seq<int>)

  predicate InBounds(st: Sems, ops: seq<SemBuf>) {
    |st.adj| == |st.values| && forall o :: o in ops ==> o.num < |st.values|
  }

  /** One operation; None where it would block. */
  function Operate(st: Sems, o: SemBuf): (r: Option<Sems>)
    requires |st.adj| == |st.values| && o.num < |st.values|
    ensures r.Some? ==> |r.value.adj| == |r.value.values| == |st.values|
  {
    var v := st.values[o.num];
    if o.op == 0 && v != 0 then None
    else if v + o.op < 0 then None
    else Some(Sems(st.values[o.num := v + o.op],
                   if o.flag == Undo then st.adj[o.num := st.adj[o.num] - o.op] else st.adj))
  }

  /** A list of operations, all or none; None where the caller blocks. */
  function Semop(st: Sems, ops: seq<SemBuf>): (r: Option<Sems>)
    requires InBounds(st, ops)
    ensures r.Some? ==> |r.value.adj| == |r.value.values| == |st.values|
    decreases |ops|
  {
    if ops == [] then Some(st)
    else
      match Operate(st, ops[0])
      case None => None
      case Some(next) => Semop(next, ops[1..])
  }

  /** The end of a process: its adjustments are added, values stop at zero. */
  function Exit(st: Sems): (values: seq<nat>)
    requires |st.adj| == |st.values|
    ensures |values| == |st.values|
  {
    seq(|st.values|, i requires 0 <= i < |st.values| =>
      if st.values[i] + st.adj[i] < 0 then 0 else st.values[i] + st.adj[i])
  }

  /** The result of an adjustment: the values untouched, semadj moved by exactly the amount. */
  function Adjusted(st: Sems, arg: SemBuf): (r: Sems)
    requires |st.adj| == |st.values| && arg.num < |st.values|
    ensures |r.adj| == |r.values| == |st.values|
  {
    Sems(st.values, st.adj[arg.num := st.adj[arg.num] + arg.op])
  }

  /** What an argument is meant to do: an adjustment touches semadj alone and never blocks. */
  function Intended(st: Sems, arg: SemBuf): Option<Sems>
    requires |st.adj| == |st.values| && arg.num < |st.values|
  {
    if arg.flag == AdjustOnly then Some(Adjusted(st, arg)) else Operate(st, arg)
  }

  function IntendedAll(st: Sems, args: seq<SemBuf>): (r: Option<Sems>)
    requires InBounds(st, args)
    ensures r.Some? ==> |r.value.adj| == |r.value.values| == |st.values|
    decreases |args|
  {
    if args == [] then Some(st)
    else
      match Intended(st, args[0])
      case None => None
      case Some(next) => IntendedAll(next, args[1..])
  }

  /** `semop_adj` with a zero argument becomes two waits for zero. */
  predicate ZeroAdjustment(arg: SemBuf) {
    arg.flag == AdjustOnly && arg.op == 0
  }

  lemma SemopOne(st: Sems, o: SemBuf)
    requires |st.adj| == |st.values| && o.num < |st.values|
    ensures Semop(st, [o]) == Operate(st, o)
  {
    if Operate(st, o).Some? {
      assert [o][1..] == [];
      assert Semop(Operate(st, o).value, []) == Operate(st, o);
    }
  }

  lemma SemopTwo(st: Sems, o: SemBuf, q: SemBuf)
    requires |st.adj| == |st.values| && o.num < |st.values| && q.num < |st.values|
    ensures Semop(st, [o, q]) == if Operate(st, o).None? then None else Operate(Operate(st, o).value, q)
  {
    assert [o, q][0] == o && [o, q][1] == q;
    assert [o, q][1..] == [q];
    if Operate(st, o).Some? {
      SemopOne(Operate(st, o).value, q);
    }
  }

  /** Taking an operation back restores the value; what remains is in semadj. */
  lemma BackAgain(st: Sems, mid: Sems, num: nat, step: int, back: SemBuf)
    requires |mid.adj| == |st.adj| == |st.values| && num < |st.values| && back.num == num
    requires step > 0 && back.op == -step
    requires mid.values == st.values[num := st.values[num] + step]
    ensures Operate(mid, back) ==
      Some(Sems(st.values, if back.flag == Undo then mid.adj[num := mid.adj[num] + step] else mid.adj))
  {
    assert mid.values[num := st.values[num]] == st.values;
  }

  lemma RaiseMeaning(st: Sems, num: nat, adj: int, ops: seq<SemBuf>)
    requires |st.adj| == |st.values| && num < |st.values| && adj > 0
    requires ops == [SemBuf(num, adj, Plain), SemBuf(num, -adj, Undo)]
    ensures Semop(st, ops) == Some(Sems(st.values, st.adj[num := st.adj[num] + adj]))
  {
    var up, down := SemBuf(num, adj, Plain), SemBuf(num, -adj, Undo);
    var mid := Sems(st.values[num := st.values[num] + adj], st.adj);
    assert Operate(st, up) == Some(mid);
    BackAgain(st, mid, num, adj, down);
    SemopTwo(st, up, down);
  }

  lemma LowerMeaning(st: Sems, num: nat, adj: int, ops: seq<SemBuf>)
    requires |st.adj| == |st.values| && num < |st.values| && adj < 0
    requires ops == [SemBuf(num, -adj, Undo), SemBuf(num, adj, Plain)]
    ensures Semop(st, ops) == Some(Sems(st.values, st.adj[num := st.adj[num] + adj]))
  {
    var up, down := SemBuf(num, -adj, Undo), SemBuf(num, adj, Plain);
    var mid := Sems(st.values[num := st.values[num] - adj], st.adj[num := st.adj[num] + adj]);
    assert Operate(st, up) == Some(mid);
    BackAgain(st, mid, num, -adj, down);
    SemopTwo(st, up, down);
  }

  lemma ZeroMeaning(st: Sems, num: nat, ops: seq<SemBuf>)
    requires |st.adj| == |st.values| && num < |st.values|
    requires ops == [SemBuf(num, 0, Undo), SemBuf(num, 0, Plain)]
    ensures Semop(st, ops) == if st.values[num] != 0 then None else Some(st)
  {
    SemopTwo(st, SemBuf(num, 0, Undo), SemBuf(num, 0, Plain));
    if st.values[num] == 0 {
      assert st.values[num := 0] == st.values && st.adj[num := st.adj[num]] == st.adj;
    }
  }

  /**
   A nonzero adjustment never blocks, leaves every value alone and moves semadj by exactly the
   amount. A zero one waits for zero.
   */
  lemma AdjustMeaning(st: Sems, arg: SemBuf, ops: seq<SemBuf>)
    requires |st.adj| == |st.values| && arg.num < |st.values| && arg.flag == AdjustOnly && ops == ExpandOne(arg)
    ensures Semop(st, ops) ==
      if ZeroAdjustment(arg) && st.values[arg.num] != 0 then None else Some(Adjusted(st, arg))
  {
    if arg.op != 0 {
      NonzeroAdjustment(st, arg, ops);
    } else {
      NoAdjustment(st, arg, ops);
    }
  }

  lemma NonzeroAdjustment(st: Sems, arg: SemBuf, ops: seq<SemBuf>)
    requires |st.adj| == |st.values| && arg.num < |st.values| && arg.flag == AdjustOnly && ops == ExpandOne(arg)
    requires arg.op != 0
    ensures Semop(st, ops) == Some(Adjusted(st, arg))
  {
    if arg.op > 0 {
      RaiseMeaning(st, arg.num, arg.op, ops);
    } else {
      LowerMeaning(st, arg.num, arg.op, ops);
    }
  }

  lemma NoAdjustment(st: Sems, arg: SemBuf, ops: seq<SemBuf>)
    requires |st.adj| == |st.values| && arg.num < |st.values| && ZeroAdjustment(arg) && ops == ExpandOne(arg)
    ensures Semop(st, ops) == if st.values[arg.num] != 0 then None else Some(Adjusted(st, arg))
  {
    ZeroMeaning(st, arg.num, ops);
    assert st.adj[arg.num := st.adj[arg.num]] == st.adj;
  }

  /**
   One argument does what is meant unless it is a zero adjustment of a semaphore that is not zero:
   then the call blocks. An adjustment of any other amount never blocks, leaves every value alone
   and changes semadj by exactly that amount.
   */
  lemma ExpandOneMeaning(st: Sems, arg: SemBuf)
    requires |st.adj| == |st.values| && arg.num < |st.values|
    ensures InBounds(st, ExpandOne(arg))
    ensures Semop(st, ExpandOne(arg)) == Intended(st, arg) <==> !(ZeroAdjustment(arg) && st.values[arg.num] != 0)
    ensures ZeroAdjustment(arg) && st.values[arg.num] != 0 ==> Semop(st, ExpandOne(arg)) == None
  {
    if arg.flag != AdjustOnly {
      SemopOne(st, arg);
    } else {
      AdjustMeaning(st, arg, ExpandOne(arg));
    }
  }

  lemma {:induction false} SemopConcat(st: Sems, a: seq<SemBuf>, b: seq<SemBuf>)
    requires InBounds(st, a) && InBounds(st, b)
    ensures InBounds(st, a + b)
    ensures Semop(st, a + b) == if Semop(st, a).None? then None else Semop(Semop(st, a).value, b)
    decreases |a|
  {
    if a == [] {
      assert a + b == b;
    } else {
      assert (a + b)[1..] == a[1..] + b;
      assert (a + b)[0] == a[0];
      if Operate(st, a[0]).Some? {
        SemopConcat(Operate(st, a[0]).value, a[1..], b);
      }
    }
  }

  lemma {:induction false} IntendedSnoc(st: Sems, args: seq<SemBuf>, arg: SemBuf)
    requires InBounds(st, args) && arg.num < |st.values|
    ensures InBounds(st, args + [arg])
    ensures IntendedAll(st, args + [arg]) ==
      if IntendedAll(st, args).None? then None else Intended(IntendedAll(st, args).value, arg)
    decreases |args|
  {
    if args == [] {
      assert args + [arg] == [arg];
      assert [arg][1..] == [];
    } else {
      assert (args + [arg])[1..] == args[1..] + [arg];
      assert (args + [arg])[0] == args[0];
      if Intended(st, args[0]).Some? {
        IntendedSnoc(Intended(st, args[0]).value, args[1..], arg);
      }
    }
  }

  /** Everything before some zero adjustment gets through, and its semaphore is then not zero. */
  predicate Spoiled(st: Sems, args: seq<SemBuf>)
    requires InBounds(st, args)
    decreases |args|
  {
    args != [] &&
    var front, last := args[..|args| - 1], args[|args| - 1];
    assert forall o :: o in front ==> o in args;
    || Spoiled(st, front)
    || (ZeroAdjustment(last) && IntendedAll(st, front).Some? && IntendedAll(st, front).value.values[last.num] != 0)
  }

  lemma {:induction false} ExpandAll(st: Sems, args: seq<SemBuf>)
    requires InBounds(st, args)
    ensures InBounds(st, Expand(args))
    ensures Semop(st, Expand(args)) == if Spoiled(st, args) then None else IntendedAll(st, args)
    decreases |args|
  {
    if args != [] {
      var front, last := args[..|args| - 1], args[|args| - 1];
      assert args == front + [last];
      assert forall o :: o in front ==> o in args;
      ExpandAll(st, front);
      ExpandOneMeaning(st, last);
      SemopConcat(st, Expand(front), ExpandOne(last));
      IntendedSnoc(st, front, last);
      if IntendedAll(st, front).Some? {
        ExpandOneMeaning(IntendedAll(st, front).value, last);
      }
    }
  }

  /** What the kernel makes of a call `semop_many(sem, opsNr, args...)`. */
  function SemopMany(st: Sems, opsNr: nat, args: seq<SemBuf>): (r: Option<Sems>)
    requires opsNr <= |args| && InBounds(st, Expand(args[..opsNr]))
    ensures r.Some? ==> |r.value.adj| == |r.value.values| == |st.values|
  {
    Semop(st, Expand(args[..opsNr]))
  }

  /**
   A call does what its first `opsNr` arguments mean, all or nothing, if and only if no zero
   adjustment spoils it or they would block anyway. The arguments after those are not looked at.
   */
  lemma ExpandMeaning(st: Sems, opsNr: nat, args: seq<SemBuf>)
    requires opsNr <= |args| && InBounds(st, args[..opsNr])
    ensures InBounds(st, Expand(args[..opsNr]))
    ensures SemopMany(st, opsNr, args) == IntendedAll(st, args[..opsNr])
      <==> !Spoiled(st, args[..opsNr]) || IntendedAll(st, args[..opsNr]).None?
    ensures Spoiled(st, args[..opsNr]) ==> SemopMany(st, opsNr, args) == None
  {
    ExpandAll(st, args[..opsNr]);
  }

  lemma {:induction false} NothingSpoils(st: Sems, args: seq<SemBuf>)
    requires InBounds(st, args) && forall i :: 0 <= i < |args| ==> !ZeroAdjustment(args[i])
    ensures !Spoiled(st, args)
    decreases |args|
  {
    if args != [] {
      var front := args[..|args| - 1];
      assert forall o :: o in front ==> o in args;
      NothingSpoils(st, front);
    }
  }

  /** A zero adjustment in a list can make the whole call block although it means nothing at all. */
  lemma ZeroAdjustmentBlocks()
    ensures var st := Sems([1], [0]);
      Semop(st, Expand([SemopAdj(0, 0)])) == None && IntendedAll(st, [SemopAdj(0, 0)]) == Some(st)
  {
    var st := Sems([1], [0]);
    var arg := SemopAdj(0, 0);
    assert [arg][..0] == [] && [arg][1..] == [];
    assert Expand([arg]) == ExpandOne(arg);
    ExpandOneMeaning(st, arg);
    assert st.adj[0 := 0] == st.adj;
  }
}

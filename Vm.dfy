/** The stack machine: three towers, one of which is the current stack; a
    fetch/execute loop over the instruction array that dispatches each
    opcode to the `does` action of its rule in the token table. */
module Vm {
  import opened Lexer
  import opened Seqs
  import Compiler

  /** The machine state: the three towers (top of a tower is its last
      element), the index of the current tower, the program counter and the
      UTF-16 code units written to standard output so far. */
  datatype State = State(towers: seq<seq<int>>, cur: nat, pc: nat, out: seq<int>)

  ghost predicate Valid(s: State) {
    |s.towers| == 3 && s.cur < 3
  }

  /** Three empty towers, the first one current. */
  const Initial := State([[], [], []], 0, 0, [])

  function Top(c: seq<int>): int
    requires |c| > 0
  {
    c[|c| - 1]
  }

  function Popped(c: seq<int>): seq<int>
    requires |c| > 0
  {
    c[..|c| - 1]
  }

  /** `String.fromCharCode` of an integer: the code unit modulo 2^16. */
  function CharCode(v: int): (u: int)
    ensures 0 <= u < 0x1_0000
    ensures 0 <= v < 0x1_0000 ==> u == v
    ensures (u - v) % 0x1_0000 == 0
  {
    v % 0x1_0000
  }

  /** The output of writing each value, in order. */
  function Emit(vs: seq<int>): (us: seq<int>)
    ensures |us| == |vs|
    ensures forall i :: 0 <= i < |vs| ==> us[i] == CharCode(vs[i])
  {
    seq(|vs|, i requires 0 <= i < |vs| => CharCode(vs[i]))
  }

  /** `s` with `c` as its current tower. */
  function SetCurrent(s: State, c: seq<int>): (r: State)
    requires Valid(s)
  {
    s.(towers := s.towers[s.cur := c])
  }

  // ---------------------------------------------------------------------
  // The `does` actions, one function each.

  /** LITERAL: step onto the operand slot and push its value. */
  function DoLiteral(inst: seq<int>, s: State): (r: State)
    requires Valid(s) && s.pc + 1 < |inst|
  {
    SetCurrent(s, s.towers[s.cur] + [inst[s.pc + 1]]).(pc := s.pc + 1)
  }

  /** One move of HANOI: pop the top of tower `from`, push it on tower `to`. */
  function MoveOne(ts: seq<seq<int>>, from: nat, to: nat): (r: seq<seq<int>>)
    requires |ts| == 3 && from < 3 && to < 3 && |ts[from]| > 0
  {
    var v := Top(ts[from]);
    var popped := ts[from := Popped(ts[from])];
    popped[to := popped[to] + [v]]
  }

  /** `k` moves never pop an empty tower: the tower holds `k` items, or it is
      its own target and every item it gives up comes straight back. */
  predicate CanMove(ts: seq<seq<int>>, from: nat, to: nat, k: nat)
    requires |ts| == 3 && from < 3 && to < 3
  {
    k <= |ts[from]| || (from == to && |ts[from]| > 0)
  }

  /** `k` moves of HANOI, one after the other. */
  function MoveN(ts: seq<seq<int>>, from: nat, to: nat, k: nat): (r: seq<seq<int>>)
    requires |ts| == 3 && from < 3 && to < 3 && CanMove(ts, from, to, k)
    ensures |r| == 3
    ensures |r[from]| == if from == to then |ts[from]| else |ts[from]| - k
    decreases k
  {
    if k == 0 then ts else MoveOne(MoveN(ts, from, to, k - 1), from, to)
  }

  /** The number of moves of HANOI: `count-- > 0` runs `count` times, and
      not at all for a count below one. */
  function MoveCount(count: int): nat {
    if count > 0 then count else 0
  }

  /** HANOI may be dispatched: the current tower holds the target (an index
      of a tower) on top of the count, and no move pops an empty tower:
      there are enough items under them, or the target is the current tower
      itself and something lies under them. */
  predicate HanoiReady(s: State)
    requires Valid(s)
  {
    var c := s.towers[s.cur];
    && |c| >= 2 && 0 <= c[|c| - 1] < 3
    && (MoveCount(c[|c| - 2]) <= |c| - 2 || (c[|c| - 1] == s.cur && |c| > 2))
  }

  /** HANOI: pop the target and the count, move `count` items from the
      current tower to the target tower, and make the target current. */
  function DoHanoi(s: State): (r: State)
    requires Valid(s) && HanoiReady(s)
  {
    var c := s.towers[s.cur];
    var target := c[|c| - 1];
    var count := c[|c| - 2];
    var popped := s.towers[s.cur := c[..|c| - 2]];
    s.(towers := MoveN(popped, s.cur, target, MoveCount(count)), cur := target)
  }

  /** POP: drop the top of the current tower; nothing happens on an empty
      tower (the popped `undefined` is discarded). */
  function DoPop(s: State): (r: State)
    requires Valid(s)
  {
    var c := s.towers[s.cur];
    if c == [] then s else SetCurrent(s, Popped(c))
  }

  /** `c` after PRINT has popped down to and including its topmost 0, and the
      values it popped before, in pop order. */
  function PopUntilZero(c: seq<int>): (r: (seq<int>, seq<int>))
    requires 0 in c
    decreases |c|
  {
    var v := Top(c);
    if v == 0 then (Popped(c), [])
    else
      assert 0 in Popped(c) by { assert c == Popped(c) + [v]; }
      var rest := PopUntilZero(Popped(c));
      (rest.0, [v] + rest.1)
  }

  /** One pop of PRINT: a 0 on top ends it, any other value is written
      before the rest. */
  lemma PopUntilZeroStep(c: seq<int>, v: int)
    requires 0 in c + [v]
    ensures v != 0 ==> 0 in c
    ensures PopUntilZero(c + [v]) ==
              if v == 0 then (c, []) else (PopUntilZero(c).0, [v] + PopUntilZero(c).1)
  {
    assert Popped(c + [v]) == c;
    if v != 0 {
      assert (c + [v])[|c|] != 0;
    }
  }

  lemma EmitAppend(a: seq<int>, b: seq<int>)
    ensures Emit(a + b) == Emit(a) + Emit(b)
  {
  }

  /** PRINT: pop and write values until a 0 is popped. */
  function DoPrint(s: State): (r: State)
    requires Valid(s) && 0 in s.towers[s.cur]
  {
    var p := PopUntilZero(s.towers[s.cur]);
    SetCurrent(s, p.0).(out := s.out + Emit(p.1))
  }

  /** ADD: replace the top two values by their sum. */
  function DoAdd(s: State): (r: State)
    requires Valid(s) && |s.towers[s.cur]| >= 2
  {
    var c := s.towers[s.cur];
    SetCurrent(s, c[..|c| - 2] + [c[|c| - 1] + c[|c| - 2]])
  }

  /** DUP: push a copy of the top. */
  function DoDup(s: State): (r: State)
    requires Valid(s) && |s.towers[s.cur]| >= 1
  {
    var c := s.towers[s.cur];
    SetCurrent(s, c + [Top(c)])
  }

  /** OUT: pop one value and write it. */
  function DoOut(s: State): (r: State)
    requires Valid(s) && |s.towers[s.cur]| >= 1
  {
    var c := s.towers[s.cur];
    SetCurrent(s, Popped(c)).(out := s.out + [CharCode(Top(c))])
  }

  /** One iteration of `run`: the `does` action of the opcode at `pc`, then
      `pc++`. `None` stands for what the source leaves undefined: an opcode
      that is not a rule with a `does` action, or an action whose stack (or
      LITERAL operand) is not there. */
  function Step(inst: seq<int>, s: State): (r: Option<State>)
    requires Valid(s) && s.pc < |inst|
    ensures r.Some? ==> Valid(r.value) && s.pc < r.value.pc <= |inst|
  {
    var op := inst[s.pc];
    var c := s.towers[s.cur];
    if !(0 <= op < |Rules|) then None
    else
      var t :=
        match Rules[op]
        case Literal => if s.pc + 1 < |inst| then Some(DoLiteral(inst, s)) else None
        case Hanoi => if HanoiReady(s) then Some(DoHanoi(s)) else None
        case Swap => Some(s)
        case Pop => Some(DoPop(s))
        case Print => if 0 in c then Some(DoPrint(s)) else None
        case Add => if |c| >= 2 then Some(DoAdd(s)) else None
        case Dup => if |c| >= 1 then Some(DoDup(s)) else None
        case Out => if |c| >= 1 then Some(DoOut(s)) else None
        case _ => None;
      if t.None? then None else Some(t.value.(pc := t.value.pc + 1))
  }

  /** `run` from state `s`: step until `pc` leaves the instruction array. */
  function Exec(inst: seq<int>, s: State): (r: Option<State>)
    requires Valid(s) && s.pc <= |inst|
    decreases |inst| - s.pc
  {
    if s.pc == |inst| then Some(s)
    else match Step(inst, s)
      case None => None
      case Some(t) => Exec(inst, t)
  }

  // ---------------------------------------------------------------------
  // What the actions do to the towers.

  /** The items of the three towers, as a multiset. */
  function Items(ts: seq<seq<int>>): multiset<int>
    requires |ts| == 3
  {
    multiset(ts[0]) + multiset(ts[1]) + multiset(ts[2])
  }

  /** The tower that is neither `i` nor `j`. */
  function Third(i: nat, j: nat): (k: nat)
    requires i < 3 && j < 3 && i != j
    ensures k < 3 && k != i && k != j
  {
    3 - i - j
  }

  /** `k` moves between two different towers take the top `k` items of
      `from` and put them on `to` in pop order (the first popped lowest);
      the third tower is untouched. */
  lemma {:induction false} MoveNBetweenTowers(ts: seq<seq<int>>, from: nat, to: nat, k: nat)
    requires |ts| == 3 && from < 3 && to < 3 && from != to && k <= |ts[from]|
    ensures MoveN(ts, from, to, k)[from] == ts[from][..|ts[from]| - k]
    ensures MoveN(ts, from, to, k)[to] == ts[to] + Reverse(ts[from][|ts[from]| - k..])
    ensures MoveN(ts, from, to, k)[Third(from, to)] == ts[Third(from, to)]
    decreases k
  {
    if k > 0 {
      MoveNBetweenTowers(ts, from, to, k - 1);
      var src := ts[from];
      var moved := src[|src| - (k - 1)..];
      assert src[|src| - k..] == [src[|src| - k]] + moved;
      assert Reverse(src[|src| - k..]) == Reverse(moved) + [src[|src| - k]];
      assert src[..|src| - (k - 1)][..|src| - k] == src[..|src| - k];
    }
  }

  /** Moves from a tower onto itself pop and push back the same item, however
      many moves there are. */
  lemma {:induction false} MoveNOntoItself(ts: seq<seq<int>>, from: nat, k: nat)
    requires |ts| == 3 && from < 3 && CanMove(ts, from, from, k)
    ensures MoveN(ts, from, from, k) == ts
    decreases k
  {
    if k > 0 {
      MoveNOntoItself(ts, from, k - 1);
      assert Popped(ts[from]) + [Top(ts[from])] == ts[from];
    }
  }

  lemma ItemsUpdate(ts: seq<seq<int>>, i: nat, x: seq<int>)
    requires |ts| == 3 && i < 3
    ensures Items(ts[i := x]) + multiset(ts[i]) == Items(ts) + multiset(x)
  {
  }

  lemma ItemsSplit(ts: seq<seq<int>>, i: nat, x: seq<int>, y: seq<int>)
    requires |ts| == 3 && i < 3 && ts[i] == x + y
    ensures Items(ts[i := x]) + multiset(y) == Items(ts)
  {
    assert multiset(ts[i]) == multiset(x) + multiset(y);
  }

  lemma MoveOneKeepsItems(ts: seq<seq<int>>, from: nat, to: nat)
    requires |ts| == 3 && from < 3 && to < 3 && |ts[from]| > 0
    ensures Items(MoveOne(ts, from, to)) == Items(ts)
  {
    var popped := ts[from := Popped(ts[from])];
    assert ts[from] == Popped(ts[from]) + [Top(ts[from])];
    ItemsUpdate(ts, from, Popped(ts[from]));
    ItemsUpdate(popped, to, popped[to] + [Top(ts[from])]);
  }

  /** No move creates or destroys an item. */
  lemma {:induction false} MoveNKeepsItems(ts: seq<seq<int>>, from: nat, to: nat, k: nat)
    requires |ts| == 3 && from < 3 && to < 3 && CanMove(ts, from, to, k)
    ensures Items(MoveN(ts, from, to, k)) == Items(ts)
    decreases k
  {
    if k > 0 {
      assert CanMove(ts, from, to, k - 1);
      var m := MoveN(ts, from, to, k - 1);
      assert |m[from]| > 0;
      MoveNKeepsItems(ts, from, to, k - 1);
      MoveOneKeepsItems(m, from, to);
      assert MoveN(ts, from, to, k) == MoveOne(m, from, to);
    }
  }

  /** HANOI pops the target and the count and makes the target current.
      Onto the current tower it leaves the items below the operands as they
      were, whatever the count; otherwise it moves max(count, 0) items from
      the current tower to the target in pop order and leaves the remaining
      tower as it was. */
  lemma HanoiMovesToTarget(s: State)
    requires Valid(s) && HanoiReady(s)
    ensures var c := s.towers[s.cur];
            var target := c[|c| - 1];
            var rest := c[..|c| - 2];
            var k := MoveCount(c[|c| - 2]);
            var r := DoHanoi(s);
            && r.cur == target
            && (target == s.cur ==> r.towers == s.towers[s.cur := rest])
            && (target != s.cur ==>
                  && r.towers[s.cur] == rest[..|rest| - k]
                  && r.towers[target] == s.towers[target] + Reverse(rest[|rest| - k..])
                  && r.towers[Third(s.cur, target)] == s.towers[Third(s.cur, target)])
  {
    var c := s.towers[s.cur];
    var rest := c[..|c| - 2];
    var popped := s.towers[s.cur := rest];
    var target, k := c[|c| - 1], MoveCount(c[|c| - 2]);
    assert CanMove(popped, s.cur, target, k);
    assert DoHanoi(s) == s.(towers := MoveN(popped, s.cur, target, k), cur := target);
    if target == s.cur {
      MoveNOntoItself(popped, s.cur, k);
    } else {
      assert k <= |rest| && popped[s.cur] == rest && popped[target] == s.towers[target];
      assert popped[Third(s.cur, target)] == s.towers[Third(s.cur, target)];
      MoveNBetweenTowers(popped, s.cur, target, k);
    }
  }

  /** Taking `operands` off the top of tower `i` and then moving items
      between the towers loses exactly the operands. */
  lemma MovesAfterPopKeepItems(ts: seq<seq<int>>, i: nat, rest: seq<int>, operands: seq<int>, to: nat, k: nat)
    requires |ts| == 3 && i < 3 && to < 3 && ts[i] == rest + operands
    requires CanMove(ts[i := rest], i, to, k)
    ensures Items(MoveN(ts[i := rest], i, to, k)) + multiset(operands) == Items(ts)
  {
    MoveNKeepsItems(ts[i := rest], i, to, k);
    ItemsSplit(ts, i, rest, operands);
  }

  /** HANOI consumes its two operands and keeps every other item. */
  lemma HanoiKeepsItems(s: State)
    requires Valid(s) && HanoiReady(s)
    ensures var c := s.towers[s.cur];
            Items(DoHanoi(s).towers) + multiset{c[|c| - 1], c[|c| - 2]} == Items(s.towers)
  {
    var c := s.towers[s.cur];
    var rest := c[..|c| - 2];
    var operands := [c[|c| - 2], c[|c| - 1]];
    var target, k := c[|c| - 1], MoveCount(c[|c| - 2]);
    assert c == rest + operands;
    MovesAfterPopKeepItems(s.towers, s.cur, rest, operands, target, k);
    assert DoHanoi(s).towers == MoveN(s.towers[s.cur := rest], s.cur, target, k);
    assert multiset(operands) == multiset{c[|c| - 1], c[|c| - 2]};
  }

  /** PRINT on a tower `a + [0] + b` whose part above the 0 holds no 0:
      it writes `b` from the top down and leaves `a`. */
  lemma {:induction false} PopUntilZeroWrites(a: seq<int>, b: seq<int>)
    requires 0 !in b
    ensures 0 in a + [0] + b
    ensures PopUntilZero(a + [0] + b) == (a, Reverse(b))
    decreases |b|
  {
    var c := a + [0] + b;
    assert c[|a|] == 0;
    if b != [] {
      assert Popped(c) == a + [0] + Popped(b);
      assert 0 !in Popped(b) by { assert b == Popped(b) + [Top(b)]; }
      PopUntilZeroWrites(a, Popped(b));
      assert Top(c) == Top(b) && Top(b) in b;
      assert Reverse(b) == [Top(b)] + Reverse(Popped(b)) by {
        assert b == Popped(b) + [Top(b)];
      }
    } else {
      assert Popped(c) == a;
    }
  }

  /** LITERAL pushes its operand and execution resumes after the operand. */
  lemma LiteralStep(inst: seq<int>, s: State)
    requires Valid(s) && s.pc + 1 < |inst| && inst[s.pc] == Opcode(Literal)
    ensures Step(inst, s) == Some(SetCurrent(s, s.towers[s.cur] + [inst[s.pc + 1]]).(pc := s.pc + 2))
  {
  }

  /** HANOI, when its operands are there, is its action and `pc++`. */
  lemma HanoiStep(inst: seq<int>, s: State)
    requires Valid(s) && s.pc < |inst| && inst[s.pc] == Opcode(Hanoi)
    requires HanoiReady(s)
    ensures Step(inst, s) == Some(DoHanoi(s).(pc := s.pc + 1))
  {
  }

  /** PRINT pops down to the first 0 and writes what it popped. */
  lemma PrintStep(inst: seq<int>, s: State)
    requires Valid(s) && s.pc < |inst| && inst[s.pc] == Opcode(Print)
    requires 0 in s.towers[s.cur]
    ensures Step(inst, s) == Some(DoPrint(s).(pc := s.pc + 1))
  {
  }

  /** SWAP changes nothing but the program counter. */
  lemma SwapStep(inst: seq<int>, s: State)
    requires Valid(s) && s.pc < |inst| && inst[s.pc] == Opcode(Swap)
    ensures Step(inst, s) == Some(s.(pc := s.pc + 1))
  {
  }

  /** POP shortens a non-empty current tower by one and keeps what is
      below the top. */
  lemma PopStep(inst: seq<int>, s: State)
    requires Valid(s) && s.pc < |inst| && inst[s.pc] == Opcode(Pop)
    ensures Step(inst, s).Some?
    ensures var c := s.towers[s.cur];
            var c' := Step(inst, s).value.towers[s.cur];
            |c'| == (if c == [] then 0 else |c| - 1) && c' <= c
  {
  }

  /** ADD replaces the top two values of the current tower by their sum. */
  lemma AddStep(inst: seq<int>, s: State)
    requires Valid(s) && s.pc < |inst| && inst[s.pc] == Opcode(Add)
    requires |s.towers[s.cur]| >= 2
    ensures Step(inst, s).Some?
    ensures var c := s.towers[s.cur];
            var c' := Step(inst, s).value.towers[s.cur];
            |c'| == |c| - 1 && c'[..|c| - 2] == c[..|c| - 2] && Top(c') == c[|c| - 1] + c[|c| - 2]
  {
  }

  /** DUP grows the current tower by one, the new top equal to the old. */
  lemma DupStep(inst: seq<int>, s: State)
    requires Valid(s) && s.pc < |inst| && inst[s.pc] == Opcode(Dup)
    requires |s.towers[s.cur]| >= 1
    ensures Step(inst, s).Some?
    ensures var c := s.towers[s.cur];
            var c' := Step(inst, s).value.towers[s.cur];
            |c'| == |c| + 1 && Popped(c') == c && Top(c') == Top(c)
  {
  }

  /** OUT writes the top of the current tower and pops it. */
  lemma OutStep(inst: seq<int>, s: State)
    requires Valid(s) && s.pc < |inst| && inst[s.pc] == Opcode(Out)
    requires |s.towers[s.cur]| >= 1
    ensures Step(inst, s).Some?
    ensures var c := s.towers[s.cur];
            var r := Step(inst, s).value;
            r.towers[s.cur] == Popped(c) && r.out == s.out + [CharCode(Top(c))]
  {
  }

  /** Every action except HANOI works on the current tower alone: the other
      towers stay, the current index stays, and only PRINT and OUT write. */
  lemma StepKeepsOtherTowers(inst: seq<int>, s: State, i: nat)
    requires Valid(s) && s.pc < |inst| && Step(inst, s).Some?
    requires inst[s.pc] != Opcode(Hanoi) && i < 3 && i != s.cur
    ensures Step(inst, s).value.towers[i] == s.towers[i]
    ensures Step(inst, s).value.cur == s.cur
    ensures inst[s.pc] != Opcode(Print) && inst[s.pc] != Opcode(Out) ==> Step(inst, s).value.out == s.out
  {
  }

  /** An opcode that names a rule without a `does` action cannot run. */
  lemma StepNeedsAction(inst: seq<int>, s: State)
    requires Valid(s) && s.pc < |inst|
    requires inst[s.pc] in {Opcode(Label), Opcode(Jump), Opcode(StringLiteral), Opcode(Comment), Opcode(Whitespace)}
    ensures Step(inst, s).None?
  {
  }

  /** The machine of `run`: the towers are an array of three stacks, and the
      current stack is an index into it. */
  class Machine {
    const inst: seq<int>
    const towers: array<seq<int>>
    var cur: nat
    var pc: nat
    var out: seq<int>

    function Snapshot(): State
      reads this, towers
    {
      State(towers[..], cur, pc, out)
    }

    ghost predicate Ready()
      reads this, towers
    {
      towers.Length == 3 && cur < 3
    }

    constructor (inst: seq<int>)
      ensures Ready() && Snapshot() == Initial && this.inst == inst && fresh(towers)
    {
      this.inst := inst;
      towers := new seq<int>[3](_ => []);
      cur := 0;
      pc := 0;
      out := [];
      new;
      assert towers[..] == [[], [], []];
    }

    method PopValue() returns (v: int)
      requires Ready() && |towers[cur]| > 0
      modifies towers
      ensures v == Top(old(towers[cur])) && Snapshot() == SetCurrent(old(Snapshot()), Popped(old(towers[cur])))
    {
      v := Top(towers[cur]);
      towers[cur] := Popped(towers[cur]);
    }

    method Push(v: int)
      requires Ready()
      modifies towers
      ensures Snapshot() == SetCurrent(old(Snapshot()), old(towers[cur]) + [v])
    {
      towers[cur] := towers[cur] + [v];
    }

    method Literal()
      requires Ready() && pc + 1 < |inst|
      modifies this, towers
      ensures Ready() && Snapshot() == DoLiteral(inst, old(Snapshot()))
    {
      pc := pc + 1;
      Push(inst[pc]);
    }

    /** HANOI: the moves are a loop, one pop and one push each. */
    method Hanoi()
      requires Ready() && HanoiReady(Snapshot())
      modifies this, towers
      ensures Ready() && Snapshot() == DoHanoi(old(Snapshot()))
    {
      ghost var s := Snapshot();
      ghost var c := towers[cur];
      var target := PopValue();
      var count := PopValue();
      assert Popped(Popped(c)) == c[..|c| - 2];
      ghost var start := towers[..];
      assert start == s.towers[s.cur := c[..|c| - 2]];
      ghost var k := MoveCount(count);
      ghost var moved := 0;
      while count > 0
        invariant Ready() && cur == s.cur && pc == s.pc && out == s.out
        invariant 0 <= target < 3 && moved <= k && MoveCount(count) == k - moved
        invariant towers[..] == MoveN(start, cur, target, moved)
        decreases count
      {
        count := count - 1;
        var v := Top(towers[cur]);
        towers[cur] := Popped(towers[cur]);
        towers[target] := towers[target] + [v];
        moved := moved + 1;
      }
      cur := target;
    }

    /** SWAP: as written, the top slot is assigned twice and ends up with its
        own value. */
    method Swap()
      requires Ready()
      modifies towers
      ensures Snapshot() == old(Snapshot())
    {
      var c := towers[cur];
      if |c| < 2 {
        return;
      }
      var temp := c[|c| - 1];
      towers[cur] := towers[cur][|c| - 1 := towers[cur][|c| - 2]];
      towers[cur] := towers[cur][|c| - 1 := temp];
      assert towers[cur] == c;
    }

    method PopTop()
      requires Ready()
      modifies towers
      ensures Snapshot() == DoPop(old(Snapshot()))
    {
      if |towers[cur]| > 0 {
        var _ := PopValue();
      }
    }

    /** PRINT: a loop that pops and writes until it pops a 0. */
    method Print()
      requires Ready() && 0 in towers[cur]
      modifies this, towers
      ensures Ready() && Snapshot() == DoPrint(old(Snapshot()))
    {
      ghost var s := Snapshot();
      ghost var p := PopUntilZero(towers[cur]);
      ghost var emitted: seq<int> := [];
      ghost var c := towers[cur];
      var v := PopValue();
      assert c == towers[cur] + [v];
      assert p.1 == emitted + PopUntilZero(towers[cur] + [v]).1;
      while v != 0
        invariant Ready() && cur == s.cur && pc == s.pc
        invariant 0 in towers[cur] + [v]
        invariant towers[..] == s.towers[cur := towers[cur]]
        invariant out == s.out + Emit(emitted)
        invariant p.0 == PopUntilZero(towers[cur] + [v]).0
        invariant p.1 == emitted + PopUntilZero(towers[cur] + [v]).1
        decreases |towers[cur]|
      {
        PopUntilZeroStep(towers[cur], v);
        assert p.1 == (emitted + [v]) + PopUntilZero(towers[cur]).1;
        EmitAppend(emitted, [v]);
        out := out + [CharCode(v)];
        emitted := emitted + [v];
        ghost var below := towers[cur];
        v := PopValue();
        assert below == towers[cur] + [v];
      }
      PopUntilZeroStep(towers[cur], v);
    }

    method Add()
      requires Ready() && |towers[cur]| >= 2
      modifies towers
      ensures Snapshot() == DoAdd(old(Snapshot()))
    {
      ghost var c := towers[cur];
      var a := PopValue();
      var b := PopValue();
      assert Popped(Popped(c)) == c[..|c| - 2];
      Push(a + b);
    }

    method Dup()
      requires Ready() && |towers[cur]| >= 1
      modifies towers
      ensures Snapshot() == DoDup(old(Snapshot()))
    {
      Push(Top(towers[cur]));
    }

    method Out()
      requires Ready() && |towers[cur]| >= 1
      modifies this, towers
      ensures Ready() && Snapshot() == DoOut(old(Snapshot()))
    {
      var v := PopValue();
      out := out + [CharCode(v)];
    }

    /** One iteration of the loop of `run`: dispatch `inst[pc]`, then `pc++`. */
    method Execute()
      requires Ready() && pc < |inst| && Step(inst, Snapshot()).Some?
      modifies this, towers
      ensures Ready() && Snapshot() == Step(inst, old(Snapshot())).value
    {
      var op := inst[pc];
      match Rules[op] {
        case Literal => Literal();
        case Hanoi => Hanoi();
        case Swap => Swap();
        case Pop => PopTop();
        case Print => Print();
        case Add => Add();
        case Dup => Dup();
        case Out => Out();
      }
      pc := pc + 1;
    }
  }

  /** `run(program)`: a fresh machine steps until `pc` leaves the program. */
  method Run(program: Compiler.Program) returns (s: State)
    requires Exec(program.inst, Initial).Some?
    ensures Exec(program.inst, Initial) == Some(s)
  {
    var m := new Machine(program.inst);
    while m.pc < |m.inst|
      invariant m.Ready() && fresh(m.towers) && m.inst == program.inst
      invariant m.pc <= |m.inst| && Exec(m.inst, m.Snapshot()) == Exec(m.inst, Initial)
      decreases |m.inst| - m.pc
    {
      m.Execute();
    }
    return m.Snapshot();
  }
}

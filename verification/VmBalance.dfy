/** Functions that balance their PUSH and POP return to their callers (___sunum/vm.cpp:376-418, 590-600):
    counting what the running function has on the stack shows that the stack pointer is back at its frame
    when it returns. */
module VmBalance {
  import opened Strings
  import opened LittleEndian
  import opened VmExp
  import opened Vm
  import opened VmCalls

  const STORE: Byte := 17
  const PUSH: Byte := 22
  const POP: Byte := 23

  /** `used` has, for every function on the stack, the bytes that it has pushed and not popped, and last
      those of the running one. A caller's bytes do not count what its callee will clean up. */
  datatype Tracked = Tracked(s: Machine, frames: seq<Frame>, used: seq<nat>)

  /** The stack pointer at which the `i`-th function on the stack was entered, the first one at `base`. */
  function Entered(frames: seq<Frame>, base: nat, i: nat): nat
    requires i <= |frames|
  {
    if i == 0 then base else frames[i - 1].sp
  }

  /** What a function may do: PUSH; POP no more than it has pushed, and not into the stack pointer; CALL with
      no more to clean up than it has pushed; RET when it has popped all it has pushed. Nothing else changes
      the stack pointer, and STORE changes nothing from where the function was entered on. */
  predicate Balanced(code: seq<Byte>, t: Tracked, base: nat, s': Machine)
    requires |t.used| == |t.frames| + 1
  {
    var mine := t.used[|t.frames|];
    var entered := Entered(t.frames, base, |t.frames|);
    var sp: nat := t.s.regs[SP];
    match NextOp(code, t.s)
    case None => false
    case Some(op) =>
      if op == PUSH then true
      else if op == POP then mine >= 8 && s'.regs[SP] == sp + 8
      else if op == CALL then CallSize(code, t.s) <= mine && CallSize(code, t.s) < INTS
      else if op == RET then t.frames != [] && mine == 0
      else
        && s'.regs[SP] == sp
        && (op == STORE ==> entered <= STACK_SIZE && s'.mem[entered..] == t.s.mem[entered..])
  }

  function UsedAfter(code: seq<Byte>, t: Tracked): seq<nat>
    requires |t.used| == |t.frames| + 1
  {
    var n := |t.frames|;
    var mine, op := t.used[n], NextOp(code, t.s);
    if op == Some(PUSH) then t.used[n := mine + 8]
    else if op == Some(POP) && mine >= 8 then t.used[n := mine - 8]
    else if op == Some(CALL) && CallSize(code, t.s) <= mine then t.used[n := mine - CallSize(code, t.s)] + [0]
    else if op == Some(RET) && n > 0 then t.used[..n]
    else t.used
  }

  /** One instruction of a function that keeps its balance. */
  function NextBalanced(code: seq<Byte>, t: Tracked, base: nat): (r: Option<Tracked>)
    requires |t.used| == |t.frames| + 1
    ensures r.Some? ==> |r.value.used| == |r.value.frames| + 1
  {
    match Step(code, t.s)
    case Running(s') =>
      if Balanced(code, t, base, s') then Some(Tracked(s', FramesAfter(code, Monitor(t)), UsedAfter(code, t))) else None
    case _ => None
  }

  function Monitor(t: Tracked): Monitored {
    Monitored(t.s, t.frames)
  }

  /** Every return to come brings the stack pointer where the count says. */
  ghost predicate Suspended(frames: seq<Frame>, used: seq<nat>, base: nat) {
    && |frames| <= |used|
    && forall i | 0 <= i < |frames| :: frames[i].sp + 16 + frames[i].size + used[i] == Entered(frames, base, i)
  }

  /** The stack pointer is where the count says, now and after every return to come. */
  ghost predicate Counted(t: Tracked, base: nat) {
    && FramesOk(t.s.mem, t.frames) && base <= STACK_SIZE && |t.used| == |t.frames| + 1
    && (t.frames != [] ==> t.frames[0].sp + 16 <= base)
    && t.s.regs[SP] + t.used[|t.frames|] == Entered(t.frames, base, |t.frames|)
    && Suspended(t.frames, t.used, base)
  }

  /** Execution that keeps its balance, until the call depth is down to `depth`. */
  function RunsBalanced(code: seq<Byte>, t: Tracked, base: nat, fuel: nat, depth: nat): Option<Tracked>
    requires |t.used| == |t.frames| + 1
    decreases fuel
  {
    if |t.frames| <= depth then Some(t)
    else if fuel == 0 then None
    else
      match NextBalanced(code, t, base)
      case None => None
      case Some(t') => RunsBalanced(code, t', base, fuel - 1, depth)
  }

  // ----- what the instructions do to the stack -----

  lemma OperandMoves(code: seq<Byte>, s: Machine, constant: bool)
    ensures var f := FetchOperand(code, s, constant);
            f.Got? ==> f.state.mem == s.mem && f.state.regs[SP] == s.regs[SP]
  {
    hide Value;
  }

  lemma PushMoves(code: seq<Byte>, s: Machine, s': Machine)
    requires NextOp(code, s) == Some(PUSH) && Step(code, s) == Running(s')
    ensures 8 <= s.regs[SP] <= STACK_SIZE && s'.regs[SP] == s.regs[SP] - 8
    ensures s'.mem[s.regs[SP]..] == s.mem[s.regs[SP]..]
  {
    hide FetchOperand, Write64, FetchByte;
    var b := FetchByte(code, s);
    FetchByteMoves(code, s);
    var op1 := b.value % 2 == 1;
    OperandMoves(code, b.state, op1);
    var v := FetchOperand(code, b.state, op1);
    var sp := (v.state.regs[SP] - 8) % WORDS;
    assert sp == s.regs[SP] - 8;
    WriteBelow(s.mem, sp, v.value, s.regs[SP]);
  }

  /** No instruction but STORE, PUSH and CALL writes to memory. */
  lemma OthersRead(code: seq<Byte>, s: Machine, s': Machine)
    requires Step(code, s) == Running(s') && NextOp(code, s).Some?
    requires NextOp(code, s).value !in [STORE, PUSH, CALL]
    ensures s'.mem == s.mem
  {
    hide StepArith, StepUnary, StepCompare, StepStore, StepLoad, StepJump, StepCall, StepRet, StepPush, StepPop,
         StepMov, FetchByte;
    FetchByteMoves(code, s);
    var b := FetchByte(code, s);
    var op, op1, op2 := b.value / 4, b.value % 2 == 1, b.value / 2 % 2 == 1;
    ArithReads(code, b.state, op, op1, op2);
    CompareReads(code, b.state, op, op1, op2);
    LoadReads(code, b.state, op1, op2);
    RetReads(b.state);
    PopReads(code, b.state);
  }

  lemma RegisterMoves(code: seq<Byte>, s: Machine)
    ensures FetchRegister(code, s).Got? ==> FetchRegister(code, s).state.mem == s.mem
  {
  }

  lemma AddressMoves(code: seq<Byte>, s: Machine)
    ensures FetchAddress(code, s).Got? ==> FetchAddress(code, s).state.mem == s.mem
  {
    FetchAddressMoves(code, s);
  }

  lemma ArithReads(code: seq<Byte>, s: Machine, op: Byte, op1: bool, op2: bool)
    ensures StepArith(code, s, op, op1, op2).Running? ==> StepArith(code, s, op, op1, op2).state.mem == s.mem
    ensures StepUnary(code, s, op, op1).Running? ==> StepUnary(code, s, op, op1).state.mem == s.mem
  {
    hide FetchOperand, FetchRegister, Arith;
    var f1 := FetchOperand(code, s, op1);
    OperandMoves(code, s, op1);
    if f1.Got? {
      RegisterMoves(code, f1.state);
      var f2 := FetchOperand(code, f1.state, op2);
      OperandMoves(code, f1.state, op2);
      if f2.Got? {
        RegisterMoves(code, f2.state);
      }
    }
  }

  lemma CompareReads(code: seq<Byte>, s: Machine, op: Byte, op1: bool, op2: bool)
    ensures StepCompare(code, s, op, op1, op2).Running? ==> StepCompare(code, s, op, op1, op2).state.mem == s.mem
  {
    hide FetchOperand, FetchAddress;
    var f1 := FetchOperand(code, s, op1);
    OperandMoves(code, s, op1);
    if f1.Got? {
      var f2 := FetchOperand(code, f1.state, op2);
      OperandMoves(code, f1.state, op2);
      if f2.Got? {
        AddressMoves(code, f2.state);
      }
    }
  }

  lemma LoadReads(code: seq<Byte>, s: Machine, op1: bool, op2: bool)
    ensures StepLoad(code, s, op2).Running? ==> StepLoad(code, s, op2).state.mem == s.mem
    ensures StepJump(code, s, op1, op2).Running? ==> StepJump(code, s, op1, op2).state.mem == s.mem
    ensures StepMov(code, s, op2).Running? ==> StepMov(code, s, op2).state.mem == s.mem
  {
    hide FetchOperand, FetchAddress, FetchRegister, Read64, Fetches, FetchJump;
    FetchJumpMoves(code, s, op1, op2);
    JumpMoves(code, s, op1, op2);
    RegisterMoves(code, s);
    var r := FetchRegister(code, s);
    if r.Got? {
      AddressMoves(code, r.state);
      RegisterMoves(code, r.state);
      OperandMoves(code, r.state, op2);
    }
  }

  lemma JumpMoves(code: seq<Byte>, s: Machine, op1: bool, op2: bool)
    ensures FetchJump(code, s, op1, op2).Got? ==> FetchJump(code, s, op1, op2).state.mem == s.mem
  {
    hide FetchJump;
    FetchJumpMoves(code, s, op1, op2);
  }

  lemma RetReads(s: Machine)
    ensures StepRet(s).Running? ==> StepRet(s).state.mem == s.mem
  {
    hide Read64;
  }

  lemma PopReads(code: seq<Byte>, s: Machine)
    ensures StepPop(code, s).Running? ==> StepPop(code, s).state.mem == s.mem
  {
    hide Read64, FetchRegister;
    RegisterMoves(code, s);
  }

  // ----- balanced functions are disciplined -----

  lemma FramesBelow(frames: seq<Frame>, mem: seq<Byte>, base: nat)
    requires FramesOk(mem, frames) && base <= STACK_SIZE && (frames != [] ==> frames[0].sp + 16 <= base)
    ensures Entered(frames, base, |frames|) <= Top(frames) <= STACK_SIZE
    ensures frames != [] ==> Entered(frames, base, |frames|) == Top(frames)
  {
    TopBound(mem, frames);
  }

  lemma BalancedIsDisciplined(code: seq<Byte>, t: Tracked, base: nat, s': Machine)
    requires Counted(t, base) && Step(code, t.s) == Running(s') && Balanced(code, t, base, s')
    ensures Disciplined(code, Monitor(t), s')
  {
    hide Step, FramesOk, NextOp, CallSize;
    FramesBelow(t.frames, t.s.mem, base);
    var entered, top := Entered(t.frames, base, |t.frames|), Top(t.frames);
    var op := NextOp(code, t.s);
    if op == Some(PUSH) {
      PushMoves(code, t.s, s');
      MemoryStays(t.s.mem, s'.mem, t.s.regs[SP], top);
    } else if op == Some(CALL) {
      CallNeedsRoom(code, t.s, s');
      CallPushes(code, t.s, s');
      MemoryStays(t.s.mem, s'.mem, t.s.regs[SP], top);
    } else if op == Some(STORE) {
      MemoryStays(t.s.mem, s'.mem, entered, top);
    } else {
      OthersRead(code, t.s, s');
    }
  }

  lemma CallNeedsRoom(code: seq<Byte>, s: Machine, s': Machine)
    requires NextOp(code, s) == Some(CALL) && Step(code, s) == Running(s')
    ensures s.regs[SP] >= 16
  {
    hide FetchJump, FetchConstant, FetchByte, Fetches, Write64;
    var b := FetchByte(code, s);
    FetchByteMoves(code, s);
    var op1, op2 := b.value % 2 == 1, b.value / 2 % 2 == 1;
    var j := FetchJump(code, b.state, op1, op2);
    SameStack(s, b.state, 1);
    FetchJumpMoves(code, b.state, op1, op2);
    SameStack(b.state, j.state, if op1 then 3 else 1);
    ConstantMoves(code, j.state);
  }

  lemma SameStack(s: Machine, s': Machine, n: nat)
    requires Fetches(s, s', n)
    ensures s'.regs[SP] == s.regs[SP] && s'.mem == s.mem
  {
  }

  lemma ConstantMoves(code: seq<Byte>, s: Machine)
    ensures FetchConstant(code, s).Got? ==> FetchConstant(code, s).state.regs[SP] == s.regs[SP]
  {
    hide Value;
  }

  // ----- the count stays right -----

  lemma NextCounts(code: seq<Byte>, t: Tracked, base: nat, t': Tracked)
    requires |code| < INTS && Counted(t, base) && NextBalanced(code, t, base) == Some(t')
    ensures Next(code, Monitor(t)) == Some(Monitor(t')) && Counted(t', base)
  {
    hide Step, FramesOk, NextOp, CallSize, CallLength, Read64, Disciplined, Suspended;
    BalancedIsDisciplined(code, t, base, t'.s);
    NextKeeps(code, Monitor(t), Monitor(t'));
    var op := NextOp(code, t.s);
    if op == Some(PUSH) {
      PushMoves(code, t.s, t'.s);
      SuspendedBut(t.frames, t.used, base, t'.used[|t.frames|]);
    } else if op == Some(POP) {
      SuspendedBut(t.frames, t.used, base, t'.used[|t.frames|]);
    } else if op == Some(CALL) {
      CallNeedsRoom(code, t.s, t'.s);
      CallPushes(code, t.s, t'.s);
      CallCounts(t, base, CallFrame(code, t.s), t');
    } else if op == Some(RET) {
      RetCounts(t, base, t');
    }
  }

  /** The running function may change its own count. */
  lemma SuspendedBut(frames: seq<Frame>, used: seq<nat>, base: nat, mine: nat)
    requires Suspended(frames, used, base) && |used| == |frames| + 1
    ensures Suspended(frames, used[|frames| := mine], base)
  {
  }

  lemma SuspendedMore(frames: seq<Frame>, used: seq<nat>, base: nat, f: Frame)
    requires Suspended(frames, used, base) && |used| == |frames| + 1
    requires f.sp + 16 + f.size + used[|frames|] == Entered(frames, base, |frames|)
    ensures Suspended(frames + [f], used + [0], base)
  {
    forall i | 0 <= i <= |frames|
      ensures (frames + [f])[i].sp + 16 + (frames + [f])[i].size + (used + [0])[i] == Entered(frames + [f], base, i)
    {
      assert i < |frames| ==> (frames + [f])[i] == frames[i];
    }
  }

  lemma SuspendedLess(frames: seq<Frame>, used: seq<nat>, base: nat)
    requires Suspended(frames, used, base) && |used| == |frames| + 1 && frames != []
    ensures var n := |frames| - 1;
            Suspended(frames[..n], used[..n + 1], base)
                && frames[n].sp + 16 + frames[n].size + used[n] == Entered(frames, base, n)
            && Entered(frames[..n], base, n) == Entered(frames, base, n)
  {
    var n := |frames| - 1;
    forall i | 0 <= i < n
      ensures frames[..n][i].sp + 16 + frames[..n][i].size + used[..n + 1][i] == Entered(frames[..n], base, i)
    {
      assert frames[..n][i] == frames[i] && used[..n + 1][i] == used[i];
    }
  }

  lemma CallCounts(t: Tracked, base: nat, f: Frame, t': Tracked)
    requires Counted(t, base) && f.size <= t.used[|t.frames|] && f.sp + 16 == t.s.regs[SP]
    requires t'.frames == t.frames + [f] && t'.used == t.used[|t.frames| := t.used[|t.frames|] - f.size] + [0]
    requires t'.s.regs[SP] == f.sp && FramesOk(t'.s.mem, t'.frames)
    ensures Counted(t', base)
  {
    hide FramesOk, Suspended;
    var mine: nat := t.used[|t.frames|] - f.size;
    SuspendedBut(t.frames, t.used, base, mine);
    SuspendedMore(t.frames, t.used[|t.frames| := mine], base, f);
  }

  lemma RetCounts(t: Tracked, base: nat, t': Tracked)
    requires Counted(t, base) && t.frames != []
    requires var n := |t.frames| - 1; t'.frames == t.frames[..n] && t'.used == t.used[..n + 1]
    requires var f := t.frames[|t.frames| - 1]; t'.s.regs[SP] == f.sp + 16 + f.size
    requires FramesOk(t'.s.mem, t'.frames)
    ensures Counted(t', base)
  {
    hide FramesOk, Suspended;
    SuspendedLess(t.frames, t.used, base);
  }

  lemma {:induction false} RunCounts(code: seq<Byte>, t: Tracked, base: nat, fuel: nat, depth: nat, t': Tracked)
    requires |code| < INTS && |t.used| == |t.frames| + 1
    requires Counted(t, base) && RunsBalanced(code, t, base, fuel, depth) == Some(t')
    ensures RunsBack(code, Monitor(t), fuel, depth) == Some(Monitor(t')) && Counted(t', base)
    decreases fuel
  {
    hide NextBalanced, Next, Counted;
    if |t.frames| > depth {
      var n := NextBalanced(code, t, base).value;
      NextCounts(code, t, base, n);
      RunCounts(code, n, base, fuel - 1, depth, t');
    }
  }

  /** For any depth of nested calls in which every function pops what it has pushed, before it returns and no
      more than that, and writes nothing from its entry on: a call returns to the instruction behind it with
      the stack pointer raised by exactly the clean-up size, and everything that the caller has on the stack
      is untouched. */
  lemma BalancedCallReturns(code: seq<Byte>, t: Tracked, base: nat, inside: Tracked, fuel: nat, t': Tracked)
    requires |code| < INTS && |t.used| == |t.frames| + 1 && Counted(t, base)
    requires NextOp(code, t.s) == Some(CALL) && NextBalanced(code, t, base) == Some(inside)
    requires RunsBalanced(code, inside, base, fuel, |t.frames|) == Some(t')
    ensures t'.s.regs[IP] == t.s.regs[IP] + CallLength(code, t.s)
    ensures t'.s.regs[SP] == t.s.regs[SP] + CallSize(code, t.s)
    ensures t'.frames == t.frames && Counted(t', base)
    ensures t.s.regs[SP] <= STACK_SIZE && t'.s.mem[t.s.regs[SP]..] == t.s.mem[t.s.regs[SP]..]
  {
    hide NextBalanced, RunsBalanced, RunsBack, Next, Counted, NextOp, CallSize, CallLength, FramesOk;
    NextCounts(code, t, base, inside);
    RunCounts(code, inside, base, fuel, |t.frames|, t');
    FramesOf(t, base);
    CallReturns(code, Monitor(t), Monitor(inside), fuel, Monitor(t'));
  }

  lemma FramesOf(t: Tracked, base: nat)
    requires Counted(t, base)
    ensures FramesOk(t.s.mem, t.frames)
  {
    hide FramesOk;
  }
  // ----- why sizes have to fit 32 bits -----

  /** A CALL, and a RET that finds what it pushed: the execution resumes behind the CALL in any case, with the
      stack pointer raised by the clean-up size exactly when that is below 2^32. */
  lemma CleanUpIsExactIff(code: seq<Byte>, s: Machine, inside: Machine, leaving: Machine, s': Machine)
    requires |code| < INTS
    requires NextOp(code, s) == Some(CALL) && Step(code, s) == Running(inside)
    requires NextOp(code, leaving) == Some(RET) && Step(code, leaving) == Running(s')
    requires leaving.regs[SP] == inside.regs[SP] && leaving.regs[SP] <= STACK_SIZE
    requires leaving.mem[leaving.regs[SP]..] == inside.mem[inside.regs[SP]..]
    ensures s'.regs[IP] == s.regs[IP] + CallLength(code, s)
    ensures s'.regs[SP] == s.regs[SP] + CallSize(code, s) <==> CallSize(code, s) < INTS
  {
    hide Step, NextOp, Read64, CallLength, CallSize;
    var sp: nat := leaving.regs[SP];
    CallNeedsRoom(code, s, inside);
    CallPushes(code, s, inside);
    RetPops(code, leaving, s');
    ReadSame(leaving.mem, inside.mem, sp, sp);
    ReadSame(leaving.mem, inside.mem, sp, sp + 8);
    RetResumesIff(code, leaving, s');
  }
}

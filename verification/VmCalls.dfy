/** Calls of the virtual machine behave as if return addresses were kept on a stack of their own, as
    long as the code respects its frames (___sunum/vm.cpp:376-418, 590-600). */
module VmCalls {
  import opened Strings
  import opened LittleEndian
  import opened VmExp
  import opened Vm

  /** What a CALL has pushed: the return address at `sp`, the clean-up size above it. */
  datatype Frame = Frame(ret: nat, size: nat, sp: nat)

  /** The address from which on the running function must leave the memory alone. */
  function Top(frames: seq<Frame>): nat {
    if frames == [] then STACK_SIZE else frames[|frames| - 1].sp
  }

  predicate Held(mem: seq<Byte>, f: Frame) {
    && f.sp + 16 <= |mem|
    && f.ret < INTS && f.size < INTS
    && Read64(mem, f.sp) == f.ret && Read64(mem, f.sp + 8) == f.size
  }

  /** The frames lie in memory, each below the ones before it. */
  predicate FramesOk(mem: seq<Byte>, frames: seq<Frame>)
    decreases |frames|
  {
    |mem| == STACK_SIZE &&
    (frames != [] ==>
       var n := |frames| - 1;
       FramesOk(mem, frames[..n]) && Held(mem, frames[n]) && frames[n].sp + 16 <= Top(frames[..n]))
  }

  // ----- running code with its frames -----

  datatype Monitored = Monitored(s: Machine, frames: seq<Frame>)

  /** The opcode that is executed next. */
  function NextOp(code: seq<Byte>, s: Machine): Option<Byte> {
    match FetchByte(code, s)
    case Fault => None
    case Got(b, _) => Some(b / 4)
  }

  /** A CALL takes an opcode byte, a register or an address, and a constant. */
  function CallLength(code: seq<Byte>, s: Machine): nat {
    match FetchByte(code, s)
    case Fault => 0
    case Got(b, _) => if b % 2 == 1 then 12 else 10
  }

  /** The clean-up size in the CALL that is executed next. */
  function CallSize(code: seq<Byte>, s: Machine): nat {
    var end := s.regs[IP] + CallLength(code, s);
    if 8 <= end <= |code| then Value(code[end - 8..end]) else 0
  }

  function CallFrame(code: seq<Byte>, s: Machine): Frame {
    Frame(s.regs[IP] + CallLength(code, s), CallSize(code, s), if s.regs[SP] >= 16 then s.regs[SP] - 16 else 0)
  }

  /** The frame discipline: nothing at or above the frame of the running function is changed, calls are
      made with the stack pointer below it, and a function returns with the stack pointer back at it. */
  predicate Disciplined(code: seq<Byte>, m: Monitored, s': Machine) {
    var top := Top(m.frames);
    && top <= STACK_SIZE && s'.mem[top..] == m.s.mem[top..]
    && (NextOp(code, m.s) == Some(CALL) ==> 16 <= m.s.regs[SP] <= top && CallSize(code, m.s) < INTS)
    && (NextOp(code, m.s) == Some(RET) ==> m.frames != [] && m.s.regs[SP] == top)
  }

  function FramesAfter(code: seq<Byte>, m: Monitored): seq<Frame> {
    if NextOp(code, m.s) == Some(CALL) then m.frames + [CallFrame(code, m.s)]
    else if NextOp(code, m.s) == Some(RET) && m.frames != [] then m.frames[..|m.frames| - 1]
    else m.frames
  }

  /** One disciplined instruction. */
  function Next(code: seq<Byte>, m: Monitored): Option<Monitored> {
    match Step(code, m.s)
    case Running(s') => if Disciplined(code, m, s') then Some(Monitored(s', FramesAfter(code, m))) else None
    case _ => None
  }

  /** Disciplined execution until the call depth is down to `depth`. */
  function RunsBack(code: seq<Byte>, m: Monitored, fuel: nat, depth: nat): Option<Monitored>
    decreases fuel
  {
    if |m.frames| <= depth then Some(m)
    else if fuel == 0 then None
    else
      match Next(code, m)
      case None => None
      case Some(m') => RunsBack(code, m', fuel - 1, depth)
  }

  // ----- what stays in memory -----

  lemma ReadSame(a: seq<Byte>, b: seq<Byte>, from: nat, at: nat)
    requires |a| == |b| && from <= at && at + 8 <= |a| && a[from..] == b[from..]
    ensures Read64(a, at) == Read64(b, at)
  {
    hide Value;
    assert a[at..at + 8] == a[from..][at - from..at - from + 8];
    assert b[at..at + 8] == b[from..][at - from..at - from + 8];
  }

  lemma {:induction false} FramesStay(a: seq<Byte>, b: seq<Byte>, frames: seq<Frame>, from: nat)
    requires FramesOk(a, frames) && |b| == |a| && from <= Top(frames) && from <= |a| && a[from..] == b[from..]
    ensures FramesOk(b, frames)
    decreases |frames|
  {
    hide Read64;
    if frames != [] {
      var n := |frames| - 1;
      FramesStay(a, b, frames[..n], from);
      ReadSame(a, b, from, frames[n].sp);
      ReadSame(a, b, from, frames[n].sp + 8);
    }
  }

  lemma TopBound(mem: seq<Byte>, frames: seq<Frame>)
    requires FramesOk(mem, frames)
    ensures Top(frames) <= STACK_SIZE
  {
    hide Read64;
  }

  // ----- CALL -----

  /** Fetching moves only the instruction pointer. */
  predicate Fetches(s: Machine, s': Machine, n: nat) {
    s.regs[IP] + n < WORDS && s' == SetReg(s, IP, s.regs[IP] + n)
  }

  lemma FetchesTwice(s: Machine, s': Machine, s'': Machine, m: nat, n: nat)
    requires Fetches(s, s', m) && Fetches(s', s'', n)
    ensures Fetches(s, s'', m + n)
  {
    assert s.regs[IP := s'.regs[IP]][IP := s''.regs[IP]] == s.regs[IP := s''.regs[IP]];
  }

  lemma FetchByteMoves(code: seq<Byte>, s: Machine)
    ensures FetchByte(code, s).Got? ==> Fetches(s, FetchByte(code, s).state, 1)
  {
  }

  lemma FetchAddressMoves(code: seq<Byte>, s: Machine)
    ensures FetchAddress(code, s).Got? ==> Fetches(s, FetchAddress(code, s).state, 3)
  {
    hide FetchByte, Fetches;
    var f1 := FetchByte(code, s);
    FetchByteMoves(code, s);
    if f1.Got? {
      var f2 := FetchByte(code, f1.state);
      FetchByteMoves(code, f1.state);
      if f2.Got? {
        var f3 := FetchByte(code, f2.state);
        FetchByteMoves(code, f2.state);
        if f3.Got? {
          FetchesTwice(s, f1.state, f2.state, 1, 1);
          FetchesTwice(s, f2.state, f3.state, 2, 1);
        }
      }
    }
  }

  lemma FetchJumpMoves(code: seq<Byte>, s: Machine, direct: bool, absolute: bool)
    ensures FetchJump(code, s, direct, absolute).Got? ==> Fetches(s, FetchJump(code, s, direct, absolute).state,
            if direct then 3 else 1)
  {
    hide FetchAddress, FetchByte, Fetches;
    FetchByteMoves(code, s);
    FetchAddressMoves(code, s);
  }

  /** What CALL leaves behind. */
  lemma CallPushes(code: seq<Byte>, s: Machine, s': Machine)
    requires NextOp(code, s) == Some(CALL) && Step(code, s) == Running(s') && s.regs[SP] >= 16
    ensures var f := CallFrame(code, s);
            && s'.regs[SP] == f.sp && f.sp + 16 == s.regs[SP] <= STACK_SIZE && f.ret <= |code|
            && Read64(s'.mem, f.sp) == f.ret && Read64(s'.mem, f.sp + 8) == f.size
            && s'.mem[f.sp + 16..] == s.mem[f.sp + 16..]
  {
    hide FetchJump, Fetches, Read64, Write64, Value, FetchByte;
    var b := FetchByte(code, s);
    FetchByteMoves(code, s);
    var op1, op2 := b.value % 2 == 1, b.value / 2 % 2 == 1;
    var j := FetchJump(code, b.state, op1, op2);
    FetchJumpMoves(code, b.state, op1, op2);
    FetchesTwice(s, b.state, j.state, 1, if op1 then 3 else 1);
    var n := if op1 then 4 else 2;
    CallConstant(code, s, j.state, n);
    var c := FetchConstant(code, j.state);
    PushesTwo(c.state, c.value);
  }

  lemma CallConstant(code: seq<Byte>, s: Machine, s1: Machine, n: nat)
    requires Fetches(s, s1, n) && FetchConstant(code, s1).Got?
    ensures var c := FetchConstant(code, s1);
            && s.regs[IP] + n + 8 <= |code| && c.value == Value(code[s.regs[IP] + n..s.regs[IP] + n + 8])
            && c.state.regs[IP] == s.regs[IP] + n + 8 && c.state.regs[SP] == s.regs[SP] && c.state.mem == s.mem
  {
    hide Value;
  }

  lemma PushesTwo(s: Machine, size: Word)
    requires s.regs[SP] >= 16 && Pushed(s, size).Got?
    requires Pushed(Pushed(s, size).state, Pushed(s, size).state.regs[IP]).Got?
    ensures var sp: nat := s.regs[SP] - 16;
            var s1 := Pushed(s, size).state;
            var s2 := Pushed(s1, s1.regs[IP]).state;
            && sp + 16 <= STACK_SIZE && s2.regs[SP] == sp && s1.regs[IP] == s.regs[IP]
            && Read64(s2.mem, sp) == s.regs[IP] && Read64(s2.mem, sp + 8) == size
            && s2.mem[sp + 16..] == s.mem[sp + 16..]
  {
    hide Read64, Write64;
    var sp: nat := s.regs[SP] - 16;
    var s1 := Pushed(s, size).state;
    var s2 := Pushed(s1, s1.regs[IP]).state;
    assert s1.mem == Write64(s.mem, sp + 8, size) && s2.mem == Write64(s1.mem, sp, s1.regs[IP]);
    assert |s2.mem| == |s1.mem| == STACK_SIZE && sp + 16 <= STACK_SIZE;
    ReadOfWrite(s1.mem, sp, s1.regs[IP]);
    ReadOfWrite(s.mem, sp + 8, size);
    WriteBelow(s1.mem, sp, s1.regs[IP], sp + 8);
    assert s2.mem[sp + 8..] == s1.mem[sp + 8..];
    ReadSame(s2.mem, s1.mem, sp + 8, sp + 8);
    WriteBelow(s.mem, sp + 8, size, sp + 16);
    WriteBelow(s1.mem, sp, s1.regs[IP], sp + 16);
  }

  // ----- RET -----

  /** RET goes to the low halves of what it finds on the stack. */
  lemma RetPops(code: seq<Byte>, s: Machine, s': Machine)
    requires NextOp(code, s) == Some(RET) && Step(code, s) == Running(s')
    ensures var sp: nat := s.regs[SP];
            && sp + 16 <= STACK_SIZE && s'.mem == s.mem
            && s'.regs[IP] == Read64(s.mem, sp) % INTS
            && s'.regs[SP] == sp + 16 + Read64(s.mem, sp + 8) % INTS
  {
    hide Read64;
  }

  /** So it resumes at the address and raises the stack pointer by the size exactly when both fit 32
      bits. */
  lemma RetResumesIff(code: seq<Byte>, s: Machine, s': Machine)
    requires NextOp(code, s) == Some(RET) && Step(code, s) == Running(s')
    ensures s.regs[SP] + 16 <= STACK_SIZE
    ensures var ret, size := Read64(s.mem, s.regs[SP]), Read64(s.mem, s.regs[SP] + 8);
            s'.regs[IP] == ret && s'.regs[SP] == s.regs[SP] + 16 + size <==> ret < INTS && size < INTS
  {
    hide Read64, Step;
    RetPops(code, s, s');
  }

  // ----- every step keeps the frames -----

  lemma NextKeeps(code: seq<Byte>, m: Monitored, m': Monitored)
    requires |code| < INTS && FramesOk(m.s.mem, m.frames) && Next(code, m) == Some(m')
    ensures FramesOk(m'.s.mem, m'.frames)
    ensures NextOp(code, m.s) == Some(RET) ==>
              m.frames != [] && m'.s.regs[IP] == m.frames[|m.frames| - 1].ret &&
              m'.s.regs[SP] == m.frames[|m.frames| - 1].sp + 16 + m.frames[|m.frames| - 1].size
  {
    hide Step, Read64, FramesOk, NextOp, CallSize, CallLength;
    var top := Top(m.frames);
    FramesStay(m.s.mem, m'.s.mem, m.frames, top);
    if NextOp(code, m.s) == Some(CALL) {
      CallPushes(code, m.s, m'.s);
      FrameAdded(m'.s.mem, m.frames, CallFrame(code, m.s));
    } else if NextOp(code, m.s) == Some(RET) {
      RetPops(code, m.s, m'.s);
      TopFrame(m.s.mem, m.frames);
      TopFrame(m'.s.mem, m.frames);
    }
  }

  lemma FrameAdded(mem: seq<Byte>, frames: seq<Frame>, f: Frame)
    requires FramesOk(mem, frames) && Held(mem, f) && f.sp + 16 <= Top(frames)
    ensures FramesOk(mem, frames + [f])
  {
    hide Held;
    var all := frames + [f];
    assert all[..|all| - 1] == frames;
  }

  lemma TopFrame(mem: seq<Byte>, frames: seq<Frame>)
    requires FramesOk(mem, frames) && frames != []
    ensures var f := frames[|frames| - 1]; FramesOk(mem, frames[..|frames| - 1]) && Held(mem, f) && f.sp == Top(frames)
  {
    hide Held;
  }

  /** The memory from an older frame on is left alone while that frame is on the stack. */
  lemma TopFalls(mem: seq<Byte>, frames: seq<Frame>, n: nat)
    requires FramesOk(mem, frames) && n < |frames|
    ensures Top(frames) <= frames[n].sp
    decreases |frames|
  {
    hide Held;
    if n < |frames| - 1 {
      var k := |frames| - 1;
      TopFalls(mem, frames[..k], n);
    }
  }

  // ----- from a call to its return -----

  lemma NextDepth(code: seq<Byte>, m: Monitored, m': Monitored)
    requires Next(code, m) == Some(m')
    ensures m'.frames == m.frames || (m.frames != [] && m'.frames == m.frames[..|m.frames| - 1])
            || m'.frames == m.frames + [CallFrame(code, m.s)]
    ensures |m'.frames| < |m.frames| ==> NextOp(code, m.s) == Some(RET)
    ensures Top(m.frames) <= STACK_SIZE && m'.s.mem[Top(m.frames)..] == m.s.mem[Top(m.frames)..]
  {
    hide Step, CallFrame, NextOp, CallSize;
  }

  /** The body of the function whose frame is at position `depth`. */
  lemma {:induction false} BodyReturns(code: seq<Byte>, m: Monitored, fuel: nat, depth: nat, m': Monitored)
    requires |code| < INTS && FramesOk(m.s.mem, m.frames) && depth < |m.frames|
             && RunsBack(code, m, fuel, depth) == Some(m')
    ensures var f := m.frames[depth];
            && m'.frames == m.frames[..depth] && m'.s.regs[IP] == f.ret && m'.s.regs[SP] == f.sp + 16 + f.size
            && f.sp <= STACK_SIZE && m'.s.mem[f.sp..] == m.s.mem[f.sp..]
    decreases fuel
  {
    hide Next, FramesOk, NextOp;
    var f := m.frames[depth];
    var n := Next(code, m).value;
    NextKeeps(code, m, n);
    NextDepth(code, m, n);
    TopFalls(m.s.mem, m.frames, depth);
    TopBound(m.s.mem, m.frames);
    FrameBound(m.s.mem, m.frames, depth);
    MemoryStays(m.s.mem, n.s.mem, Top(m.frames), f.sp);
    if |n.frames| <= depth {
      assert n.frames == m.frames[..depth] && depth == |m.frames| - 1;
    } else {
      assert n.frames[depth] == f && n.frames[..depth] == m.frames[..depth];
      BodyReturns(code, n, fuel - 1, depth, m');
    }
  }

  lemma MemoryStays(a: seq<Byte>, b: seq<Byte>, from: nat, at: nat)
    requires |a| == |b| && from <= at <= |a| && a[from..] == b[from..]
    ensures a[at..] == b[at..]
  {
    assert a[at..] == a[from..][at - from..] && b[at..] == b[from..][at - from..];
  }

  lemma {:induction false} FrameBound(mem: seq<Byte>, frames: seq<Frame>, n: nat)
    requires FramesOk(mem, frames) && n < |frames|
    ensures frames[n].sp <= STACK_SIZE
    decreases |frames|
  {
    hide Read64;
    if n < |frames| - 1 {
      FrameBound(mem, frames[..|frames| - 1], n);
    }
  }

  /** A call returns to the instruction behind it, with the stack pointer raised by exactly the clean-up
      size and everything that the caller has on the stack untouched, however deep the calls in between
      go. */
  lemma CallReturns(code: seq<Byte>, m: Monitored, inside: Monitored, fuel: nat, m': Monitored)
    requires |code| < INTS && FramesOk(m.s.mem, m.frames)
    requires NextOp(code, m.s) == Some(CALL) && Next(code, m) == Some(inside)
    requires RunsBack(code, inside, fuel, |m.frames|) == Some(m')
    ensures m'.s.regs[IP] == m.s.regs[IP] + CallLength(code, m.s)
    ensures m'.s.regs[SP] == m.s.regs[SP] + CallSize(code, m.s)
    ensures m'.frames == m.frames
    ensures m.s.regs[SP] <= STACK_SIZE && m'.s.mem[m.s.regs[SP]..] == m.s.mem[m.s.regs[SP]..]
  {
    hide FramesOk, NextOp, Step, CallSize, CallLength, Read64;
    NextKeeps(code, m, inside);
    CallPushes(code, m.s, inside.s);
    var f := CallFrame(code, m.s);
    assert inside.frames == m.frames + [f];
    assert inside.frames[|m.frames|] == f && inside.frames[..|m.frames|] == m.frames;
    BodyReturns(code, inside, fuel, |m.frames|, m');
    MemoryStays(m'.s.mem, inside.s.mem, f.sp, f.sp + 16);
  }

  /** Disciplined runs are executions. */
  lemma {:induction false} RunIsExecution(code: seq<Byte>, m: Monitored, fuel: nat, depth: nat,
      m': Monitored) returns (n: nat)
    requires RunsBack(code, m, fuel, depth) == Some(m')
    ensures n <= fuel && Execution(code, m.s, n) == Running(m'.s)
    decreases fuel
  {
    hide Step, Disciplined;
    if |m.frames| <= depth {
      n := 0;
    } else {
      n := RunIsExecution(code, Next(code, m).value, fuel - 1, depth, m');
      n := n + 1;
    }
  }
}

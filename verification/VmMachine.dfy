/** The virtual machine as the class of ___sunum/vm.h, whose methods change the registers and the stack in
    place. Each is proved against the function of module Vm that describes it. */
module VmMachine {
  import opened Strings
  import opened LittleEndian
  import opened VmExp
  import opened Vm

  /** How a round of the loop ends. */
  datatype Signal = Go | Stop | Fail | System

  /** A fetch returned what it should and left the machine as it should. */
  ghost predicate Fetches<T>(f: Fetched<T>, r: Option<T>, s: Machine) {
    match f
    case Got(v, s') => r == Some(v) && s == s'
    case Fault => r == None
  }

  ghost predicate Shows(o: Outcome, signal: Signal, s: Machine) {
    match o
    case Running(s') => signal == Go && s == s'
    case Stopped(s') => signal == Stop && s == s'
    case Faulted => signal == Fail
    case SystemCall => signal == System
  }

  class VirtualMachine {
    const bytecode: seq<Byte>
    const registers: array<Word>
    const stack: array<Byte>

    ghost predicate Valid() {
      registers.Length == REGISTERS && stack.Length == STACK_SIZE
    }

    ghost function State(): Machine
      requires Valid()
      reads registers, stack
    {
      Vm.State(registers[..], stack[..])
    }

    /** All registers are zero but the stack pointer, which stands behind the memory (12-26). What the memory
        holds is not determined. */
    constructor (code: seq<Byte>)
      ensures Valid() && bytecode == code && fresh(registers) && fresh(stack)
      ensures forall r :: 0 <= r < REGISTERS ==> State().regs[r] == if r == SP then STACK_SIZE else 0
    {
      bytecode := code;
      registers := new Word[REGISTERS](i => if i == SP then STACK_SIZE else 0);
      stack := new Byte[STACK_SIZE];
    }

    method SetRegister(r: nat, v: Word)
      requires Valid() && r < REGISTERS
      modifies registers
      ensures State() == SetReg(old(State()), r, v)
    {
      registers[r] := v;
    }

    // ----- fetching -----

    method ExtractByte() returns (r: Option<Byte>)
      requires Valid()
      modifies registers
      ensures Fetches(FetchByte(bytecode, old(State())), r, State())
    {
      var ip := registers[IP];
      if ip < |bytecode| && ip + 1 < WORDS {
        SetRegister(IP, ip + 1);
        r := Some(bytecode[ip]);
      } else {
        r := None;
      }
    }

    method ExtractRegister() returns (r: Option<nat>)
      requires Valid()
      modifies registers
      ensures Fetches(FetchRegister(bytecode, old(State())), r, State())
    {
      var b := ExtractByte();
      r := if b.Some? && b.value < REGISTERS then Some(b.value) else None;
    }

    method ExtractAddress() returns (r: Option<nat>)
      requires Valid()
      modifies registers
      ensures Fetches(FetchAddress(bytecode, old(State())), r, State())
    {
      hide FetchByte;
      r := None;
      var a1 := ExtractByte();
      if a1.Some? {
        var a2 := ExtractByte();
        if a2.Some? {
          var a3 := ExtractByte();
          if a3.Some? {
            var n1: nat, n2: nat, n3: nat := a1.value, a2.value, a3.value;
            r := Some(n1 + 0x100 * n2 + 0x1_0000 * n3);
          }
        }
      }
    }

    method ExtractConstant() returns (r: Option<Word>)
      requires Valid()
      modifies registers
      ensures Fetches(FetchConstant(bytecode, old(State())), r, State())
    {
      hide Value;
      var ip := registers[IP];
      if ip + 8 <= |bytecode| && ip + 8 < WORDS {
        ValueBound(bytecode[ip..ip + 8]);
        Width8();
        r := Some(Value(bytecode[ip..ip + 8]));
        SetRegister(IP, ip + 8);
      } else {
        r := None;
      }
    }

    method Operand(constant: bool) returns (r: Option<Word>)
      requires Valid()
      modifies registers
      ensures Fetches(FetchOperand(bytecode, old(State()), constant), r, State())
    {
      hide FetchConstant, FetchRegister;
      if constant {
        r := ExtractConstant();
      } else {
        var reg := ExtractRegister();
        r := if reg.Some? then Some(registers[reg.value]) else None;
      }
    }

    method Target(direct: bool) returns (r: Option<nat>)
      requires Valid()
      modifies registers
      ensures Fetches(FetchTarget(bytecode, old(State()), direct), r, State())
    {
      hide FetchAddress, FetchRegister;
      if direct {
        r := ExtractAddress();
      } else {
        var reg := ExtractRegister();
        r := if reg.Some? then Some(registers[reg.value] % INTS) else None;
      }
    }

    method JumpTarget(direct: bool, absolute: bool) returns (r: Option<nat>)
      requires Valid()
      modifies registers
      ensures Fetches(FetchJump(bytecode, old(State()), direct, absolute), r, State())
    {
      hide FetchTarget;
      r := Target(direct);
      if r.Some? && !absolute {
        r := Some((r.value + registers[IP] - 1) % INTS);
      }
    }

    // ----- memory -----

    method WriteMemory(a: nat, v: Word)
      requires Valid() && a + 8 <= STACK_SIZE
      modifies stack
      ensures State() == old(State()).(mem := Write64(old(State()).mem, a, v))
    {
      hide Encoded;
      var bytes := Encoded(v, 8);
      forall i | 0 <= i < 8 {
        stack[a + i] := bytes[i];
      }
      assert stack[..] == old(stack[..a]) + bytes + old(stack[a + 8..]);
      assert old(stack[..a]) == old(stack[..])[..a] && old(stack[a + 8..]) == old(stack[..])[a + 8..];
    }

    method ReadMemory(a: nat) returns (v: Word)
      requires Valid() && a + 8 <= STACK_SIZE
      ensures v == Read64(State().mem, a)
    {
      hide Value;
      ValueBound(stack[a..a + 8]);
      Width8();
      v := Value(stack[a..a + 8]);
      assert stack[a..a + 8] == stack[..][a..a + 8];
    }

    /** Push (590-594). */
    method Push(v: Word) returns (ok: bool)
      requires Valid()
      modifies registers, stack
      ensures Fetches(Pushed(old(State()), v), if ok then Some(()) else None, State())
    {
      hide Write64;
      SetRegister(SP, (registers[SP] - 8) % WORDS);
      ok := registers[SP] + 8 <= STACK_SIZE;
      if ok {
        WriteMemory(registers[SP], v);
      }
    }

    /** Pop (595-600). */
    method Pop() returns (r: Option<Word>)
      requires Valid()
      modifies registers
      ensures Fetches(Popped(old(State())), r, State())
    {
      hide Read64;
      r := None;
      if registers[SP] + 8 <= STACK_SIZE {
        var v := ReadMemory(registers[SP]);
        r := Some(v);
        SetRegister(SP, registers[SP] + 8);
      }
    }

    // ----- instructions -----

    method DoArith(op: Byte, op1: bool, op2: bool) returns (signal: Signal)
      requires Valid()
      modifies registers
      ensures Shows(StepArith(bytecode, old(State()), op, op1, op2), signal, State())
    {
      hide FetchOperand, FetchRegister, Arith;
      signal := Fail;
      var v1 := Operand(op1);
      if v1.Some? {
        var v2 := Operand(op2);
        if v2.Some? {
          var r := ExtractRegister();
          if r.Some? {
            var v := Arith(op, v1.value, v2.value);
            if v.Some? {
              SetRegister(r.value, v.value);
              signal := Go;
            }
          }
        }
      }
    }

    method DoUnary(op: Byte, op1: bool) returns (signal: Signal)
      requires Valid()
      modifies registers
      ensures Shows(StepUnary(bytecode, old(State()), op, op1), signal, State())
    {
      hide FetchOperand, FetchRegister;
      signal := Fail;
      var v := Operand(op1);
      if v.Some? {
        var r := ExtractRegister();
        if r.Some? {
          var n: int := v.value;
          SetRegister(r.value, if op == 10 then ToWord(0 - n) else WORDS - 1 - n);
          signal := Go;
        }
      }
    }

    method DoCompare(op: Byte, op1: bool, op2: bool) returns (signal: Signal)
      requires Valid()
      modifies registers
      ensures Shows(StepCompare(bytecode, old(State()), op, op1, op2), signal, State())
    {
      hide FetchOperand, FetchAddress, Compare;
      signal := Fail;
      var v1 := Operand(op1);
      if v1.Some? {
        var v2 := Operand(op2);
        if v2.Some? {
          var a := ExtractAddress();
          if a.Some? {
            if Compare(op, v1.value, v2.value) {
              SetRegister(IP, a.value);
            }
            signal := Go;
          }
        }
      }
    }

    method DoStore(op2: bool) returns (signal: Signal)
      requires Valid()
      modifies registers, stack
      ensures Shows(StepStore(bytecode, old(State()), op2), signal, State())
    {
      hide FetchRegister, FetchTarget, Write64;
      signal := Fail;
      var r := ExtractRegister();
      if r.Some? {
        var a := Target(op2);
        if a.Some? && a.value + 8 <= STACK_SIZE {
          WriteMemory(a.value, registers[r.value]);
          signal := Go;
        }
      }
    }

    method DoLoad(op2: bool) returns (signal: Signal)
      requires Valid()
      modifies registers
      ensures Shows(StepLoad(bytecode, old(State()), op2), signal, State())
    {
      hide FetchRegister, FetchTarget, Read64;
      signal := Fail;
      var r := ExtractRegister();
      if r.Some? {
        var a := Target(op2);
        if a.Some? && a.value + 8 <= STACK_SIZE {
          var v := ReadMemory(a.value);
          SetRegister(r.value, v);
          signal := Go;
        }
      }
    }

    method DoJump(op1: bool, op2: bool) returns (signal: Signal)
      requires Valid()
      modifies registers
      ensures Shows(StepJump(bytecode, old(State()), op1, op2), signal, State())
    {
      hide FetchJump;
      signal := Fail;
      var a := JumpTarget(op1, op2);
      if a.Some? {
        SetRegister(IP, a.value);
        signal := Go;
      }
    }

    method DoCall(op1: bool, op2: bool) returns (signal: Signal)
      requires Valid()
      modifies registers, stack
      ensures Shows(StepCall(bytecode, old(State()), op1, op2), signal, State())
    {
      hide FetchJump, FetchConstant, Pushed;
      signal := Fail;
      var a := JumpTarget(op1, op2);
      if a.Some? {
        var size := ExtractConstant();
        if size.Some? {
          var ok := Push(size.value);
          if ok {
            ok := Push(registers[IP]);
            if ok {
              SetRegister(IP, a.value);
              signal := Go;
            }
          }
        }
      }
    }

    method DoRet() returns (signal: Signal)
      requires Valid()
      modifies registers
      ensures Shows(StepRet(old(State())), signal, State())
    {
      hide Popped;
      signal := Fail;
      var a := Pop();
      if a.Some? {
        var size := Pop();
        if size.Some? {
          SetRegister(SP, ToWord(registers[SP] + size.value % INTS));
          SetRegister(IP, a.value % INTS);
          signal := Go;
        }
      }
    }

    method DoPush(op1: bool) returns (signal: Signal)
      requires Valid()
      modifies registers, stack
      ensures Shows(StepPush(bytecode, old(State()), op1), signal, State())
    {
      hide FetchOperand, Pushed;
      signal := Fail;
      var v := Operand(op1);
      if v.Some? {
        var ok := Push(v.value);
        if ok {
          signal := Go;
        }
      }
    }

    method DoPop() returns (signal: Signal)
      requires Valid()
      modifies registers
      ensures Shows(StepPop(bytecode, old(State())), signal, State())
    {
      hide FetchRegister, Popped;
      signal := Fail;
      var r := ExtractRegister();
      if r.Some? {
        var v := Pop();
        if v.Some? {
          SetRegister(r.value, v.value);
          signal := Go;
        }
      }
    }

    method DoMov(op2: bool) returns (signal: Signal)
      requires Valid()
      modifies registers
      ensures Shows(StepMov(bytecode, old(State()), op2), signal, State())
    {
      hide FetchRegister, FetchOperand;
      signal := Fail;
      var r := ExtractRegister();
      if r.Some? {
        var v := Operand(op2);
        if v.Some? {
          SetRegister(r.value, v.value);
          signal := Go;
        }
      }
    }

    method DispatchOp(op: Byte, op1: bool, op2: bool) returns (signal: Signal)
      requires Valid()
      modifies registers, stack
      ensures Shows(Dispatch(bytecode, old(State()), op, op1, op2), signal, State())
    {
      hide StepArith, StepUnary, StepCompare, StepStore, StepLoad, StepJump, StepCall, StepRet, StepPush, StepPop,
           StepMov;
      if op == 0 {
        signal := Stop;
      } else if op <= 9 {
        signal := DoArith(op, op1, op2);
      } else if op == 10 || op == 16 {
        signal := DoUnary(op, op1);
      } else if op <= 15 {
        signal := DoCompare(op, op1, op2);
      } else if op == 17 {
        signal := DoStore(op2);
      } else if op == 18 {
        signal := DoLoad(op2);
      } else if op == 19 {
        signal := DoJump(op1, op2);
      } else if op == CALL {
        signal := DoCall(op1, op2);
      } else if op == RET {
        signal := DoRet();
      } else if op == 22 {
        signal := DoPush(op1);
      } else if op == 23 {
        signal := DoPop();
      } else if op == 24 {
        signal := DoMov(op2);
      } else if op == 25 {
        signal := System;
      } else {
        signal := Go;
      }
    }

    /** Execute (67-472), stopped after `fuel` rounds; for a program that stops, any larger number of rounds
        gives the same. */
    method Execute(fuel: nat) returns (signal: Signal)
      requires Valid()
      modifies registers, stack
      ensures Shows(Execution(bytecode, old(State()), fuel), signal, State())
    {
      hide Dispatch, FetchByte;
      var left: nat := fuel;
      signal := Go;
      while left > 0 && signal == Go
        invariant left <= fuel
        invariant signal == Go ==> Execution(bytecode, old(State()), fuel) == Execution(bytecode, State(), left)
        invariant signal != Go ==> Shows(Execution(bytecode, old(State()), fuel), signal, State())
        decreases left
      {
        assert Execution(bytecode, State(), left) ==
               match Step(bytecode, State())
               case Running(s') => Execution(bytecode, s', left - 1)
               case other => other;
        left := left - 1;
        var b := ExtractByte();
        if b.Some? {
          signal := DispatchOp(b.value / 4, b.value % 2 == 1, b.value / 2 % 2 == 1);
        } else {
          signal := Fail;
        }
      }
    }
  }
}

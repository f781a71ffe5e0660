/** The bytecode virtual machine of ___sunum/vm.cpp: thirteen 64-bit registers, among them instruction
    and stack pointer, and 16 MB of byte-addressed memory. What is undefined behaviour in the source, an
    access outside the code, the registers or the memory, or a division by zero, is a fault here. */
module Vm {
  import opened Strings
  import opened LittleEndian
  import opened VmExp

  const STACK_SIZE: nat := 0x100_0000
  const REGISTERS: nat := 13
  const IP: nat := 10
  const SP: nat := 11

  datatype State = State(regs: seq<Word>, mem: seq<Byte>)

  predicate Ok(s: State) {
    |s.regs| == REGISTERS && |s.mem| == STACK_SIZE
  }

  type Machine = s: State | Ok(s) witness State(Repeat(0, REGISTERS), Repeat(0, STACK_SIZE))

  function SetReg(s: Machine, r: nat, v: Word): Machine
    requires r < REGISTERS
  {
    s.(regs := s.regs[r := v])
  }

  // ----- fetching -----

  datatype Fetched<+T> = Got(value: T, state: Machine) | Fault

  function FetchByte(code: seq<Byte>, s: Machine): Fetched<Byte> {
    if s.regs[IP] < |code| && s.regs[IP] + 1 < WORDS then Got(code[s.regs[IP]], SetReg(s, IP, s.regs[IP] + 1))
        else Fault
  }

  /** ExtractRegister (482-485). */
  function FetchRegister(code: seq<Byte>, s: Machine): (f: Fetched<nat>)
    ensures f.Got? ==> f.value < REGISTERS
  {
    match FetchByte(code, s)
    case Fault => Fault
    case Got(b, s') => if b < REGISTERS then Got(b, s') else Fault
  }

  /** ExtractAddress (487-494): three bytes. */
  function FetchAddress(code: seq<Byte>, s: Machine): (f: Fetched<nat>)
    ensures f.Got? ==> f.value < 0x100_0000
  {
    match FetchByte(code, s)
    case Fault => Fault
    case Got(a1, s1) =>
      match FetchByte(code, s1)
      case Fault => Fault
      case Got(a2, s2) =>
        match FetchByte(code, s2)
        case Fault => Fault
        case Got(a3, s3) =>
          var address: nat := a1 + 0x100 * a2 + 0x1_0000 * a3;
          Got(address, s3)
  }

  /** ExtractConstant (496-501): eight bytes at once. */
  function FetchConstant(code: seq<Byte>, s: Machine): Fetched<Word> {
    var ip: nat := s.regs[IP];
    if ip + 8 <= |code| && ip + 8 < WORDS then
      ValueBound(code[ip..ip + 8]);
      Width8();
      Got(Value(code[ip..ip + 8]), SetReg(s, IP, ip + 8))
    else Fault
  }

  /** A value operand: a register, or a constant when its flag is set. */
  function FetchOperand(code: seq<Byte>, s: Machine, constant: bool): Fetched<Word> {
    if constant then FetchConstant(code, s)
    else
      match FetchRegister(code, s)
      case Fault => Fault
      case Got(r, s') => Got(s'.regs[r], s')
  }

  /** An address operand, in 32 bits. */
  function FetchTarget(code: seq<Byte>, s: Machine, direct: bool): (f: Fetched<nat>)
    ensures f.Got? ==> f.value < INTS
  {
    if direct then FetchAddress(code, s)
    else
      match FetchRegister(code, s)
      case Fault => Fault
      case Got(r, s') => Got(s'.regs[r] % INTS, s')
  }

  /** The target of JMP and CALL; a relative one counts from the last byte read (362-374). */
  function FetchJump(code: seq<Byte>, s: Machine, direct: bool, absolute: bool): (f: Fetched<nat>)
    ensures f.Got? ==> f.value < INTS
  {
    match FetchTarget(code, s, direct)
    case Fault => Fault
    case Got(a, s') => Got(if absolute then a else (a + s'.regs[IP] - 1) % INTS, s')
  }

  // ----- memory -----

  function Read64(mem: seq<Byte>, a: nat): Word
    requires a + 8 <= |mem|
  {
    ValueBound(mem[a..a + 8]);
    Width8();
    Value(mem[a..a + 8])
  }

  function Write64(mem: seq<Byte>, a: nat, v: Word): (r: seq<Byte>)
    requires a + 8 <= |mem|
    ensures |r| == |mem|
  {
    mem[..a] + Encoded(v, 8) + mem[a + 8..]
  }

  lemma ReadOfWrite(mem: seq<Byte>, a: nat, v: Word)
    requires a + 8 <= |mem|
    ensures Read64(Write64(mem, a, v), a) == v
  {
    hide Encoded, Value;
    Width8();
    ValueOfEncoded(v, 8);
    assert Write64(mem, a, v)[a..a + 8] == Encoded(v, 8);
  }

  /** A write below an address leaves everything from there on. */
  lemma WriteBelow(mem: seq<Byte>, a: nat, v: Word, limit: nat)
    requires a + 8 <= limit <= |mem|
    ensures Write64(mem, a, v)[limit..] == mem[limit..]
  {
  }

  /** Push (590-594). */
  function Pushed(s: Machine, v: Word): Fetched<()> {
    var sp := (s.regs[SP] - 8) % WORDS;
    if sp + 8 <= STACK_SIZE then
      Got((), SetReg(s, SP, sp).(mem := Write64(s.mem, sp, v)))
    else Fault
  }

  /** Pop (595-600). */
  function Popped(s: Machine): Fetched<Word> {
    var sp: nat := s.regs[SP];
    if sp + 8 <= STACK_SIZE then Got(Read64(s.mem, sp), SetReg(s, SP, sp + 8)) else Fault
  }

  // ----- instructions -----

  datatype Outcome = Running(state: Machine) | Stopped(state: Machine) | Faulted | SystemCall

  function ToSigned(v: Word): int {
    if v < WORDS / 2 then v else v - WORDS
  }

  function ToWord(v: int): Word {
    v % WORDS
  }

  /** Division of C++, which truncates towards zero. */
  function Quotient(a: int, b: int): int
    requires b != 0
  {
    if (a < 0) == (b < 0) then Abs(a) / Abs(b) else 0 - Abs(a) / Abs(b)
  }

  lemma Parts(a: nat, b: nat, q: int, r: nat)
    requires b > 0 && a == b * q + r && r < b
    ensures 0 <= q <= a && r <= a
  {
    if q < 0 {
      assert b * (q + 1) == b * q + b;
      Negative(b, q + 1);
    } else {
      assert b * q == (b - 1) * q + q;
      NotNegative(b - 1, q);
      NotNegative(b, q);
    }
  }

  lemma NotNegative(x: nat, y: nat)
    ensures x * y >= 0
  {
  }

  lemma Negative(x: nat, y: int)
    requires y <= 0
    ensures x * y <= 0
  {
  }

  lemma DivisionInRange(a: nat, b: nat)
    requires b > 0
    ensures 0 <= a / b <= a && 0 <= a % b <= a
  {
    Parts(a, b, a / b, a % b);
  }

  function Divide(a: Word, b: Word): Word
    requires b > 0
  {
    DivisionInRange(a, b);
    a / b
  }

  function Remainder(a: Word, b: Word): Word
    requires b > 0
  {
    DivisionInRange(a, b);
    a % b
  }

  function Abs(a: int): nat {
    if a < 0 then 0 - a else a
  }

  /** The binary operations ADD to EXP (503-554); `None` where the source has no defined result. */
  function Arith(op: Byte, v1: Word, v2: Word): Option<Word> {
    if op == 1 then Some(ToWord(v1 + v2))
    else if op == 2 then Some(ToWord(v1 - v2))
    else if op == 3 then Some(ToWord(v1 * v2))
    else if op == 4 then Some(ToWord(ToSigned(v1) * ToSigned(v2)))
    else if op == 5 then (if v2 == 0 then None else Some(Divide(v1, v2)))
    else if op == 6 then (if v2 == 0 || (ToSigned(v1) == 0 - WORDS / 2 && ToSigned(v2) == -1) then None
                          else Some(ToWord(Quotient(ToSigned(v1), ToSigned(v2)))))
    else if op == 7 then (if v2 == 0 then None else Some(Remainder(v1, v2)))
    else if op == 8 then (if v2 == 0 || (ToSigned(v1) == 0 - WORDS / 2 && ToSigned(v2) == -1) then None
                          else Some(ToWord(ToSigned(v1) - Quotient(ToSigned(v1), ToSigned(v2)) * ToSigned(v2))))
    else Exp(v1, v2)
  }

  /** The comparisons LT to EQ (560-583). */
  predicate Compare(op: Byte, v1: Word, v2: Word) {
    if op == 11 then v1 < v2
    else if op == 12 then v1 <= v2
    else if op == 13 then v1 > v2
    else if op == 14 then v1 >= v2
    else v1 == v2
  }

  // ----- signed arithmetic -----

  predicate Signed64(v: int) {
    0 - WORDS / 2 <= v < WORDS / 2
  }

  lemma SignedBack(v: int)
    requires Signed64(v)
    ensures ToSigned(ToWord(v)) == v
  {
    assert v % WORDS == if v < 0 then v + WORDS else v;
  }

  lemma DivisionParts(a: nat, b: nat) returns (m: nat, n: nat)
    requires b > 0
    ensures m == a / b && a == m * b + n && n < b && m <= a && n <= a
  {
    DivisionInRange(a, b);
    m, n := a / b, a % b;
    assert a == b * m + n;
  }

  lemma QuotientMeans(x: int, y: int, m: nat)
    requires y != 0 && m == Abs(x) / Abs(y)
    ensures Quotient(x, y) == if (x < 0) == (y < 0) then m else 0 - m
  {
  }

  lemma QuotientLaw(x: int, y: int)
    requires y != 0
    ensures var q := Quotient(x, y); var r := x - q * y;
            && Abs(r) < Abs(y) && Abs(q) <= Abs(x) && Abs(r) <= Abs(x)
            && (r != 0 ==> (r < 0 <==> x < 0)) && (q != 0 ==> (q < 0 <==> (x < 0) != (y < 0)))
  {
    hide Quotient;
    var m, n := DivisionParts(Abs(x), Abs(y));
    QuotientMeans(x, y, m);
    SignedParts(x, y, m, n);
  }

  lemma Signs(m: int, b: int)
    ensures m * (0 - b) == 0 - m * b && (0 - m) * b == 0 - m * b && (0 - m) * (0 - b) == m * b
  {
  }

  /** The four sign cases; `m` and `n` are quotient and remainder of the magnitudes. */
  lemma SignedParts(x: int, y: int, m: int, n: int)
    requires y != 0 && Abs(x) == m * Abs(y) + n && 0 <= n < Abs(y) && 0 <= m <= Abs(x) && n <= Abs(x)
    ensures var q := if (x < 0) == (y < 0) then m else 0 - m;
            x - q * y == if x < 0 then 0 - n else n
  {
    Signs(m, Abs(y));
    if y < 0 {
      assert y == 0 - Abs(y);
    }
  }

  /** SDIV and SMOD: the quotient is rounded towards zero, and the remainder has the sign of the
      dividend. */
  lemma SignedDivision(a: Word, b: Word)
    requires Arith(6, a, b).Some?
    ensures Arith(8, a, b).Some?
    ensures var x, y, q, r := ToSigned(a), ToSigned(b), ToSigned(Arith(6, a, b).value), ToSigned(Arith(8, a, b).value);
            && x == q * y + r && Abs(r) < Abs(y)
            && (r != 0 ==> (r < 0 <==> x < 0)) && (q != 0 ==> (q < 0 <==> (x < 0) != (y < 0)))
  {
    hide Quotient, ToWord;
    var x, y := ToSigned(a), ToSigned(b);
    var q := Quotient(x, y);
    QuotientLaw(x, y);
    QuotientFits(x, y);
    SignedBack(q);
    SignedBack(x - q * y);
  }

  /** Only the quotient of the smallest number and -1 does not fit. */
  lemma QuotientFits(x: int, y: int)
    requires y != 0 && Signed64(x) && Signed64(y)
    ensures Signed64(Quotient(x, y)) <==> !(x == 0 - WORDS / 2 && y == -1)
  {
    hide Quotient;
    var q := Quotient(x, y);
    QuotientLaw(x, y);
    if q == WORDS / 2 {
      SameMagnitude(x, y, q);
    }
    if y == -1 {
      assert x - q * y == x + q;
    }
  }

  lemma SameMagnitude(x: int, y: int, q: int)
    requires q == WORDS / 2 && Signed64(x) && Signed64(y) && y != 0
    requires Abs(x - q * y) < Abs(y) && Abs(q) <= Abs(x) && (q < 0 <==> (x < 0) != (y < 0))
    ensures x == 0 - WORDS / 2 && y == -1
  {
  }

  function StepArith(code: seq<Byte>, s: Machine, op: Byte, op1: bool, op2: bool): Outcome {
    match FetchOperand(code, s, op1)
    case Fault => Faulted
    case Got(v1, s1) =>
      match FetchOperand(code, s1, op2)
      case Fault => Faulted
      case Got(v2, s2) =>
        match FetchRegister(code, s2)
        case Fault => Faulted
        case Got(r, s3) =>
          match Arith(op, v1, v2)
          case None => Faulted
          case Some(v) => Running(SetReg(s3, r, v))
  }

  /** NEG and NOT (226-235, 327-336, 556-559, 585-588). */
  function StepUnary(code: seq<Byte>, s: Machine, op: Byte, op1: bool): Outcome {
    match FetchOperand(code, s, op1)
    case Fault => Faulted
    case Got(v1, s1) =>
      match FetchRegister(code, s1)
      case Fault => Faulted
      case Got(r, s2) => Running(SetReg(s2, r, if op == 10 then ToWord(0 - v1) else WORDS - 1 - v1))
  }

  function StepCompare(code: seq<Byte>, s: Machine, op: Byte, op1: bool, op2: bool): Outcome {
    match FetchOperand(code, s, op1)
    case Fault => Faulted
    case Got(v1, s1) =>
      match FetchOperand(code, s1, op2)
      case Fault => Faulted
      case Got(v2, s2) =>
        match FetchAddress(code, s2)
        case Fault => Faulted
        case Got(a, s3) => Running(if Compare(op, v1, v2) then SetReg(s3, IP, a) else s3)
  }

  function StepStore(code: seq<Byte>, s: Machine, op2: bool): Outcome {
    match FetchRegister(code, s)
    case Fault => Faulted
    case Got(r, s1) =>
      match FetchTarget(code, s1, op2)
      case Fault => Faulted
      case Got(a, s2) => if a + 8 <= STACK_SIZE then Running(s2.(mem := Write64(s2.mem, a, s2.regs[r]))) else Faulted
  }

  function StepLoad(code: seq<Byte>, s: Machine, op2: bool): Outcome {
    match FetchRegister(code, s)
    case Fault => Faulted
    case Got(r, s1) =>
      match FetchTarget(code, s1, op2)
      case Fault => Faulted
      case Got(a, s2) => if a + 8 <= STACK_SIZE then Running(SetReg(s2, r, Read64(s2.mem, a))) else Faulted
  }

  function StepJump(code: seq<Byte>, s: Machine, op1: bool, op2: bool): Outcome {
    match FetchJump(code, s, op1, op2)
    case Fault => Faulted
    case Got(a, s1) => Running(SetReg(s1, IP, a))
  }

  /** CALL pushes the clean-up size, then the address of the next instruction (376-394). */
  function StepCall(code: seq<Byte>, s: Machine, op1: bool, op2: bool): Outcome {
    match FetchJump(code, s, op1, op2)
    case Fault => Faulted
    case Got(a, s1) =>
      match FetchConstant(code, s1)
      case Fault => Faulted
      case Got(size, s2) =>
        match Pushed(s2, size)
        case Fault => Faulted
        case Got(_, s3) =>
          match Pushed(s3, s3.regs[IP])
          case Fault => Faulted
          case Got(_, s4) => Running(SetReg(s4, IP, a))
  }

  /** RET pops them, each cut down to 32 bits (395-403). */
  function StepRet(s: Machine): Outcome {
    match Popped(s)
    case Fault => Faulted
    case Got(address, s1) =>
      match Popped(s1)
      case Fault => Faulted
      case Got(size, s2) =>
        Running(SetReg(SetReg(s2, SP, ToWord(s2.regs[SP] + size % INTS)), IP, address % INTS))
  }

  function StepPush(code: seq<Byte>, s: Machine, op1: bool): Outcome {
    match FetchOperand(code, s, op1)
    case Fault => Faulted
    case Got(v, s1) =>
      match Pushed(s1, v)
      case Fault => Faulted
      case Got(_, s2) => Running(s2)
  }

  function StepPop(code: seq<Byte>, s: Machine): Outcome {
    match FetchRegister(code, s)
    case Fault => Faulted
    case Got(r, s1) =>
      match Popped(s1)
      case Fault => Faulted
      case Got(v, s2) => Running(SetReg(s2, r, v))
  }

  function StepMov(code: seq<Byte>, s: Machine, op2: bool): Outcome {
    match FetchRegister(code, s)
    case Fault => Faulted
    case Got(r, s1) =>
      match FetchOperand(code, s1, op2)
      case Fault => Faulted
      case Got(v, s2) => Running(SetReg(s2, r, v))
  }

  const CALL: Byte := 20
  const RET: Byte := 21

  /** What follows the opcode byte; an unknown opcode is reported and skipped. */
  function Dispatch(code: seq<Byte>, s: Machine, op: Byte, op1: bool, op2: bool): Outcome {
    if op == 0 then Stopped(s)
    else if op <= 9 then StepArith(code, s, op, op1, op2)
    else if op == 10 || op == 16 then StepUnary(code, s, op, op1)
    else if op <= 15 then StepCompare(code, s, op, op1, op2)
    else if op == 17 then StepStore(code, s, op2)
    else if op == 18 then StepLoad(code, s, op2)
    else if op == 19 then StepJump(code, s, op1, op2)
    else if op == CALL then StepCall(code, s, op1, op2)
    else if op == RET then StepRet(s)
    else if op == 22 then StepPush(code, s, op1)
    else if op == 23 then StepPop(code, s)
    else if op == 24 then StepMov(code, s, op2)
    else if op == 25 then SystemCall
    else Running(s)
  }

  /** One round of the loop of Execute. */
  function Step(code: seq<Byte>, s: Machine): Outcome {
    match FetchByte(code, s)
    case Fault => Faulted
    case Got(b, s1) => Dispatch(code, s1, b / 4, b % 2 == 1, b / 2 % 2 == 1)
  }

  /** At most `fuel` rounds. */
  function Execution(code: seq<Byte>, s: Machine, fuel: nat): Outcome
    decreases fuel
  {
    if fuel == 0 then Running(s)
    else
      match Step(code, s)
      case Running(s') => Execution(code, s', fuel - 1)
      case other => other
  }

  /** Once a program has ended, more rounds change nothing. */
  lemma {:induction false} MoreRounds(code: seq<Byte>, s: Machine, m: nat, n: nat)
    requires m <= n && !Execution(code, s, m).Running?
    ensures Execution(code, s, n) == Execution(code, s, m)
    decreases m
  {
    hide Step;
    match Step(code, s)
    case Running(s') => MoreRounds(code, s', m - 1, n - 1);
    case _ =>
  }

  /** POP takes back what PUSH put there; only the eight bytes below the stack pointer have changed. */
  lemma PopOfPush(s: Machine, v: Word)
    requires Pushed(s, v).Got?
    ensures var p := Pushed(s, v).state;
            && 8 <= s.regs[SP] <= STACK_SIZE
            && Popped(p) == Got(v, s.(mem := p.mem))
            && p.mem[..s.regs[SP] - 8] == s.mem[..s.regs[SP] - 8] && p.mem[s.regs[SP]..] == s.mem[s.regs[SP]..]
  {
    hide Read64, Write64, Encoded;
    var sp := (s.regs[SP] - 8) % WORDS;
    assert sp == s.regs[SP] - 8;
    ReadOfWrite(s.mem, sp, v);
    WriteAround(s.mem, sp, v);
    assert s.regs[SP := sp][SP := s.regs[SP]] == s.regs;
  }

  lemma WriteAround(mem: seq<Byte>, a: nat, v: Word)
    requires a + 8 <= |mem|
    ensures Write64(mem, a, v)[..a] == mem[..a] && Write64(mem, a, v)[a + 8..] == mem[a + 8..]
  {
    hide Encoded;
  }
}

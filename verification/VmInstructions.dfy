/** What the instructions of the virtual machine mean (___sunum/vm.cpp:71-480, 503-600): their bytes, and
    for each the change of registers and memory that one round of the loop of Execute makes. */
module VmInstructions {
  import opened Strings
  import opened Power
  import opened LittleEndian
  import opened VmExp
  import opened Vm

  // ----- instructions and their bytes -----

  /** A value operand. */
  datatype Operand = Reg(r: nat) | Const(v: Word)

  /** An address operand. */
  datatype Place = At(a: nat) | InReg(r: nat)

  datatype BinaryOp = Add | Sub | Mul | SignedMul | Div | SignedDiv | Mod | SignedMod | Power

  datatype UnaryOp = Negate | Invert

  datatype Relation = Lower | LowerOrEqual | Greater | GreaterOrEqual | Same

  datatype Instruction =
    | Halt
    | Binary(op: BinaryOp, x: Operand, y: Operand, to: nat)
    | Unary(neg: UnaryOp, x: Operand, to: nat)
    | Branch(rel: Relation, x: Operand, y: Operand, target: nat)
    | Store(from: nat, place: Place)
    | Load(to: nat, place: Place)
    | Jump(place: Place, absolute: bool)
    | Call(place: Place, absolute: bool, cleanUp: Word)
    | Return
    | Push(x: Operand)
    | Pop(to: nat)
    | Move(to: nat, x: Operand)
    | System
    | Illegal(number: nat)

  predicate GoodOperand(x: Operand) {
    x.Reg? ==> x.r < REGISTERS
  }

  predicate GoodPlace(p: Place) {
    if p.At? then p.a < STACK_SIZE else p.r < REGISTERS
  }

  predicate Good(i: Instruction) {
    match i
    case Binary(_, x, y, r) => GoodOperand(x) && GoodOperand(y) && r < REGISTERS
    case Unary(_, x, r) => GoodOperand(x) && r < REGISTERS
    case Branch(_, x, y, a) => GoodOperand(x) && GoodOperand(y) && a < STACK_SIZE
    case Store(r, p) => r < REGISTERS && GoodPlace(p)
    case Load(r, p) => r < REGISTERS && GoodPlace(p)
    case Jump(p, _) => GoodPlace(p)
    case Call(p, _, _) => GoodPlace(p)
    case Push(x) => GoodOperand(x)
    case Pop(r) => r < REGISTERS
    case Move(r, x) => r < REGISTERS && GoodOperand(x)
    case Illegal(n) => 26 <= n < 64
    case _ => true
  }

  function BinaryNumber(op: BinaryOp): Byte {
    match op
    case Add => 1 case Sub => 2 case Mul => 3 case SignedMul => 4 case Div => 5
    case SignedDiv => 6 case Mod => 7 case SignedMod => 8 case Power => 9
  }

  function RelationNumber(rel: Relation): Byte {
    match rel
    case Lower => 11 case LowerOrEqual => 12 case Greater => 13 case GreaterOrEqual => 14 case Same => 15
  }

  /** The numbering of vm.h. */
  function Number(i: Instruction): (n: Byte)
    requires Good(i)
    ensures n < 64
  {
    match i
    case Halt => 0
    case Binary(op, _, _, _) => BinaryNumber(op)
    case Unary(op, _, _) => if op == Negate then 10 else 16
    case Branch(rel, _, _, _) => RelationNumber(rel)
    case Store(_, _) => 17
    case Load(_, _) => 18
    case Jump(_, _) => 19
    case Call(_, _, _) => 20
    case Return => 21
    case Push(_) => 22
    case Pop(_) => 23
    case Move(_, _) => 24
    case System => 25
    case Illegal(n) => n
  }

  /** The first byte: the number, and two flags that say which operands stand in the code itself. */
  function First(number: Byte, flag1: bool, flag2: bool): Byte
    requires number < 64
  {
    4 * number + (if flag2 then 2 else 0) + (if flag1 then 1 else 0)
  }

  function OperandBytes(x: Operand): seq<Byte>
    requires GoodOperand(x)
  {
    match x case Reg(r) => [r] case Const(v) => Encoded(v, 8)
  }

  function PlaceBytes(p: Place): seq<Byte>
    requires GoodPlace(p)
  {
    match p case At(a) => Encoded(a, 3) case InReg(r) => [r]
  }

  function Bytes(i: Instruction): seq<Byte>
    requires Good(i)
  {
    var n := Number(i);
    match i
    case Binary(_, x, y, r) => [First(n, x.Const?, y.Const?)] + OperandBytes(x) + OperandBytes(y) + [r]
    case Unary(_, x, r) => [First(n, x.Const?, false)] + OperandBytes(x) + [r]
    case Branch(_, x, y, a) => [First(n, x.Const?, y.Const?)] + OperandBytes(x) + OperandBytes(y) + Encoded(a, 3)
    case Store(r, p) => [First(n, false, p.At?)] + [r] + PlaceBytes(p)
    case Load(r, p) => [First(n, false, p.At?)] + [r] + PlaceBytes(p)
    case Jump(p, absolute) => [First(n, p.At?, absolute)] + PlaceBytes(p)
    case Call(p, absolute, size) => [First(n, p.At?, absolute)] + PlaceBytes(p) + Encoded(size, 8)
    case Push(x) => [First(n, x.Const?, false)] + OperandBytes(x)
    case Pop(r) => [First(n, false, false)] + [r]
    case Move(r, x) => [First(n, false, x.Const?)] + [r] + OperandBytes(x)
    case _ => [First(n, false, false)]
  }

  // ----- their meaning -----

  /** The instruction pointer moves on. */
  function Forward(s: Machine, n: nat): Machine
    requires s.regs[IP] + n < WORDS
  {
    SetReg(s, IP, s.regs[IP] + n)
  }

  /** The value of an operand; the instruction pointer as an operand stands right behind its byte. */
  function Val(s: Machine, x: Operand, behind: Word): Word
    requires GoodOperand(x)
  {
    match x case Const(v) => v case Reg(r) => if r == IP then behind else s.regs[r]
  }

  function Address(s: Machine, p: Place, behind: Word): nat
    requires GoodPlace(p)
  {
    match p case At(a) => a case InReg(r) => (if r == IP then behind else s.regs[r]) % INTS
  }

  predicate Holds(rel: Relation, a: Word, b: Word) {
    match rel
    case Lower => a < b
    case LowerOrEqual => a <= b
    case Greater => b < a
    case GreaterOrEqual => b <= a
    case Same => a == b
  }

  /** A signed number and a word with the same bits. */
  predicate Represents(x: int, v: Word) {
    0 - WORDS / 2 <= x < WORDS / 2 && (x == v || x == v - WORDS)
  }

  /** Equal in 64 bits. */
  predicate Congruent(x: int, v: Word) {
    (x - v) % WORDS == 0
  }

  /** What a binary operation gives; `None` where it is not defined. */
  ghost predicate Gives(op: BinaryOp, a: Word, b: Word, r: Option<Word>) {
    match op
    case Add => r.Some? && Congruent(a + b, r.value)
    case Sub => r.Some? && Congruent(a - b, r.value)
    case Mul => r.Some? && Congruent(a * b, r.value)
    case SignedMul => r.Some? && Congruent(a * b, r.value)
    case Div => (r.None? <==> b == 0) && (r.Some? ==> r.value * b <= a < r.value * b + b)
    case Mod => (r.None? <==> b == 0) && (r.Some? ==> r.value < b && (a - r.value) % b == 0)
    case SignedDiv =>
      (r.None? <==> Undefined(a, b)) &&
      (r.Some? ==> forall x: int, y: int, q: int | Represents(x, a) && Represents(y, b) && Represents(q, r.value) ::
         Abs(x - q * y) < Abs(y) && (x - q * y == 0 || (x - q * y < 0 <==> x < 0)))
    case SignedMod =>
      (r.None? <==> Undefined(a, b)) &&
      (r.Some? ==> forall x: int, y: int, m: int | Represents(x, a) && Represents(y, b) && Represents(m, r.value) ::
         RemainderOf(x, y, m))
    case Power => r == Exp(a, b)
  }

  /** The remainder of a division that rounds towards zero has the sign of the dividend. */
  ghost predicate RemainderOf(x: int, y: int, m: int) {
    Abs(m) < Abs(y) && (m == 0 || (m < 0 <==> x < 0)) && exists q: int :: x == q * y + m
  }

  /** Division by zero, and of the smallest number by -1. */
  predicate Undefined(a: Word, b: Word) {
    b == 0 || (a == WORDS / 2 && b == WORDS - 1)
  }

  /** One round of the loop, on a machine that stands in front of the instruction. */
  ghost predicate Means(i: Instruction, s: Machine, o: Outcome)
    requires Good(i) && s.regs[IP] + |Bytes(i)| < WORDS
  {
    var ip: nat := s.regs[IP];
    var s' := Forward(s, |Bytes(i)|);
    match i
    case Halt => o == Stopped(s')
    case Binary(op, x, y, r) =>
      var a := Val(s, x, ip + 1 + |OperandBytes(x)|);
      var b := Val(s, y, ip + 1 + |OperandBytes(x)| + |OperandBytes(y)|);
      if o.Faulted? then Gives(op, a, b, None)
      else o.Running? && exists v: Word :: Gives(op, a, b, Some(v)) && o.state == SetReg(s', r, v)
    case Unary(op, x, r) =>
      var a := Val(s, x, ip + 1 + |OperandBytes(x)|);
      o.Running? && exists v: Word ::
        o.state == SetReg(s', r, v) && (if op == Negate then Congruent(0 - a, v) else a + v == WORDS - 1)
    case Branch(rel, x, y, target) =>
      var a := Val(s, x, ip + 1 + |OperandBytes(x)|);
      var b := Val(s, y, ip + 1 + |OperandBytes(x)| + |OperandBytes(y)|);
      o == Running(if Holds(rel, a, b) then SetReg(s', IP, target) else s')
    case Store(r, p) =>
      var a := Address(s, p, s'.regs[IP]);
      if a + 8 <= STACK_SIZE then o == Running(s'.(mem := Write64(s.mem, a, s'.regs[r]))) else o == Faulted
    case Load(r, p) =>
      var a := Address(s, p, s'.regs[IP]);
      if a + 8 <= STACK_SIZE then o == Running(SetReg(s', r, Read64(s.mem, a))) else o == Faulted
    case Jump(p, absolute) =>
      var a := Address(s, p, s'.regs[IP]);
      o == Running(SetReg(s, IP, if absolute then a else (a + s'.regs[IP] - 1) % INTS))
    case Call(p, absolute, size) =>
      var behind := ip + 1 + |PlaceBytes(p)|;
      var a := Address(s, p, behind);
      var target: Word := if absolute then a else (a + behind - 1) % INTS;
      (match Pushed(s', size)
       case Fault => o == Faulted
       case Got(_, s1) =>
         match Pushed(s1, s'.regs[IP])
         case Fault => o == Faulted
         case Got(_, s2) => o == Running(SetReg(s2, IP, target)))
    case Return =>
      (match Popped(s')
       case Fault => o == Faulted
       case Got(address, s1) =>
         match Popped(s1)
         case Fault => o == Faulted
         case Got(size, s2) =>
           o == Running(SetReg(SetReg(s2, SP, (s2.regs[SP] + size % INTS) % WORDS), IP, address % INTS)))
    case Push(x) =>
      (match Pushed(s', Val(s, x, s'.regs[IP])) case Fault => o == Faulted case Got(_, s1) => o == Running(s1))
    case Pop(r) =>
      (match Popped(s') case Fault => o == Faulted case Got(v, s1) => o == Running(SetReg(s1, r, v)))
    case Move(r, x) => o == Running(SetReg(s', r, Val(s, x, s'.regs[IP])))
    case System => o == SystemCall
    case Illegal(_) => o == Running(s')
  }

  // ----- fetching -----

  ghost predicate Stands(code: seq<Byte>, at: nat, bytes: seq<Byte>) {
    at + |bytes| <= |code| && code[at..at + |bytes|] == bytes && at + |bytes| < WORDS
  }

  lemma StandsSplit(code: seq<Byte>, at: nat, a: seq<Byte>, b: seq<Byte>)
    requires Stands(code, at, a + b)
    ensures Stands(code, at, a) && Stands(code, at + |a|, b)
  {
    var all := code[at..at + |a + b|];
    assert all[..|a|] == a && all[|a|..] == b;
  }

  lemma ForwardTwice(s: Machine, m: nat, n: nat)
    requires s.regs[IP] + m + n < WORDS
    ensures Forward(Forward(s, m), n) == Forward(s, m + n)
  {
    assert s.regs[IP := s.regs[IP] + m][IP := s.regs[IP] + m + n] == s.regs[IP := s.regs[IP] + m + n];
  }

  lemma ByteFetched(code: seq<Byte>, s: Machine, b: Byte)
    requires Stands(code, s.regs[IP], [b])
    ensures FetchByte(code, s) == Got(b, Forward(s, 1))
  {
    assert code[s.regs[IP]] == code[s.regs[IP]..s.regs[IP] + 1][0];
  }

  lemma RegisterFetched(code: seq<Byte>, s: Machine, r: nat)
    requires r < REGISTERS && Stands(code, s.regs[IP], [r])
    ensures FetchRegister(code, s) == Got(r, Forward(s, 1))
  {
    ByteFetched(code, s, r);
  }

  lemma ConstantFetched(code: seq<Byte>, s: Machine, v: Word)
    requires Stands(code, s.regs[IP], Encoded(v, 8))
    ensures FetchConstant(code, s) == Got(v, Forward(s, 8))
  {
    hide Encoded, Value;
    Width8();
    ValueOfEncoded(v, 8);
  }

  lemma OperandFetched(code: seq<Byte>, s: Machine, x: Operand)
    requires GoodOperand(x) && Stands(code, s.regs[IP], OperandBytes(x))
    ensures FetchOperand(code, s, x.Const?) ==
            Got(Val(s, x, s.regs[IP] + |OperandBytes(x)|), Forward(s, |OperandBytes(x)|))
  {
    hide FetchConstant, FetchRegister, Encoded;
    match x
    case Reg(r) => RegisterFetched(code, s, r);
    case Const(v) => ConstantFetched(code, s, v);
  }

  lemma AddressFetched(code: seq<Byte>, s: Machine, a: nat)
    requires a < STACK_SIZE && Stands(code, s.regs[IP], Encoded(a, 3))
    ensures FetchAddress(code, s) == Got(a, Forward(s, 3))
  {
    hide FetchByte, Stands;
    var a1, a2, a3 := a % 0x100, a / 0x100 % 0x100, a / 0x1_0000;
    ThreeBytes(a);
    StandsSplit(code, s.regs[IP], [a1, a2], [a3]);
    assert [a1, a2] == [a1] + [a2];
    StandsSplit(code, s.regs[IP], [a1], [a2]);
    Within(code, s.regs[IP], Encoded(a, 3));
    ByteFetched(code, s, a1);
    ByteFetched(code, Forward(s, 1), a2);
    ForwardTwice(s, 1, 1);
    ByteFetched(code, Forward(s, 2), a3);
    ForwardTwice(s, 2, 1);
  }

  lemma Within(code: seq<Byte>, at: nat, bytes: seq<Byte>)
    requires Stands(code, at, bytes)
    ensures at + |bytes| < WORDS
  {
  }

  lemma ThreeBytes(a: nat)
    requires a < STACK_SIZE
    ensures a / 0x1_0000 < 0x100
    ensures Encoded(a, 3) == [a % 0x100, a / 0x100 % 0x100] + [a / 0x1_0000]
    ensures a == a % 0x100 + 0x100 * (a / 0x100 % 0x100) + 0x1_0000 * (a / 0x1_0000)
  {
    assert a / 0x100 / 0x100 == a / 0x1_0000;
    var b, c := a / 0x100, a / 0x1_0000;
    assert c % 0x100 == c;
    assert Encoded(c, 1) == [c] + Encoded(c / 0x100, 0);
    assert Encoded(b, 2) == [b % 0x100] + Encoded(c, 1);
  }

  lemma PlaceFetched(code: seq<Byte>, s: Machine, p: Place)
    requires GoodPlace(p) && Stands(code, s.regs[IP], PlaceBytes(p))
    ensures FetchTarget(code, s, p.At?) ==
            Got(Address(s, p, s.regs[IP] + |PlaceBytes(p)|), Forward(s, |PlaceBytes(p)|))
  {
    hide FetchAddress, FetchRegister, Encoded;
    match p
    case At(a) => AddressFetched(code, s, a);
    case InReg(r) => RegisterFetched(code, s, r);
  }

  // ----- one round -----

  lemma FirstFetched(code: seq<Byte>, s: Machine, n: Byte, flag1: bool, flag2: bool)
    requires n < 64 && Stands(code, s.regs[IP], [First(n, flag1, flag2)])
    ensures Step(code, s) == Dispatch(code, Forward(s, 1), n, flag1, flag2)
  {
    hide Dispatch, FetchByte;
    var b := First(n, flag1, flag2);
    ByteFetched(code, s, b);
    assert b / 4 == n && b % 2 == (if flag1 then 1 else 0) && b / 2 % 2 == (if flag2 then 1 else 0);
  }

  /** Operands read after the instruction pointer has moved. */
  lemma ValForward(s: Machine, n: nat, x: Operand, behind: Word)
    requires s.regs[IP] + n < WORDS && GoodOperand(x)
    ensures Val(Forward(s, n), x, behind) == Val(s, x, behind)
  {
  }

  lemma AddressForward(s: Machine, n: nat, p: Place, behind: Word)
    requires s.regs[IP] + n < WORDS && GoodPlace(p)
    ensures Address(Forward(s, n), p, behind) == Address(s, p, behind)
  {
  }

  /** Two operands. */
  lemma OperandsFetched(code: seq<Byte>, s: Machine, first: Byte, x: Operand, y: Operand, rest: seq<Byte>)
    requires GoodOperand(x) && GoodOperand(y)
    requires Stands(code, s.regs[IP], [first] + OperandBytes(x) + OperandBytes(y) + rest)
    ensures var m, n := 1 + |OperandBytes(x)|, 1 + |OperandBytes(x)| + |OperandBytes(y)|;
            && s.regs[IP] + n + |rest| < WORDS && Stands(code, s.regs[IP], [first])
            && Stands(code, s.regs[IP] + n, rest)
            && FetchOperand(code, Forward(s, 1), x.Const?) == Got(Val(s, x, s.regs[IP] + m), Forward(s, m))
            && FetchOperand(code, Forward(s, m), y.Const?) == Got(Val(s, y, s.regs[IP] + n), Forward(s, n))
  {
    hide FetchOperand, OperandBytes, Stands, Val;
    var xs, ys := OperandBytes(x), OperandBytes(y);
    var ip: nat := s.regs[IP];
    StandsSplit(code, ip, [first] + xs + ys, rest);
    StandsSplit(code, ip, [first] + xs, ys);
    StandsSplit(code, ip, [first], xs);
    Within(code, ip + 1 + |xs| + |ys|, rest);
    ForwardTwice(s, 1, |xs|);
    ForwardTwice(s, 1 + |xs|, |ys|);
    OperandFetched(code, Forward(s, 1), x);
    OperandFetched(code, Forward(s, 1 + |xs|), y);
    ValForward(s, 1, x, ip + 1 + |xs|);
    ValForward(s, 1 + |xs|, y, ip + 1 + |xs| + |ys|);
  }

  /** One operand. */
  lemma OneOperandFetched(code: seq<Byte>, s: Machine, first: Byte, x: Operand, rest: seq<Byte>)
    requires GoodOperand(x) && Stands(code, s.regs[IP], [first] + OperandBytes(x) + rest)
    ensures var n := 1 + |OperandBytes(x)|;
            && s.regs[IP] + n + |rest| < WORDS && Stands(code, s.regs[IP], [first])
            && Stands(code, s.regs[IP] + n, rest)
            && FetchOperand(code, Forward(s, 1), x.Const?) == Got(Val(s, x, s.regs[IP] + n), Forward(s, n))
  {
    hide FetchOperand, OperandBytes, Stands, Val;
    var xs := OperandBytes(x);
    var ip: nat := s.regs[IP];
    StandsSplit(code, ip, [first] + xs, rest);
    StandsSplit(code, ip, [first], xs);
    Within(code, ip + 1 + |xs|, rest);
    ForwardTwice(s, 1, |xs|);
    OperandFetched(code, Forward(s, 1), x);
    ValForward(s, 1, x, ip + 1 + |xs|);
  }

  /** An address operand behind `front` bytes. */
  lemma PlaceBehind(code: seq<Byte>, s: Machine, front: seq<Byte>, p: Place, rest: seq<Byte>)
    requires GoodPlace(p) && Stands(code, s.regs[IP], front + PlaceBytes(p) + rest)
    ensures var m, n := |front|, |front| + |PlaceBytes(p)|;
            && s.regs[IP] + n + |rest| < WORDS && Stands(code, s.regs[IP], front)
            && Stands(code, s.regs[IP] + n, rest)
            && FetchTarget(code, Forward(s, m), p.At?) == Got(Address(s, p, s.regs[IP] + n), Forward(s, n))
  {
    hide FetchTarget, PlaceBytes, Stands, Address;
    var ps := PlaceBytes(p);
    var ip: nat := s.regs[IP];
    StandsSplit(code, ip, front + ps, rest);
    StandsSplit(code, ip, front, ps);
    Within(code, ip + |front| + |ps|, rest);
    ForwardTwice(s, |front|, |ps|);
    PlaceFetched(code, Forward(s, |front|), p);
    AddressForward(s, |front|, p, ip + |front| + |ps|);
  }

  lemma ReadsRegister(code: seq<Byte>, s: Machine, n: nat, r: nat)
    requires r < REGISTERS && s.regs[IP] + n < WORDS && Stands(code, s.regs[IP] + n, [r])
    ensures s.regs[IP] + n + 1 < WORDS && FetchRegister(code, Forward(s, n)) == Got(r, Forward(s, n + 1))
  {
    hide FetchRegister;
    Within(code, s.regs[IP] + n, [r]);
    RegisterFetched(code, Forward(s, n), r);
    ForwardTwice(s, n, 1);
  }

  lemma BinaryMeans(code: seq<Byte>, s: Machine, i: Instruction)
    requires i.Binary? && Good(i) && Stands(code, s.regs[IP], Bytes(i))
    ensures s.regs[IP] + |Bytes(i)| < WORDS && Means(i, s, Step(code, s))
  {
    hide FetchOperand, FetchRegister, OperandBytes, Stands, Val, Step, Arith, Gives;
    var xs, ys, n := OperandBytes(i.x), OperandBytes(i.y), Number(i);
    var first := First(n, i.x.Const?, i.y.Const?);
    OperandsFetched(code, s, first, i.x, i.y, [i.to]);
    FirstFetched(code, s, n, i.x.Const?, i.y.Const?);
    ReadsRegister(code, s, 1 + |xs| + |ys|, i.to);
    ArithGives(i.op, Val(s, i.x, s.regs[IP] + 1 + |xs|), Val(s, i.y, s.regs[IP] + 1 + |xs| + |ys|));
  }

  lemma UnaryMeans(code: seq<Byte>, s: Machine, i: Instruction)
    requires i.Unary? && Good(i) && Stands(code, s.regs[IP], Bytes(i))
    ensures s.regs[IP] + |Bytes(i)| < WORDS && Means(i, s, Step(code, s))
  {
    hide FetchOperand, FetchRegister, OperandBytes, Stands, Val, Step, ToWord, Congruent;
    var xs, n := OperandBytes(i.x), Number(i);
    OneOperandFetched(code, s, First(n, i.x.Const?, false), i.x, [i.to]);
    FirstFetched(code, s, n, i.x.Const?, false);
    ReadsRegister(code, s, 1 + |xs|, i.to);
    var a := Val(s, i.x, s.regs[IP] + 1 + |xs|);
    Negated(a);
    assert i.neg == Invert ==> a + (WORDS - 1 - a) == WORDS - 1;
  }

  lemma Negated(a: Word)
    ensures Congruent(0 - a, ToWord(0 - a))
  {
    ModuloParts(0 - a);
  }

  lemma BranchMeans(code: seq<Byte>, s: Machine, i: Instruction)
    requires i.Branch? && Good(i) && Stands(code, s.regs[IP], Bytes(i))
    ensures s.regs[IP] + |Bytes(i)| < WORDS && Means(i, s, Step(code, s))
  {
    hide FetchOperand, FetchAddress, OperandBytes, Stands, Val, Step, Encoded;
    var xs, ys, n := OperandBytes(i.x), OperandBytes(i.y), Number(i);
    OperandsFetched(code, s, First(n, i.x.Const?, i.y.Const?), i.x, i.y, Encoded(i.target, 3));
    FirstFetched(code, s, n, i.x.Const?, i.y.Const?);
    var m := 1 + |xs| + |ys|;
    AddressFetched(code, Forward(s, m), i.target);
    ForwardTwice(s, m, 3);
  }

  lemma StoreMeans(code: seq<Byte>, s: Machine, i: Instruction)
    requires i.Store? && Good(i) && Stands(code, s.regs[IP], Bytes(i))
    ensures s.regs[IP] + |Bytes(i)| < WORDS && Means(i, s, Step(code, s))
  {
    hide FetchTarget, FetchRegister, PlaceBytes, Stands, Address, Step, Read64, Write64;
    RegisterAndPlace(code, s, First(17, false, i.place.At?), i.from, i.place);
    FirstFetched(code, s, 17, false, i.place.At?);
  }

  lemma LoadMeans(code: seq<Byte>, s: Machine, i: Instruction)
    requires i.Load? && Good(i) && Stands(code, s.regs[IP], Bytes(i))
    ensures s.regs[IP] + |Bytes(i)| < WORDS && Means(i, s, Step(code, s))
  {
    hide FetchTarget, FetchRegister, PlaceBytes, Stands, Address, Step, Read64, Write64;
    RegisterAndPlace(code, s, First(18, false, i.place.At?), i.to, i.place);
    FirstFetched(code, s, 18, false, i.place.At?);
  }

  lemma RegisterAndPlace(code: seq<Byte>, s: Machine, first: Byte, r: nat, p: Place)
    requires r < REGISTERS && GoodPlace(p) && Stands(code, s.regs[IP], [first] + [r] + PlaceBytes(p))
    ensures var n := 2 + |PlaceBytes(p)|;
            && s.regs[IP] + n < WORDS && Stands(code, s.regs[IP], [first])
            && FetchRegister(code, Forward(s, 1)) == Got(r, Forward(s, 2))
            && FetchTarget(code, Forward(s, 2), p.At?) == Got(Address(s, p, s.regs[IP] + n), Forward(s, n))
  {
    hide FetchTarget, FetchRegister, PlaceBytes, Stands, Address;
    assert [first] + [r] + PlaceBytes(p) + [] == [first] + [r] + PlaceBytes(p);
    PlaceBehind(code, s, [first] + [r], p, []);
    StandsSplit(code, s.regs[IP], [first], [r]);
    ReadsRegister(code, s, 1, r);
  }

  lemma JumpMeans(code: seq<Byte>, s: Machine, i: Instruction)
    requires i.Jump? && Good(i) && Stands(code, s.regs[IP], Bytes(i))
    ensures s.regs[IP] + |Bytes(i)| < WORDS && Means(i, s, Step(code, s))
  {
    hide FetchTarget, PlaceBytes, Stands, Address, Step;
    var n := Number(i);
    var ps, first := PlaceBytes(i.place), First(n, i.place.At?, i.absolute);
    assert [first] + ps + [] == [first] + ps;
    PlaceBehind(code, s, [first], i.place, []);
    FirstFetched(code, s, n, i.place.At?, i.absolute);
    var a: Word := if i.absolute then Address(s, i.place, s.regs[IP] + 1 + |ps|)
        else (Address(s, i.place, s.regs[IP] + 1 + |ps|) + s.regs[IP] + |ps|) % INTS;
    SetTwice(s, 1 + |ps|, a);
  }

  lemma SetTwice(s: Machine, n: nat, a: Word)
    requires s.regs[IP] + n < WORDS
    ensures SetReg(Forward(s, n), IP, a) == SetReg(s, IP, a)
  {
    assert s.regs[IP := s.regs[IP] + n][IP := a] == s.regs[IP := a];
  }

  lemma CallMeans(code: seq<Byte>, s: Machine, i: Instruction)
    requires i.Call? && Good(i) && Stands(code, s.regs[IP], Bytes(i))
    ensures s.regs[IP] + |Bytes(i)| < WORDS && Means(i, s, Step(code, s))
  {
    hide FetchTarget, FetchConstant, PlaceBytes, Stands, Address, Step, Pushed, Encoded;
    var n := Number(i);
    var ps, first := PlaceBytes(i.place), First(n, i.place.At?, i.absolute);
    PlaceBehind(code, s, [first], i.place, Encoded(i.cleanUp, 8));
    FirstFetched(code, s, n, i.place.At?, i.absolute);
    ConstantFetched(code, Forward(s, 1 + |ps|), i.cleanUp);
    ForwardTwice(s, 1 + |ps|, 8);
    PushedKeepsIp(Forward(s, 1 + |ps| + 8), i.cleanUp);
  }

  lemma PushedKeepsIp(s: Machine, v: Word)
    ensures Pushed(s, v).Got? ==> Pushed(s, v).state.regs[IP] == s.regs[IP]
  {
    hide Write64;
  }

  lemma PushMeans(code: seq<Byte>, s: Machine, i: Instruction)
    requires i.Push? && Good(i) && Stands(code, s.regs[IP], Bytes(i))
    ensures s.regs[IP] + |Bytes(i)| < WORDS && Means(i, s, Step(code, s))
  {
    hide FetchOperand, OperandBytes, Stands, Val, Step, Pushed;
    var n := Number(i);
    var first := First(n, i.x.Const?, false);
    assert [first] + OperandBytes(i.x) + [] == [first] + OperandBytes(i.x);
    OneOperandFetched(code, s, first, i.x, []);
    FirstFetched(code, s, n, i.x.Const?, false);
  }

  lemma PopMeans(code: seq<Byte>, s: Machine, i: Instruction)
    requires i.Pop? && Good(i) && Stands(code, s.regs[IP], Bytes(i))
    ensures s.regs[IP] + |Bytes(i)| < WORDS && Means(i, s, Step(code, s))
  {
    hide FetchRegister, Stands, Step, Popped;
    var first := First(Number(i), false, false);
    StandsSplit(code, s.regs[IP], [first], [i.to]);
    FirstFetched(code, s, Number(i), false, false);
    ReadsRegister(code, s, 1, i.to);
  }

  lemma MoveMeans(code: seq<Byte>, s: Machine, i: Instruction)
    requires i.Move? && Good(i) && Stands(code, s.regs[IP], Bytes(i))
    ensures s.regs[IP] + |Bytes(i)| < WORDS && Means(i, s, Step(code, s))
  {
    hide FetchOperand, FetchRegister, OperandBytes, Stands, Val, Step;
    var first, xs := First(Number(i), false, i.x.Const?), OperandBytes(i.x);
    var ip: nat := s.regs[IP];
    StandsSplit(code, ip, [first] + [i.to], xs);
    StandsSplit(code, ip, [first], [i.to]);
    Within(code, ip + 2, xs);
    FirstFetched(code, s, Number(i), false, i.x.Const?);
    ReadsRegister(code, s, 1, i.to);
    OperandFetched(code, Forward(s, 2), i.x);
    ForwardTwice(s, 2, |xs|);
    ValForward(s, 2, i.x, ip + 2 + |xs|);
  }

  lemma SimpleMeans(code: seq<Byte>, s: Machine, i: Instruction)
    requires (i.Halt? || i.Return? || i.System? || i.Illegal?) && Good(i) && Stands(code, s.regs[IP], Bytes(i))
    ensures s.regs[IP] + |Bytes(i)| < WORDS && Means(i, s, Step(code, s))
  {
    hide Step, Popped, Stands;
    Within(code, s.regs[IP], Bytes(i));
    FirstFetched(code, s, Number(i), false, false);
  }

  /** Every instruction, read from its bytes, does to registers and memory what it is for. */
  lemma InstructionMeans(code: seq<Byte>, s: Machine, i: Instruction)
    requires Good(i) && Stands(code, s.regs[IP], Bytes(i))
    ensures s.regs[IP] + |Bytes(i)| < WORDS && Means(i, s, Step(code, s))
  {
    hide Means, Step, Stands, Good, Bytes;
    match i
    case Binary(_, _, _, _) => BinaryMeans(code, s, i);
    case Unary(_, _, _) => UnaryMeans(code, s, i);
    case Branch(_, _, _, _) => BranchMeans(code, s, i);
    case Store(_, _) => StoreMeans(code, s, i);
    case Load(_, _) => LoadMeans(code, s, i);
    case Jump(_, _) => JumpMeans(code, s, i);
    case Call(_, _, _) => CallMeans(code, s, i);
    case Push(_) => PushMeans(code, s, i);
    case Pop(_) => PopMeans(code, s, i);
    case Move(_, _) => MoveMeans(code, s, i);
    case _ => SimpleMeans(code, s, i);
  }

  // ----- arithmetic -----

  lemma ModuloParts(x: int)
    ensures (x - x % WORDS) % WORDS == 0
  {
    var q, r := x / WORDS, x % WORDS;
    assert x == q * WORDS + r;
    Radixed(q);
  }

  lemma Radixed(q: int)
    ensures (q * WORDS) % WORDS == 0
  {
    var r := (q * WORDS) % WORDS;
    assert q * WORDS == ((q * WORDS) / WORDS) * WORDS + r;
    var d := q - (q * WORDS) / WORDS;
    assert d * WORDS == r;
  }

  lemma ArithGives(op: BinaryOp, a: Word, b: Word)
    ensures Gives(op, a, b, Arith(BinaryNumber(op), a, b))
  {
    hide Quotient, Divide, Remainder, Exp;
    match op
    case Add => ModuloParts(a + b);
    case Sub => ModuloParts(a - b);
    case Mul => ModuloParts(a * b);
    case SignedMul => SignedProduct(a, b);
    case Div => DivisionGives(a, b);
    case Mod => RemainderGives(a, b);
    case SignedDiv => SignedDivisionGives(a, b);
    case SignedMod => SignedRemainderGives(a, b);
    case Power =>
  }

  /** Signed and unsigned products have the same low 64 bits. */
  lemma SignedProduct(a: Word, b: Word)
    ensures Congruent(a * b, ToWord(ToSigned(a) * ToSigned(b)))
  {
    var x, y := ToSigned(a), ToSigned(b);
    var j, k := if x == a then 0 else 1, if y == b then 0 else 1;
    assert x == a - j * WORDS && y == b - k * WORDS;
    var p := x * y;
    var q := p / WORDS;
    assert p == q * WORDS + ToWord(p);
    Expanded(a, b, j, k);
    assert a * b - ToWord(p) == (q + a * k + j * b - j * k * WORDS) * WORDS;
    Radixed(q + a * k + j * b - j * k * WORDS);
  }

  lemma Expanded(a: int, b: int, j: int, k: int)
    ensures (a - j * WORDS) * (b - k * WORDS) == a * b - (a * k + j * b - j * k * WORDS) * WORDS
  {
  }

  lemma DivisionGives(a: Word, b: Word)
    ensures Gives(Div, a, b, Arith(5, a, b))
  {
    if b != 0 {
      var q, r := a / b, a % b;
      assert a == b * q + r;
      assert b * q == q * b;
    }
  }

  lemma RemainderGives(a: Word, b: Word)
    ensures Gives(Mod, a, b, Arith(7, a, b))
  {
    if b != 0 {
      var q, r := a / b, a % b;
      assert a - r == b * q;
      MultipleOf(q, b);
    }
  }

  lemma MultipleOf(q: int, b: nat)
    requires b > 0
    ensures (b * q) % b == 0
  {
    var r := (b * q) % b;
    var d := q - (b * q) / b;
    assert b * d == r;
    assert d >= 1 ==> b * d >= b;
    assert d <= -1 ==> b * d <= 0 - b;
  }

  lemma RepresentsSigned(x: int, v: Word)
    requires Represents(x, v)
    ensures x == ToSigned(v)
  {
  }

  lemma UndefinedIff(a: Word, b: Word)
    ensures Undefined(a, b) <==> b == 0 || (ToSigned(a) == 0 - WORDS / 2 && ToSigned(b) == -1)
  {
  }

  lemma SignedDivisionGives(a: Word, b: Word)
    ensures Gives(SignedDiv, a, b, Arith(6, a, b))
  {
    hide Quotient, Undefined;
    UndefinedIff(a, b);
    if !Undefined(a, b) {
      SignedDivision(a, b);
      var r := Arith(6, a, b).value;
      forall x: int, y: int, q: int | Represents(x, a) && Represents(y, b) && Represents(q, r)
        ensures Abs(x - q * y) < Abs(y) && (x - q * y == 0 || (x - q * y < 0 <==> x < 0))
      {
        RepresentsSigned(x, a);
        RepresentsSigned(y, b);
        RepresentsSigned(q, r);
      }
    }
  }

  lemma IsRemainder(x: int, y: int, m: int, q: int)
    requires x == q * y + m && Abs(m) < Abs(y) && (m != 0 ==> (m < 0 <==> x < 0))
    ensures RemainderOf(x, y, m)
  {
  }

  lemma SignedRemainderGives(a: Word, b: Word)
    ensures Gives(SignedMod, a, b, Arith(8, a, b))
  {
    hide Quotient, Undefined, RemainderOf, Represents;
    UndefinedIff(a, b);
    if !Undefined(a, b) {
      SignedDivision(a, b);
      var r := Arith(8, a, b).value;
      var t := ToSigned(Arith(6, a, b).value);
      IsRemainder(ToSigned(a), ToSigned(b), ToSigned(r), t);
      forall x: int, y: int, m: int | Represents(x, a) && Represents(y, b) && Represents(m, r)
        ensures RemainderOf(x, y, m)
      {
        RepresentsSigned(x, a);
        RepresentsSigned(y, b);
        RepresentsSigned(m, r);
      }
    }
  }

  // ----- laws -----

  /** Operands other than the instruction pointer, and registers other than it and the stack pointer. */
  predicate Plain(x: Operand) {
    x.Reg? ==> x.r < REGISTERS && x.r != IP
  }

  predicate General(r: nat) {
    r < REGISTERS && r != IP && r != SP
  }

  ghost predicate Runs(code: seq<Byte>, s: Machine, i: Instruction) {
    Good(i) && Stands(code, s.regs[IP], Bytes(i))
  }

  /** The program falls through to the next instruction. */
  function Beyond(s: Machine, i: Instruction): Machine
    requires Good(i) && s.regs[IP] + |Bytes(i)| < WORDS
  {
    Forward(s, |Bytes(i)|)
  }

  /** A comparison jumps, or falls through; the target is not the next instruction. */
  ghost predicate Jumps(code: seq<Byte>, s: Machine, rel: Relation, x: Operand, y: Operand, target: nat) {
    && Runs(code, s, Branch(rel, x, y, target)) && target < WORDS
    && Step(code, s) == Running(SetReg(s, IP, target))
  }

  ghost predicate Tests(code: seq<Byte>, s: Machine, rel: Relation, x: Operand, y: Operand, target: nat) {
    && Plain(x) && Plain(y) && Runs(code, s, Branch(rel, x, y, target))
    && target != s.regs[IP] + |Bytes(Branch(rel, x, y, target))|
  }

  function Holding(s: Machine, x: Operand): Word
    requires Plain(x)
  {
    match x case Const(v) => v case Reg(r) => s.regs[r]
  }

  /** A comparison jumps exactly when its relation holds between the unsigned values. */
  lemma JumpsIff(code: seq<Byte>, s: Machine, rel: Relation, x: Operand, y: Operand, target: nat)
    requires Tests(code, s, rel, x, y, target)
    ensures Jumps(code, s, rel, x, y, target) <==> Holds(rel, Holding(s, x), Holding(s, y))
    ensures s.regs[IP] + |Bytes(Branch(rel, x, y, target))| < WORDS
    ensures !Jumps(code, s, rel, x, y, target) ==>
            Step(code, s) == Running(Forward(s, |Bytes(Branch(rel, x, y, target))|))
  {
    hide Step, Bytes, Stands, Holds, OperandBytes;
    var i := Branch(rel, x, y, target);
    InstructionMeans(code, s, i);
    SetTwice(s, |Bytes(i)|, target);
    assert SetReg(s, IP, target).regs[IP] != Forward(s, |Bytes(i)|).regs[IP];
  }

  /** Exactly one of LT, EQ and GT jumps; LE is the opposite of GT and GE of LT; and GT is LT with its
      operands exchanged. */
  lemma ComparisonLaws(lt: seq<Byte>, le: seq<Byte>, gt: seq<Byte>, ge: seq<Byte>, eq: seq<Byte>, back: seq<Byte>,
      s: Machine, x: Operand, y: Operand, target: nat)
    requires Tests(lt, s, Lower, x, y, target) && Tests(le, s, LowerOrEqual, x, y, target)
    requires Tests(gt, s, Greater, x, y, target) && Tests(ge, s, GreaterOrEqual, x, y, target)
    requires Tests(eq, s, Same, x, y, target) && Tests(back, s, Lower, y, x, target)
    ensures var l, g, e := Jumps(lt, s, Lower, x, y, target), Jumps(gt, s, Greater, x, y, target),
                           Jumps(eq, s, Same, x, y, target);
            && (l || g || e) && !(l && g) && !(l && e) && !(g && e)
            && (Jumps(le, s, LowerOrEqual, x, y, target) <==> !g)
            && (Jumps(ge, s, GreaterOrEqual, x, y, target) <==> !l)
            && (Jumps(back, s, Lower, y, x, target) <==> g)
  {
    hide Jumps, Tests, Holding;
    ForTests(lt, s, Lower, x, y, target);
    JumpsIff(lt, s, Lower, x, y, target);
    JumpsIff(le, s, LowerOrEqual, x, y, target);
    JumpsIff(gt, s, Greater, x, y, target);
    JumpsIff(ge, s, GreaterOrEqual, x, y, target);
    JumpsIff(eq, s, Same, x, y, target);
    JumpsIff(back, s, Lower, y, x, target);
  }

  lemma ForTests(code: seq<Byte>, s: Machine, rel: Relation, x: Operand, y: Operand, target: nat)
    requires Tests(code, s, rel, x, y, target)
    ensures Plain(x) && Plain(y)
  {
  }

  /** LT is transitive. */
  lemma LowerIsTransitive(c1: seq<Byte>, c2: seq<Byte>, c3: seq<Byte>, s: Machine, x: Operand, y: Operand,
      z: Operand, target: nat)
    requires Tests(c1, s, Lower, x, y, target) && Tests(c2, s, Lower, y, z, target)
             && Tests(c3, s, Lower, x, z, target)
    requires Jumps(c1, s, Lower, x, y, target) && Jumps(c2, s, Lower, y, z, target)
    ensures Jumps(c3, s, Lower, x, z, target)
  {
    hide Jumps, Tests, Holding;
    ForTests(c1, s, Lower, x, y, target);
    ForTests(c2, s, Lower, y, z, target);
    JumpsIff(c1, s, Lower, x, y, target);
    JumpsIff(c2, s, Lower, y, z, target);
    JumpsIff(c3, s, Lower, x, z, target);
  }

  /** Two instructions in a row. */
  lemma SecondStands(code: seq<Byte>, s: Machine, i: Instruction, j: Instruction)
    requires Good(i) && Good(j) && Stands(code, s.regs[IP], Bytes(i) + Bytes(j))
    ensures Runs(code, s, i) && s.regs[IP] + |Bytes(i)| + |Bytes(j)| < WORDS
    ensures forall s': Machine | s'.regs[IP] == s.regs[IP] + |Bytes(i)| :: Runs(code, s', j)
  {
    hide Bytes;
    StandsSplit(code, s.regs[IP], Bytes(i), Bytes(j));
  }

  lemma TwoRounds(code: seq<Byte>, s: Machine, s1: Machine, s2: Machine)
    requires Step(code, s) == Running(s1) && Step(code, s1) == Running(s2)
    ensures Execution(code, s, 2) == Running(s2)
  {
    hide Step;
    assert Execution(code, s2, 0) == Running(s2);
    assert Execution(code, s1, 1) == Running(s2);
  }

  lemma SumRuns(code: seq<Byte>, s: Machine, op: BinaryOp, x: Operand, y: Operand, r: nat) returns (v: Word)
    requires op in {Add, Sub, Mul, SignedMul} && Plain(x) && Plain(y) && Runs(code, s, Binary(op, x, y, r))
    ensures var i := Binary(op, x, y, r);
            && s.regs[IP] + |Bytes(i)| < WORDS
            && Step(code, s) == Running(SetReg(Forward(s, |Bytes(i)|), r, v))
            && Gives(op, Holding(s, x), Holding(s, y), Some(v))
  {
    hide Step, Bytes, Stands, OperandBytes, Congruent;
    var i := Binary(op, x, y, r);
    InstructionMeans(code, s, i);
    var s' := Forward(s, |Bytes(i)|);
    v :| Gives(op, Holding(s, x), Holding(s, y), Some(v)) && Step(code, s) == Running(SetReg(s', r, v));
  }

  lemma UnaryRuns(code: seq<Byte>, s: Machine, op: UnaryOp, x: Operand, r: nat) returns (v: Word)
    requires Plain(x) && Runs(code, s, Unary(op, x, r))
    ensures var i := Unary(op, x, r);
            && s.regs[IP] + |Bytes(i)| < WORDS
            && Step(code, s) == Running(SetReg(Forward(s, |Bytes(i)|), r, v))
            && (op == Negate ==> Congruent(0 - Holding(s, x), v))
            && (op == Invert ==> Holding(s, x) + v == WORDS - 1)
  {
    hide Step, Bytes, Stands, OperandBytes, Congruent;
    var i := Unary(op, x, r);
    InstructionMeans(code, s, i);
    var s' := Forward(s, |Bytes(i)|);
    v :| Step(code, s) == Running(SetReg(s', r, v)) &&
         if op == Negate then Congruent(0 - Holding(s, x), v) else Holding(s, x) + v == WORDS - 1;
  }

  /** Words that are equal in 64 bits are equal. */
  lemma SameWord(x: int, v: Word, w: Word)
    requires Congruent(x, v) && Congruent(x, w)
    ensures v == w
  {
    var p, q := (x - v) / WORDS, (x - w) / WORDS;
    assert (q - p) * WORDS == v - w;
  }

  lemma Shifted(x: int, v: Word, d: int, w: Word)
    requires Congruent(x, v)
    ensures Congruent(v + d, w) <==> Congruent(x + d, w)
  {
    var p := (x - v) / WORDS;
    assert x - v == p * WORDS;
    Multiple(v + d - w, p);
  }

  lemma Multiple(x: int, p: int)
    ensures (x + p * WORDS) % WORDS == x % WORDS
  {
    var d := (x + p * WORDS) / WORDS - x / WORDS - p;
    assert (x + p * WORDS) % WORDS == x + p * WORDS - ((x + p * WORDS) / WORDS) * WORDS;
    assert x % WORDS == x - x / WORDS * WORDS;
    assert d * WORDS == x % WORDS - (x + p * WORDS) % WORDS;
  }

  /** A register that has been set twice, with the instruction pointer moving on. */
  lemma SetInTwoRounds(s: Machine, m: nat, r: nat, v: Word, n: nat, w: Word)
    requires General(r) && s.regs[IP] + m + n < WORDS
    ensures SetReg(Forward(SetReg(Forward(s, m), r, v), n), r, w) == SetReg(Forward(s, m + n), r, w)
  {
    var ip: nat := s.regs[IP];
    assert s.regs[IP := ip + m][r := v][IP := ip + m + n][r := w] == s.regs[IP := ip + m + n][r := w];
  }

  lemma SetSame(s: Machine, r: nat, n: nat)
    requires General(r) && s.regs[IP] + n < WORDS
    ensures SetReg(Forward(s, n), r, s.regs[r]) == Forward(s, n)
  {
    assert s.regs[IP := s.regs[IP] + n][r := s.regs[r]] == s.regs[IP := s.regs[IP] + n];
  }

  lemma SetHolding(s: Machine, n: nat, r: nat, v: Word, x: Operand)
    requires General(r) && Plain(x) && s.regs[IP] + n < WORDS
    ensures var s' := SetReg(Forward(s, n), r, v);
            s'.regs[IP] == s.regs[IP] + n && Holding(s', x) == if x == Reg(r) then v else Holding(s, x)
  {
  }

  /** SUB undoes ADD, in all registers and all of the memory. */
  lemma SubUndoesAdd(code: seq<Byte>, s: Machine, y: Operand, r: nat)
    requires General(r) && Plain(y) && y != Reg(r)
    requires var i, j := Binary(Add, Reg(r), y, r), Binary(Sub, Reg(r), y, r);
             Stands(code, s.regs[IP], Bytes(i) + Bytes(j))
    ensures var i, j := Binary(Add, Reg(r), y, r), Binary(Sub, Reg(r), y, r);
            s.regs[IP] + |Bytes(i)| + |Bytes(j)| < WORDS
            && Execution(code, s, 2) == Running(Forward(s, |Bytes(i)| + |Bytes(j)|))
  {
    hide Step, Bytes, Stands, Execution, Congruent;
    var i, j := Binary(Add, Reg(r), y, r), Binary(Sub, Reg(r), y, r);
    SecondStands(code, s, i, j);
    var v := SumRuns(code, s, Add, Reg(r), y, r);
    var s1 := SetReg(Forward(s, |Bytes(i)|), r, v);
    SetHolding(s, |Bytes(i)|, r, v, y);
    SetHolding(s, |Bytes(i)|, r, v, Reg(r));
    var w := SumRuns(code, s1, Sub, Reg(r), y, r);
    var a: int, b: int := s.regs[r], Holding(s, y);
    Shifted(a + b, v, 0 - b, w);
    assert Congruent(a, w);
    assert Congruent(a, a) by { SelfCongruent(a); }
    SameWord(a, a, w);
    SetInTwoRounds(s, |Bytes(i)|, r, v, |Bytes(j)|, a);
    SetSame(s, r, |Bytes(i)| + |Bytes(j)|);
    TwoRounds(code, s, s1, SetReg(Forward(s1, |Bytes(j)|), r, w));
  }

  lemma SelfCongruent(a: Word)
    ensures Congruent(a, a)
  {
  }

  /** NEG gives what adds up to zero, and NOT what adds up to the largest word. */
  lemma NegatedSum(code: seq<Byte>, s: Machine, op: UnaryOp, r: nat, q: nat)
    requires General(r) && General(q) && r != q
    requires var i, j := Unary(op, Reg(r), q), Binary(Add, Reg(q), Reg(r), q);
             Stands(code, s.regs[IP], Bytes(i) + Bytes(j))
    ensures var i, j := Unary(op, Reg(r), q), Binary(Add, Reg(q), Reg(r), q);
            s.regs[IP] + |Bytes(i)| + |Bytes(j)| < WORDS
            && Execution(code, s, 2) ==
               Running(SetReg(Forward(s, |Bytes(i)| + |Bytes(j)|), q, if op == Negate then 0 else WORDS - 1))
  {
    hide Step, Bytes, Stands, Execution, Congruent;
    var i, j := Unary(op, Reg(r), q), Binary(Add, Reg(q), Reg(r), q);
    SecondStands(code, s, i, j);
    var v := UnaryRuns(code, s, op, Reg(r), q);
    var s1 := SetReg(Forward(s, |Bytes(i)|), q, v);
    SetHolding(s, |Bytes(i)|, q, v, Reg(r));
    SetHolding(s, |Bytes(i)|, q, v, Reg(q));
    var w := SumRuns(code, s1, Add, Reg(q), Reg(r), q);
    var a: int := s.regs[r];
    if op == Negate {
      Shifted(0 - a, v, a, w);
      assert Congruent(0, w);
      SelfCongruent(0);
      SameWord(0, 0, w);
    } else {
      SelfCongruent(WORDS - 1);
      SameWord(WORDS - 1, WORDS - 1, w);
    }
    SetInTwoRounds(s, |Bytes(i)|, q, v, |Bytes(j)|, w);
    TwoRounds(code, s, s1, SetReg(Forward(s1, |Bytes(j)|), q, w));
  }

  /** NEG and NOT undo themselves. */
  lemma UnaryTwice(code: seq<Byte>, s: Machine, op: UnaryOp, r: nat)
    requires General(r)
    requires var i := Unary(op, Reg(r), r); Stands(code, s.regs[IP], Bytes(i) + Bytes(i))
    ensures var n := |Bytes(Unary(op, Reg(r), r))|;
            s.regs[IP] + n + n < WORDS && Execution(code, s, 2) == Running(Forward(s, n + n))
  {
    hide Step, Bytes, Stands, Execution, Congruent;
    var i := Unary(op, Reg(r), r);
    var n := |Bytes(i)|;
    SecondStands(code, s, i, i);
    var v := UnaryRuns(code, s, op, Reg(r), r);
    var s1 := SetReg(Forward(s, n), r, v);
    SetHolding(s, n, r, v, Reg(r));
    var w := UnaryRuns(code, s1, op, Reg(r), r);
    var a := s.regs[r];
    if op == Negate {
      TwiceNegated(a, v, w);
    }
    SetInTwoRounds(s, n, r, v, n, w);
    SetSame(s, r, n + n);
    TwoRounds(code, s, s1, SetReg(Forward(s1, n), r, w));
  }

  lemma TwiceNegated(a: Word, v: Word, w: Word)
    requires Congruent(0 - a, v) && Congruent(0 - v, w)
    ensures a == w
  {
    var p, q := (0 - a - v) / WORDS, (0 - v - w) / WORDS;
    assert (q - p) * WORDS == a - w;
  }

  /** A successor is greater, unless the addition has wrapped around to zero. */
  lemma SuccessorIsGreaterIff(code: seq<Byte>, s: Machine, r: nat, q: nat, target: nat)
    requires General(r) && General(q) && r != q
    requires var i, j := Binary(Add, Reg(r), Const(1), q), Branch(Lower, Reg(r), Reg(q), target);
             target < STACK_SIZE && Stands(code, s.regs[IP], Bytes(i) + Bytes(j))
             && target != s.regs[IP] + |Bytes(i)| + |Bytes(j)|
    ensures var i, j := Binary(Add, Reg(r), Const(1), q), Branch(Lower, Reg(r), Reg(q), target);
            && Step(code, s).Running?
            && var s1 := Step(code, s).state;
               && (Jumps(code, s1, Lower, Reg(r), Reg(q), target) <==> s1.regs[q] != 0)
               && (s1.regs[q] == 0 <==> s.regs[r] == WORDS - 1)
  {
    hide Step, Bytes, Stands, Congruent, Jumps;
    var i, j := Binary(Add, Reg(r), Const(1), q), Branch(Lower, Reg(r), Reg(q), target);
    SecondStands(code, s, i, j);
    var v := SumRuns(code, s, Add, Reg(r), Const(1), q);
    var s1 := SetReg(Forward(s, |Bytes(i)|), q, v);
    SetHolding(s, |Bytes(i)|, q, v, Reg(r));
    SetHolding(s, |Bytes(i)|, q, v, Reg(q));
    JumpsIff(code, s1, Lower, Reg(r), Reg(q), target);
    Successor(s.regs[r], v);
  }

  lemma Successor(a: Word, v: Word)
    requires Congruent(a + 1, v)
    ensures v == if a == WORDS - 1 then 0 else a + 1
  {
    var w: Word := if a == WORDS - 1 then 0 else a + 1;
    SameWord(a + 1, v, w);
  }

  /** Signed and unsigned multiplication do the same. */
  lemma SignedMultiplyIsMultiply(c1: seq<Byte>, c2: seq<Byte>, s: Machine, x: Operand, y: Operand, r: nat)
    requires Plain(x) && Plain(y) && Runs(c1, s, Binary(Mul, x, y, r)) && Runs(c2, s, Binary(SignedMul, x, y, r))
    ensures Step(c1, s) == Step(c2, s)
  {
    hide Step, Stands, OperandBytes, Congruent;
    var v := SumRuns(c1, s, Mul, x, y, r);
    var w := SumRuns(c2, s, SignedMul, x, y, r);
    SameWord(Holding(s, x) * Holding(s, y), v, w);
  }

  /** Quotient and remainder make up the dividend. */
  lemma DivisionLaw(a: Word, b: Word, q: Word, m: Word)
    requires Gives(Div, a, b, Some(q)) && Gives(Mod, a, b, Some(m))
    ensures a == q * b + m
  {
    var k := (a - m) / b;
    assert a - m == b * k;
    var d := k - q;
    assert b * d == a - m - q * b;
    assert d >= 1 ==> b * d >= b;
    assert d <= -1 ==> b * d <= 0 - b;
  }

  // ----- memory, stack and jumps -----

  /** LOAD returns what STORE has put there, wherever it is loaded to. */
  lemma LoadOfStore(code: seq<Byte>, s: Machine, r: nat, q: nat, a: nat)
    requires General(r) && General(q) && a + 8 <= STACK_SIZE
    requires var i, j := Store(r, At(a)), Load(q, At(a)); Stands(code, s.regs[IP], Bytes(i) + Bytes(j))
    ensures var n := |Bytes(Store(r, At(a)))| + |Bytes(Load(q, At(a)))|;
            && s.regs[IP] + n < WORDS
            && Execution(code, s, 2).Running?
            && var s' := Execution(code, s, 2).state;
               && s'.regs == s.regs[IP := s.regs[IP] + n][q := s.regs[r]]
               && s'.mem[..a] == s.mem[..a] && s'.mem[a + 8..] == s.mem[a + 8..] && Read64(s'.mem, a) == s.regs[r]
  {
    hide Step, Bytes, Stands, Execution, Read64, Write64;
    var i, j := Store(r, At(a)), Load(q, At(a));
    SecondStands(code, s, i, j);
    InstructionMeans(code, s, i);
    var s1 := Forward(s, |Bytes(i)|).(mem := Write64(s.mem, a, s.regs[r]));
    assert Step(code, s) == Running(s1);
    InstructionMeans(code, s1, j);
    var s2 := SetReg(Forward(s1, |Bytes(j)|), q, Read64(s1.mem, a));
    ReadOfWrite(s.mem, a, s.regs[r]);
    WriteAround(s.mem, a, s.regs[r]);
    TwoRounds(code, s, s1, s2);
    assert s.regs[IP := s.regs[IP] + |Bytes(i)|][IP := s.regs[IP] + |Bytes(i)| + |Bytes(j)|] ==
           s.regs[IP := s.regs[IP] + |Bytes(i)| + |Bytes(j)|];
  }

  /** POP behind PUSH moves a value, and leaves the stack pointer where it was. */
  lemma PopMovesPushed(code: seq<Byte>, s: Machine, x: Operand, r: nat)
    requires General(r) && Plain(x) && 8 <= s.regs[SP] <= STACK_SIZE
    requires var i, j := Instruction.Push(x), Instruction.Pop(r); Stands(code, s.regs[IP], Bytes(i) + Bytes(j))
    ensures var n := |Bytes(Instruction.Push(x))| + |Bytes(Instruction.Pop(r))|;
            && s.regs[IP] + n < WORDS
            && Execution(code, s, 2).Running?
            && Execution(code, s, 2).state.regs == s.regs[IP := s.regs[IP] + n][r := Holding(s, x)]
  {
    hide Step, Bytes, Stands, Execution, Read64, Write64, OperandBytes;
    var i, j := Instruction.Push(x), Instruction.Pop(r);
    SecondStands(code, s, i, j);
    InstructionMeans(code, s, i);
    var m, n := |Bytes(i)|, |Bytes(j)|;
    var s' := Forward(s, m);
    var v := Holding(s, x);
    assert Pushed(s', v).Got?;
    PopOfPush(s', v);
    var s1 := Pushed(s', v).state;
    assert s1.regs == s'.regs[SP := s.regs[SP] - 8];
    assert Step(code, s) == Running(s1);
    InstructionMeans(code, s1, j);
    var f := Forward(s1, n);
    assert Popped(f) == Got(v, SetReg(f, SP, s.regs[SP]));
    var s2 := SetReg(SetReg(f, SP, s.regs[SP]), r, v);
    TwoRounds(code, s, s1, s2);
    BackAndForth(s.regs, s.regs[IP] + m, s.regs[SP] - 8, s.regs[IP] + m + n, r, v);
  }

  lemma BackAndForth(regs: seq<Word>, a: Word, b: Word, c: Word, r: nat, v: Word)
    requires |regs| == REGISTERS && General(r)
    ensures regs[IP := a][SP := b][IP := c][SP := regs[SP]][r := v] == regs[IP := c][r := v]
  {
  }

  /** A relative jump goes as far as an absolute one from the last byte of the instruction. */
  lemma RelativeJump(c1: seq<Byte>, c2: seq<Byte>, s: Machine, a: nat, b: nat)
    requires Runs(c1, s, Jump(At(a), false)) && Runs(c2, s, Jump(At(b), true))
    ensures s.regs[IP] + 4 < WORDS
    ensures Step(c1, s) == Step(c2, s) <==> (a + s.regs[IP] + 3) % INTS == b
  {
    hide Step, Stands, Encoded;
    InstructionMeans(c1, s, Jump(At(a), false));
    InstructionMeans(c2, s, Jump(At(b), true));
    var x: Word, y: Word := (a + s.regs[IP] + 3) % INTS, b;
    assert Step(c1, s) == Running(SetReg(s, IP, x)) && Step(c2, s) == Running(SetReg(s, IP, y));
    assert SetReg(s, IP, x).regs[IP] == x && SetReg(s, IP, y).regs[IP] == y;
  }
}

/**
 The EVM assembly from which the EIP-2935 contract was derived, run under 256-bit wrapping semantics
 with the opcode prices of the Prague fork, and the exact conditions under which the contract does
 the same thing: same outcome, same storage, same gas (storage accesses are charged by the host).
 */
module HistoryAssembly {
  import opened BlockHistory
  import opened Bytes
  import opened Prelude

  const WORD := 0x1_0000_0000_0000_0000_0000_0000_0000_0000_0000_0000_0000_0000_0000_0000_0000_0000

  type U256 = x: int | 0 <= x < WORD

  datatype Op =
    | CALLER | NUMBER | CALLDATASIZE | CALLDATALOAD
    | PUSH(width: nat, value: U256)
    | EQ | GT | SUB | MOD | DUP2 | SWAP1
    | JUMPI | JUMPDEST
    | SLOAD | SSTORE | MSTORE
    | RETURN | REVERT | STOP

  // The program by byte offset, one function per stretch of straight-line code; a push occupies its
  // operand bytes too.
  function Code(pc: nat): Option<Op> {
    if pc < 26 then CallerGateCode(pc)
    else if pc < 33 then LengthGateCode(pc)
    else if pc < 44 then FutureGateCode(pc)
    else if pc < 54 then AgeGateCode(pc)
    else if pc < 66 then AnswerCode(pc)
    else if pc < 70 then ThrowCode(pc)
    else if pc < 76 then LoadHashCode(pc)
    else StoreHashCode(pc)
  }

  function CallerGateCode(pc: nat): Option<Op> {
    match pc
    case 0 => Some(CALLER)
    case 1 => Some(PUSH(20, 0xffff_ffff_ffff_ffff_ffff_ffff_ffff_ffff_ffff_fffe))
    case 22 => Some(EQ)
    case 23 => Some(PUSH(1, 0x46))
    case 25 => Some(JUMPI)
    case _ => None
  }

  function LengthGateCode(pc: nat): Option<Op> {
    match pc
    case 26 => Some(PUSH(1, 0x20))
    case 28 => Some(CALLDATASIZE)
    case 29 => Some(SUB)
    case 30 => Some(PUSH(1, 0x42))
    case 32 => Some(JUMPI)
    case _ => None
  }

  function FutureGateCode(pc: nat): Option<Op> {
    match pc
    case 33 => Some(PUSH(0, 0))
    case 34 => Some(CALLDATALOAD)
    case 35 => Some(PUSH(1, 1))
    case 37 => Some(NUMBER)
    case 38 => Some(SUB)
    case 39 => Some(DUP2)
    case 40 => Some(GT)
    case 41 => Some(PUSH(1, 0x42))
    case 43 => Some(JUMPI)
    case _ => None
  }

  function AgeGateCode(pc: nat): Option<Op> {
    match pc
    case 44 => Some(PUSH(2, 0x1fff))
    case 47 => Some(DUP2)
    case 48 => Some(NUMBER)
    case 49 => Some(SUB)
    case 50 => Some(GT)
    case 51 => Some(PUSH(1, 0x42))
    case 53 => Some(JUMPI)
    case _ => None
  }

  function AnswerCode(pc: nat): Option<Op> {
    match pc
    case 54 => Some(PUSH(2, 0x1fff))
    case 57 => Some(SWAP1)
    case 58 => Some(MOD)
    case 59 => Some(SLOAD)
    case 60 => Some(PUSH(0, 0))
    case 61 => Some(MSTORE)
    case 62 => Some(PUSH(1, 0x20))
    case 64 => Some(PUSH(0, 0))
    case 65 => Some(RETURN)
    case _ => None
  }

  function ThrowCode(pc: nat): Option<Op> {
    match pc
    case 66 => Some(JUMPDEST)
    case 67 => Some(PUSH(0, 0))
    case 68 => Some(PUSH(0, 0))
    case 69 => Some(REVERT)
    case _ => None
  }

  function LoadHashCode(pc: nat): Option<Op> {
    match pc
    case 70 => Some(JUMPDEST)
    case 71 => Some(PUSH(0, 0))
    case 72 => Some(CALLDATALOAD)
    case 73 => Some(PUSH(2, 0x1fff))
    case _ => None
  }

  function StoreHashCode(pc: nat): Option<Op> {
    match pc
    case 76 => Some(PUSH(1, 1))
    case 78 => Some(NUMBER)
    case 79 => Some(SUB)
    case 80 => Some(MOD)
    case 81 => Some(SSTORE)
    case 82 => Some(STOP)
    case _ => None
  }

  function Size(op: Op): nat {
    if op.PUSH? then 1 + op.width else 1
  }

  // Prague prices; `untouched` says that memory has not been expanded yet.
  function Price(op: Op, untouched: bool): nat {
    match op
    case CALLER | NUMBER | CALLDATASIZE => 2
    case PUSH(width, _) => if width == 0 then 2 else 3
    case CALLDATALOAD | EQ | GT | SUB | DUP2 | SWAP1 => 3
    case MOD => 5
    case JUMPI => 10
    case JUMPDEST => 1
    case MSTORE => if untouched then 6 else 3
    case SLOAD | SSTORE => 0
    case RETURN | REVERT | STOP => 0
  }

  datatype Status = Running | Halted(outcome: Outcome) | Broken

  datatype Stack = Empty | Word(top: nat, below: Stack)

  // `memory` is the word at offset 0 once it has been written.
  datatype Machine = Machine(
    pc: nat, stack: Stack, memory: Option<nat>, storage: Storage, gas: nat, status: Status)

  function WrappingSub(a: int, b: int): nat { (a - b) % WORD }

  function Modulo(a: nat, b: nat): nat {
    if b == 0 then 0 else a % b
  }

  // Calldata past the end reads as zero.
  function CallDataWord(input: seq<byte>): nat {
    FromBe(seq(32, i requires 0 <= i < 32 => ByteAt(input, i)))
  }

  function ByteAt(input: seq<byte>, i: nat): byte {
    if i < |input| then input[i] else 0
  }

  function Step(call: Call, m: Machine): Machine {
    var op := Code(m.pc);
    if !m.status.Running? then m
    else if op.None? then m.(status := Broken)
    else Execute(call, m.(pc := m.pc + Size(op.value), gas := m.gas + Price(op.value, m.memory.None?)), op.value)
  }

  // The effect of `op` once it has been fetched and paid for.
  function Execute(call: Call, m: Machine, op: Op): Machine {
    match op
    case CALLER => Push(m, call.caller)
    case NUMBER => Push(m, call.block)
    case CALLDATASIZE => Push(m, |call.input|)
    case PUSH(_, value) => Push(m, value)
    case JUMPDEST => m
    case STOP => m.(status := Halted(Stopped))
    case CALLDATALOAD | SLOAD => if m.stack.Word? then Execute1(call, m, op) else m.(status := Broken)
    case _ => if m.stack.Word? && m.stack.below.Word? then Execute2(call, m, op) else m.(status := Broken)
  }

  function Execute1(call: Call, m: Machine, op: Op): Machine
    requires m.stack.Word?
  {
    var a, m' := m.stack.top, m.(stack := m.stack.below);
    if op.SLOAD? then Push(m', Load(m.storage, a))
    else if a == 0 then Push(m', CallDataWord(call.input))
    else m.(status := Broken)
  }

  function Execute2(call: Call, m: Machine, op: Op): Machine
    requires m.stack.Word? && m.stack.below.Word?
  {
    var a, b, m' := m.stack.top, m.stack.below.top, m.(stack := m.stack.below.below);
    match op
    case EQ => Push(m', if a == b then 1 else 0)
    case GT => Push(m', if a > b then 1 else 0)
    case SUB => Push(m', WrappingSub(a, b))
    case MOD => Push(m', Modulo(a, b))
    case DUP2 => Push(m, b)
    case SWAP1 => Push(Push(m', a), b)
    case JUMPI => if b == 0 then m' else if Code(a) == Some(JUMPDEST) then m'.(pc := a) else m.(status := Broken)
    case SSTORE => m'.(storage := m.storage[a := b])
    case MSTORE => if a == 0 then m'.(memory := Some(b)) else m.(status := Broken)
    case RETURN =>
      if a == 0 && b == 32 && m.memory.Some? then m'.(status := Halted(Returned(m.memory.value)))
      else m.(status := Broken)
    case REVERT => m'.(status := Halted(Reverted))
    case _ => m.(status := Broken)
  }

  function Push(m: Machine, word: nat): Machine {
    m.(stack := Word(word, m.stack))
  }

  function Run(call: Call, m: Machine, steps: nat): Machine
    decreases steps
  {
    if steps == 0 then m else Run(call, Step(call, m), steps - 1)
  }

  ghost predicate Reaches(call: Call, m: Machine, m': Machine) {
    exists steps: nat :: Run(call, m, steps) == m'
  }

  /** Started at `m`, the program halts the way `reply` says. */
  ghost predicate HaltsWith(call: Call, m: Machine, reply: Reply) {
    exists r :: Reaches(call, m, r) && Answers(r, reply)
  }

  predicate Answers(m: Machine, reply: Reply) {
    m.status == Halted(reply.outcome) && m.storage == reply.storage && m.gas == reply.gas
  }

  function Boot(storage: Storage): Machine {
    Machine(0, Empty, None, storage, 0, Running)
  }

  // ---------------------------------------------------------------- chaining steps

  lemma {:induction false} RunSplit(call: Call, m: Machine, i: nat, j: nat)
    ensures Run(call, m, i + j) == Run(call, Run(call, m, i), j)
    decreases i
  {
    if i == 0 {
    } else {
      RunSplit(call, Step(call, m), i - 1, j);
    }
  }

  lemma Here(call: Call, m: Machine)
    ensures Reaches(call, m, m)
  {
    assert Run(call, m, 0) == m;
  }

  lemma Then(call: Call, m: Machine, m1: Machine, m2: Machine)
    requires Reaches(call, m, m1) && Reaches(call, m1, m2)
    ensures Reaches(call, m, m2)
  {
    var i: nat :| Run(call, m, i) == m1;
    var j: nat :| Run(call, m1, j) == m2;
    RunSplit(call, m, i, j);
  }

  lemma Next(call: Call, m: Machine, m1: Machine, m2: Machine)
    requires Reaches(call, m, m1) && Step(call, m1) == m2
    ensures Reaches(call, m, m2)
  {
    assert Run(call, m1, 1) == Run(call, m2, 0) == m2;
    Then(call, m, m1, m2);
  }

  /** The program is deterministic and stays where it halted: it has one result. */
  lemma HaltsOnce(call: Call, m: Machine, m1: Machine, m2: Machine)
    requires Reaches(call, m, m1) && m1.status.Halted? && Reaches(call, m, m2) && m2.status.Halted?
    ensures m1 == m2
  {
    var i: nat :| Run(call, m, i) == m1;
    var j: nat :| Run(call, m, j) == m2;
    if i <= j {
      RunSplit(call, m, i, j - i);
      Rests(call, m1, j - i);
    } else {
      RunSplit(call, m, j, i - j);
      Rests(call, m2, i - j);
    }
  }

  lemma {:induction false} Rests(call: Call, m: Machine, steps: nat)
    requires !m.status.Running?
    ensures Run(call, m, steps) == m
    decreases steps
  {
    if steps == 0 {
    } else {
      Rests(call, m, steps - 1);
    }
  }

  // ---------------------------------------------------------------- basic blocks

  lemma Prefix(call: Call, m: Machine)
    requires m.status.Running? && m.pc == 0 && m.stack == Empty
    ensures Reaches(call, m,
      m.(pc := if call.caller == SYSTEM_ADDRESS then 0x46 else 26, gas := m.gas + 21))
  {
    var m1 := m.(pc := 1, stack := Word(call.caller, Empty), gas := m.gas + 2);
    var m2 := m.(pc := 22, stack := Word(SYSTEM_ADDRESS, Word(call.caller, Empty)), gas := m.gas + 5);
    var flag := if call.caller == SYSTEM_ADDRESS then 1 else 0;
    var m3 := m.(pc := 23, stack := Word(flag, Empty), gas := m.gas + 8);
    var m4 := m.(pc := 25, stack := Word(0x46, Word(flag, Empty)), gas := m.gas + 11);
    var m5 := m.(pc := if call.caller == SYSTEM_ADDRESS then 0x46 else 26, gas := m.gas + 21);
    Here(call, m);
    Next(call, m, m, m1);
    Next(call, m, m1, m2);
    Next(call, m, m2, m3);
    Next(call, m, m3, m4);
    Next(call, m, m4, m5);
  }

  // `push1 0x42; jumpi`, which closes each gate of the read path.
  lemma CloseGate(call: Call, m: Machine, flag: nat, s: Stack)
    requires m.status.Running? && (m.pc == 30 || m.pc == 41 || m.pc == 51) && m.stack == Word(flag, s)
    ensures Reaches(call, m, m.(pc := if flag == 0 then m.pc + 3 else 0x42, stack := s, gas := m.gas + 13))
  {
    var m1 := m.(pc := m.pc + 2, stack := Word(0x42, Word(flag, s)), gas := m.gas + 3);
    var m2 := m.(pc := if flag == 0 then m.pc + 3 else 0x42, stack := s, gas := m.gas + 13);
    Here(call, m);
    Next(call, m, m, m1);
    Next(call, m, m1, m2);
  }

  lemma LengthGate(call: Call, m: Machine)
    requires m.status.Running? && m.pc == 26 && m.stack == Empty && |call.input| < WORD
    ensures Reaches(call, m, m.(pc := if |call.input| == 32 then 33 else 0x42, gas := m.gas + 21))
  {
    var m1 := m.(pc := 28, stack := Word(32, Empty), gas := m.gas + 3);
    var m2 := m.(pc := 29, stack := Word(|call.input|, Word(32, Empty)), gas := m.gas + 5);
    var excess := WrappingSub(|call.input|, 32);
    var m3 := m.(pc := 30, stack := Word(excess, Empty), gas := m.gas + 8);
    Here(call, m);
    Next(call, m, m, m1);
    Next(call, m, m1, m2);
    Next(call, m, m2, m3);
    CloseGate(call, m3, excess, Empty);
    Then(call, m, m3, m.(pc := if |call.input| == 32 then 33 else 0x42, gas := m.gas + 21));
  }

  lemma LoadArgument(call: Call, m: Machine, arg: nat)
    requires m.status.Running? && m.pc == 33 && m.stack == Empty && arg == CallDataWord(call.input)
    ensures Reaches(call, m, m.(pc := 35, stack := Word(arg, Empty), gas := m.gas + 5))
  {
    var m1 := m.(pc := 34, stack := Word(0, Empty), gas := m.gas + 2);
    Here(call, m);
    Next(call, m, m, m1);
    Next(call, m, m1, m.(pc := 35, stack := Word(arg, Empty), gas := m.gas + 5));
  }

  lemma FutureGate(call: Call, m: Machine, arg: nat)
    requires m.status.Running? && m.pc == 35 && m.stack == Word(arg, Empty)
    ensures Reaches(call, m, m.(pc := if arg > WrappingSub(call.block, 1) then 0x42 else 44, gas := m.gas + 27))
  {
    var s := m.stack;
    var prev := WrappingSub(call.block, 1);
    var flag := if arg > prev then 1 else 0;
    var m1 := m.(pc := 37, stack := Word(1, s), gas := m.gas + 3);
    var m2 := m.(pc := 38, stack := Word(call.block, Word(1, s)), gas := m.gas + 5);
    var m3 := m.(pc := 39, stack := Word(prev, s), gas := m.gas + 8);
    var m4 := m.(pc := 40, stack := Word(arg, Word(prev, s)), gas := m.gas + 11);
    var m5 := m.(pc := 41, stack := Word(flag, s), gas := m.gas + 14);
    Here(call, m);
    Next(call, m, m, m1);
    Next(call, m, m1, m2);
    Next(call, m, m2, m3);
    Next(call, m, m3, m4);
    Next(call, m, m4, m5);
    CloseGate(call, m5, flag, s);
    Then(call, m, m5, m.(pc := if arg > prev then 0x42 else 44, gas := m.gas + 27));
  }

  lemma AgeGate(call: Call, m: Machine, arg: nat)
    requires m.status.Running? && m.pc == 44 && m.stack == Word(arg, Empty)
    ensures Reaches(call, m, m.(pc := if WrappingSub(call.block, arg) > 0x1fff then 0x42 else 54, gas := m.gas + 27))
  {
    var s, w := m.stack, Word(0x1fff, m.stack);
    var age := WrappingSub(call.block, arg);
    var flag := if age > 0x1fff then 1 else 0;
    var m1 := m.(pc := 47, stack := w, gas := m.gas + 3);
    var m2 := m.(pc := 48, stack := Word(arg, w), gas := m.gas + 6);
    var m3 := m.(pc := 49, stack := Word(call.block, Word(arg, w)), gas := m.gas + 8);
    var m4 := m.(pc := 50, stack := Word(age, w), gas := m.gas + 11);
    var m5 := m.(pc := 51, stack := Word(flag, s), gas := m.gas + 14);
    Here(call, m);
    Next(call, m, m, m1);
    Next(call, m, m1, m2);
    Next(call, m, m2, m3);
    Next(call, m, m3, m4);
    Next(call, m, m4, m5);
    CloseGate(call, m5, flag, s);
    Then(call, m, m5, m.(pc := if age > 0x1fff then 0x42 else 54, gas := m.gas + 27));
  }

  lemma ReadSlot(call: Call, m: Machine, arg: nat, word: nat)
    requires m.status.Running? && m.pc == 54 && m.stack == Word(arg, Empty)
    requires word == Load(m.storage, arg % 0x1fff)
    ensures Reaches(call, m, m.(pc := 60, stack := Word(word, Empty), gas := m.gas + 11))
  {
    var m1 := m.(pc := 57, stack := Word(0x1fff, Word(arg, Empty)), gas := m.gas + 3);
    var m2 := m.(pc := 58, stack := Word(arg, Word(0x1fff, Empty)), gas := m.gas + 6);
    var m3 := m.(pc := 59, stack := Word(arg % 0x1fff, Empty), gas := m.gas + 11);
    Here(call, m);
    Next(call, m, m, m1);
    Next(call, m, m1, m2);
    Next(call, m, m2, m3);
    Next(call, m, m3, m.(pc := 60, stack := Word(word, Empty), gas := m.gas + 11));
  }

  lemma ReturnWord(call: Call, m: Machine, word: nat)
    requires m.status.Running? && m.pc == 60 && m.stack == Word(word, Empty) && m.memory.None?
    ensures HaltsWith(call, m, Reply(Returned(word), m.storage, m.gas + 13))
  {
    var m1 := m.(pc := 61, stack := Word(0, Word(word, Empty)), gas := m.gas + 2);
    var m2 := m.(pc := 62, stack := Empty, memory := Some(word), gas := m.gas + 8);
    var m3 := m2.(pc := 64, stack := Word(0x20, Empty), gas := m.gas + 11);
    var m4 := m2.(pc := 65, stack := Word(0, Word(0x20, Empty)), gas := m.gas + 13);
    var m5 := m2.(pc := 66, stack := Empty, gas := m.gas + 13, status := Halted(Returned(word)));
    Here(call, m);
    Next(call, m, m, m1);
    Next(call, m, m1, m2);
    Next(call, m, m2, m3);
    Next(call, m, m3, m4);
    Next(call, m, m4, m5);
  }

  lemma ThrowTail(call: Call, m: Machine)
    requires m.status.Running? && m.pc == 0x42
    ensures HaltsWith(call, m, Reply(Reverted, m.storage, m.gas + 5))
  {
    var s := m.stack;
    var m1 := m.(pc := 67, gas := m.gas + 1);
    var m2 := m.(pc := 68, stack := Word(0, s), gas := m.gas + 3);
    var m3 := m.(pc := 69, stack := Word(0, Word(0, s)), gas := m.gas + 5);
    var m4 := m.(pc := 70, gas := m.gas + 5, status := Halted(Reverted));
    Here(call, m);
    Next(call, m, m, m1);
    Next(call, m, m1, m2);
    Next(call, m, m2, m3);
    Next(call, m, m3, m4);
  }

  lemma LoadHash(call: Call, m: Machine, arg: nat)
    requires m.status.Running? && m.pc == 0x46 && m.stack == Empty && arg == CallDataWord(call.input)
    ensures Reaches(call, m, m.(pc := 76, stack := Word(0x1fff, Word(arg, Empty)), gas := m.gas + 9))
  {
    var m1 := m.(pc := 71, gas := m.gas + 1);
    var m2 := m.(pc := 72, stack := Word(0, Empty), gas := m.gas + 3);
    var m3 := m.(pc := 73, stack := Word(arg, Empty), gas := m.gas + 6);
    Here(call, m);
    Next(call, m, m, m1);
    Next(call, m, m1, m2);
    Next(call, m, m2, m3);
    Next(call, m, m3, m.(pc := 76, stack := Word(0x1fff, Word(arg, Empty)), gas := m.gas + 9));
  }

  lemma SelectSlot(call: Call, m: Machine, s: Stack)
    requires m.status.Running? && m.pc == 76 && m.stack == Word(0x1fff, s)
    ensures Reaches(call, m,
      m.(pc := 81, stack := Word(WrappingSub(call.block, 1) % 0x1fff, s), gas := m.gas + 13))
  {
    var prev := WrappingSub(call.block, 1);
    var m1 := m.(pc := 78, stack := Word(1, m.stack), gas := m.gas + 3);
    var m2 := m.(pc := 79, stack := Word(call.block, Word(1, m.stack)), gas := m.gas + 5);
    var m3 := m.(pc := 80, stack := Word(prev, m.stack), gas := m.gas + 8);
    var m4 := m.(pc := 81, stack := Word(prev % 0x1fff, s), gas := m.gas + 13);
    Here(call, m);
    Next(call, m, m, m1);
    Next(call, m, m1, m2);
    Next(call, m, m2, m3);
    Next(call, m, m3, m4);
  }

  lemma StoreHash(call: Call, m: Machine, slot: nat, arg: nat)
    requires m.status.Running? && m.pc == 81 && m.stack == Word(slot, Word(arg, Empty))
    ensures HaltsWith(call, m, Reply(Stopped, m.storage[slot := arg], m.gas))
  {
    var m1 := m.(pc := 82, stack := Empty, storage := m.storage[slot := arg]);
    var m2 := m1.(pc := 83, status := Halted(Stopped));
    Here(call, m);
    Next(call, m, m, m1);
    Next(call, m, m1, m2);
  }

  // ---------------------------------------------------------------- whole paths

  // What the assembly does, block by block, in closed form.
  function Assembly(storage: Storage, call: Call): Reply {
    var arg := CallDataWord(call.input);
    if call.caller == SYSTEM_ADDRESS then
      Reply(Stopped, storage[WrappingSub(call.block, 1) % 0x1fff := arg], 21 + 22)
    else if |call.input| != 32 then Reply(Reverted, storage, 21 + 21 + 5)
    else if arg > WrappingSub(call.block, 1) then Reply(Reverted, storage, 21 + 21 + 32 + 5)
    else if WrappingSub(call.block, arg) > 0x1fff then Reply(Reverted, storage, 21 + 21 + 32 + 27 + 5)
    else Reply(Returned(Load(storage, arg % 0x1fff)), storage, 21 + 21 + 32 + 27 + 24)
  }

  lemma Via(call: Call, m: Machine, m1: Machine, reply: Reply)
    requires Reaches(call, m, m1) && HaltsWith(call, m1, reply)
    ensures HaltsWith(call, m, reply)
  {
    var r :| Reaches(call, m1, r) && Answers(r, reply);
    Then(call, m, m1, r);
  }

  lemma ReadPathFromGates(storage: Storage, call: Call)
    requires call.caller != SYSTEM_ADDRESS && |call.input| == 32
    ensures HaltsWith(call, Machine(33, Empty, None, storage, 42, Running), Assembly(storage, call))
  {
    var arg := CallDataWord(call.input);
    var m := Machine(33, Empty, None, storage, 42, Running);
    var m1 := Machine(35, Word(arg, Empty), None, storage, 47, Running);
    var m2 := m1.(pc := if arg > WrappingSub(call.block, 1) then 0x42 else 44, gas := 74);
    var m3 := m2.(pc := if WrappingSub(call.block, arg) > 0x1fff then 0x42 else 54, gas := 101);
    LoadArgument(call, m, arg);
    FutureGate(call, m1, arg);
    Then(call, m, m1, m2);
    if arg > WrappingSub(call.block, 1) {
      ThrowTail(call, m2);
      Via(call, m, m2, Assembly(storage, call));
    } else {
      AgeGate(call, m2, arg);
      Then(call, m, m2, m3);
      if WrappingSub(call.block, arg) > 0x1fff {
        ThrowTail(call, m3);
      } else {
        var word := Load(storage, arg % 0x1fff);
        ReadSlot(call, m3, arg, word);
        ReturnWord(call, m3.(pc := 60, stack := Word(word, Empty), gas := 112), word);
        Via(call, m3, m3.(pc := 60, stack := Word(word, Empty), gas := 112), Assembly(storage, call));
      }
      Via(call, m, m3, Assembly(storage, call));
    }
  }

  /** The assembly always halts, with this outcome, storage and gas. */
  lemma AssemblyHalts(storage: Storage, call: Call)
    requires |call.input| < WORD
    ensures HaltsWith(call, Boot(storage), Assembly(storage, call))
  {
    var m := Boot(storage);
    var m1 := m.(pc := if call.caller == SYSTEM_ADDRESS then 0x46 else 26, gas := 21);
    Prefix(call, m);
    if call.caller == SYSTEM_ADDRESS {
      var arg := CallDataWord(call.input);
      var m2 := m.(pc := 76, stack := Word(0x1fff, Word(arg, Empty)), gas := 30);
      LoadHash(call, m1, arg);
      Then(call, m, m1, m2);
      var slot := WrappingSub(call.block, 1) % 0x1fff;
      var m3 := m.(pc := 81, stack := Word(slot, Word(arg, Empty)), gas := 43);
      SelectSlot(call, m2, Word(arg, Empty));
      Then(call, m, m2, m3);
      StoreHash(call, m3, slot, arg);
      Via(call, m, m3, Assembly(storage, call));
    } else {
      var m2 := m.(pc := if |call.input| == 32 then 33 else 0x42, gas := 42);
      LengthGate(call, m1);
      Then(call, m, m1, m2);
      if |call.input| == 32 {
        ReadPathFromGates(storage, call);
      } else {
        ThrowTail(call, m2);
      }
      Via(call, m, m2, Assembly(storage, call));
    }
  }

  // ---------------------------------------------------------------- refinement

  lemma QuarterWord(size: nat)
    requires size == 8
    ensures Pow256(size) == 0x1_0000_0000_0000_0000
  {
    assert Pow256(8) == 0x1_0000_0000_0000_0000;
  }

  lemma WordIs32Bytes(size: nat)
    requires size == 32
    ensures Pow256(size) == WORD
  {
    var quarter := size / 4;
    QuarterWord(quarter);
    Pow256Square(quarter);
    Pow256Square(2 * quarter);
    assert Pow256(2 * quarter) == 0x1_0000_0000_0000_0000 * 0x1_0000_0000_0000_0000;
  }

  lemma WholeWord(input: seq<byte>)
    requires |input| == 32
    ensures CallDataWord(input) == FromBe(input) < WORD
  {
    assert seq(32, i requires 0 <= i < 32 => ByteAt(input, i)) == input;
    BeIsBounded(input);
    WordIs32Bytes(|input|);
  }

  // A call on which the contract follows the assembly.
  predicate Faithful(call: Call) {
    if call.caller == SYSTEM_ADDRESS then |call.input| == 32 && call.block >= 1
    else |call.input| != 32 || call.block >= 1
  }

  lemma RepliesCoincide(storage: Storage, call: Call)
    requires call.block < 0x1_0000_0000_0000_0000 && call.fault.None?
    ensures Answered(storage, call) == Assembly(storage, call) <==> Faithful(call)
  {
    if |call.input| == 32 {
      WholeWord(call.input);
      if call.block >= 1 {
        NoWrap(call.block, 1);
        if FromBe(call.input) < call.block { NoWrap(call.block, FromBe(call.input)); }
      }
    }
  }

  lemma NoWrap(a: nat, b: nat)
    requires b <= a < WORD
    ensures WrappingSub(a, b) == a - b
  {}

  /**
   For every caller, calldata and block number the contract and the assembly do the same, gas
   included, exactly when: a reader has sent calldata of another length than 32 or the block is not
   the genesis block; the system has sent 32 bytes and the block is not the genesis block.
   */
  lemma ContractRefinesAssembly(storage: Storage, call: Call)
    requires call.block < 0x1_0000_0000_0000_0000 && |call.input| < 0x1_0000_0000 && call.fault.None?
    ensures HaltsWith(call, Boot(storage), Answered(storage, call)) <==> Faithful(call)
  {
    AssemblyHalts(storage, call);
    RepliesCoincide(storage, call);
    if HaltsWith(call, Boot(storage), Answered(storage, call)) {
      OneReply(call, Boot(storage), Answered(storage, call), Assembly(storage, call));
    }
  }

  lemma OneReply(call: Call, m: Machine, r1: Reply, r2: Reply)
    requires HaltsWith(call, m, r1) && HaltsWith(call, m, r2)
    ensures r1 == r2
  {
    var m1 :| Reaches(call, m, m1) && Answers(m1, r1);
    var m2 :| Reaches(call, m, m2) && Answers(m2, r2);
    HaltsOnce(call, m, m1, m2);
  }
}

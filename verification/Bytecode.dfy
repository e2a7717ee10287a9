/** The instruction set: opcode numbers, stack effects and operand sizes. */
module Bytecode {

  import opened Bytes

  const CODE_CONSTANT: byte := 0
  const CODE_NULL: byte := 1
  const CODE_FALSE: byte := 2
  const CODE_TRUE: byte := 3
  const CODE_LOAD_LOCAL_0: byte := 4
  const CODE_LOAD_LOCAL_8: byte := 12
  const CODE_LOAD_LOCAL: byte := 13
  const CODE_STORE_LOCAL: byte := 14
  const CODE_LOAD_UPVALUE: byte := 15
  const CODE_STORE_UPVALUE: byte := 16
  const CODE_LOAD_MODULE_VAR: byte := 17
  const CODE_STORE_MODULE_VAR: byte := 18
  const CODE_LOAD_FIELD_THIS: byte := 19
  const CODE_STORE_FIELD_THIS: byte := 20
  const CODE_LOAD_FIELD: byte := 21
  const CODE_STORE_FIELD: byte := 22
  const CODE_POP: byte := 23
  const CODE_CALL_0: byte := 24
  const CODE_CALL_16: byte := 40
  const CODE_SUPER_0: byte := 41
  const CODE_SUPER_16: byte := 57
  const CODE_JUMP: byte := 58
  const CODE_LOOP: byte := 59
  const CODE_JUMP_IF: byte := 60
  const CODE_AND: byte := 61
  const CODE_OR: byte := 62
  const CODE_CLOSE_UPVALUE: byte := 63
  const CODE_RETURN: byte := 64
  const CODE_CLOSURE: byte := 65
  const CODE_CONSTRUCT: byte := 66
  const CODE_FOREIGN_CONSTRUCT: byte := 67
  const CODE_CLASS: byte := 68
  const CODE_END_CLASS: byte := 69
  const CODE_FOREIGN_CLASS: byte := 70
  const CODE_METHOD_INSTANCE: byte := 71
  const CODE_METHOD_STATIC: byte := 72
  const CODE_END_MODULE: byte := 73
  const CODE_IMPORT_MODULE: byte := 74
  const CODE_IMPORT_VARIABLE: byte := 75
  const CODE_END: byte := 76

  // The change in stack height that the compiler assumes for an instruction.
  function StackEffect(op: byte): int {
    if op <= CODE_LOAD_LOCAL then 1
    else if op == CODE_LOAD_UPVALUE || op == CODE_LOAD_MODULE_VAR || op == CODE_LOAD_FIELD_THIS then 1
    else if op == CODE_STORE_FIELD || op == CODE_POP then -1
    else if CODE_CALL_0 <= op <= CODE_CALL_16 then CODE_CALL_0 - op
    else if CODE_SUPER_0 <= op <= CODE_SUPER_16 then CODE_SUPER_0 - op
    else if CODE_JUMP_IF <= op <= CODE_CLOSE_UPVALUE then -1
    else if op == CODE_CLOSURE then 1
    else if op == CODE_CLASS || op == CODE_FOREIGN_CLASS then -1
    else if op == CODE_END_CLASS || op == CODE_METHOD_INSTANCE || op == CODE_METHOD_STATIC then -2
    else if CODE_END_MODULE <= op <= CODE_IMPORT_VARIABLE then 1
    else 0
  }

  // The effects, by the numbers of the instructions.
  lemma EffectNumbers(op: byte)
    ensures op <= 13 || op == 15 || op == 17 || op == 19 || op == 65 || 73 <= op <= 75 ==> StackEffect(op) == 1
    ensures op == 14 || op == 16 || op == 18 || 20 <= op <= 21 ==> StackEffect(op) == 0
    ensures 58 <= op <= 59 || op == 64 || 66 <= op <= 67 || op == 76 ==> StackEffect(op) == 0
    ensures 22 <= op <= 23 || 60 <= op <= 63 || op == 68 || op == 70 ==> StackEffect(op) == -1
    ensures op == 69 || 71 <= op <= 72 ==> StackEffect(op) == -2
    ensures 24 <= op <= 40 ==> StackEffect(op) == 24 - op
    ensures 41 <= op <= 57 ==> StackEffect(op) == 41 - op
  {
  }

  // The instructions in their order. Those for locals 0 to 8, and for calls with 0 to 16
  // arguments, are next to each other.
  lemma InOrder()
    ensures [CODE_CONSTANT, CODE_NULL, CODE_FALSE, CODE_TRUE, CODE_LOAD_LOCAL_0] == [0, 1, 2, 3, 4]
    ensures [CODE_LOAD_LOCAL_8, CODE_LOAD_LOCAL, CODE_STORE_LOCAL, CODE_LOAD_UPVALUE, CODE_STORE_UPVALUE]
            == [12, 13, 14, 15, 16]
    ensures [CODE_LOAD_MODULE_VAR, CODE_STORE_MODULE_VAR, CODE_LOAD_FIELD_THIS, CODE_STORE_FIELD_THIS]
            == [17, 18, 19, 20]
    ensures [CODE_LOAD_FIELD, CODE_STORE_FIELD, CODE_POP, CODE_CALL_0, CODE_CALL_16] == [21, 22, 23, 24, 40]
    ensures [CODE_SUPER_0, CODE_SUPER_16, CODE_JUMP, CODE_LOOP, CODE_JUMP_IF, CODE_AND, CODE_OR]
            == [41, 57, 58, 59, 60, 61, 62]
    ensures [CODE_CLOSE_UPVALUE, CODE_RETURN, CODE_CLOSURE, CODE_CONSTRUCT, CODE_FOREIGN_CONSTRUCT]
            == [63, 64, 65, 66, 67]
    ensures [CODE_CLASS, CODE_END_CLASS, CODE_FOREIGN_CLASS, CODE_METHOD_INSTANCE, CODE_METHOD_STATIC]
            == [68, 69, 70, 71, 72]
    ensures [CODE_END_MODULE, CODE_IMPORT_MODULE, CODE_IMPORT_VARIABLE, CODE_END] == [73, 74, 75, 76]
  {
  }

  // The number of operand bytes of every instruction but CODE_CLOSURE.
  function FixedOperands(op: byte): nat {
    if op == CODE_CONSTANT then 2
    else if op < CODE_LOAD_LOCAL then 0
    else if op <= CODE_STORE_UPVALUE then 1
    else if op <= CODE_STORE_MODULE_VAR then 2
    else if op <= CODE_STORE_FIELD then 1
    else if op == CODE_POP then 0
    else if op <= CODE_CALL_16 then 2
    else if op <= CODE_SUPER_16 then 4
    else if op <= CODE_OR then 2
    else if op == CODE_CLASS then 1
    else if op == CODE_METHOD_INSTANCE || op == CODE_METHOD_STATIC then 2
    else if op == CODE_IMPORT_MODULE || op == CODE_IMPORT_VARIABLE then 2
    else 0
  }

  // A 16-bit operand, big endian. Larger numbers lose their high bits.
  function Short(n: nat): (r: seq<byte>)
    ensures |r| == 2
  {
    [(n / 256) % 256, n % 256]
  }

  function ReadShort(code: seq<byte>, at: nat): (r: nat)
    requires at + 2 <= |code|
    ensures r < 0x1_0000
  {
    (code[at] as int) * 256 + code[at + 1]
  }

  // A 16-bit operand reads back as the number written exactly when that number
  // is below 2^16.
  lemma ShortRoundTrip(n: nat)
    ensures ReadShort(Short(n), 0) == n <==> n < 0x1_0000
  {
  }

  // The length of the instruction at the start of [code], operands included.
  // [upvalues] gives, for each constant that is a function, how many variables
  // that function closes over.
  function InstructionLength(code: seq<byte>, upvalues: seq<nat>): (r: nat)
    requires code != []
    ensures r > 0
  {
    if code[0] == CODE_CLOSURE then
      3 + (if |code| >= 3 && ReadShort(code, 1) < |upvalues| then 2 * upvalues[ReadShort(code, 1)] else 0)
    else
      1 + FixedOperands(code[0])
  }

  // The length of a whole instruction does not depend on what follows it.
  lemma LengthPrefix(a: seq<byte>, b: seq<byte>, upvalues: seq<nat>)
    requires a != [] && InstructionLength(a, upvalues) <= |a|
    ensures InstructionLength(a + b, upvalues) == InstructionLength(a, upvalues)
  {
    assert |a| >= 3 ==> ReadShort(a + b, 1) == ReadShort(a, 1);
  }
}

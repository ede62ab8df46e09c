// Opcodes of the machine and the size tables kept beside them
// (include/viua/bytecode/opcodes.h and include/viua/bytecode/maps.h).
module Opcodes {
  import opened Bytes

  const NOP: Byte := 0
  const IZERO: Byte := 1
  const ISTORE: Byte := 2
  const IADD: Byte := 3
  const ISUB: Byte := 4
  const IMUL: Byte := 5
  const IDIV: Byte := 6
  const IINC: Byte := 7
  const IDEC: Byte := 8
  const ILT: Byte := 9
  const ILTE: Byte := 10
  const IGT: Byte := 11
  const IGTE: Byte := 12
  const IEQ: Byte := 13
  const FSTORE: Byte := 14
  const FADD: Byte := 15
  const FSUB: Byte := 16
  const FMUL: Byte := 17
  const FDIV: Byte := 18
  const FLT: Byte := 19
  const FLTE: Byte := 20
  const FGT: Byte := 21
  const FGTE: Byte := 22
  const FEQ: Byte := 23
  const BSTORE: Byte := 24
  const BADD: Byte := 25
  const BSUB: Byte := 26
  const BINC: Byte := 27
  const BDEC: Byte := 28
  const BLT: Byte := 29
  const BLTE: Byte := 30
  const BGT: Byte := 31
  const BGTE: Byte := 32
  const BEQ: Byte := 33
  const ITOF: Byte := 34
  const FTOI: Byte := 35
  const STOI: Byte := 36
  const STOF: Byte := 37
  const STRSTORE: Byte := 38
  const STREQ: Byte := 39
  const VEC: Byte := 40
  const VINSERT: Byte := 41
  const VPUSH: Byte := 42
  const VPOP: Byte := 43
  const VAT: Byte := 44
  const VLEN: Byte := 45
  const BOOL: Byte := 46
  const NOT: Byte := 47
  const AND: Byte := 48
  const OR: Byte := 49
  const MOVE: Byte := 50
  const COPY: Byte := 51
  const REF: Byte := 52
  const SWAP: Byte := 53
  const FREE: Byte := 54
  const EMPTY: Byte := 55
  const ISNULL: Byte := 56
  const RESS: Byte := 57
  const TMPRI: Byte := 58
  const TMPRO: Byte := 59
  const PRINT: Byte := 60
  const ECHO: Byte := 61
  const CLBIND: Byte := 62
  const CLOSURE: Byte := 63
  const FUNCTION: Byte := 64
  const FCALL: Byte := 65
  const FRAME: Byte := 66
  const PARAM: Byte := 67
  const PAREF: Byte := 68
  const CALL: Byte := 69
  const ARG: Byte := 70
  const ARGC: Byte := 71
  const JUMP: Byte := 72
  const BRANCH: Byte := 73
  const THROW: Byte := 74
  const CATCH: Byte := 75
  const PULL: Byte := 76
  const TRY: Byte := 77
  const ENTER: Byte := 78
  const LEAVE: Byte := 79
  const IMPORT: Byte := 80
  const LINK: Byte := 81
  const CLASS: Byte := 82
  const PROTOTYPE: Byte := 83
  const DERIVE: Byte := 84
  const ATTACH: Byte := 85
  const REGISTER: Byte := 86
  const NEW: Byte := 87
  const MSG: Byte := 88
  const END: Byte := 89
  const HALT: Byte := 90

  // Opcodes followed by exactly one, two or three register operands.

  predicate TakesOne(op: Byte) {
    || op == IZERO || op == IINC || op == IDEC || op == BINC || op == BDEC || op == VEC
    || op == BOOL || op == NOT || op == FREE || op == EMPTY || op == TMPRI || op == TMPRO
    || op == PRINT || op == ECHO || op == CLBIND || op == ARGC || op == THROW || op == PULL
    || op == REGISTER
  }

  predicate TakesTwo(op: Byte) {
    || op == ISTORE || ITOF <= op <= STOF || op == VPUSH || op == VLEN || MOVE <= op <= SWAP
    || op == ISNULL || op == FCALL || FRAME <= op <= PAREF || op == ARG
  }

  predicate TakesThree(op: Byte) {
    || IADD <= op <= IDIV || ILT <= op <= IEQ || FADD <= op <= FEQ || op == BADD || op == BSUB
    || BLT <= op <= BEQ || op == STREQ || op == VINSERT || op == VPOP || op == VAT
    || op == AND || op == OR
  }

  // A register operand and then one NUL-terminated text.
  predicate TakesText(op: Byte) {
    || op == STRSTORE || op == CLOSURE || op == FUNCTION || op == CALL || op == CLASS
    || op == PROTOTYPE || op == DERIVE || op == NEW || op == MSG
  }

  // One NUL-terminated name directly after the opcode.
  predicate TakesName(op: Byte) {
    op == ENTER || op == IMPORT || op == LINK
  }

  // No operands at all.
  predicate TakesNothing(op: Byte) {
    op == NOP || op == TRY || op == LEAVE || op == END || op == HALT
  }

  // OP_VARIABLE_LENGTH.
  predicate VariableLength(op: Byte) {
    TakesText(op) || TakesName(op) || op == ATTACH || op == CATCH
  }

  // OP_NAMES: the opcodes that have a mnemonic.
  predicate Known(op: Byte) {
    op <= HALT
  }

  // The opcodes the assembler emits; the machine has a handler for exactly these.
  predicate Implemented(op: Byte) {
    && Known(op)
    && op != BOOL && op != STREQ && op != PROTOTYPE && !(BADD <= op <= BEQ)
  }

  // OP_SIZES: the fixed part of an instruction, opcode byte included.  A register operand is a
  // one-byte flag and a four-byte integer.
  function OpSize(op: Byte): nat
    requires Known(op)
  {
    if TakesOne(op) || TakesText(op) || op == ATTACH then 6
    else if TakesTwo(op) then 11
    else if TakesThree(op) then 16
    else if op == FSTORE then 10
    else if op == BSTORE then 8
    else if op == RESS || op == JUMP then 5
    else if op == BRANCH then 14
    else 1
  }
}

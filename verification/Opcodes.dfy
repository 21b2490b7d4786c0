/** The opcodes of the bytecode that have an instruction. */
module Opcodes {
  import opened Wrappers

  const TERMINATE: byte := 0
  const PUSH_CONSTANT: byte := 1
  const PUSH_CONSTANT_0: byte := 2
  const PUSH_CONSTANT_1: byte := 3
  const PUSH_TOP: byte := 4
  const POP_OP: byte := 5
  const ENTER: byte := 6
  const LEAVE: byte := 7
  const CHECK_STACK_LENGTH: byte := 8
  const STORE_FP_REL: byte := 9
  const LOAD_FP_REL: byte := 10
  const INDIRECT_LOAD: byte := 11
  const INDIRECT_STORE: byte := 12
  const LOAD_STRING: byte := 16
  const CREATE_VAR: byte := 17
  const CREATE_STATIC_VAR: byte := 18
  const IMPORT_VAR: byte := 19
  const CREATE_INDIRECT_VAR: byte := 20
  const NUMERIC_PLUS: byte := 21
  const NUMERIC_MINUS: byte := 22
  const NUMERIC_MUL: byte := 23
  const NUMERIC_DIV: byte := 24
  const NUMERIC_MOD: byte := 25
  const BOOL_EQ: byte := 26
  const BOOL_NEQ: byte := 27
  const NUMERIC_LEQ: byte := 28
  const NUMERIC_GEQ: byte := 29
  const NUMERIC_LT: byte := 30
  const NUMERIC_GT: byte := 31
  const NUMERIC_EQ: byte := 32
  const NUMERIC_NEQ: byte := 33
  const BOOL_NOT: byte := 35
  const BOOL_PROJECT: byte := 36
  const IF_PREAMBLE: byte := 37
  const JUMP: byte := 38
  const CALL: byte := 39
  const RET: byte := 40
  const TEST_JUMP_IF_FALSE: byte := 41
  const TEST_JUMP_IF_TRUE: byte := 42
  const PRINT_NUM: byte := 43
  const PRINT_STR: byte := 44
  const NOP: byte := 255
}

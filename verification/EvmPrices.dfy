/**
 The price list of evm_interpreter.py as it is written there: opcodes have names, names have
 prices, and a name without an entry costs 3.
 */
module EvmPrices {
  import opened EvmWords
  import opened EvmMachine

  datatype Mnemonic =
    | STOP | ADD | MUL | SUB | DIV | MOD | AND | OR | XOR | EQ | ISZERO | LT | GT | NOT | BYTE | SHL | SHR
    | SHA3 | ADDRESS | BALANCE | ORIGIN | CALLER | CALLVALUE | CALLDATALOAD | CALLDATASIZE | CALLDATACOPY
    | CODESIZE | CODECOPY | EXTCODESIZE | EXTCODECOPY | BLOCKHASH | RETURNDATASIZE | RETURNDATACOPY
    | TIMESTAMP | NUMBER | GASLIMIT | CHAINID | POP | MLOAD | MSTORE | MSTORE8 | SLOAD | SSTORE | JUMP | JUMPI
    | GAS | JUMPDEST | PUSH0 | LOG0 | SELFDESTRUCT | CREATE | CREATE2 | CALL | CALLCODE | DELEGATECALL
    | STATICCALL | RETURN | REVERT | INVALID
    | PUSH(n: int) | DUP(n: int) | SWAP(n: int) | UNKNOWN(op: Byte)

  /** `_opcode_name`. */
  function NameOf(op: Byte): Mnemonic {
    match op
    case 0x00 => STOP case 0x01 => ADD case 0x02 => MUL case 0x03 => SUB case 0x04 => DIV
    case 0x06 => MOD case 0x10 => AND case 0x11 => OR case 0x12 => XOR case 0x14 => EQ
    case 0x15 => ISZERO case 0x16 => LT case 0x17 => GT case 0x19 => NOT case 0x1A => BYTE
    case 0x1B => SHL case 0x1C => SHR case 0x20 => SHA3 case 0x30 => ADDRESS
    case 0x31 => BALANCE case 0x32 => ORIGIN case 0x33 => CALLER case 0x34 => CALLVALUE
    case 0x35 => CALLDATALOAD case 0x36 => CALLDATASIZE case 0x37 => CALLDATACOPY
    case 0x38 => CODESIZE case 0x39 => CODECOPY case 0x3B => EXTCODESIZE case 0x3C => EXTCODECOPY
    case 0x40 => BLOCKHASH case 0x3D => RETURNDATASIZE case 0x3E => RETURNDATACOPY
    case 0x42 => TIMESTAMP case 0x43 => NUMBER case 0x45 => GASLIMIT case 0x46 => CHAINID
    case 0x50 => POP case 0x51 => MLOAD case 0x52 => MSTORE case 0x53 => MSTORE8
    case 0x54 => SLOAD case 0x55 => SSTORE case 0x56 => JUMP case 0x57 => JUMPI
    case 0x5A => GAS case 0x5B => JUMPDEST case 0x5F => PUSH0 case 0xA0 => LOG0
    case 0xFF => SELFDESTRUCT case 0xF0 => CREATE case 0xF5 => CREATE2 case 0xF1 => CALL
    case 0xF2 => CALLCODE case 0xF4 => DELEGATECALL case 0xFA => STATICCALL
    case 0xF3 => RETURN case 0xFD => REVERT case 0xFE => INVALID
    case _ =>
      if 0x60 <= op <= 0x7F then PUSH(op - 0x5F)
      else if 0x80 <= op <= 0x8F then DUP(op - 0x7F)
      else if 0x90 <= op <= 0x9F then SWAP(op - 0x8F)
      else UNKNOWN(op)
  }

  /** `GAS_COSTS.get(name, 3)`; the entry "LOG" is no opcode's name and is used inside the LOG branch. */
  function Price(name: Mnemonic): nat {
    match name
    case STOP => 0 case ADD => 3 case MUL => 5 case SUB => 3 case DIV => 5 case MOD => 5
    case POP => 2 case MLOAD => 3 case MSTORE => 3 case MSTORE8 => 3
    case SLOAD => 200 case SSTORE => 5000 case JUMP => 8 case JUMPI => 10
    case BALANCE => 400 case CALLER => 2 case ORIGIN => 2 case ADDRESS => 2
    case TIMESTAMP => 2 case NUMBER => 2 case CALLVALUE => 2
    case CALLDATALOAD => 3 case CALLDATASIZE => 2 case RETURNDATASIZE => 2 case RETURNDATACOPY => 3
    case CODESIZE => 2 case CODECOPY => 3 case CHAINID => 2 case GASLIMIT => 2 case GAS => 2 case PUSH0 => 2
    case SHA3 => 30 case RETURN => 0 case REVERT => 0 case JUMPDEST => 1
    case AND => 3 case OR => 3 case XOR => 3 case NOT => 3 case LT => 3 case GT => 3
    case EQ => 3 case ISZERO => 3 case BYTE => 3 case SHL => 3 case SHR => 3
    case CALL => 700 case CALLCODE => 700 case DELEGATECALL => 700 case STATICCALL => 700
    case BLOCKHASH => 20 case CREATE => 32000 case CREATE2 => 32000
    case EXTCODESIZE => 700 case EXTCODECOPY => 700 case SELFDESTRUCT => 5000
    case _ => 3
  }

  lemma LowPrices(op: Byte)
    requires op < 0x20
    ensures GasCost(op) == Price(NameOf(op))
  {
  }

  lemma EnvironmentPrices(op: Byte)
    requires 0x20 <= op < 0x40
    ensures GasCost(op) == Price(NameOf(op))
  {
  }

  lemma MachinePrices(op: Byte)
    requires 0x40 <= op < 0x60
    ensures GasCost(op) == Price(NameOf(op))
  {
  }

  lemma StackPrices(op: Byte)
    requires 0x60 <= op < 0xF0
    ensures GasCost(op) == Price(NameOf(op))
  {
  }

  lemma CallPrices(op: Byte)
    requires 0xF0 <= op < 0xF6
    ensures GasCost(op) == Price(NameOf(op))
  {
  }

  lemma EndPrices(op: Byte)
    requires 0xF6 <= op
    ensures GasCost(op) == Price(NameOf(op))
  {
  }

  /** The price by opcode class is the price looked up under the opcode's name. */
  lemma GasCostIsLookup(op: Byte)
    ensures GasCost(op) == Price(NameOf(op))
  {
    hide GasCost, Price, NameOf;
    if op < 0x20 {
      LowPrices(op);
    } else if op < 0x40 {
      EnvironmentPrices(op);
    } else if op < 0x60 {
      MachinePrices(op);
    } else if op < 0xF0 {
      StackPrices(op);
    } else if op < 0xF6 {
      CallPrices(op);
    } else {
      EndPrices(op);
    }
  }
}

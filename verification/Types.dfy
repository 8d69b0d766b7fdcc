/** Errors, results, and the borrowed values handed to the caller's callbacks. */
module Types {
  import opened Bytes

  datatype Option<+T> = None | Some(value: T)

  datatype Result<+T> = Ok(value: T) | Err(error: ParseError)

  /** The errors the parsing code constructs. */
  datatype ParseError =
    | UnexpectedEof(needed: nat, available: nat)
    | IntegerTooLarge(value: nat)
    | OversizedData(size: nat, max: nat)
    | MagicMismatch(wanted: seq<Byte>, got: seq<Byte>)
    | InvalidSegwitFlag(flag: Byte)
    | InvalidInputCount
    | TrailingBytes(remaining: nat)
    | IncompleteTransactions(expected: nat, parsed: nat)
    | InvalidCoinbaseCount(count: nat)

  /** `usize::MAX` of the platform: any word of at least 32 bits. */
  type Word = w: int | 0xFFFF_FFFF <= w witness 0xFFFF_FFFF

  datatype OutPoint = OutPoint(txid: Slice, vout: nat) {
    /** All-zero txid and vout 0xffffffff. */
    predicate IsCoinbase() {
      (forall i :: 0 <= i < |txid.bytes| ==> txid.bytes[i] == 0) && vout == 0xFFFF_FFFF
    }
  }

  datatype TxInput = TxInput(previousOutput: OutPoint, scriptSig: Slice, sequence: nat)

  datatype TxOutput = TxOutput(value: nat, scriptPubKey: Slice)

  /** One call of one of the two callbacks. */
  datatype Event = OnInput(input: TxInput) | OnOutput(output: TxOutput) {
    /** The offset just past the input or output. */
    function End(): nat {
      match this
      case OnInput(i) => i.scriptSig.off + |i.scriptSig.bytes| + 4
      case OnOutput(o) => o.scriptPubKey.off + |o.scriptPubKey.bytes|
    }
  }
}

/** Values shared by the models of the chain, the live-cell set and block resolution. */
module CkbTypes {

  /** Hashes are compared with `<` by fork choice, so they are modelled as numbers. */
  type Hash = nat

  datatype Option<+T> = None | Some(value: T)

  datatype Script = Script(hash: Hash, codeHash: Hash)

  datatype CellOutput = CellOutput(capacity: nat, lock: Script, typeScript: Option<Script>)

  datatype CellOutPoint = CellOutPoint(txHash: Hash, index: nat)

  /** A reference to a cell, to a block, to both, or to neither. */
  datatype OutPoint = OutPoint(cell: Option<CellOutPoint>, blockHash: Option<Hash>)
  {
    predicate IsNull() {
      cell.None? && blockHash.None?
    }
  }

  datatype Transaction = Transaction(
    hash: Hash,
    inputs: seq<OutPoint>,
    deps: seq<OutPoint>,
    outputs: seq<CellOutput>,
    witnesses: nat)
  {
    /** One input, one output, one witness, and the input is null. */
    predicate IsCellbase() {
      && |inputs| == 1
      && |outputs| == 1
      && witnesses == 1
      && inputs[0].IsNull()
    }
  }

  datatype Block = Block(
    hash: Hash,
    parent: Hash,
    number: nat,
    epoch: nat,
    difficulty: nat,
    uncles: nat,
    transactions: seq<Transaction>)
}

/** The Libra ledger types the executor and the database pass around. Only the
    fields the modelled code reads are kept. Every root hash of the system is
    replaced by the value it summarises: a sparse Merkle tree by the account
    states it holds, an event accumulator by its list of events, and the
    transaction accumulator by its list of transaction infos. Equal roots are
    then equal contents, which is what a collision-free hash gives. */
module LibraTypes {
  import opened Common

  type AccountAddress = nat
  type Version = U64

  /** The resources of one account: access path bytes to value bytes. */
  type AccountBTree = map<Bytes, Bytes>

  datatype AccessPath = AccessPath(address: AccountAddress, path: Bytes)

  datatype WriteOp = Value(newValue: Bytes) | Deletion

  datatype WriteEntry = WriteEntry(accessPath: AccessPath, op: WriteOp)

  /** The writes of one transaction, applied in order. */
  type WriteSet = seq<WriteEntry>

  datatype TransactionPayload =
    | Program
    | Module(code: Bytes)
    | Script(code: Bytes)
    | WriteSetPayload(writeSet: WriteSet)

  datatype Transaction =
    | UserTransaction(sender: AccountAddress, sequenceNumber: U64, payload: TransactionPayload)
    | WriteSetTransaction(changeSet: WriteSet)
    | BlockMetadataTransaction(round: U64)

  datatype EventKey = EventKey(bytes: Bytes)

  datatype ContractEvent = ContractEvent(key: EventKey, sequenceNumber: U64, eventData: Bytes)

  /** Keep: the transaction goes into the ledger; Discard: it leaves no trace. */
  datatype TransactionStatus = Keep(majorStatus: U64) | Discard(majorStatus: U64)

  /** What the VM returns for one transaction. */
  datatype TransactionOutput = TransactionOutput(
    writeSet: WriteSet,
    events: seq<ContractEvent>,
    gasUsed: U64,
    status: TransactionStatus)

  /** The global state: every account's resources, by address. */
  datatype SparseMerkleTree = SparseMerkleTree(accounts: map<AccountAddress, AccountBTree>)
  {
    /** The tree with the given account states written over the old ones. */
    function Update(blobs: map<AccountAddress, AccountBTree>): (t: SparseMerkleTree)
      ensures t.accounts.Keys == accounts.Keys + blobs.Keys
      ensures forall a :: a in blobs ==> t.accounts[a] == blobs[a]
      ensures forall a :: a in accounts && a !in blobs ==> t.accounts[a] == accounts[a]
    {
      SparseMerkleTree(accounts + blobs)
    }
  }

  /** One leaf of the transaction accumulator. */
  datatype TransactionInfo = TransactionInfo(
    transaction: Transaction,
    stateRoot: SparseMerkleTree,
    eventRoot: seq<ContractEvent>,
    gasUsed: U64,
    majorStatus: U64)

  /** A ledger info: the last version it covers, the accumulator it commits to,
      and the epoch of the next block. Signatures are not part of this model. */
  datatype LedgerInfo = LedgerInfo(
    version: Version,
    transactionAccumulatorHash: seq<TransactionInfo>,
    nextBlockEpoch: U64)

  /** A transaction together with what executing it produced, as handed to
      storage. */
  datatype TransactionToCommit = TransactionToCommit(
    transaction: Transaction,
    accountStates: map<AccountAddress, AccountBTree>,
    events: seq<ContractEvent>,
    gasUsed: U64,
    majorStatus: U64)
}

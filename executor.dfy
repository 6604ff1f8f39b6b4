/** The Libra executor's bookkeeping around the VM: how a transaction's write
    set updates the accounts it read, how the VM's outputs for a block are
    checked and folded into new executed trees, which executed transactions
    `commit_blocks` hands to storage once earlier ones may already be there,
    and how a state-sync chunk is verified, re-executed and saved.

    The VM, the storage service, the proof checks and the hashing are not part
    of this model: their answers are parameters (see `LibraTypes` for how
    roots are represented). */
module Executor {
  import opened Common
  import opened LibraTypes
  import LibraDb

  /** The accounts a block has read, by address, with their resources. */
  type AccountMap = map<AccountAddress, AccountBTree>

  datatype ExecError =
    /** A write to an account the VM did not read (not a write-set payload). */
    | WriteSetNotSubsetOfReadSet
    /** `as_signed_user_txn` of a transaction that is not a user transaction. */
    | NotUserTransaction
    | KeepWithEmptyWriteSet
    | DiscardWithWriteSet
    | DiscardWithEvents
    | ChunkProofInvalid
    | ChunkTooNew
    | SyncingDiscardedTransaction
    | RootHashMismatch
    | StorageError
    /** `zip_eq` over two sequences of different lengths. */
    | PanicZipEqLengthMismatch
    /** `expect` on a non-empty chunk without a first version. */
    | PanicFirstVersionMissing
    /** `expect` on an empty batch of blocks. */
    | PanicNoBlocks
    /** `u64` arithmetic whose exact result does not fit. */
    | PanicArithmeticOverflow
    /** The `assert_eq!` of the ledger info's version against the accumulator. */
    | PanicLeafCountMismatch
    /** The `assert!` that the batch does not start past the persisted ledger. */
    | PanicFirstVersionTooLarge
    /** The `assert_eq!` of the first version to commit. */
    | PanicCommitVersionMismatch

  // ===========================================================================
  // Write sets

  /** `update_account_btree`: a value write sets the path, a deletion removes
      it, and every other path keeps what it had. */
  function UpdateAccountBTree(btree: AccountBTree, path: Bytes, op: WriteOp): (r: AccountBTree)
    ensures op.Value? ==> path in r && r[path] == op.newValue
    ensures op.Deletion? ==> path !in r
    ensures forall k :: k != path ==> (k in r <==> k in btree)
    ensures forall k :: k != path && k in btree ==> r[k] == btree[k]
  {
    match op
    case Value(v) => btree[path := v]
    case Deletion => btree - {path}
  }

  /** A transaction may write to an account it did not read only when it is a
      user transaction carrying a write-set payload; `as_signed_user_txn` fails
      on any other kind of transaction. */
  function VacantWriteAllowed(txn: Transaction): (r: Result<(), ExecError>)
    ensures r.Ok? <==> txn.UserTransaction? && txn.payload.WriteSetPayload?
    ensures !txn.UserTransaction? ==> r == Err(NotUserTransaction)
    ensures txn.UserTransaction? && !txn.payload.WriteSetPayload? ==> r == Err(WriteSetNotSubsetOfReadSet)
  {
    match txn
    case UserTransaction(_, _, payload) =>
      (match payload
       case WriteSetPayload(_) => Ok(())
       case _ => Err(WriteSetNotSubsetOfReadSet))
    case _ => Err(NotUserTransaction)
  }

  /** The state of the first loop of `process_write_set`: the accounts, the
      number of accounts created so far and the addresses touched so far. */
  datatype WriteSetEffect = WriteSetEffect(accounts: AccountMap, numAccountsCreated: nat, addrs: set<AccountAddress>)

  /** One write op. On a read account, the write counts an account creation
      exactly when the account holds nothing at that moment; an account not
      read is created holding just this write, if the transaction may do so. */
  function ApplyWriteEntry(txn: Transaction, e: WriteSetEffect, entry: WriteEntry): (r: Result<WriteSetEffect, ExecError>)
    ensures r.Ok? <==> entry.accessPath.address in e.accounts || VacantWriteAllowed(txn).Ok?
    ensures r.Err? ==> r == Err(VacantWriteAllowed(txn).error)
    ensures r.Ok? ==>
      var address := entry.accessPath.address;
      && r.value.addrs == e.addrs + {address}
      && r.value.accounts.Keys == e.accounts.Keys + {address}
      && (forall a :: a in e.accounts && a != address ==> r.value.accounts[a] == e.accounts[a])
      && r.value.numAccountsCreated ==
           e.numAccountsCreated + (if address in e.accounts && e.accounts[address] == map[] then 1 else 0)
      && r.value.accounts[address] ==
           UpdateAccountBTree(if address in e.accounts then e.accounts[address] else map[],
                              entry.accessPath.path, entry.op)
  {
    var address := entry.accessPath.address;
    var path := entry.accessPath.path;
    if address in e.accounts then
      var btree := e.accounts[address];
      var created := if btree == map[] then 1 else 0;
      Ok(WriteSetEffect(e.accounts[address := UpdateAccountBTree(btree, path, entry.op)],
                        e.numAccountsCreated + created, e.addrs + {address}))
    else
      match VacantWriteAllowed(txn)
      case Err(err) => Err(err)
      case Ok(_) =>
        Ok(WriteSetEffect(e.accounts[address := UpdateAccountBTree(map[], path, entry.op)],
                          e.numAccountsCreated, e.addrs + {address}))
  }

  /** The first loop of `process_write_set` over the whole write set. */
  function ApplyWriteSet(txn: Transaction, accounts: AccountMap, ws: WriteSet): Result<WriteSetEffect, ExecError>
  {
    if ws == [] then Ok(WriteSetEffect(accounts, 0, {}))
    else
      match ApplyWriteSet(txn, accounts, ws[..|ws| - 1])
      case Err(err) => Err(err)
      case Ok(e) => ApplyWriteEntry(txn, e, ws[|ws| - 1])
  }

  /** The addresses a write set writes to. */
  function Touched(ws: WriteSet): (addrs: set<AccountAddress>)
    ensures forall i :: 0 <= i < |ws| ==> ws[i].accessPath.address in addrs
    ensures forall a :: a in addrs ==> exists i :: 0 <= i < |ws| && ws[i].accessPath.address == a
  {
    set i | 0 <= i < |ws| :: ws[i].accessPath.address
  }

  lemma TouchedSnoc(ws: WriteSet)
    requires ws != []
    ensures Touched(ws) == Touched(ws[..|ws| - 1]) + {ws[|ws| - 1].accessPath.address}
  {
    var init := ws[..|ws| - 1];
    forall a | a in Touched(ws)
      ensures a in Touched(init) + {ws[|ws| - 1].accessPath.address}
    {
      var i :| 0 <= i < |ws| && ws[i].accessPath.address == a;
      if i < |ws| - 1 {
        assert init[i] == ws[i];
      }
    }
    forall a | a in Touched(init)
      ensures a in Touched(ws)
    {
      var i :| 0 <= i < |init| && init[i].accessPath.address == a;
      assert ws[i] == init[i];
    }
  }

  /** Where a write set fails: a transaction that may create accounts never
      fails, any other fails exactly when it writes to an account not read,
      and then with the error `as_signed_user_txn` or the payload check gives. */
  lemma {:induction false} ApplyWriteSetFails(txn: Transaction, accounts: AccountMap, ws: WriteSet)
    ensures ApplyWriteSet(txn, accounts, ws).Ok? <==>
      VacantWriteAllowed(txn).Ok? || Touched(ws) <= accounts.Keys
    ensures ApplyWriteSet(txn, accounts, ws).Err? ==>
      ApplyWriteSet(txn, accounts, ws) == Err(VacantWriteAllowed(txn).error)
    ensures ApplyWriteSet(txn, accounts, ws).Ok? ==>
      && ApplyWriteSet(txn, accounts, ws).value.addrs == Touched(ws)
      && ApplyWriteSet(txn, accounts, ws).value.accounts.Keys == accounts.Keys + Touched(ws)
  {
    if ws != [] {
      var init := ws[..|ws| - 1];
      ApplyWriteSetFails(txn, accounts, init);
      TouchedSnoc(ws);
    }
  }

  /** Every account a successful write set touched is in the account map
      it leaves behind. */
  lemma ApplyWriteSetWritesRead(txn: Transaction, accounts: AccountMap, ws: WriteSet)
    requires ApplyWriteSet(txn, accounts, ws).Ok?
    ensures ApplyWriteSet(txn, accounts, ws).value.addrs <= ApplyWriteSet(txn, accounts, ws).value.accounts.Keys
  {
    ApplyWriteSetFails(txn, accounts, ws);
  }

  /** Accounts the write set does not touch keep their resources. */
  lemma {:induction false} ApplyWriteSetUntouched(txn: Transaction, accounts: AccountMap, ws: WriteSet, a: AccountAddress)
    requires ApplyWriteSet(txn, accounts, ws).Ok?
    requires a in accounts && a !in Touched(ws)
    ensures a in ApplyWriteSet(txn, accounts, ws).value.accounts
    ensures ApplyWriteSet(txn, accounts, ws).value.accounts[a] == accounts[a]
  {
    ApplyWriteSetFails(txn, accounts, ws);
    if ws != [] {
      var init := ws[..|ws| - 1];
      TouchedSnoc(ws);
      ApplyWriteSetUntouched(txn, accounts, init, a);
    }
  }

  /** The op of the last entry of `ws` that writes path `p` of account `a`. */
  function LastWrite(ws: WriteSet, a: AccountAddress, p: Bytes): (w: Option<WriteOp>)
    ensures w.Some? ==> exists i :: 0 <= i < |ws| && ws[i] == WriteEntry(AccessPath(a, p), w.value)
    ensures w.None? ==> forall i :: 0 <= i < |ws| ==> ws[i].accessPath != AccessPath(a, p)
  {
    if ws == [] then None
    else if ws[|ws| - 1].accessPath == AccessPath(a, p) then Some(ws[|ws| - 1].op)
    else
      var w := LastWrite(ws[..|ws| - 1], a, p);
      assert forall i :: 0 <= i < |ws| - 1 ==> ws[..|ws| - 1][i] == ws[i];
      w
  }

  /** Read your writes: after a write set, a path holds what the last write to
      it put there (nothing after a deletion), and a path it never wrote holds
      what it held before. */
  lemma {:induction false} ApplyWriteSetLookup(txn: Transaction, accounts: AccountMap, ws: WriteSet,
                                               a: AccountAddress, p: Bytes)
    requires ApplyWriteSet(txn, accounts, ws).Ok?
    requires a in ApplyWriteSet(txn, accounts, ws).value.accounts
    ensures var after := ApplyWriteSet(txn, accounts, ws).value.accounts[a];
      match LastWrite(ws, a, p)
      case Some(Value(v)) => p in after && after[p] == v
      case Some(Deletion) => p !in after
      case None => (p in after <==> a in accounts && p in accounts[a]) &&
                   (p in after ==> after[p] == accounts[a][p])
  {
    if ws != [] {
      var init := ws[..|ws| - 1];
      var last := ws[|ws| - 1];
      var e := ApplyWriteSet(txn, accounts, init).value;
      if a != last.accessPath.address || a in e.accounts {
        ApplyWriteSetLookup(txn, accounts, init, a, p);
      } else {
        ApplyWriteSetFails(txn, accounts, init);
        if LastWrite(ws, a, p).None? {
          assert a !in accounts;
          forall i | 0 <= i < |init| ensures init[i].accessPath.address != a {
            assert init[i].accessPath.address in e.addrs;
          }
        }
      }
    }
  }

  /** Each write op creates at most one account. */
  lemma {:induction false} ApplyWriteSetCreatedBound(txn: Transaction, accounts: AccountMap, ws: WriteSet)
    requires ApplyWriteSet(txn, accounts, ws).Ok?
    ensures ApplyWriteSet(txn, accounts, ws).value.numAccountsCreated <= |ws|
  {
    if ws != [] {
      ApplyWriteSetCreatedBound(txn, accounts, ws[..|ws| - 1]);
    }
  }

  ghost predicate NoEmptyAccount(accounts: AccountMap) {
    forall a :: a in accounts ==> accounts[a] != map[]
  }

  ghost predicate NoDeletion(ws: WriteSet) {
    forall i :: 0 <= i < |ws| ==> ws[i].op.Value?
  }

  /** Without deletions no account is ever empty, so if none was empty to begin
      with the counter stays at zero. */
  lemma {:induction false} NoCreationWithoutEmptyAccount(txn: Transaction, accounts: AccountMap, ws: WriteSet)
    requires ApplyWriteSet(txn, accounts, ws).Ok?
    requires NoEmptyAccount(accounts) && NoDeletion(ws)
    ensures ApplyWriteSet(txn, accounts, ws).value.numAccountsCreated == 0
    ensures NoEmptyAccount(ApplyWriteSet(txn, accounts, ws).value.accounts)
  {
    if ws != [] {
      var init := ws[..|ws| - 1];
      assert NoDeletion(init) by {
        forall i | 0 <= i < |init| ensures init[i].op.Value? { assert init[i] == ws[i]; }
      }
      NoCreationWithoutEmptyAccount(txn, accounts, init);
      assert ws[|ws| - 1].op.Value?;
    }
  }

  /** A first write to a read account holding nothing is counted. */
  lemma FirstWriteToEmptyAccountCounted(txn: Transaction, accounts: AccountMap, ws: WriteSet)
    requires ApplyWriteSet(txn, accounts, ws).Ok? && ws != []
    requires ws[0].accessPath.address in accounts && accounts[ws[0].accessPath.address] == map[]
    ensures ApplyWriteSet(txn, accounts, ws).value.numAccountsCreated >= 1
  {
    CreatedMonotone(txn, accounts, ws, 1);
    assert ws[..1][..0] == [];
  }

  /** The counter never goes down along a write set. */
  lemma {:induction false} CreatedMonotone(txn: Transaction, accounts: AccountMap, ws: WriteSet, n: nat)
    requires n <= |ws| && ApplyWriteSet(txn, accounts, ws).Ok?
    ensures ApplyWriteSet(txn, accounts, ws[..n]).Ok?
    ensures ApplyWriteSet(txn, accounts, ws[..n]).value.numAccountsCreated <=
            ApplyWriteSet(txn, accounts, ws).value.numAccountsCreated
  {
    if n < |ws| {
      var init := ws[..|ws| - 1];
      assert init[..n] == ws[..n];
      CreatedMonotone(txn, accounts, init, n);
    } else {
      assert ws[..n] == ws;
    }
  }

  /** What `process_write_set` returns: the new state of every touched
      account, the state tree with those written over the previous one, the
      number of accounts created, and (returned here, updated in place in the
      source) the account map after the writes. */
  datatype WriteSetOutput = WriteSetOutput(
    blobs: map<AccountAddress, AccountBTree>,
    stateTree: SparseMerkleTree,
    numAccountsCreated: nat,
    accounts: AccountMap)

  /** The blobs of the given addresses. */
  function Blobs(accounts: AccountMap, addrs: set<AccountAddress>): (blobs: map<AccountAddress, AccountBTree>)
    requires addrs <= accounts.Keys
    ensures blobs.Keys == addrs
    ensures forall a :: a in addrs ==> blobs[a] == accounts[a]
  {
    map a | a in addrs :: accounts[a]
  }

  /** `process_write_set` as one expression. */
  function WriteSetResult(txn: Transaction, accounts: AccountMap, ws: WriteSet, previous: SparseMerkleTree): (r: Result<WriteSetOutput, ExecError>)
    ensures r.Ok? ==> r.value.blobs.Keys == Touched(ws)
    ensures r.Ok? ==> forall a :: a in Touched(ws) ==>
      a in r.value.stateTree.accounts && a in r.value.accounts && r.value.stateTree.accounts[a] == r.value.accounts[a]
    ensures r.Ok? ==> forall a :: a in previous.accounts && a !in Touched(ws) ==>
      a in r.value.stateTree.accounts && r.value.stateTree.accounts[a] == previous.accounts[a]
  {
    ApplyWriteSetFails(txn, accounts, ws);
    match ApplyWriteSet(txn, accounts, ws)
    case Err(err) => Err(err)
    case Ok(e) =>
      var blobs := Blobs(e.accounts, e.addrs);
      Ok(WriteSetOutput(blobs, previous.Update(blobs), e.numAccountsCreated, e.accounts))
  }

  /** A failed write op stops the rest of the write set with its error. */
  lemma {:induction false} ApplyWriteSetFailsEarly(txn: Transaction, accounts: AccountMap, ws: WriteSet, n: nat)
    requires n <= |ws| && ApplyWriteSet(txn, accounts, ws[..n]).Err?
    ensures ApplyWriteSet(txn, accounts, ws) == ApplyWriteSet(txn, accounts, ws[..n])
  {
    if n < |ws| {
      var init := ws[..|ws| - 1];
      assert init[..n] == ws[..n];
      ApplyWriteSetFailsEarly(txn, accounts, init, n);
    } else {
      assert ws[..n] == ws;
    }
  }

  /** The second loop of `process_write_set`: the new state of every touched
      address, each of which is bound to be in the account map. */
  method CollectBlobs(accounts: AccountMap, addrs: set<AccountAddress>) returns (blobs: map<AccountAddress, AccountBTree>)
    requires addrs <= accounts.Keys
    ensures blobs == Blobs(accounts, addrs)
  {
    blobs := map[];
    var remaining := addrs;
    while remaining != {}
      invariant remaining <= addrs
      invariant blobs.Keys == addrs - remaining
      invariant forall a :: a in blobs ==> blobs[a] == accounts[a]
      decreases |remaining|
    {
      var a :| a in remaining;
      blobs := blobs[a := accounts[a]];
      remaining := remaining - {a};
    }
  }

  /** The body of the first loop of `process_write_set`: one write op. */
  method ApplyWriteOp(txn: Transaction, e: WriteSetEffect, entry: WriteEntry) returns (r: Result<WriteSetEffect, ExecError>)
    ensures r == ApplyWriteEntry(txn, e, entry)
  {
    var address := entry.accessPath.address;
    var path := entry.accessPath.path;
    var current := e.accounts;
    var numAccountsCreated := e.numAccountsCreated;
    if address in current {
      var btree := current[address];
      if btree == map[] {
        numAccountsCreated := numAccountsCreated + 1;
      }
      current := current[address := UpdateAccountBTree(btree, path, entry.op)];
    } else {
      var allowed := VacantWriteAllowed(txn);
      if allowed.Err? {
        return Err(allowed.error);
      }
      current := current[address := UpdateAccountBTree(map[], path, entry.op)];
    }
    r := Ok(WriteSetEffect(current, numAccountsCreated, e.addrs + {address}));
  }

  /** `process_write_set`: applies the write ops in order to `accounts`, then
      collects the touched accounts and writes them into the state tree. */
  method ProcessWriteSet(txn: Transaction, accounts: AccountMap, ws: WriteSet, previous: SparseMerkleTree)
      returns (r: Result<WriteSetOutput, ExecError>)
    ensures r == WriteSetResult(txn, accounts, ws, previous)
  {
    var effect := WriteSetEffect(accounts, 0, {});
    for i := 0 to |ws|
      invariant ApplyWriteSet(txn, accounts, ws[..i]) == Ok(effect)
    {
      assert ws[..i + 1][..i] == ws[..i];
      var next := ApplyWriteOp(txn, effect, ws[i]);
      if next.Err? {
        ApplyWriteSetFailsEarly(txn, accounts, ws, i + 1);
        return Err(next.error);
      }
      effect := next.value;
    }
    assert ws[..|ws|] == ws;
    ApplyWriteSetWritesRead(txn, accounts, ws);
    var blobs := CollectBlobs(effect.accounts, effect.addrs);
    r := Ok(WriteSetOutput(blobs, previous.Update(blobs), effect.numAccountsCreated, effect.accounts));
  }

  // ===========================================================================
  // Processing the VM's outputs

  /** What the executor keeps of one executed transaction. The event tree is
      the list of its events (see `LibraTypes`); `txnInfoHash` is the
      transaction info that goes into the accumulator, for kept ones only. */
  datatype TransactionData = TransactionData(
    accountBlobs: map<AccountAddress, AccountBTree>,
    events: seq<ContractEvent>,
    status: TransactionStatus,
    stateTree: SparseMerkleTree,
    eventTree: seq<ContractEvent>,
    gasUsed: U64,
    numAccountCreated: nat,
    txnInfoHash: Option<TransactionInfo>)

  /** The state tree and transaction accumulator after some transactions. */
  datatype ExecutedTrees = ExecutedTrees(stateTree: SparseMerkleTree, transactionAccumulator: seq<TransactionInfo>)
  {
    function NumLeaves(): nat {
      |transactionAccumulator|
    }

    /** The version of the last transaction, if there is one. */
    function Version(): (v: Option<nat>)
      ensures v.None? <==> NumLeaves() == 0
      ensures v.Some? ==> v.value + 1 == NumLeaves()
    {
      if NumLeaves() > 0 then Some(NumLeaves() - 1) else None
    }
  }

  /** The result handed to consensus. `stateId` is the accumulator root. */
  datatype StateComputeResult = StateComputeResult(
    stateId: seq<TransactionInfo>,
    version: nat,
    validators: Option<Bytes>,
    computeStatus: seq<TransactionStatus>)

  /** The output of executing one block. The validator set of the next epoch
      is kept as the bytes of the event that announced it. */
  datatype ProcessedVMOutput = ProcessedVMOutput(
    transactionData: seq<TransactionData>,
    executedTrees: ExecutedTrees,
    validators: Option<Bytes>)
  {
    function Version(): Option<nat> {
      executedTrees.Version()
    }

    function GetStateComputeResult(): (r: StateComputeResult)
      ensures |r.computeStatus| == |transactionData|
      ensures forall i :: 0 <= i < |transactionData| ==> r.computeStatus[i] == transactionData[i].status
      ensures r.stateId == executedTrees.transactionAccumulator && r.validators == validators
    {
      var n := executedTrees.NumLeaves();
      var version := if n == 0 then 0 else n - 1;
      StateComputeResult(executedTrees.transactionAccumulator, version, validators,
                         seq(|transactionData|, i requires 0 <= i < |transactionData| => transactionData[i].status))
    }
  }

  /** The version consensus is told is the version of the executed trees, or
      0 when they hold no transaction. */
  lemma StateComputeResultVersion(o: ProcessedVMOutput)
    ensures o.Version().Some? ==> o.GetStateComputeResult().version == o.Version().value
    ensures o.Version().None? ==> o.GetStateComputeResult().version == 0
    ensures o.GetStateComputeResult().version + 1 == o.executedTrees.NumLeaves() || o.executedTrees.NumLeaves() == 0
  {
  }

  /** The data of the first event announcing a new validator set, if any. */
  function ValidatorSetChange(events: seq<ContractEvent>, changeEventKey: EventKey): (d: Option<Bytes>)
    ensures d.Some? ==> exists i :: (0 <= i < |events| && events[i].key == changeEventKey && events[i].eventData == d.value &&
      forall j :: 0 <= j < i ==> events[j].key != changeEventKey)
    ensures d.None? ==> forall i :: 0 <= i < |events| ==> events[i].key != changeEventKey
  {
    if events == [] then None
    else if events[0].key == changeEventKey then Some(events[0].eventData)
    else
      var d := ValidatorSetChange(events[1..], changeEventKey);
      assert forall i :: 1 <= i < |events| ==> events[1..][i - 1] == events[i];
      d
  }

  /** The loop state of `process_vm_outputs`. */
  datatype ProcessState = ProcessState(
    accounts: AccountMap,
    txnData: seq<TransactionData>,
    stateTree: SparseMerkleTree,
    txnInfos: seq<TransactionInfo>,
    validators: Option<Bytes>)

  /** The Keep/Discard consistency check of one output: a kept transaction
      must write something, a discarded one must neither write nor emit. */
  function CheckStatus(output: TransactionOutput): (r: Result<(), ExecError>)
    ensures r.Ok? <==> (if output.status.Keep? then output.writeSet != []
                        else output.writeSet == [] && output.events == [])
  {
    match output.status
    case Keep(_) => if output.writeSet == [] then Err(KeepWithEmptyWriteSet) else Ok(())
    case Discard(_) =>
      if output.writeSet != [] then Err(DiscardWithWriteSet)
      else if output.events != [] then Err(DiscardWithEvents)
      else Ok(())
  }

  /** The transaction info of a kept output. */
  function TxnInfoOf(txn: Transaction, output: TransactionOutput, stateTree: SparseMerkleTree): Option<TransactionInfo>
  {
    match output.status
    case Keep(major) => Some(TransactionInfo(txn, stateTree, output.events, output.gasUsed, major))
    case Discard(_) => None
  }

  /** One iteration of the loop of `process_vm_outputs`. */
  function ProcessOne(st: ProcessState, txn: Transaction, output: TransactionOutput, changeEventKey: EventKey): Result<ProcessState, ExecError>
  {
    match WriteSetResult(txn, st.accounts, output.writeSet, st.stateTree)
    case Err(err) => Err(err)
    case Ok(w) =>
      match CheckStatus(output)
      case Err(err) => Err(err)
      case Ok(_) =>
        var info := TxnInfoOf(txn, output, w.stateTree);
        var data := TransactionData(w.blobs, output.events, output.status, w.stateTree, output.events,
                                    output.gasUsed, w.numAccountsCreated, info);
        var change := ValidatorSetChange(output.events, changeEventKey);
        Ok(ProcessState(w.accounts, st.txnData + [data], w.stateTree,
                        st.txnInfos + (if info.Some? then [info.value] else []),
                        if change.Some? then change else st.validators))
  }

  /** The loop of `process_vm_outputs` over its first `n` pairs. */
  function ProcessPrefix(st0: ProcessState, txns: seq<Transaction>, outputs: seq<TransactionOutput>,
                         changeEventKey: EventKey, n: nat): Result<ProcessState, ExecError>
    requires n <= |txns| && n <= |outputs|
  {
    if n == 0 then Ok(st0)
    else
      match ProcessPrefix(st0, txns, outputs, changeEventKey, n - 1)
      case Err(err) => Err(err)
      case Ok(st) => ProcessOne(st, txns[n - 1], outputs[n - 1], changeEventKey)
  }

  function InitialProcessState(accounts: AccountMap, parent: ExecutedTrees): ProcessState {
    ProcessState(accounts, [], parent.stateTree, [], None)
  }

  /** `process_vm_outputs` as one expression: `zip_eq` has the shorter length
      of work done before it notices a length mismatch and panics. */
  function ProcessVmOutputsResult(accounts: AccountMap, txns: seq<Transaction>, outputs: seq<TransactionOutput>,
                                  parent: ExecutedTrees, changeEventKey: EventKey): Result<ProcessedVMOutput, ExecError>
  {
    var m := Min(|txns|, |outputs|);
    match ProcessPrefix(InitialProcessState(accounts, parent), txns, outputs, changeEventKey, m)
    case Err(err) => Err(err)
    case Ok(st) =>
      if |txns| != |outputs| then Err(PanicZipEqLengthMismatch)
      else Ok(ProcessedVMOutput(st.txnData, ExecutedTrees(st.stateTree, parent.transactionAccumulator + st.txnInfos),
                                st.validators))
  }

  /** The transaction infos of the kept transactions, in order. */
  function KeptInfos(data: seq<TransactionData>): seq<TransactionInfo>
  {
    if data == [] then []
    else
      var last := data[|data| - 1];
      KeptInfos(data[..|data| - 1]) + (if last.txnInfoHash.Some? then [last.txnInfoHash.value] else [])
  }

  /** The number of kept outputs. */
  function CountKeep(outputs: seq<TransactionOutput>): nat
  {
    if outputs == [] then 0
    else CountKeep(outputs[..|outputs| - 1]) + (if outputs[|outputs| - 1].status.Keep? then 1 else 0)
  }

  /** The data entry of a transaction agrees with its output: same status,
      events and gas, a transaction info exactly when kept, and a status the
      output's writes and events are consistent with. */
  ghost predicate DataMatchesOutput(d: TransactionData, output: TransactionOutput) {
    && d.status == output.status
    && d.events == output.events
    && d.gasUsed == output.gasUsed
    && (d.txnInfoHash.Some? <==> output.status.Keep?)
    && CheckStatus(output).Ok?
  }

  /** One iteration appends one data entry that agrees with its output, and
      appends its transaction info, if any, to the infos. */
  lemma ProcessOneStep(st: ProcessState, txn: Transaction, output: TransactionOutput, changeEventKey: EventKey)
    requires ProcessOne(st, txn, output, changeEventKey).Ok?
    ensures var next := ProcessOne(st, txn, output, changeEventKey).value;
      && |next.txnData| == |st.txnData| + 1
      && next.txnData[..|st.txnData|] == st.txnData
      && DataMatchesOutput(next.txnData[|st.txnData|], output)
      && next.txnInfos == st.txnInfos + (if output.status.Keep? then [next.txnData[|st.txnData|].txnInfoHash.value] else [])
  {
    var next := ProcessOne(st, txn, output, changeEventKey).value;
    assert next.txnData[..|st.txnData|] == st.txnData;
  }

  /** After `n` pairs the loop holds one data entry per output, agreeing
      with it. */
  lemma {:induction false} ProcessPrefixData(st0: ProcessState, txns: seq<Transaction>, outputs: seq<TransactionOutput>,
                                             changeEventKey: EventKey, n: nat)
    requires n <= |txns| && n <= |outputs| && st0.txnData == []
    requires ProcessPrefix(st0, txns, outputs, changeEventKey, n).Ok?
    ensures var st := ProcessPrefix(st0, txns, outputs, changeEventKey, n).value;
      && |st.txnData| == n
      && forall i :: 0 <= i < n ==> DataMatchesOutput(st.txnData[i], outputs[i])
  {
    if n > 0 {
      ProcessPrefixData(st0, txns, outputs, changeEventKey, n - 1);
      var prev := ProcessPrefix(st0, txns, outputs, changeEventKey, n - 1).value;
      ProcessOneStep(prev, txns[n - 1], outputs[n - 1], changeEventKey);
      var st := ProcessPrefix(st0, txns, outputs, changeEventKey, n).value;
      forall i | 0 <= i < n ensures DataMatchesOutput(st.txnData[i], outputs[i]) {
        if i < n - 1 {
          assert st.txnData[..n - 1][i] == prev.txnData[i];
        }
      }
    }
  }

  /** After `n` pairs the infos collected are those of the kept entries, in
      order, one per kept output. */
  lemma {:induction false} ProcessPrefixInfos(st0: ProcessState, txns: seq<Transaction>, outputs: seq<TransactionOutput>,
                                              changeEventKey: EventKey, n: nat)
    requires n <= |txns| && n <= |outputs| && st0.txnData == [] && st0.txnInfos == []
    requires ProcessPrefix(st0, txns, outputs, changeEventKey, n).Ok?
    ensures var st := ProcessPrefix(st0, txns, outputs, changeEventKey, n).value;
      && st.txnInfos == KeptInfos(st.txnData)
      && |st.txnInfos| == CountKeep(outputs[..n])
  {
    if n > 0 {
      ProcessPrefixInfos(st0, txns, outputs, changeEventKey, n - 1);
      var prev := ProcessPrefix(st0, txns, outputs, changeEventKey, n - 1).value;
      ProcessOneStep(prev, txns[n - 1], outputs[n - 1], changeEventKey);
      var st := ProcessPrefix(st0, txns, outputs, changeEventKey, n).value;
      assert st.txnData[..|st.txnData| - 1] == prev.txnData;
      assert outputs[..n][..n - 1] == outputs[..n - 1];
    }
  }

  /** What the loop guarantees after `n` pairs: one data entry per output that
      agrees with it, and the infos collected being those of the kept
      entries, in order. */
  lemma ProcessPrefixFacts(st0: ProcessState, txns: seq<Transaction>, outputs: seq<TransactionOutput>,
                           changeEventKey: EventKey, n: nat)
    requires n <= |txns| && n <= |outputs| && st0.txnData == [] && st0.txnInfos == []
    requires ProcessPrefix(st0, txns, outputs, changeEventKey, n).Ok?
    ensures var st := ProcessPrefix(st0, txns, outputs, changeEventKey, n).value;
      && |st.txnData| == n
      && st.txnInfos == KeptInfos(st.txnData)
      && |st.txnInfos| == CountKeep(outputs[..n])
      && forall i :: 0 <= i < n ==> DataMatchesOutput(st.txnData[i], outputs[i])
  {
    ProcessPrefixData(st0, txns, outputs, changeEventKey, n);
    ProcessPrefixInfos(st0, txns, outputs, changeEventKey, n);
  }

  /** What a caller of `process_vm_outputs` can rely on: the lengths agree,
      each transaction's data carries its output's status, only kept outputs
      contribute a transaction info, and the new accumulator is the parent's
      with exactly the kept transactions' infos appended, in order. */
  lemma ProcessVmOutputsFacts(accounts: AccountMap, txns: seq<Transaction>, outputs: seq<TransactionOutput>,
                              parent: ExecutedTrees, changeEventKey: EventKey)
    requires ProcessVmOutputsResult(accounts, txns, outputs, parent, changeEventKey).Ok?
    ensures var o := ProcessVmOutputsResult(accounts, txns, outputs, parent, changeEventKey).value;
      && |txns| == |outputs| == |o.transactionData|
      && o.executedTrees.transactionAccumulator == parent.transactionAccumulator + KeptInfos(o.transactionData)
      && o.executedTrees.NumLeaves() == parent.NumLeaves() + CountKeep(outputs)
      && forall i :: 0 <= i < |outputs| ==>
           && o.transactionData[i].status == outputs[i].status
           && (o.transactionData[i].txnInfoHash.Some? <==> outputs[i].status.Keep?)
           && (outputs[i].status.Keep? ==> outputs[i].writeSet != [])
           && (outputs[i].status.Discard? ==> outputs[i].writeSet == [] && outputs[i].events == [])
  {
    ProcessPrefixFacts(InitialProcessState(accounts, parent), txns, outputs, changeEventKey, |outputs|);
    assert outputs[..|outputs|] == outputs;
  }

  /** One more pair is one more iteration. */
  lemma ProcessPrefixStep(st0: ProcessState, txns: seq<Transaction>, outputs: seq<TransactionOutput>,
                          changeEventKey: EventKey, n: nat)
    requires n < |txns| && n < |outputs|
    requires ProcessPrefix(st0, txns, outputs, changeEventKey, n).Ok?
    ensures ProcessPrefix(st0, txns, outputs, changeEventKey, n + 1) ==
      ProcessOne(ProcessPrefix(st0, txns, outputs, changeEventKey, n).value, txns[n], outputs[n], changeEventKey)
  {
  }

  /** A failed iteration stops the loop with its error. */
  lemma {:induction false} ProcessPrefixFailsEarly(st0: ProcessState, txns: seq<Transaction>, outputs: seq<TransactionOutput>,
                                                   changeEventKey: EventKey, k: nat, n: nat)
    requires k <= n <= |txns| && n <= |outputs|
    requires ProcessPrefix(st0, txns, outputs, changeEventKey, k).Err?
    ensures ProcessPrefix(st0, txns, outputs, changeEventKey, n) == ProcessPrefix(st0, txns, outputs, changeEventKey, k)
  {
    if k < n {
      ProcessPrefixFailsEarly(st0, txns, outputs, changeEventKey, k, n - 1);
    }
  }

  /** The inner loop of `process_vm_outputs` that looks for a validator set
      change among a transaction's events. */
  method FindValidatorSetChange(events: seq<ContractEvent>, changeEventKey: EventKey) returns (change: Option<Bytes>)
    ensures change == ValidatorSetChange(events, changeEventKey)
  {
    change := None;
    var j := 0;
    while j < |events|
      invariant 0 <= j <= |events|
      invariant ValidatorSetChange(events, changeEventKey) == ValidatorSetChange(events[j..], changeEventKey)
    {
      if events[j].key == changeEventKey {
        change := Some(events[j].eventData);
        return;
      }
      assert events[j..][1..] == events[j + 1..];
      j := j + 1;
    }
  }

  /** The body of the loop of `process_vm_outputs` for one transaction and
      its output. */
  method ProcessOutput(st: ProcessState, txn: Transaction, output: TransactionOutput, changeEventKey: EventKey)
      returns (r: Result<ProcessState, ExecError>)
    ensures r == ProcessOne(st, txn, output, changeEventKey)
  {
    var w := ProcessWriteSet(txn, st.accounts, output.writeSet, st.stateTree);
    if w.Err? {
      return Err(w.error);
    }
    var txnInfos := st.txnInfos;
    var info: Option<TransactionInfo> := None;
    match output.status {
      case Keep(major) =>
        if output.writeSet == [] {
          return Err(KeepWithEmptyWriteSet);
        }
        var txnInfo := TransactionInfo(txn, w.value.stateTree, output.events, output.gasUsed, major);
        txnInfos := txnInfos + [txnInfo];
        info := Some(txnInfo);
      case Discard(_) =>
        if output.writeSet != [] {
          return Err(DiscardWithWriteSet);
        }
        if output.events != [] {
          return Err(DiscardWithEvents);
        }
    }
    var data := TransactionData(w.value.blobs, output.events, output.status, w.value.stateTree,
                                output.events, output.gasUsed, w.value.numAccountsCreated, info);
    var nextValidatorSet := st.validators;
    var change := FindValidatorSetChange(output.events, changeEventKey);
    if change.Some? {
      nextValidatorSet := change;
    }
    assert CheckStatus(output).Ok?;
    assert info == TxnInfoOf(txn, output, w.value.stateTree);
    assert txnInfos == st.txnInfos + (if info.Some? then [info.value] else []);
    r := Ok(ProcessState(w.value.accounts, st.txnData + [data], w.value.stateTree, txnInfos, nextValidatorSet));
  }

  /** `process_vm_outputs`: runs the write set of each output against the
      accounts read by the block, checks each output's status against what it
      wrote and emitted, and appends the kept transactions' infos to the
      parent accumulator. */
  method ProcessVmOutputs(accounts: AccountMap, txns: seq<Transaction>, outputs: seq<TransactionOutput>,
                          parent: ExecutedTrees, changeEventKey: EventKey)
      returns (r: Result<ProcessedVMOutput, ExecError>)
    ensures r == ProcessVmOutputsResult(accounts, txns, outputs, parent, changeEventKey)
  {
    var st0 := InitialProcessState(accounts, parent);
    var st := st0;
    var m := Min(|txns|, |outputs|);
    for i := 0 to m
      invariant ProcessPrefix(st0, txns, outputs, changeEventKey, i) == Ok(st)
    {
      var next := ProcessOutput(st, txns[i], outputs[i], changeEventKey);
      ProcessPrefixStep(st0, txns, outputs, changeEventKey, i);
      if next.Err? {
        ProcessPrefixFailsEarly(st0, txns, outputs, changeEventKey, i + 1, m);
        return Err(next.error);
      }
      st := next.value;
    }
    if |txns| != |outputs| {
      return Err(PanicZipEqLengthMismatch);
    }
    r := Ok(ProcessedVMOutput(st.txnData, ExecutedTrees(st.stateTree, parent.transactionAccumulator + st.txnInfos),
                              st.validators));
  }

  // ===========================================================================
  // Committing blocks

  /** A block: its transactions and the output of executing them. */
  datatype Block = Block(transactions: seq<Transaction>, output: ProcessedVMOutput)

  /** What `commit_blocks` and `execute_and_commit_chunk` hand to
      `save_transactions`. */
  datatype SaveRequest = SaveRequest(
    txnsToCommit: seq<TransactionToCommit>,
    firstVersion: nat,
    ledgerInfo: Option<LedgerInfo>)

  function ToCommit(txn: Transaction, data: TransactionData): TransactionToCommit {
    TransactionToCommit(txn, data.accountBlobs, data.events, data.gasUsed, data.status.majorStatus)
  }

  /** The kept transactions of one block, in order. */
  function KeepFilter(txns: seq<Transaction>, data: seq<TransactionData>): seq<TransactionToCommit>
    requires |txns| == |data|
  {
    if txns == [] then []
    else
      var n := |txns| - 1;
      KeepFilter(txns[..n], data[..n]) + (if data[n].status.Keep? then [ToCommit(txns[n], data[n])] else [])
  }

  /** The number of kept entries. */
  function CountKeptData(data: seq<TransactionData>): nat
  {
    if data == [] then 0
    else CountKeptData(data[..|data| - 1]) + (if data[|data| - 1].status.Keep? then 1 else 0)
  }

  /** Only the kept transactions are kept, all of them and in order: the
      filter has one entry per kept transaction, and the entry of the kept
      transaction at position `i` comes after those of the kept transactions
      before it. */
  lemma {:induction false} KeepFilterKeepsKept(txns: seq<Transaction>, data: seq<TransactionData>)
    requires |txns| == |data|
    ensures |KeepFilter(txns, data)| == CountKeptData(data)
    ensures forall i :: 0 <= i < |data| && data[i].status.Keep? ==>
      CountKeptData(data[..i]) < |KeepFilter(txns, data)| &&
      KeepFilter(txns, data)[CountKeptData(data[..i])] == ToCommit(txns[i], data[i])
  {
    if txns != [] {
      var n := |txns| - 1;
      KeepFilterKeepsKept(txns[..n], data[..n]);
      assert data[..n] == data[..n][..n];
      forall i | 0 <= i < |data| && data[i].status.Keep?
        ensures CountKeptData(data[..i]) < |KeepFilter(txns, data)| &&
          KeepFilter(txns, data)[CountKeptData(data[..i])] == ToCommit(txns[i], data[i])
      {
        if i < n {
          assert data[..n][..i] == data[..i];
          assert txns[..n][i] == txns[i] && data[..n][i] == data[i];
        } else {
          assert data[..i] == data[..n];
        }
      }
    }
  }

  /** The loop of `commit_blocks` over every block: the kept transactions of
      all blocks, in order; a block whose transactions and data differ in
      length makes `zip_eq` panic. */
  function KeptInBlocks(blocks: seq<Block>): Result<seq<TransactionToCommit>, ExecError>
  {
    if blocks == [] then Ok([])
    else
      var last := blocks[|blocks| - 1];
      match KeptInBlocks(blocks[..|blocks| - 1])
      case Err(err) => Err(err)
      case Ok(kept) =>
        if |last.transactions| != |last.output.transactionData| then Err(PanicZipEqLengthMismatch)
        else Ok(kept + KeepFilter(last.transactions, last.output.transactionData))
  }

  /** The panic comes exactly from a block whose lengths differ. */
  lemma {:induction false} KeptInBlocksFails(blocks: seq<Block>)
    ensures KeptInBlocks(blocks).Err? <==>
      exists k :: 0 <= k < |blocks| && |blocks[k].transactions| != |blocks[k].output.transactionData|
    ensures KeptInBlocks(blocks).Err? ==> KeptInBlocks(blocks) == Err(PanicZipEqLengthMismatch)
  {
    if blocks != [] {
      var init := blocks[..|blocks| - 1];
      KeptInBlocksFails(init);
      if exists k :: 0 <= k < |init| && |init[k].transactions| != |init[k].output.transactionData| {
        var k :| 0 <= k < |init| && |init[k].transactions| != |init[k].output.transactionData|;
        assert blocks[k] == init[k];
      }
      if exists k :: 0 <= k < |blocks| && |blocks[k].transactions| != |blocks[k].output.transactionData| {
        var k :| 0 <= k < |blocks| && |blocks[k].transactions| != |blocks[k].output.transactionData|;
        if k < |init| {
          assert init[k] == blocks[k];
        }
      }
    }
  }

  /** The skip arithmetic of `commit_blocks`, given the number of kept
      transactions, the version the ledger info names, the accumulator size
      after the last block and the number of transactions already persisted.
      On success: how many kept transactions storage already has, and the
      version the committed batch starts at. */
  function PlanCommit(numKept: nat, version: Version, numLeavesLastBlock: nat, numPersistent: nat): Result<(nat, nat), ExecError>
  {
    if version + 1 > U64_MAX then Err(PanicArithmeticOverflow)
    else if version + 1 != numLeavesLastBlock then Err(PanicLeafCountMismatch)
    else if numKept > version + 1 then Err(PanicArithmeticOverflow)
    else
      var firstToKeep := version + 1 - numKept;
      if firstToKeep > numPersistent then Err(PanicFirstVersionTooLarge)
      else
        var numToSkip := numPersistent - firstToKeep;
        var numToCommit := if numToSkip <= numKept then numKept - numToSkip else 0;
        var firstToCommit := firstToKeep + numToSkip;
        if firstToCommit != version + 1 - numToCommit then Err(PanicCommitVersionMismatch)
        else Ok((numToSkip, firstToCommit))
  }

  /** The plan succeeds exactly when the ledger info's version fits and
      matches the last block's accumulator, the kept transactions fit below
      it, the batch does not start past what is persisted, and nothing is
      persisted past the ledger info. Then the skipped transactions are exactly
      the persisted ones, the batch starts right after them, and the batch
      ends at the ledger info's version. The final `assert_eq!` fails exactly
      when storage holds more transactions than the ledger info names. */
  lemma PlanCommitCorrect(numKept: nat, version: Version, numLeavesLastBlock: nat, numPersistent: nat)
    ensures var r := PlanCommit(numKept, version, numLeavesLastBlock, numPersistent);
      && (r.Ok? <==>
            && version < U64_MAX
            && version + 1 == numLeavesLastBlock
            && numKept <= version + 1
            && version + 1 - numKept <= numPersistent <= version + 1)
      && (r.Ok? ==>
            var (numToSkip, firstToCommit) := r.value;
            && numToSkip == numPersistent - (version + 1 - numKept)
            && numToSkip <= numKept
            && firstToCommit == numPersistent
            && firstToCommit + (numKept - numToSkip) == version + 1)
      && (r == Err(PanicCommitVersionMismatch) <==>
            && version < U64_MAX
            && version + 1 == numLeavesLastBlock
            && numKept <= version + 1
            && version + 1 - numKept <= numPersistent
            && numPersistent > version + 1)
  {
  }

  /** The kept transactions after the first `n`, none when there are fewer. */
  function Skip<T>(s: seq<T>, n: nat): (r: seq<T>)
    ensures |r| == if n <= |s| then |s| - n else 0
    ensures forall i :: 0 <= i < |r| ==> r[i] == s[n + i]
  {
    if n <= |s| then s[n..] else []
  }

  /** `commit_blocks` as one expression: the batch it sends to storage. */
  function CommitBlocksResult(blocks: seq<Block>, ledgerInfo: LedgerInfo, numPersistent: nat): Result<SaveRequest, ExecError>
  {
    match KeptInBlocks(blocks)
    case Err(err) => Err(err)
    case Ok(kept) =>
      if blocks == [] then Err(PanicNoBlocks)
      else
        var lastBlock := blocks[|blocks| - 1];
        match PlanCommit(|kept|, ledgerInfo.version, lastBlock.output.executedTrees.NumLeaves(), numPersistent)
        case Err(err) => Err(err)
        case Ok((numToSkip, firstToCommit)) => Ok(SaveRequest(Skip(kept, numToSkip), firstToCommit, Some(ledgerInfo)))
  }

  /** The inner loop of `commit_blocks` over one block's `zip_eq`: the kept
      transactions of the block, or the panic when its lengths differ. */
  method BlockKept(block: Block) returns (r: Result<seq<TransactionToCommit>, ExecError>)
    ensures |block.transactions| != |block.output.transactionData| ==> r == Err(PanicZipEqLengthMismatch)
    ensures |block.transactions| == |block.output.transactionData| ==>
      r == Ok(KeepFilter(block.transactions, block.output.transactionData))
  {
    var txns := block.transactions;
    var data := block.output.transactionData;
    var kept: seq<TransactionToCommit> := [];
    var m := Min(|txns|, |data|);
    for i := 0 to m
      invariant kept == KeepFilter(txns[..i], data[..i])
    {
      assert txns[..i + 1][..i] == txns[..i];
      assert data[..i + 1][..i] == data[..i];
      if data[i].status.Keep? {
        kept := kept + [ToCommit(txns[i], data[i])];
      }
    }
    if |txns| != |data| {
      return Err(PanicZipEqLengthMismatch);
    }
    assert txns[..m] == txns && data[..m] == data;
    r := Ok(kept);
  }

  /** `commit_blocks`: collects the kept transactions of every block, skips
      those storage already holds and returns the batch it saves with the
      ledger info. `numPersistent` is the leaf count of the synced trees. */
  method CommitBlocks(blocks: seq<Block>, ledgerInfo: LedgerInfo, numPersistent: nat)
      returns (r: Result<SaveRequest, ExecError>)
    ensures r == CommitBlocksResult(blocks, ledgerInfo, numPersistent)
  {
    var txnsToKeep: seq<TransactionToCommit> := [];
    for b := 0 to |blocks|
      invariant KeptInBlocks(blocks[..b]) == Ok(txnsToKeep)
    {
      assert blocks[..b + 1][..b] == blocks[..b];
      var kept := BlockKept(blocks[b]);
      if kept.Err? {
        KeptInBlocksFails(blocks);
        return Err(kept.error);
      }
      txnsToKeep := txnsToKeep + kept.value;
    }
    assert blocks[..|blocks|] == blocks;
    if |blocks| == 0 {
      return Err(PanicNoBlocks);
    }
    var lastBlock := blocks[|blocks| - 1];
    var version := ledgerInfo.version;
    var numLeaves := lastBlock.output.executedTrees.NumLeaves();
    if version + 1 > U64_MAX {
      return Err(PanicArithmeticOverflow);
    }
    if version + 1 != numLeaves {
      return Err(PanicLeafCountMismatch);
    }
    var numToKeep := |txnsToKeep|;
    if numToKeep > version + 1 {
      return Err(PanicArithmeticOverflow);
    }
    var firstToKeep := version + 1 - numToKeep;
    if firstToKeep > numPersistent {
      return Err(PanicFirstVersionTooLarge);
    }
    var numToSkip := numPersistent - firstToKeep;
    var firstToCommit := firstToKeep + numToSkip;
    var txnsToCommit := Skip(txnsToKeep, numToSkip);
    if firstToCommit != version + 1 - |txnsToCommit| {
      return Err(PanicCommitVersionMismatch);
    }
    r := Ok(SaveRequest(txnsToCommit, firstToCommit, Some(ledgerInfo)));
  }

  /** A batch `commit_blocks` sends starts at the first version storage does
      not have, ends at the ledger info's version, and holds the kept
      transactions past the persisted ones; storage accepts it as soon as its
      new accumulator is the one the ledger info commits to. */
  lemma CommitBlocksBatch(blocks: seq<Block>, ledgerInfo: LedgerInfo, numPersistent: nat)
    requires CommitBlocksResult(blocks, ledgerInfo, numPersistent).Ok?
    ensures var req := CommitBlocksResult(blocks, ledgerInfo, numPersistent).value;
      && KeptInBlocks(blocks).Ok?
      && var kept := KeptInBlocks(blocks).value;
      && req.ledgerInfo == Some(ledgerInfo)
      && req.firstVersion == numPersistent
      && req.firstVersion + |req.txnsToCommit| == ledgerInfo.version + 1
      && req.txnsToCommit == kept[|kept| - |req.txnsToCommit|..]
      && req.firstVersion + |req.txnsToCommit| <= U64_MAX
      && LibraDb.CheckSaveTransactions(|req.txnsToCommit|, req.firstVersion, req.ledgerInfo,
                                       ledgerInfo.transactionAccumulatorHash).Ok?
  {
    var kept := KeptInBlocks(blocks).value;
    var lastBlock := blocks[|blocks| - 1];
    PlanCommitCorrect(|kept|, ledgerInfo.version, lastBlock.output.executedTrees.NumLeaves(), numPersistent);
    var req := CommitBlocksResult(blocks, ledgerInfo, numPersistent).value;
    LibraDb.SaveTransactionsAccepted(|req.txnsToCommit|, req.firstVersion, req.ledgerInfo,
                                     ledgerInfo.transactionAccumulatorHash);
  }

  // ===========================================================================
  // State sync chunks

  /** `verify_chunk`: with the proof checked (`proofValid`), an empty chunk
      skips nothing; a non-empty one must not start past the synced ledger,
      and its transactions up to the synced version are skipped. Answers
      how many to skip and the version the rest starts at. */
  function VerifyChunk(numTxns: nat, firstTransactionVersion: Option<Version>, proofValid: bool,
                       numCommitted: nat): (r: Result<(nat, nat), ExecError>)
    ensures !proofValid ==> r == Err(ChunkProofInvalid)
    ensures proofValid && numTxns == 0 ==> r == Ok((0, numCommitted))
    ensures proofValid && numTxns > 0 && firstTransactionVersion.None? ==> r == Err(PanicFirstVersionMissing)
    ensures proofValid && numTxns > 0 && firstTransactionVersion.Some? ==>
      && (r.Ok? <==> firstTransactionVersion.value <= numCommitted)
      && (r.Err? ==> r.error == ChunkTooNew)
      && (r.Ok? ==> r.value.0 + firstTransactionVersion.value == numCommitted && r.value.1 == numCommitted)
  {
    if !proofValid then Err(ChunkProofInvalid)
    else if numTxns == 0 then Ok((0, numCommitted))
    else if firstTransactionVersion.None? then Err(PanicFirstVersionMissing)
    else
      var first := firstTransactionVersion.value;
      if first > numCommitted then Err(ChunkTooNew)
      else Ok((numCommitted - first, numCommitted))
  }

  /** The outcome of a chunk that passed every check. */
  datatype ChunkOutcome =
    /** A chunk that is not the last for its ledger info and has nothing new. */
    | NothingToSave
    | Saved(request: SaveRequest)

  /** The last-chunk rule of `execute_and_commit_chunk`: the ledger info goes
      with the chunk exactly when the chunk ends at its version, and then the
      locally computed accumulator must be the one it commits to; a chunk that
      is not the last and brings nothing new is not saved. `None` means
      nothing to save. */
  function LedgerInfoToCommit(numSynced: nat, numToCommit: nat, ledgerInfo: LedgerInfo,
                              computed: seq<TransactionInfo>): (r: Result<Option<Option<LedgerInfo>>, ExecError>)
    ensures numSynced + numToCommit > U64_MAX || ledgerInfo.version + 1 > U64_MAX ==> r == Err(PanicArithmeticOverflow)
    ensures numSynced + numToCommit <= U64_MAX && ledgerInfo.version + 1 <= U64_MAX ==>
      if numSynced + numToCommit == ledgerInfo.version + 1 then
        r == (if computed == ledgerInfo.transactionAccumulatorHash then Ok(Some(Some(ledgerInfo))) else Err(RootHashMismatch))
      else
        r == (if numToCommit == 0 then Ok(None) else Ok(Some(None)))
  {
    if numSynced + numToCommit > U64_MAX || ledgerInfo.version + 1 > U64_MAX then Err(PanicArithmeticOverflow)
    else if numSynced + numToCommit == ledgerInfo.version + 1 then
      if computed != ledgerInfo.transactionAccumulatorHash then Err(RootHashMismatch)
      else Ok(Some(Some(ledgerInfo)))
    else if numToCommit == 0 then Ok(None)
    else Ok(Some(None))
  }

  /** The loop of `execute_and_commit_chunk` that refuses discarded outputs. */
  method CheckNoDiscard(outputs: seq<TransactionOutput>) returns (r: Result<(), ExecError>)
    ensures r.Ok? <==> forall i :: 0 <= i < |outputs| ==> outputs[i].status.Keep?
    ensures r.Err? ==> r.error == SyncingDiscardedTransaction
  {
    for i := 0 to |outputs|
      invariant forall k :: 0 <= k < i ==> outputs[k].status.Keep?
    {
      if outputs[i].status.Discard? {
        return Err(SyncingDiscardedTransaction);
      }
    }
    r := Ok(());
  }

  lemma {:induction false} CountKeepAll(outputs: seq<TransactionOutput>)
    requires forall i :: 0 <= i < |outputs| ==> outputs[i].status.Keep?
    ensures CountKeep(outputs) == |outputs|
  {
    if outputs != [] {
      var init := outputs[..|outputs| - 1];
      assert forall i :: 0 <= i < |init| ==> init[i] == outputs[i];
      CountKeepAll(init);
    }
  }

  /** The outputs of a chunk, all kept, give one data entry per transaction
      and grow the synced accumulator by one leaf per transaction. */
  lemma ChunkOutputFacts(accounts: AccountMap, txns: seq<Transaction>, outputs: seq<TransactionOutput>,
                         synced: ExecutedTrees, changeEventKey: EventKey)
    requires forall i :: 0 <= i < |outputs| ==> outputs[i].status.Keep?
    requires ProcessVmOutputsResult(accounts, txns, outputs, synced, changeEventKey).Ok?
    ensures var o := ProcessVmOutputsResult(accounts, txns, outputs, synced, changeEventKey).value;
      && |o.transactionData| == |txns| == |outputs|
      && o.executedTrees.NumLeaves() == synced.NumLeaves() + |outputs|
      && o.executedTrees.transactionAccumulator[..synced.NumLeaves()] == synced.transactionAccumulator
  {
    ProcessVmOutputsFacts(accounts, txns, outputs, synced, changeEventKey);
    CountKeepAll(outputs);
    var o := ProcessVmOutputsResult(accounts, txns, outputs, synced, changeEventKey).value;
    assert o.executedTrees.transactionAccumulator[..synced.NumLeaves()] == synced.transactionAccumulator;
  }

  /** The transactions of a chunk paired with their data, as handed to
      `save_transactions`. */
  function ChunkBatch(txns: seq<Transaction>, data: seq<TransactionData>): (batch: seq<TransactionToCommit>)
    requires |txns| == |data|
    ensures |batch| == |txns|
    ensures forall i :: 0 <= i < |txns| ==> batch[i] == ToCommit(txns[i], data[i])
  {
    seq(|txns|, i requires 0 <= i < |txns| => ToCommit(txns[i], data[i]))
  }

  /** The loop of `execute_and_commit_chunk` that pairs each transaction with
      its data. */
  method ChunkTxnsToCommit(txns: seq<Transaction>, data: seq<TransactionData>) returns (toCommit: seq<TransactionToCommit>)
    requires |txns| == |data|
    ensures toCommit == ChunkBatch(txns, data)
  {
    toCommit := [];
    for i := 0 to |txns|
      invariant |toCommit| == i
      invariant forall k :: 0 <= k < i ==> toCommit[k] == ToCommit(txns[k], data[k])
    {
      toCommit := toCommit + [ToCommit(txns[i], data[i])];
    }
  }

  /** The middle of `execute_and_commit_chunk`: refuses a discarded output,
      then processes the outputs against the synced trees (`ProcessVmOutputs`)
      and passes on what that gives. */
  method ExecuteChunkOutputs(accounts: AccountMap, txns: seq<Transaction>, outputs: seq<TransactionOutput>,
                             synced: ExecutedTrees, changeEventKey: EventKey)
      returns (r: Result<ProcessedVMOutput, ExecError>)
    ensures (exists i :: 0 <= i < |outputs| && outputs[i].status.Discard?) ==> r == Err(SyncingDiscardedTransaction)
    ensures (forall i :: 0 <= i < |outputs| ==> outputs[i].status.Keep?) ==>
      r == ProcessVmOutputsResult(accounts, txns, outputs, synced, changeEventKey)
    ensures r.Ok? ==>
      && (forall i :: 0 <= i < |outputs| ==> outputs[i].status.Keep?)
      && |r.value.transactionData| == |txns| == |outputs|
      && r.value.executedTrees.NumLeaves() == synced.NumLeaves() + |outputs|
      && r.value.executedTrees.transactionAccumulator[..synced.NumLeaves()] == synced.transactionAccumulator
  {
    var noDiscard := CheckNoDiscard(outputs);
    if noDiscard.Err? {
      return Err(noDiscard.error);
    }
    r := ProcessVmOutputs(accounts, txns, outputs, synced, changeEventKey);
    if r.Ok? {
      ChunkOutputFacts(accounts, txns, outputs, synced, changeEventKey);
    }
  }

  /** The end of `execute_and_commit_chunk` once the outputs are processed,
      as one expression: the outcome and the synced trees afterwards.
      `zip_eq` panics when the transactions and their data differ in length;
      `storageAccepts` is whether `save_transactions` succeeds. */
  function SaveChunkResult(txns: seq<Transaction>, output: ProcessedVMOutput, firstVersion: nat, ledgerInfo: LedgerInfo,
                           synced: ExecutedTrees, storageAccepts: bool): (Result<ChunkOutcome, ExecError>, ExecutedTrees)
  {
    if |txns| != |output.transactionData| then (Err(PanicZipEqLengthMismatch), synced)
    else
      match LedgerInfoToCommit(synced.NumLeaves(), |txns|, ledgerInfo, output.executedTrees.transactionAccumulator)
      case Err(err) => (Err(err), synced)
      case Ok(None) => (Ok(NothingToSave), synced)
      case Ok(Some(toCommit)) =>
        if !storageAccepts then (Err(StorageError), synced)
        else (Ok(Saved(SaveRequest(ChunkBatch(txns, output.transactionData), firstVersion, toCommit))),
              output.executedTrees)
  }

  /** The end of `execute_and_commit_chunk`, once the chunk's outputs are
      processed: picks the ledger info by the last-chunk rule, saves, and
      moves the synced trees to the output's trees on success. */
  method SaveChunk(txns: seq<Transaction>, output: ProcessedVMOutput, firstVersion: nat, ledgerInfo: LedgerInfo,
                   synced: ExecutedTrees, storageAccepts: bool)
      returns (r: Result<ChunkOutcome, ExecError>, newSynced: ExecutedTrees)
    requires |output.transactionData| == |txns|
    ensures (r, newSynced) == SaveChunkResult(txns, output, firstVersion, ledgerInfo, synced, storageAccepts)
  {
    var txnsToCommit := ChunkTxnsToCommit(txns, output.transactionData);
    var decision := LedgerInfoToCommit(synced.NumLeaves(), |txnsToCommit|, ledgerInfo,
                                       output.executedTrees.transactionAccumulator);
    if decision.Err? {
      return Err(decision.error), synced;
    }
    if decision.value.None? {
      return Ok(NothingToSave), synced;
    }
    var request := SaveRequest(txnsToCommit, firstVersion, decision.value.value);
    if !storageAccepts {
      return Err(StorageError), synced;
    }
    return Ok(Saved(request)), output.executedTrees;
  }

  /** What the end of a chunk leaves behind, once the outputs have grown the
      synced accumulator by one leaf per transaction: the synced trees change
      only on a successful save, which needs storage to accept it, and then
      become the output's trees, which have a version. The saved batch pairs
      the transactions with their data from the synced count on, carries the
      ledger info exactly when it ends at that version (and then the
      accumulator is the one the ledger info commits to), is not empty
      otherwise, and its versions fit in `u64`. */
  lemma SaveChunkSaved(txns: seq<Transaction>, output: ProcessedVMOutput, firstVersion: nat, ledgerInfo: LedgerInfo,
                       synced: ExecutedTrees, storageAccepts: bool)
    requires |output.transactionData| == |txns|
    requires output.executedTrees.NumLeaves() == synced.NumLeaves() + |txns|
    requires firstVersion == synced.NumLeaves()
    ensures var (r, newSynced) := SaveChunkResult(txns, output, firstVersion, ledgerInfo, synced, storageAccepts);
      && (r.Err? || r == Ok(NothingToSave) ==> newSynced == synced)
      && (r == Ok(NothingToSave) ==> txns == [] && synced.NumLeaves() != ledgerInfo.version + 1)
      && (r.Ok? && r.value.Saved? ==>
            var req := r.value.request;
            && storageAccepts
            && newSynced == output.executedTrees
            && req.firstVersion == firstVersion
            && req.txnsToCommit == ChunkBatch(txns, output.transactionData)
            && (req.ledgerInfo.Some? <==> req.firstVersion + |req.txnsToCommit| == ledgerInfo.version + 1)
            && (req.ledgerInfo.Some? ==>
                  req.ledgerInfo == Some(ledgerInfo) && ledgerInfo.transactionAccumulatorHash == newSynced.transactionAccumulator)
            && (req.ledgerInfo.None? ==> req.txnsToCommit != [])
            && req.firstVersion + |req.txnsToCommit| <= U64_MAX
            && newSynced.Version().Some?)
  {
  }

  /** `execute_and_commit_chunk` as one expression: the outcome and the synced
      trees afterwards. */
  function ChunkResult(chunk: seq<Transaction>, firstTransactionVersion: Option<Version>, proofValid: bool,
                       ledgerInfo: LedgerInfo, synced: ExecutedTrees, accounts: AccountMap,
                       vmOutputs: seq<TransactionOutput>, changeEventKey: EventKey, storageAccepts: bool)
      : (Result<ChunkOutcome, ExecError>, ExecutedTrees)
  {
    match VerifyChunk(|chunk|, firstTransactionVersion, proofValid, synced.NumLeaves())
    case Err(err) => (Err(err), synced)
    case Ok((numToSkip, firstVersion)) =>
      if exists i :: 0 <= i < |vmOutputs| && vmOutputs[i].status.Discard? then (Err(SyncingDiscardedTransaction), synced)
      else
        var transactions := Skip(chunk, numToSkip);
        match ProcessVmOutputsResult(accounts, transactions, vmOutputs, synced, changeEventKey)
        case Err(err) => (Err(err), synced)
        case Ok(output) => SaveChunkResult(transactions, output, firstVersion, ledgerInfo, synced, storageAccepts)
  }

  /** Each way `execute_and_commit_chunk` can end. A failed verification, a
      discarded output, a processing error, a root-hash mismatch or overflow
      of the last-chunk rule, and a storage refusal are each passed on as the
      error; a chunk that is not the last and brings nothing new ends without
      saving; otherwise the batch is saved and the synced trees become the
      processed trees. */
  lemma ChunkResultCases(chunk: seq<Transaction>, firstTransactionVersion: Option<Version>, proofValid: bool,
                         ledgerInfo: LedgerInfo, synced: ExecutedTrees, accounts: AccountMap,
                         vmOutputs: seq<TransactionOutput>, changeEventKey: EventKey, storageAccepts: bool)
    ensures var res := ChunkResult(chunk, firstTransactionVersion, proofValid, ledgerInfo, synced, accounts,
                                   vmOutputs, changeEventKey, storageAccepts);
      var verified := VerifyChunk(|chunk|, firstTransactionVersion, proofValid, synced.NumLeaves());
      && (verified.Err? ==> res.0 == Err(verified.error))
      && (verified.Ok? && (exists i :: 0 <= i < |vmOutputs| && vmOutputs[i].status.Discard?) ==>
            res.0 == Err(SyncingDiscardedTransaction))
      && (verified.Ok? && (forall i :: 0 <= i < |vmOutputs| ==> vmOutputs[i].status.Keep?) ==>
            var transactions := Skip(chunk, verified.value.0);
            var processed := ProcessVmOutputsResult(accounts, transactions, vmOutputs, synced, changeEventKey);
            && (processed.Err? ==> res.0 == Err(processed.error))
            && (processed.Ok? ==>
                  var decision := LedgerInfoToCommit(synced.NumLeaves(), |transactions|, ledgerInfo,
                                                     processed.value.executedTrees.transactionAccumulator);
                  && |processed.value.transactionData| == |transactions|
                  && (decision.Err? ==> res.0 == Err(decision.error))
                  && (decision == Ok(None) ==> res.0 == Ok(NothingToSave))
                  && (decision.Ok? && decision.value.Some? && !storageAccepts ==> res.0 == Err(StorageError))
                  && (decision.Ok? && decision.value.Some? && storageAccepts ==>
                        && res.0 == Ok(Saved(SaveRequest(ChunkBatch(transactions, processed.value.transactionData),
                                                         verified.value.1, decision.value.value)))
                        && res.1 == processed.value.executedTrees)))
  {
    var verified := VerifyChunk(|chunk|, firstTransactionVersion, proofValid, synced.NumLeaves());
    if verified.Ok? && forall i :: 0 <= i < |vmOutputs| ==> vmOutputs[i].status.Keep? {
      var transactions := Skip(chunk, verified.value.0);
      var processed := ProcessVmOutputsResult(accounts, transactions, vmOutputs, synced, changeEventKey);
      if processed.Ok? {
        ChunkOutputFacts(accounts, transactions, vmOutputs, synced, changeEventKey);
        assert ChunkResult(chunk, firstTransactionVersion, proofValid, ledgerInfo, synced, accounts,
                           vmOutputs, changeEventKey, storageAccepts) ==
               SaveChunkResult(transactions, processed.value, verified.value.1, ledgerInfo, synced, storageAccepts);
      }
    }
  }

  /** A chunk that is not saved leaves the synced trees as they were: they
      change only on a successful save. One with nothing to save had no
      outputs and does not end at the ledger info. */
  lemma ChunkResultUnsaved(chunk: seq<Transaction>, firstTransactionVersion: Option<Version>, proofValid: bool,
                           ledgerInfo: LedgerInfo, synced: ExecutedTrees, accounts: AccountMap,
                           vmOutputs: seq<TransactionOutput>, changeEventKey: EventKey, storageAccepts: bool)
    requires var r := ChunkResult(chunk, firstTransactionVersion, proofValid, ledgerInfo, synced, accounts,
                                  vmOutputs, changeEventKey, storageAccepts).0;
      !(r.Ok? && r.value.Saved?)
    ensures var (r, newSynced) := ChunkResult(chunk, firstTransactionVersion, proofValid, ledgerInfo, synced, accounts,
                                              vmOutputs, changeEventKey, storageAccepts);
      && newSynced == synced
      && (r == Ok(NothingToSave) ==> vmOutputs == [] && synced.NumLeaves() != ledgerInfo.version + 1)
  {
    var verified := VerifyChunk(|chunk|, firstTransactionVersion, proofValid, synced.NumLeaves());
    if verified.Ok? && forall i :: 0 <= i < |vmOutputs| ==> vmOutputs[i].status.Keep? {
      var (numToSkip, firstVersion) := verified.value;
      var transactions := Skip(chunk, numToSkip);
      var processed := ProcessVmOutputsResult(accounts, transactions, vmOutputs, synced, changeEventKey);
      if processed.Ok? {
        ChunkOutputFacts(accounts, transactions, vmOutputs, synced, changeEventKey);
        var res := SaveChunkResult(transactions, processed.value, firstVersion, ledgerInfo, synced, storageAccepts);
        assert ChunkResult(chunk, firstTransactionVersion, proofValid, ledgerInfo, synced, accounts,
                           vmOutputs, changeEventKey, storageAccepts) == res;
        SaveChunkSaved(transactions, processed.value, firstVersion, ledgerInfo, synced, storageAccepts);
      }
    }
  }

  /** A saved chunk passed verification, had no discarded output and was
      processed; its outcome is that of saving the processed outputs. */
  lemma ChunkSavedInversion(chunk: seq<Transaction>, firstTransactionVersion: Option<Version>, proofValid: bool,
                            ledgerInfo: LedgerInfo, synced: ExecutedTrees, accounts: AccountMap,
                            vmOutputs: seq<TransactionOutput>, changeEventKey: EventKey, storageAccepts: bool)
    requires ChunkResult(chunk, firstTransactionVersion, proofValid, ledgerInfo, synced, accounts,
                         vmOutputs, changeEventKey, storageAccepts).0.Ok?
    requires ChunkResult(chunk, firstTransactionVersion, proofValid, ledgerInfo, synced, accounts,
                         vmOutputs, changeEventKey, storageAccepts).0.value.Saved?
    ensures var verified := VerifyChunk(|chunk|, firstTransactionVersion, proofValid, synced.NumLeaves());
      && verified.Ok?
      && (forall i :: 0 <= i < |vmOutputs| ==> vmOutputs[i].status.Keep?)
      && var transactions := Skip(chunk, verified.value.0);
      && var processed := ProcessVmOutputsResult(accounts, transactions, vmOutputs, synced, changeEventKey);
      && processed.Ok?
      && ChunkResult(chunk, firstTransactionVersion, proofValid, ledgerInfo, synced, accounts,
                     vmOutputs, changeEventKey, storageAccepts) ==
         SaveChunkResult(transactions, processed.value, verified.value.1, ledgerInfo, synced, storageAccepts)
  {
  }

  /** A saved chunk: storage accepted it, every output was kept, the batch
      starts at the synced count and holds the tail of the chunk, one entry
      per output; the synced trees grow by exactly the batch, keeping their
      old leaves, and have a version; the batch carries the ledger info
      exactly when it ends at that version, and then the accumulator is the
      one the ledger info commits to; otherwise it is not empty. */
  lemma ChunkSavedBatch(chunk: seq<Transaction>, firstTransactionVersion: Option<Version>, proofValid: bool,
                        ledgerInfo: LedgerInfo, synced: ExecutedTrees, accounts: AccountMap,
                        vmOutputs: seq<TransactionOutput>, changeEventKey: EventKey, storageAccepts: bool)
    requires ChunkResult(chunk, firstTransactionVersion, proofValid, ledgerInfo, synced, accounts,
                         vmOutputs, changeEventKey, storageAccepts).0.Ok?
    requires ChunkResult(chunk, firstTransactionVersion, proofValid, ledgerInfo, synced, accounts,
                         vmOutputs, changeEventKey, storageAccepts).0.value.Saved?
    ensures var (r, newSynced) := ChunkResult(chunk, firstTransactionVersion, proofValid, ledgerInfo, synced, accounts,
                                              vmOutputs, changeEventKey, storageAccepts);
      var req := r.value.request;
      && storageAccepts
      && (forall i :: 0 <= i < |vmOutputs| ==> vmOutputs[i].status.Keep?)
      && req.firstVersion == synced.NumLeaves()
      && |req.txnsToCommit| == |vmOutputs| <= |chunk|
      && (forall i :: 0 <= i < |req.txnsToCommit| ==>
            req.txnsToCommit[i].transaction == chunk[|chunk| - |req.txnsToCommit| + i])
      && newSynced.NumLeaves() == synced.NumLeaves() + |req.txnsToCommit|
      && newSynced.transactionAccumulator[..synced.NumLeaves()] == synced.transactionAccumulator
      && (req.ledgerInfo.Some? <==> req.firstVersion + |req.txnsToCommit| == ledgerInfo.version + 1)
      && (req.ledgerInfo.Some? ==>
            req.ledgerInfo == Some(ledgerInfo) && ledgerInfo.transactionAccumulatorHash == newSynced.transactionAccumulator)
      && (req.ledgerInfo.None? ==> req.txnsToCommit != [])
      && req.firstVersion + |req.txnsToCommit| <= U64_MAX
      && newSynced.Version().Some?
  {
    ChunkSavedInversion(chunk, firstTransactionVersion, proofValid, ledgerInfo, synced, accounts,
                        vmOutputs, changeEventKey, storageAccepts);
    var (numToSkip, firstVersion) := VerifyChunk(|chunk|, firstTransactionVersion, proofValid, synced.NumLeaves()).value;
    var transactions := Skip(chunk, numToSkip);
    var output := ProcessVmOutputsResult(accounts, transactions, vmOutputs, synced, changeEventKey).value;
    ChunkOutputFacts(accounts, transactions, vmOutputs, synced, changeEventKey);
    var res := SaveChunkResult(transactions, output, firstVersion, ledgerInfo, synced, storageAccepts);
    assert ChunkResult(chunk, firstTransactionVersion, proofValid, ledgerInfo, synced, accounts,
                       vmOutputs, changeEventKey, storageAccepts) == res;
    SaveChunkSaved(transactions, output, firstVersion, ledgerInfo, synced, storageAccepts);
    var batch := res.0.value.request.txnsToCommit;
    forall i | 0 <= i < |batch| ensures batch[i].transaction == chunk[|chunk| - |batch| + i] {
      assert batch[i] == ToCommit(transactions[i], output.transactionData[i]);
    }
  }

  /** `execute_and_commit_chunk`. The chunk's transactions come with
      `proofValid`, the verdict of the proof check against the ledger info;
      `vmOutputs` is what the VM returns for the transactions left after
      skipping, `accounts` what they read, and `storageAccepts` whether
      `save_transactions` succeeds. Returns the outcome and the synced trees
      afterwards. */
  method ExecuteAndCommitChunk(chunk: seq<Transaction>, firstTransactionVersion: Option<Version>, proofValid: bool,
                               ledgerInfo: LedgerInfo, synced: ExecutedTrees, accounts: AccountMap,
                               vmOutputs: seq<TransactionOutput>, changeEventKey: EventKey, storageAccepts: bool)
      returns (r: Result<ChunkOutcome, ExecError>, newSynced: ExecutedTrees)
    ensures (r, newSynced) == ChunkResult(chunk, firstTransactionVersion, proofValid, ledgerInfo, synced, accounts,
                                          vmOutputs, changeEventKey, storageAccepts)
  {
    var verified := VerifyChunk(|chunk|, firstTransactionVersion, proofValid, synced.NumLeaves());
    if verified.Err? {
      return Err(verified.error), synced;
    }
    var (numToSkip, firstVersion) := verified.value;
    var transactions := Skip(chunk, numToSkip);
    var processed := ExecuteChunkOutputs(accounts, transactions, vmOutputs, synced, changeEventKey);
    if processed.Err? {
      return Err(processed.error), synced;
    }
    r, newSynced := SaveChunk(transactions, processed.value, firstVersion, ledgerInfo, synced, storageAccepts);
  }

  /** A chunk's save request passes the checks of `save_transactions` when
      storage computes the accumulator the executor computed. */
  lemma ChunkBatchAccepted(req: SaveRequest, ledgerInfo: LedgerInfo, computed: seq<TransactionInfo>)
    requires req.firstVersion + |req.txnsToCommit| <= U64_MAX
    requires req.ledgerInfo.Some? ==>
      && req.ledgerInfo == Some(ledgerInfo)
      && req.firstVersion + |req.txnsToCommit| == ledgerInfo.version + 1
      && ledgerInfo.transactionAccumulatorHash == computed
    requires req.ledgerInfo.None? ==> req.txnsToCommit != []
    ensures LibraDb.CheckSaveTransactions(|req.txnsToCommit|, req.firstVersion, req.ledgerInfo, computed).Ok?
  {
    LibraDb.SaveTransactionsAccepted(|req.txnsToCommit|, req.firstVersion, req.ledgerInfo, computed);
  }
}

/** The request checks and range arithmetic of the Libra database front end
    (`LibraDB`): how many items a read may ask for, how an event query in
    either direction becomes an ascending index range, how epoch-ending ledger
    infos are paged, how a transaction range is clamped to the ledger, and what
    `save_transactions` demands of a batch before it writes anything.

    The column-family stores behind the front end (ledger, transaction, event
    and state stores) are not part of this model; what the modelled code reads
    from them is passed in as plain values. */
module LibraDb {
  import opened Common
  import opened LibraTypes

  /** The largest number of items one read may ask for. */
  const MAX_LIMIT: U64 := 1000

  /** The largest number of epoch-ending ledger infos returned by one call. */
  const MAX_NUM_EPOCH_ENDING_LEDGER_INFO: U64 := 100

  datatype DbError =
    | TooManyRequested(numRequested: U64, maxAllowed: U64)
    | ZeroLimit
    | BadEpochRange
    | EpochStillOpen
    | MissingEpochEndingLedgerInfo
    | EmptyBatchWithoutLedgerInfo
    | BatchNotApplicable
    | RootHashMismatch
    | QueriedVersionTooNew
    | LedgerVersionTooNew
    | IndexBroken
    | NotFound
    /** An operation on `u64` whose exact result does not fit: a panic. */
    | PanicArithmeticOverflow

  // ---------------------------------------------------------------------------
  // Request limits

  function ErrorIfTooManyRequested(numRequested: U64, maxAllowed: U64): (r: Result<(), DbError>)
    ensures r.Ok? <==> numRequested <= maxAllowed
    ensures r.Err? ==> r.error == TooManyRequested(numRequested, maxAllowed)
  {
    if numRequested > maxAllowed then Err(TooManyRequested(numRequested, maxAllowed)) else Ok(())
  }

  /** Turns a query of `limit` items starting at `cursor`, going up or down,
      into the first sequence number and item count of one ascending range. */
  function GetFirstSeqNumAndLimit(ascending: bool, cursor: U64, limit: U64): (r: Result<(U64, U64), DbError>)
    ensures r.Err? <==> limit == 0
    ensures r.Err? ==> r.error == ZeroLimit
    ensures r.Ok? && ascending ==> r.value == (cursor, limit)
    ensures r.Ok? && !ascending ==>
      var (first, realLimit) := r.value;
      // The range ends exactly at the cursor ...
      && first + realLimit == cursor + 1
      // ... and holds the items asked for, or all of them down to 0.
      && 1 <= realLimit <= limit
      && (realLimit == limit || first == 0)
  {
    if limit == 0 then Err(ZeroLimit)
    else if ascending then Ok((cursor, limit))
    else if limit <= cursor then Ok((cursor - limit + 1, limit))
    else Ok((0, cursor + 1))
  }

  // ---------------------------------------------------------------------------
  // Epoch-ending ledger infos

  /** Which epochs one page covers: up to `limit` epochs from `startEpoch`, and
      whether epochs before `endEpoch` remain for a later page. */
  function EpochPage(startEpoch: U64, endEpoch: U64, limit: U64): (page: (U64, bool))
    requires startEpoch <= endEpoch
    ensures var (pagingEpoch, more) := page;
      && startEpoch <= pagingEpoch <= endEpoch
      && pagingEpoch - startEpoch <= limit
      && (more <==> pagingEpoch < endEpoch)
      && (!more ==> pagingEpoch == endEpoch)
      && (more ==> pagingEpoch - startEpoch == limit)
  {
    if endEpoch - startEpoch > limit then (startEpoch + limit, true) else (endEpoch, false)
  }

  /** What the ledger store's epoch-ending iterator yields for the epochs in
      `[lo, hi)`: the stored ledger info of each such epoch, in epoch order. */
  function StoredEpochEndings(store: map<U64, LedgerInfo>, lo: U64, hi: U64): (lis: seq<LedgerInfo>)
    decreases hi - lo
  {
    if hi <= lo then []
    else if lo in store then [store[lo]] + StoredEpochEndings(store, lo + 1, hi)
    else StoredEpochEndings(store, lo + 1, hi)
  }

  /** The iterator yields one ledger info per epoch exactly when none is
      missing, and then the i-th is that of epoch `lo + i`. */
  lemma {:induction false} StoredEpochEndingsComplete(store: map<U64, LedgerInfo>, lo: U64, hi: U64)
    requires lo <= hi
    ensures |StoredEpochEndings(store, lo, hi)| <= hi - lo
    ensures |StoredEpochEndings(store, lo, hi)| == hi - lo <==>
      forall e :: lo <= e < hi ==> e in store
    ensures |StoredEpochEndings(store, lo, hi)| == hi - lo ==>
      forall i :: 0 <= i < hi - lo ==> StoredEpochEndings(store, lo, hi)[i] == store[lo + i]
    decreases hi - lo
  {
    if lo < hi {
      StoredEpochEndingsComplete(store, lo + 1, hi);
      var rest := StoredEpochEndings(store, lo + 1, hi);
      if lo in store {
        assert StoredEpochEndings(store, lo, hi) == [store[lo]] + rest;
        if |rest| == hi - lo - 1 {
          forall i | 0 <= i < hi - lo
            ensures StoredEpochEndings(store, lo, hi)[i] == store[lo + i]
          {
            if i > 0 {
              assert StoredEpochEndings(store, lo, hi)[i] == rest[i - 1];
            }
          }
        }
      }
    }
  }

  /** `get_epoch_ending_ledger_infos_impl`: the ledger infos that end the
      epochs from `startEpoch` on, at most `limit` of them, and whether there
      are more. `latestEpoch` is the next-block epoch of the latest ledger
      info; `store` maps an epoch to the ledger info that ended it. */
  function GetEpochEndingLedgerInfos(startEpoch: U64, endEpoch: U64, limit: U64, latestEpoch: U64,
                                     store: map<U64, LedgerInfo>): (r: Result<(seq<LedgerInfo>, bool), DbError>)
    ensures startEpoch > endEpoch ==> r == Err(BadEpochRange)
    ensures startEpoch <= endEpoch && endEpoch > latestEpoch ==> r == Err(EpochStillOpen)
  {
    if startEpoch > endEpoch then Err(BadEpochRange)
    else if endEpoch > latestEpoch then Err(EpochStillOpen)
    else
      var (pagingEpoch, more) := EpochPage(startEpoch, endEpoch, limit);
      var lis := StoredEpochEndings(store, startEpoch, pagingEpoch);
      if |lis| != pagingEpoch - startEpoch then Err(MissingEpochEndingLedgerInfo)
      else Ok((lis, more))
  }

  /** A successful page holds the ledger info of every epoch from the start
      epoch on, one per epoch, at most `limit` of them; it stops before the end
      epoch exactly when it says there are more. A page fails as corrupt
      exactly when an epoch it covers has no stored ledger info. */
  lemma EpochEndingPage(startEpoch: U64, endEpoch: U64, limit: U64, latestEpoch: U64,
                        store: map<U64, LedgerInfo>)
    requires startEpoch <= endEpoch <= latestEpoch
    ensures var r := GetEpochEndingLedgerInfos(startEpoch, endEpoch, limit, latestEpoch, store);
      var (pagingEpoch, more) := EpochPage(startEpoch, endEpoch, limit);
      && (r.Ok? <==> forall e :: startEpoch <= e < pagingEpoch ==> e in store)
      && (r.Err? ==> r.error == MissingEpochEndingLedgerInfo)
      && (r.Ok? ==>
            var (lis, more') := r.value;
            && more' == more
            && |lis| == pagingEpoch - startEpoch <= limit
            && (more <==> startEpoch + |lis| < endEpoch)
            && forall i :: 0 <= i < |lis| ==> lis[i] == store[startEpoch + i])
  {
    var (pagingEpoch, more) := EpochPage(startEpoch, endEpoch, limit);
    StoredEpochEndingsComplete(store, startEpoch, pagingEpoch);
  }

  /** The public entry point pages by `MAX_NUM_EPOCH_ENDING_LEDGER_INFO`. */
  lemma EpochEndingPageBound(startEpoch: U64, endEpoch: U64, latestEpoch: U64, store: map<U64, LedgerInfo>)
    ensures var r := GetEpochEndingLedgerInfos(startEpoch, endEpoch, MAX_NUM_EPOCH_ENDING_LEDGER_INFO,
                                               latestEpoch, store);
      r.Ok? ==> |r.value.0| <= 100 && (r.value.1 ==> |r.value.0| == 100)
  {
    if startEpoch <= endEpoch <= latestEpoch {
      EpochEndingPage(startEpoch, endEpoch, MAX_NUM_EPOCH_ENDING_LEDGER_INFO, latestEpoch, store);
    }
  }

  // ---------------------------------------------------------------------------
  // Transaction ranges

  /** The transactions returned for a state-sync request. */
  datatype TransactionList = TransactionList(transactions: seq<Transaction>, firstTransactionVersion: Option<Version>)

  /** The clamp of `get_transactions`: `None` for the empty answer, otherwise
      the number of transactions to read from `startVersion` on. */
  function GetTransactionsLimit(startVersion: Version, limit: U64, ledgerVersion: Version): (r: Result<Option<U64>, DbError>)
  {
    if limit > MAX_LIMIT then Err(TooManyRequested(limit, MAX_LIMIT))
    else if startVersion > ledgerVersion || limit == 0 then Ok(None)
    else if ledgerVersion - startVersion + 1 > U64_MAX then Err(PanicArithmeticOverflow)
    else
      var clamped := Min(limit, ledgerVersion - startVersion + 1);
      if startVersion + clamped > U64_MAX then Err(PanicArithmeticOverflow)
      else Ok(Some(clamped))
  }

  /** The request is refused over `MAX_LIMIT`, answered empty past the ledger
      or for a zero limit, and otherwise covers as many of the requested
      versions as the ledger holds, never one past `ledgerVersion`. The `u64`
      arithmetic of the clamp overflows only on a ledger at version
      `u64::MAX`. */
  lemma GetTransactionsLimitRange(startVersion: Version, limit: U64, ledgerVersion: Version)
    ensures var r := GetTransactionsLimit(startVersion, limit, ledgerVersion);
      && (r == Err(TooManyRequested(limit, MAX_LIMIT)) <==> limit > MAX_LIMIT)
      && (r == Ok(None) <==> limit <= MAX_LIMIT && (startVersion > ledgerVersion || limit == 0))
      && (r == Err(PanicArithmeticOverflow) ==> ledgerVersion == U64_MAX)
      && (r.Ok? && r.value.Some? ==>
            var n := r.value.value;
            && 1 <= n <= limit
            && startVersion + n - 1 <= ledgerVersion
            && (n == limit || startVersion + n - 1 == ledgerVersion))
      && (limit <= MAX_LIMIT && 0 < limit && startVersion <= ledgerVersion < U64_MAX ==>
            r.Ok? && r.value.Some?)
  {
  }

  /** `get_transactions` over a transaction store that holds the transaction
      of version `v` at position `v`; a version past the end of `store` is
      not found. */
  function GetTransactions(startVersion: Version, limit: U64, ledgerVersion: Version,
                           store: seq<Transaction>): (r: Result<TransactionList, DbError>)
    ensures limit > MAX_LIMIT ==> r == Err(TooManyRequested(limit, MAX_LIMIT))
    ensures limit <= MAX_LIMIT && (startVersion > ledgerVersion || limit == 0) ==> r == Ok(TransactionList([], None))
    ensures limit <= MAX_LIMIT && 0 < limit && startVersion <= ledgerVersion < U64_MAX ==>
      var n := Min(limit, ledgerVersion - startVersion + 1);
      && (r.Ok? <==> startVersion + n <= |store|)
      && (r.Err? ==> r.error == NotFound)
      && (r.Ok? ==> |r.value.transactions| == n && r.value.firstTransactionVersion == Some(startVersion))
    ensures r.Ok? && r.value.firstTransactionVersion.None? ==> r.value.transactions == []
    ensures r.Ok? && r.value.firstTransactionVersion.Some? ==>
      && r.value.firstTransactionVersion.value == startVersion
      && 1 <= |r.value.transactions| <= limit
      && startVersion + |r.value.transactions| - 1 <= ledgerVersion
      && startVersion + |r.value.transactions| <= |store|
      && forall i :: 0 <= i < |r.value.transactions| ==> r.value.transactions[i] == store[startVersion + i]
  {
    GetTransactionsLimitRange(startVersion, limit, ledgerVersion);
    match GetTransactionsLimit(startVersion, limit, ledgerVersion)
    case Err(e) => Err(e)
    case Ok(None) => Ok(TransactionList([], None))
    case Ok(Some(n)) =>
      if startVersion + n > |store| then Err(NotFound)
      else Ok(TransactionList(store[startVersion..startVersion + n], Some(startVersion)))
  }

  // ---------------------------------------------------------------------------
  // Saving transactions

  /** The checks `save_transactions` makes of a batch of `numTxns` transactions
      starting at `firstVersion`, with the ledger info that may come with it.
      `computedRoot` is the transaction accumulator the store computes once the
      batch is written; the writes themselves are not part of this model. */
  function CheckSaveTransactions(numTxns: U64, firstVersion: Version, ledgerInfo: Option<LedgerInfo>,
                                 computedRoot: seq<TransactionInfo>): (r: Result<(), DbError>)
  {
    if ledgerInfo.None? && numTxns == 0 then Err(EmptyBatchWithoutLedgerInfo)
    else if ledgerInfo.Some? && ledgerInfo.value.version + 1 > U64_MAX then Err(PanicArithmeticOverflow)
    else if firstVersion + numTxns > U64_MAX then Err(PanicArithmeticOverflow)
    else if ledgerInfo.Some? && ledgerInfo.value.version + 1 != firstVersion + numTxns then Err(BatchNotApplicable)
    // `first_version + num_txns - 1` in `save_transactions_impl`: never below
    // zero once the checks above have passed.
    else if firstVersion + numTxns == 0 then Err(PanicArithmeticOverflow)
    else if ledgerInfo.Some? && computedRoot != ledgerInfo.value.transactionAccumulatorHash then Err(RootHashMismatch)
    else Ok(())
  }

  /** A batch is accepted exactly when it is not empty or comes with a ledger
      info, a ledger info names the batch's last version, the store's new
      accumulator is the one the ledger info commits to, and the versions fit
      in `u64`. An accepted batch has a last version, so computing it never
      wraps below zero. */
  lemma SaveTransactionsAccepted(numTxns: U64, firstVersion: Version, ledgerInfo: Option<LedgerInfo>,
                                 computedRoot: seq<TransactionInfo>)
    ensures var r := CheckSaveTransactions(numTxns, firstVersion, ledgerInfo, computedRoot);
      && (r.Ok? <==>
            && (ledgerInfo.Some? || numTxns > 0)
            && firstVersion + numTxns <= U64_MAX
            && (ledgerInfo.Some? ==>
                  && ledgerInfo.value.version + 1 == firstVersion + numTxns
                  && computedRoot == ledgerInfo.value.transactionAccumulatorHash))
      && (r.Ok? ==> firstVersion + numTxns >= 1)
      && (ledgerInfo.None? && numTxns == 0 ==> r == Err(EmptyBatchWithoutLedgerInfo))
  {
  }

  // ---------------------------------------------------------------------------
  // Account state reads

  /** The version checks of `get_account_state_with_proof`; `latestVersion`
      is the ledger's latest version. */
  function CheckAccountStateVersions(version: Version, ledgerVersion: Version, latestVersion: Version): (r: Result<(), DbError>)
    ensures r.Ok? <==> version <= ledgerVersion <= latestVersion
    ensures version > ledgerVersion ==> r == Err(QueriedVersionTooNew)
    ensures version <= ledgerVersion && ledgerVersion > latestVersion ==> r == Err(LedgerVersionTooNew)
  {
    if version > ledgerVersion then Err(QueriedVersionTooNew)
    else if ledgerVersion > latestVersion then Err(LedgerVersionTooNew)
    else Ok(())
  }

  // ---------------------------------------------------------------------------
  // Events by key

  /** One entry of the event-by-key index: the event with sequence number
      `seqNum` of the key sits at position `idx` of transaction `version`. */
  datatype EventIndexEntry = EventIndexEntry(seqNum: U64, version: Version, idx: U64)

  /** An event together with where it was emitted. Its proof is not part of
      this model. */
  datatype EventWithProof = EventWithProof(transactionVersion: Version, eventIndex: U64, event: ContractEvent)

  /** The index lookup: the entries with sequence numbers in
      `[firstSeq, firstSeq + limit)`, taken in index order. `index` holds the
      entries of the queried key that the ledger version can see. */
  function LookupEventsByKey(index: seq<EventIndexEntry>, firstSeq: U64, limit: U64): (keys: seq<EventIndexEntry>)
    ensures forall i :: 0 <= i < |keys| ==> keys[i] in index && firstSeq <= keys[i].seqNum < firstSeq + limit
    ensures |keys| <= |index|
  {
    if index == [] then []
    else
      var init := LookupEventsByKey(index[..|index| - 1], firstSeq, limit);
      var last := index[|index| - 1];
      init + (if firstSeq <= last.seqNum < firstSeq + limit then [last] else [])
  }

  /** The lookup misses no entry in range. */
  lemma {:induction false} LookupEventsByKeyComplete(index: seq<EventIndexEntry>, firstSeq: U64, limit: U64)
    ensures forall k :: 0 <= k < |index| && firstSeq <= index[k].seqNum < firstSeq + limit ==>
      index[k] in LookupEventsByKey(index, firstSeq, limit)
  {
    if index != [] {
      var init := index[..|index| - 1];
      LookupEventsByKeyComplete(init, firstSeq, limit);
      var last := index[|index| - 1];
      var initKeys := LookupEventsByKey(init, firstSeq, limit);
      var tail := if firstSeq <= last.seqNum < firstSeq + limit then [last] else [];
      assert LookupEventsByKey(index, firstSeq, limit) == initKeys + tail;
      forall k | 0 <= k < |init| && firstSeq <= index[k].seqNum < firstSeq + limit
        ensures index[k] in initKeys + tail
      {
        assert init[k] == index[k];
      }
    }
  }

  /** Entries in strictly increasing sequence-number order, as the event
      index of one key holds them. */
  ghost predicate SortedBySeqNum(entries: seq<EventIndexEntry>) {
    forall i, j :: 0 <= i < j < |entries| ==> entries[i].seqNum < entries[j].seqNum
  }

  /** A sorted index gives a sorted answer. */
  lemma {:induction false} LookupEventsByKeySorted(index: seq<EventIndexEntry>, firstSeq: U64, limit: U64)
    requires SortedBySeqNum(index)
    ensures SortedBySeqNum(LookupEventsByKey(index, firstSeq, limit))
  {
    if index != [] {
      var init := index[..|index| - 1];
      var last := index[|index| - 1];
      assert SortedBySeqNum(init) by {
        forall i, j | 0 <= i < j < |init| ensures init[i].seqNum < init[j].seqNum {
          assert init[i] == index[i] && init[j] == index[j];
        }
      }
      LookupEventsByKeySorted(init, firstSeq, limit);
      var initKeys := LookupEventsByKey(init, firstSeq, limit);
      forall i | 0 <= i < |initKeys| ensures initKeys[i].seqNum < last.seqNum {
        var k :| 0 <= k < |init| && init[k] == initKeys[i];
        assert index[k] == init[k];
      }
    }
  }

  /** The latest sequence number the index holds, if any. */
  function LatestSequenceNumber(index: seq<EventIndexEntry>): (latest: Option<U64>)
    ensures latest.None? <==> index == []
    ensures latest.Some? ==> latest.value == index[|index| - 1].seqNum
  {
    if index == [] then None else Some(index[|index| - 1].seqNum)
  }

  /** The event store read of each index entry and its consistency check,
      in order; `events` maps a version and position to the event there. */
  function FetchEvents(keys: seq<EventIndexEntry>, events: map<(Version, U64), ContractEvent>): (r: Result<seq<EventWithProof>, DbError>)
    ensures r.Ok? ==> |r.value| == |keys|
    ensures r.Ok? ==> forall i :: 0 <= i < |keys| ==>
      && (keys[i].version, keys[i].idx) in events
      && r.value[i] == EventWithProof(keys[i].version, keys[i].idx, events[(keys[i].version, keys[i].idx)])
      && r.value[i].event.sequenceNumber == keys[i].seqNum
  {
    if keys == [] then Ok([])
    else
      match FetchEvents(keys[..|keys| - 1], events)
      case Err(e) => Err(e)
      case Ok(init) =>
        var key := keys[|keys| - 1];
        if (key.version, key.idx) !in events then Err(NotFound)
        else
          var event := events[(key.version, key.idx)];
          if key.seqNum != event.sequenceNumber then Err(IndexBroken)
          else Ok(init + [EventWithProof(key.version, key.idx, event)])
  }

  /** The fetch succeeds exactly when every index entry's event is stored
      and carries the entry's sequence number; otherwise it fails with a
      missing event or a broken index. */
  lemma {:induction false} FetchEventsOkIff(keys: seq<EventIndexEntry>, events: map<(Version, U64), ContractEvent>)
    ensures FetchEvents(keys, events).Ok? <==>
      forall i :: 0 <= i < |keys| ==>
        && (keys[i].version, keys[i].idx) in events
        && events[(keys[i].version, keys[i].idx)].sequenceNumber == keys[i].seqNum
    ensures FetchEvents(keys, events).Err? ==> FetchEvents(keys, events).error in {NotFound, IndexBroken}
  {
    if keys != [] {
      FetchEventsOkIff(keys[..|keys| - 1], events);
    }
  }

  /** A failed read stops the whole fetch with its error. */
  lemma {:induction false} FetchEventsFailsEarly(keys: seq<EventIndexEntry>, events: map<(Version, U64), ContractEvent>, n: nat)
    requires n <= |keys| && FetchEvents(keys[..n], events).Err?
    ensures FetchEvents(keys, events) == FetchEvents(keys[..n], events)
  {
    if n < |keys| {
      var init := keys[..|keys| - 1];
      assert init[..n] == keys[..n];
      FetchEventsFailsEarly(init, events, n);
      assert keys[..|keys| - 1] == init;
    } else {
      assert keys[..n] == keys;
    }
  }

  /** The sequence number a query starts from: asking downwards from
      `u64::MAX` means from the latest event, or from 0 when there is none. */
  function QueryCursor(index: seq<EventIndexEntry>, startSeqNum: U64, ascending: bool): (cursor: U64)
    ensures ascending || startSeqNum != U64_MAX ==> cursor == startSeqNum
    ensures !ascending && startSeqNum == U64_MAX && index != [] ==> cursor == index[|index| - 1].seqNum
    ensures !ascending && startSeqNum == U64_MAX && index == [] ==> cursor == 0
  {
    if !ascending && startSeqNum == U64_MAX then
      match LatestSequenceNumber(index)
      case Some(latest) => latest
      case None => 0
    else startSeqNum
  }

  /** The index entries a query resolves to: empty when a downward query
      starts past the latest event. */
  function QueryKeys(index: seq<EventIndexEntry>, cursor: U64, ascending: bool, firstSeq: U64, realLimit: U64): (keys: seq<EventIndexEntry>)
  {
    var found := LookupEventsByKey(index, firstSeq, realLimit);
    if !ascending && found != [] && found[|found| - 1].seqNum < cursor then [] else found
  }

  /** What `get_events_by_event_key` answers, stated as one expression. */
  function EventsByKey(index: seq<EventIndexEntry>, events: map<(Version, U64), ContractEvent>,
                       startSeqNum: U64, ascending: bool, limit: U64): (r: Result<seq<EventWithProof>, DbError>)
  {
    if limit > MAX_LIMIT then Err(TooManyRequested(limit, MAX_LIMIT))
    else
      var cursor := QueryCursor(index, startSeqNum, ascending);
      match GetFirstSeqNumAndLimit(ascending, cursor, limit)
      case Err(e) => Err(e)
      case Ok((firstSeq, realLimit)) =>
        match FetchEvents(QueryKeys(index, cursor, ascending, firstSeq, realLimit), events)
        case Err(e) => Err(e)
        case Ok(found) => Ok(if ascending then found else Reversed(found))
  }

  /** Reverses `a` in place. */
  method ReverseInPlace<T>(a: array<T>)
    modifies a
    ensures a[..] == Reversed(old(a[..]))
  {
    var i, j := 0, a.Length - 1;
    while i < j
      invariant 0 <= i <= a.Length && j == a.Length - 1 - i
      invariant i <= j + 1
      invariant forall k :: 0 <= k < i ==> a[k] == old(a[a.Length - 1 - k])
      invariant forall k :: j < k < a.Length ==> a[k] == old(a[a.Length - 1 - k])
      invariant forall k :: i <= k <= j ==> a[k] == old(a[k])
    {
      a[i], a[j] := a[j], a[i];
      i, j := i + 1, j - 1;
    }
  }

  /** The event store read of each index entry, in index order, stopping at
      the first entry whose event is missing or carries another sequence
      number. */
  method ReadEvents(eventKeys: seq<EventIndexEntry>, events: map<(Version, U64), ContractEvent>)
      returns (r: Result<seq<EventWithProof>, DbError>)
    ensures r == FetchEvents(eventKeys, events)
  {
    var found: seq<EventWithProof> := [];
    for i := 0 to |eventKeys|
      invariant FetchEvents(eventKeys[..i], events) == Ok(found)
    {
      var key := eventKeys[i];
      assert eventKeys[..i + 1][..i] == eventKeys[..i];
      if (key.version, key.idx) !in events {
        FetchEventsFailsEarly(eventKeys, events, i + 1);
        return Err(NotFound);
      }
      var event := events[(key.version, key.idx)];
      if key.seqNum != event.sequenceNumber {
        FetchEventsFailsEarly(eventKeys, events, i + 1);
        return Err(IndexBroken);
      }
      found := found + [EventWithProof(key.version, key.idx, event)];
    }
    assert eventKeys[..|eventKeys|] == eventKeys;
    r := Ok(found);
  }

  /** `get_events_by_event_key`: up to `limit` events of one key, upwards from
      `startSeqNum` or downwards from it (from the latest event when it is
      `u64::MAX`), newest first when going down. */
  method GetEventsByEventKey(index: seq<EventIndexEntry>, events: map<(Version, U64), ContractEvent>,
                             startSeqNum: U64, ascending: bool, limit: U64)
      returns (r: Result<seq<EventWithProof>, DbError>)
    ensures r == EventsByKey(index, events, startSeqNum, ascending, limit)
  {
    var checked := ErrorIfTooManyRequested(limit, MAX_LIMIT);
    if checked.Err? {
      return Err(checked.error);
    }
    var cursor := QueryCursor(index, startSeqNum, ascending);
    var range := GetFirstSeqNumAndLimit(ascending, cursor, limit);
    if range.Err? {
      return Err(range.error);
    }
    var (firstSeq, realLimit) := range.value;
    var eventKeys := LookupEventsByKey(index, firstSeq, realLimit);
    if !ascending && eventKeys != [] && eventKeys[|eventKeys| - 1].seqNum < cursor {
      eventKeys := [];
    }
    assert eventKeys == QueryKeys(index, cursor, ascending, firstSeq, realLimit);
    var fetched := ReadEvents(eventKeys, events);
    if fetched.Err? {
      return Err(fetched.error);
    }
    var found := fetched.value;
    if !ascending {
      var a := new EventWithProof[|found|](k requires 0 <= k < |found| => found[k]);
      assert a[..] == found;
      ReverseInPlace(a);
      found := a[..];
    }
    r := Ok(found);
  }

  /** Upwards, the query is the fetch of the index range from the start
      number on. */
  lemma EventsByKeyAscending(index: seq<EventIndexEntry>, events: map<(Version, U64), ContractEvent>,
                             startSeqNum: U64, limit: U64)
    requires 0 < limit <= MAX_LIMIT
    ensures EventsByKey(index, events, startSeqNum, true, limit) ==
      FetchEvents(LookupEventsByKey(index, startSeqNum, limit), events)
  {
    assert QueryCursor(index, startSeqNum, true) == startSeqNum;
    assert GetFirstSeqNumAndLimit(true, startSeqNum, limit) == Ok((startSeqNum, limit));
    assert QueryKeys(index, startSeqNum, true, startSeqNum, limit) == LookupEventsByKey(index, startSeqNum, limit);
  }

  /** What a caller of the event query can rely on. Upwards, the answer is
      the events of the index entries from the cursor on, in index order.
      Downwards, the query succeeds exactly when the fetch of the range that
      ends at the cursor does, and then answers its events last one first;
      but when that range has an entry and the cursor lies past its latest
      entry the answer is empty. */
  lemma EventsByKeyDirections(index: seq<EventIndexEntry>, events: map<(Version, U64), ContractEvent>,
                              startSeqNum: U64, limit: U64)
    requires 0 < limit <= MAX_LIMIT
    ensures var up := EventsByKey(index, events, startSeqNum, true, limit);
      var keys := LookupEventsByKey(index, startSeqNum, limit);
      up.Ok? ==> (|up.value| == |keys| &&
        forall i :: 0 <= i < |keys| ==> (up.value[i].event.sequenceNumber == keys[i].seqNum &&
          startSeqNum <= keys[i].seqNum < startSeqNum + limit))
    ensures var down := EventsByKey(index, events, startSeqNum, false, limit);
      var cursor := QueryCursor(index, startSeqNum, false);
      var range := GetFirstSeqNumAndLimit(false, cursor, limit);
      && range.Ok?
      && var keys := LookupEventsByKey(index, range.value.0, range.value.1);
      && (keys != [] && keys[|keys| - 1].seqNum < cursor ==> down == Ok([]))
      && (!(keys != [] && keys[|keys| - 1].seqNum < cursor) ==>
            && (down.Ok? <==> FetchEvents(keys, events).Ok?)
            && (down.Ok? ==> down.value == Reversed(FetchEvents(keys, events).value)))
    ensures EventsByKey(index, events, startSeqNum, true, limit) ==
      FetchEvents(LookupEventsByKey(index, startSeqNum, limit), events)
  {
    EventsByKeyAscending(index, events, startSeqNum, limit);
    var cursor := QueryCursor(index, startSeqNum, false);
    var (firstSeq, realLimit) := GetFirstSeqNumAndLimit(false, cursor, limit).value;
    var keys := LookupEventsByKey(index, firstSeq, realLimit);
    if keys != [] && keys[|keys| - 1].seqNum < cursor {
      assert QueryKeys(index, cursor, false, firstSeq, realLimit) == [];
      assert FetchEvents([], events) == Ok([]);
    } else {
      assert QueryKeys(index, cursor, false, firstSeq, realLimit) == keys;
    }
  }

  /** An upward query within the limit succeeds exactly when every index
      entry in its range has its event stored under that entry's sequence
      number, and the answer is then those events in index order. */
  lemma EventsByKeyAscendingOkIff(index: seq<EventIndexEntry>, events: map<(Version, U64), ContractEvent>,
                                  startSeqNum: U64, limit: U64)
    requires 0 < limit <= MAX_LIMIT
    ensures var keys := LookupEventsByKey(index, startSeqNum, limit);
      && (EventsByKey(index, events, startSeqNum, true, limit).Ok? <==>
            forall i :: 0 <= i < |keys| ==>
              && (keys[i].version, keys[i].idx) in events
              && events[(keys[i].version, keys[i].idx)].sequenceNumber == keys[i].seqNum)
      && (EventsByKey(index, events, startSeqNum, true, limit).Ok? ==>
            forall i :: 0 <= i < |keys| ==>
              EventsByKey(index, events, startSeqNum, true, limit).value[i] ==
                EventWithProof(keys[i].version, keys[i].idx, events[(keys[i].version, keys[i].idx)]))
  {
    EventsByKeyAscending(index, events, startSeqNum, limit);
    FetchEventsOkIff(LookupEventsByKey(index, startSeqNum, limit), events);
  }

  /** A downward answer that is not empty starts at the cursor itself, and
      every event in it lies in the `limit` sequence numbers that end at the
      cursor. */
  lemma DescendingStartsAtCursor(index: seq<EventIndexEntry>, events: map<(Version, U64), ContractEvent>,
                                 startSeqNum: U64, limit: U64)
    requires 0 < limit <= MAX_LIMIT
    ensures var down := EventsByKey(index, events, startSeqNum, false, limit);
      var cursor := QueryCursor(index, startSeqNum, false);
      down.Ok? && down.value != [] ==>
        && down.value[0].event.sequenceNumber == cursor
        && forall i :: 0 <= i < |down.value| ==>
             cursor - limit < down.value[i].event.sequenceNumber <= cursor
  {
    var cursor := QueryCursor(index, startSeqNum, false);
    var range := GetFirstSeqNumAndLimit(false, cursor, limit);
    var (firstSeq, realLimit) := range.value;
    var keys := QueryKeys(index, cursor, false, firstSeq, realLimit);
    var down := EventsByKey(index, events, startSeqNum, false, limit);
    if down.Ok? && down.value != [] {
      var fetched := FetchEvents(keys, events).value;
      assert down.value == Reversed(fetched);
      var n := |keys|;
      assert keys[n - 1].seqNum >= cursor;
      assert down.value[0] == fetched[n - 1];
    }
  }
}

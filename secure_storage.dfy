/** The in-memory key-value backend of the secure storage service
    (`InMemoryStorage`): a map from key names to the stored value and the time
    it was last written, with `create`, `get`, `set` and `reset_and_clear`. */
module SecureStorage {
  import opened Common

  /** The kinds of value the secure store holds. Key material is kept as the
      bytes it consists of; the store never interprets them. */
  datatype Value =
    | Ed25519PrivateKey(keyBytes: Bytes)
    | HashValue(hash: Bytes)
    | U64Value(number: U64)

  /** What a read returns: the value and when it was last written (seconds). */
  datatype GetResponse = GetResponse(value: Value, lastUpdate: U64)

  datatype Error =
    | KeyAlreadyExists(key: string)
    | KeyNotSet(key: string)

  /** A store that keeps everything in one map and checks no permissions. The
      access policy given to `create` is ignored by the source and is not a
      parameter here; the clock that stamps a write is the parameter `now`. */
  class InMemoryStorage {
    var data: map<string, GetResponse>

    constructor ()
      ensures data == map[]
    {
      data := map[];
    }

    /** This backend is always reachable. */
    method Available() returns (available: bool)
      ensures available
    {
      available := true;
    }

    /** Adds a new key; an existing key is refused and left as it was. */
    method Create(key: string, value: Value, now: U64) returns (r: Result<(), Error>)
      modifies this
      ensures old(key in data) ==> r == Err(KeyAlreadyExists(key)) && data == old(data)
      ensures old(key !in data) ==> r == Ok(()) && data == old(data)[key := GetResponse(value, now)]
    {
      if key in data {
        return Err(KeyAlreadyExists(key));
      }
      data := data[key := GetResponse(value, now)];
      r := Ok(());
    }

    /** Reads a key without changing the store. */
    method Get(key: string) returns (r: Result<GetResponse, Error>)
      ensures key !in data ==> r == Err(KeyNotSet(key))
      ensures key in data ==> r.Ok? && r.value.value == data[key].value
      ensures key in data ==> r.Ok? && r.value.lastUpdate == data[key].lastUpdate
    {
      if key !in data {
        return Err(KeyNotSet(key));
      }
      var response := data[key];
      // The source rebuilds the value case by case (a copy); a copy is the same value.
      var value := match response.value
        case Ed25519PrivateKey(bytes) => Ed25519PrivateKey(bytes)
        case HashValue(hash) => HashValue(hash)
        case U64Value(n) => U64Value(n);
      r := Ok(GetResponse(value, response.lastUpdate));
    }

    /** Overwrites an existing key; a missing key is refused and not inserted. */
    method Set(key: string, value: Value, now: U64) returns (r: Result<(), Error>)
      modifies this
      ensures old(key !in data) ==> r == Err(KeyNotSet(key)) && data == old(data)
      ensures old(key in data) ==> r == Ok(()) && data == old(data)[key := GetResponse(value, now)]
    {
      if key !in data {
        return Err(KeyNotSet(key));
      }
      data := data[key := GetResponse(value, now)];
      r := Ok(());
    }

    /** Forgets every key. */
    method ResetAndClear() returns (r: Result<(), Error>)
      modifies this
      ensures r == Ok(()) && data == map[]
    {
      data := map[];
      r := Ok(());
    }
  }

  /** What a caller of the store can rely on: a created key reads back the value
      and time it was created with, a second create of it fails, and the key set
      grows by exactly that key. */
  method CreateThenGet(s: InMemoryStorage, key: string, value: Value, other: Value, now: U64, later: U64)
      returns (created: Result<(), Error>, fetched: Result<GetResponse, Error>, again: Result<(), Error>)
    requires key !in s.data
    modifies s
    ensures created == Ok(()) && again == Err(KeyAlreadyExists(key))
    ensures fetched == Ok(GetResponse(value, now))
    ensures s.data.Keys == old(s.data.Keys) + {key}
    ensures forall k :: k in old(s.data) ==> k in s.data && s.data[k] == old(s.data)[k]
  {
    created := s.Create(key, value, now);
    fetched := s.Get(key);
    again := s.Create(key, other, later);
  }

  /** `set` never adds a key: on a missing key it fails, and once the key exists
      a later read sees the newest value. */
  method SetThenGet(s: InMemoryStorage, key: string, value: Value, newer: Value, now: U64, later: U64)
      returns (refused: Result<(), Error>, updated: Result<(), Error>, fetched: Result<GetResponse, Error>)
    requires key !in s.data
    modifies s
    ensures refused == Err(KeyNotSet(key))
    ensures updated == Ok(()) && fetched == Ok(GetResponse(newer, later))
  {
    refused := s.Set(key, value, now);
    assert key !in s.data;
    var created := s.Create(key, value, now);
    updated := s.Set(key, newer, later);
    fetched := s.Get(key);
  }

  /** After `reset_and_clear` every read fails with `KeyNotSet`. */
  method ResetThenGet(s: InMemoryStorage, key: string) returns (fetched: Result<GetResponse, Error>)
    modifies s
    ensures s.data == map[] && fetched == Err(KeyNotSet(key))
  {
    var cleared := s.ResetAndClear();
    fetched := s.Get(key);
  }
}

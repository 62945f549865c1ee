/**
 The in-memory key-value store behind the `DB` interface (Get, GetAll, Upsert,
 Delete). The Go type guards a mutable map with a reader/writer lock; here every
 operation is atomic and takes the store as a value and returns the new one.
 */
module KvStore {
  import opened Results

  /** The contents of the store: key to value, last write wins. */
  type Store = map<string, string>

  /** The two errors the store can report.
      `NoSuchKey` is the package-level sentinel that `Get` returns.
      `KeyNotFound` stands for the error `Delete` builds with `errors.New`
      on every call: a fresh value, never identical to the sentinel. */
  datatype DbError = NoSuchKey | KeyNotFound

  /** The text each error carries. */
  function Message(e: DbError): string
  {
    match e
    case NoSuchKey => "no such key"
    case KeyNotFound => "key not found"
  }

  /** `errors.Is(e, target)` for unwrapped errors: identity of the error value. */
  predicate ErrorsIs(e: DbError, target: DbError)
  {
    e == target
  }

  /** The effect of a mutating call: the store afterwards and the error returned, if any. */
  datatype Update = Update(store: Store, err: Option<DbError>)

  /** `NewInMemoryDB`: an empty store; construction cannot fail. */
  function NewInMemoryDB(): (r: Result<Store, DbError>)
    ensures r.Success?
    ensures forall k :: Get(r.value, k) == Failure(NoSuchKey)
  {
    Success(map[])
  }

  /** `GetAll`: a snapshot of every entry. The snapshot is a value, so later
      changes to it cannot reach the store. */
  function GetAll(s: Store): (r: Result<Store, DbError>)
    ensures r.Success?
    ensures r.value.Keys == s.Keys
    ensures forall k :: k in r.value ==> Get(s, k) == Success(r.value[k])
  {
    Success(map k | k in s :: s[k])
  }

  /** The entry-by-entry copy loop of `GetAll`, visiting keys in an arbitrary order
      as Go's map iteration does; the copy ends up equal to the store. */
  method CopyStore(s: Store) returns (c: Store)
    ensures c == s
  {
    c := map[];
    var pending := s.Keys;
    while pending != {}
      invariant pending <= s.Keys
      invariant c.Keys == s.Keys - pending
      invariant forall k :: k in c ==> c[k] == s[k]
      decreases pending
    {
      var k :| k in pending;
      c := c[k := s[k]];
      pending := pending - {k};
    }
  }

  /** `Get`: the stored value, or the sentinel `NoSuchKey` when the key is absent. */
  function Get(s: Store, key: string): (r: Result<string, DbError>)
    ensures r.Success? <==> key in s
    ensures r.Success? ==> r.value == s[key]
    ensures r.Failure? ==> ErrorsIs(r.error, NoSuchKey)
  {
    if key in s then Success(s[key]) else Failure(NoSuchKey)
  }

  /** `Upsert`: inserts or overwrites the key and never fails; other keys keep their values. */
  function Upsert(s: Store, key: string, value: string): (u: Update)
    ensures u.err == None
    ensures u.store.Keys == s.Keys + {key}
    ensures Get(u.store, key) == Success(value)
    ensures forall k :: k != key ==> Get(u.store, k) == Get(s, k)
  {
    Update(s[key := value], None)
  }

  /** `Delete`: removes a present key; for an absent key it fails with the
      fresh "key not found" error and leaves the store as it was. */
  function Delete(s: Store, key: string): (u: Update)
    ensures u.err.Some? <==> key !in s
    ensures u.err.Some? ==> u.err.value == KeyNotFound && u.store == s
    ensures u.err.None? ==> u.store.Keys == s.Keys - {key}
    ensures forall k :: k != key ==> Get(u.store, k) == Get(s, k)
    ensures Get(u.store, key) == Failure(NoSuchKey)
  {
    if key !in s then Update(s, Some(KeyNotFound))
    else Update(s - {key}, None)
  }

  /** The error `Delete` reports for a missing key is neither the sentinel nor
      carries its text, so a sentinel comparison never recognises it. */
  lemma DeleteErrorIsNotSentinel(s: Store, key: string)
    requires key !in s
    ensures Delete(s, key).err.Some?
    ensures !ErrorsIs(Delete(s, key).err.value, NoSuchKey)
    ensures Message(Delete(s, key).err.value) == "key not found"
    ensures Message(Delete(s, key).err.value) != Message(NoSuchKey)
  {
  }

  /** Two writes to one key: the second one is what `Get` sees. */
  lemma UpsertLastWriteWins(s: Store, key: string, first: string, second: string)
    ensures Get(Upsert(Upsert(s, key, first).store, key, second).store, key) == Success(second)
  {
  }

  /** Insert, delete, delete again: the first delete succeeds, the second fails
      with "key not found", and a `Get` afterwards fails with the sentinel. */
  lemma DeleteThenDeleteAgain(s: Store, key: string, value: string)
    ensures var s1 := Upsert(s, key, value).store;
            var d1 := Delete(s1, key);
            var d2 := Delete(d1.store, key);
            && d1.err == None
            && d2.err == Some(KeyNotFound)
            && Message(d2.err.value) == "key not found"
            && Get(d2.store, key) == Failure(NoSuchKey)
  {
  }
}

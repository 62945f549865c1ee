/**
 The HTTP handlers reduced to what they do to the store and the transaction log.
 Each request is one atomic step over (store, submitted events) that yields an
 abstract response status. Transport details (routing, status-code writing, body
 formatting) are not modelled; a response carries only its status and the data
 the handler looked up.
 */
module Handler {
  import opened Results
  import opened KvStore
  import opened Events

  /** What `io.ReadAll` produced for a request body: all of it, or the bytes read
      before a read error. */
  datatype Body = Complete(data: string) | Truncated(data: string)

  datatype Request =
    | GetRequest(key: string)
    | GetAllRequest
    | UpsertRequest(key: string, body: Body)
    | DeleteRequest(key: string)

  datatype Status = Ok | NotFound | InternalError

  /** The data a successful read looked up: one value, or a snapshot of every entry. */
  datatype Payload = NoPayload | Value(v: string) | Entries(m: Store)

  datatype Reply = Reply(status: Status, payload: Payload)

  /** The store and the events submitted to the transaction logger so far,
      in submission order (not yet numbered). */
  datatype State = State(store: Store, log: seq<Event>)

  datatype Outcome = Outcome(state: State, reply: Reply)

  /** How a handler decides that a store error means "not found".
      `SentinelOnly` is the comparison against `ErrorNoSuchKey` the handlers make;
      `AnyMissingKey` also recognises the error `Delete` returns for a missing key.
      It has no literal Go counterpart: in Go, two `errors.New("key not found")`
      results are never `errors.Is`-equal, so the corresponding fix would have
      `Delete` return one shared sentinel that the handler compares against. */
  datatype ErrorCheck = SentinelOnly | AnyMissingKey

  predicate IsNotFound(check: ErrorCheck, e: DbError)
  {
    match check
    case SentinelOnly => ErrorsIs(e, NoSuchKey)
    case AnyMissingKey => ErrorsIs(e, NoSuchKey) || ErrorsIs(e, KeyNotFound)
  }

  function ErrorStatus(check: ErrorCheck, e: DbError): Status
  {
    if IsNotFound(check, e) then NotFound else InternalError
  }

  /** The handler's starting point: a fresh store and nothing logged. */
  function Start(): (st: State)
    ensures forall k :: Get(st.store, k).Failure?
    ensures st.log == []
  {
    State(NewInMemoryDB().value, [])
  }

  /** `GetHandler`: reads one key; changes nothing. */
  function HandleGet(st: State, key: string, check: ErrorCheck): (o: Outcome)
    ensures o.state == st
    ensures o.reply.status == NotFound <==> key !in st.store
    ensures key in st.store ==> o.reply == Reply(Ok, Value(st.store[key]))
  {
    match Get(st.store, key)
    case Success(v) => Outcome(st, Reply(Ok, Value(v)))
    case Failure(e) => Outcome(st, Reply(ErrorStatus(check, e), NoPayload))
  }

  /** `GetAllHandler`: prints a snapshot of the whole store; changes nothing. */
  function HandleGetAll(st: State): (o: Outcome)
    ensures o.state == st
    ensures o.reply.status == Ok && o.reply.payload.Entries?
    ensures o.reply.payload.m.Keys == st.store.Keys
    ensures forall k :: k in st.store ==> o.reply.payload.m[k] == st.store[k]
  {
    match GetAll(st.store)
    case Success(m) => Outcome(st, Reply(Ok, Entries(m)))
    case Failure(_) => Outcome(st, Reply(InternalError, NoPayload))
  }

  /** `UpsertHandler`: the store is upserted with whatever body was read, even when
      reading failed; only a completely read body is submitted as a Put. */
  function HandleUpsert(st: State, key: string, body: Body): (o: Outcome)
    ensures Get(o.state.store, key) == Success(body.data)
    ensures forall k :: k != key ==> Get(o.state.store, k) == Get(st.store, k)
    ensures body.Complete? ==> o.state.log == st.log + [WritePut(key, body.data)] && o.reply.status == Ok
    ensures body.Truncated? ==> o.state.log == st.log && o.reply.status == InternalError
  {
    var u := Upsert(st.store, key, body.data);
    match body
    case Truncated(_) => Outcome(State(u.store, st.log), Reply(InternalError, NoPayload))
    case Complete(v) => Outcome(State(u.store, st.log + [WritePut(key, v)]), Reply(Ok, NoPayload))
  }

  /** `DeleteHandler`: a present key is removed and a Delete is submitted; a failed
      delete submits nothing and its status is decided by the error check. */
  function HandleDelete(st: State, key: string, check: ErrorCheck): (o: Outcome)
    ensures key in st.store ==> o.reply.status == Ok && o.state.log == st.log + [WriteDelete(key)]
    ensures key in st.store ==> o.state.store.Keys == st.store.Keys - {key}
    ensures forall k :: k != key ==> Get(o.state.store, k) == Get(st.store, k)
    ensures key !in st.store ==> o.state == st && o.reply.status != Ok
  {
    var u := Delete(st.store, key);
    match u.err
    case Some(e) => Outcome(st, Reply(ErrorStatus(check, e), NoPayload))
    case None => Outcome(State(u.store, st.log + [WriteDelete(key)]), Reply(Ok, NoPayload))
  }

  /** As written, deleting a missing key answers InternalError: the store's error is
      never the sentinel, so the not-found branch of the delete handler is dead. */
  lemma DeleteMissingIsInternalError(st: State, key: string)
    requires key !in st.store
    ensures HandleDelete(st, key, SentinelOnly).reply.status == InternalError
    ensures forall k :: HandleDelete(st, k, SentinelOnly).reply.status != NotFound
  {
  }

  /** With the check that recognises the store's own error, deleting a missing key
      answers NotFound, as reading a missing key does. */
  lemma DeleteMissingIsNotFoundIntended(st: State, key: string)
    requires key !in st.store
    ensures HandleDelete(st, key, AnyMissingKey).reply.status == NotFound
    ensures HandleGet(st, key, AnyMissingKey).reply.status == NotFound
  {
  }

  predicate IsMutation(req: Request)
  {
    req.UpsertRequest? || req.DeleteRequest?
  }

  /** One request. Reads never change anything; a mutation submits exactly one
      event when it answers Ok and none otherwise, and never rewrites earlier ones. */
  function Step(st: State, req: Request, check: ErrorCheck): (o: Outcome)
    ensures !IsMutation(req) ==> o.state == st
    ensures st.log <= o.state.log
    ensures |o.state.log| == |st.log| + (if IsMutation(req) && o.reply.status == Ok then 1 else 0)
    ensures req.DeleteRequest? && o.reply.status != Ok ==> o.state == st
  {
    match req
    case GetRequest(key) => HandleGet(st, key, check)
    case GetAllRequest => HandleGetAll(st)
    case UpsertRequest(key, body) => HandleUpsert(st, key, body)
    case DeleteRequest(key) => HandleDelete(st, key, check)
  }

  /** Requests served one after another. */
  function Run(st: State, reqs: seq<Request>, check: ErrorCheck): State
    decreases |reqs|
  {
    if |reqs| == 0 then st else Run(Step(st, reqs[0], check).state, reqs[1..], check)
  }

  /** Replaying the submitted events onto an empty store rebuilds the store. */
  predicate Consistent(st: State)
  {
    ReplayDefined(map[], st.log) && Replay(map[], st.log) == st.store
  }

  predicate BodyReadSucceeds(req: Request)
  {
    req.UpsertRequest? ==> req.body.Complete?
  }

  /** A request whose body (if any) was read completely keeps the log in step with the store. */
  lemma StepKeepsConsistent(st: State, req: Request, check: ErrorCheck)
    requires Consistent(st)
    requires BodyReadSucceeds(req)
    ensures Consistent(Step(st, req, check).state)
  {
    var o := Step(st, req, check);
    match req
    case GetRequest(_) =>
    case GetAllRequest =>
    case UpsertRequest(key, body) =>
      ReplayAppend(map[], st.log, WritePut(key, body.data));
    case DeleteRequest(key) =>
      if key in st.store {
        ReplayAppend(map[], st.log, WriteDelete(key));
      }
  }

  /** When every body read succeeds, any run of requests from the start leaves a
      log whose replay onto an empty store reproduces the store. */
  lemma {:induction false} RunKeepsConsistent(st: State, reqs: seq<Request>, check: ErrorCheck)
    requires Consistent(st)
    requires forall i :: 0 <= i < |reqs| ==> BodyReadSucceeds(reqs[i])
    ensures Consistent(Run(st, reqs, check))
    decreases |reqs|
  {
    if |reqs| > 0 {
      StepKeepsConsistent(st, reqs[0], check);
      RunKeepsConsistent(Step(st, reqs[0], check).state, reqs[1..], check);
    }
  }

  /** The recovery guarantee: numbering the submitted events as the writer does
      and replaying them onto an empty store yields the live store. */
  lemma ReplayReproducesStore(reqs: seq<Request>, check: ErrorCheck)
    requires forall i :: 0 <= i < |reqs| ==> BodyReadSucceeds(reqs[i])
    ensures var st := Run(Start(), reqs, check);
            ReplayDefined(map[], Sequence(st.log, 0)) && Replay(map[], Sequence(st.log, 0)) == st.store
  {
    assert Start().store == map[];
    RunKeepsConsistent(Start(), reqs, check);
    var st := Run(Start(), reqs, check);
    ReplayIgnoresSequence(map[], st.log, 0);
  }

  /** A failed body read upserts without logging: afterwards the log still rebuilds
      the old store, so the two agree exactly when the key already held what was read. */
  lemma TruncatedUpsertDiverges(st: State, key: string, partial: string, check: ErrorCheck)
    requires Consistent(st)
    ensures var st' := Step(st, UpsertRequest(key, Truncated(partial)), check).state;
            Replay(map[], st'.log) == st.store
            && (Consistent(st') <==> key in st.store && st.store[key] == partial)
  {
    var st' := Step(st, UpsertRequest(key, Truncated(partial)), check).state;
    assert st'.store == st.store[key := partial];
    if key in st.store && st.store[key] == partial {
      assert st'.store == st.store;
    } else {
      assert Get(st'.store, key) == Success(partial);
    }
  }

  /** A concrete divergence: from the start, an upsert whose body read fails leaves
      a key in the store that replaying the (empty) log does not produce. */
  lemma TruncatedUpsertFromStart()
    ensures var st := Step(Start(), UpsertRequest("k", Truncated("")), SentinelOnly).state;
            "k" in st.store && st.log == [] && !Consistent(st)
  {
    TruncatedUpsertDiverges(Start(), "k", "", SentinelOnly);
  }
}

/** A mutation batch behind its receipt: the key is looked up first, the batch runs, and its effect is committed together
    with the receipt and, when it may have created options, the permanent guard. */
module MutationReceipts {
  import opened Results
  import opened Schema
  import opened Commands
  import opened ChoiceOptions
  import opened Mutations
  import opened Receipts

  type Response = seq<CommandResult>

  datatype Call =
    | Submit(key: Key, hash: string, table: string, commands: seq<Command>, now: int)
    | Reap(removed: set<Key>)

  datatype Reply = Done(response: Response) | Refused(failure: Mutations.Failure) | Reused | Gone

  /** What the batch would do to the table. */
  function Business(env: Environment, s: State, c: Call): Result<Batched, Mutations.Failure>
    requires c.Submit?
  {
    Mutated(env, s, c.table, c.commands, c.now)
  }

  /** The call as the ledger sees it. Only batches with choices are guarded. */
  function EventOf(env: Environment, s: State, c: Call): Event<Response> {
    match c
    case Submit(key, hash, _, commands, now) =>
      Request(key, hash, HasChoices(commands),
              match Business(env, s, c) case Ok(done) => Some(done.1) case Err(_) => None, now)
    case Reap(removed) => Receipts.Cleaned(removed)
  }

  datatype Server = Server(state: State, ledger: Ledger<Response>)

  function Verdicts(env: Environment, w: Server, c: Call): Verdict<Response> {
    Judge(w.ledger, EventOf(env, w.state, c))
  }

  /** State and ledger change together, and only when the request commits. */
  function Served(env: Environment, w: Server, c: Call): Server {
    Server(if c.Submit? && Verdicts(env, w, c).Committed? && Business(env, w.state, c).Ok? then Business(env, w.state, c).value.0
           else w.state,
           Receipts.Next(w.ledger, EventOf(env, w.state, c)))
  }

  function ReplyOf(env: Environment, w: Server, c: Call): Reply
    requires c.Submit?
  {
    match Verdicts(env, w, c)
    case Committed(response) => Done(response)
    case Answered(Stored(response)) => Done(response)
    case Answered(KeyReused) => Reused
    case Answered(_) => Gone
    case _ => match Business(env, w.state, c) case Err(e) => Refused(e) case Ok(done) => Done(done.1)
  }

  class MutationService {
    const store: RecordStore
    const ledger: ReceiptStore<Response>

    function Contents(): Server
      reads store, ledger
    {
      Server(store.state, ledger.Contents())
    }

    constructor (store: RecordStore)
      ensures this.store == store && fresh(ledger) && Contents() == Server(store.state, Ledger(map[], map[]))
    {
      this.store := store;
      ledger := new ReceiptStore<Response>();
    }

    /** Replay, batch, guard and receipt. */
    method MutateRecords(key: Key, hash: string, table: string, commands: seq<Command>, now: int) returns (reply: Reply)
      modifies store, ledger
      ensures var call := Submit(key, hash, table, commands, now);
              Contents() == Served(store.env, old(Contents()), call) && reply == ReplyOf(store.env, old(Contents()), call)
    {
      var found := ledger.ReplayIdempotent(key, hash);
      match found {
        case Stored(response) => return Done(response);
        case KeyReused => return Reused;
        case ReceiptExpired => return Gone;
        case Unseen =>
      }
      var guarded := AnyChoices(commands);
      var outcome := store.MutateRecords(table, commands, now);
      if outcome.Err? {
        return Refused(outcome.error);
      }
      ledger.Save(key, hash, guarded, outcome.value, now);
      return Done(outcome.value);
    }
  }

  // ----- runs -----

  function After(env: Environment, start: State, calls: seq<Call>): Server {
    if calls == [] then Server(start, Ledger(map[], map[]))
    else Served(env, After(env, start, calls[..|calls| - 1]), calls[|calls| - 1])
  }

  /** The run as the ledger sees it. */
  function EventsOf(env: Environment, start: State, calls: seq<Call>): (r: seq<Event<Response>>)
    ensures |r| == |calls|
  {
    if calls == [] then []
    else
      var front := calls[..|calls| - 1];
      EventsOf(env, start, front) + [EventOf(env, After(env, start, front).state, calls[|calls| - 1])]
  }

  lemma {:induction false} EventAt(env: Environment, start: State, calls: seq<Call>, i: nat)
    requires i < |calls|
    ensures EventsOf(env, start, calls)[i] == EventOf(env, After(env, start, calls[..i]).state, calls[i])
    ensures EventsOf(env, start, calls[..i]) == EventsOf(env, start, calls)[..i]
  {
    var front := calls[..|calls| - 1];
    if i < |front| {
      EventAt(env, start, front, i);
      assert front[..i] == calls[..i];
    }
  }

  lemma {:induction false} LedgerAfter(env: Environment, start: State, calls: seq<Call>)
    ensures After(env, start, calls).ledger == Before(EventsOf(env, start, calls), |calls|)
  {
    if calls != [] {
      var front := calls[..|calls| - 1];
      LedgerAfter(env, start, front);
      BeforeByPrefix(EventsOf(env, start, front), EventsOf(env, start, calls), |front|);
    }
  }

  lemma VerdictIs(env: Environment, start: State, calls: seq<Call>, i: nat)
    requires i < |calls|
    ensures VerdictAt(EventsOf(env, start, calls), i) == Verdicts(env, After(env, start, calls[..i]), calls[i])
    ensures EventsOf(env, start, calls)[i] == EventOf(env, After(env, start, calls[..i]).state, calls[i])
  {
    EventAt(env, start, calls, i);
    LedgerAfter(env, start, calls[..i]);
    BeforeByPrefix(EventsOf(env, start, calls[..i]), EventsOf(env, start, calls), i);
  }

  /** Main result: once a batch with choices has committed, its key never changes anything again. Whatever ran in
      between, a repetition gets the identical stored results or is told the receipt is gone, and another request under
      the same key is refused. */
  lemma ChoicesOnce(env: Environment, start: State, calls: seq<Call>, i: nat, j: nat)
    requires i < j < |calls| && calls[i].Submit? && calls[j].Submit? && calls[j].key == calls[i].key
    requires HasChoices(calls[i].commands) && Verdicts(env, After(env, start, calls[..i]), calls[i]).Committed?
    ensures var first, later := After(env, start, calls[..i]), After(env, start, calls[..j]);
            && Served(env, later, calls[j]) == later
            && ReplyOf(env, later, calls[j]) in
                 if calls[j].hash == calls[i].hash then {ReplyOf(env, first, calls[i]), Gone} else {Reused}
  {
    VerdictIs(env, start, calls, i);
    VerdictIs(env, start, calls, j);
    GuardedExactlyOnce(EventsOf(env, start, calls), i, j);
  }

  ghost predicate ReapedBetween(calls: seq<Call>, i: nat, j: nat, key: Key)
    requires j <= |calls|
  {
    exists k | i < k < j && calls[k].Reap? :: key in calls[k].removed
  }

  lemma ReapsAreRemovals(env: Environment, start: State, calls: seq<Call>, i: nat, j: nat)
    requires i < j < |calls| && calls[i].Submit?
    ensures EventsOf(env, start, calls)[i].Request? && EventsOf(env, start, calls)[i].key == calls[i].key
    ensures RemovedBetween(EventsOf(env, start, calls), i, j) <==> ReapedBetween(calls, i, j, calls[i].key)
  {
    var events := EventsOf(env, start, calls);
    VerdictIs(env, start, calls, i);
    if RemovedBetween(events, i, j) {
      var k :| i < k < j && events[k].Cleaned? && events[i].key in events[k].removed;
      VerdictIs(env, start, calls, k);
      assert calls[k].Reap?;
    }
    if ReapedBetween(calls, i, j, calls[i].key) {
      var k :| i < k < j && calls[k].Reap? && calls[i].key in calls[k].removed;
      VerdictIs(env, start, calls, k);
      assert events[k].Cleaned?;
    }
  }

  /** A batch without choices is repeated exactly when cleanup has removed its receipt; until then it is answered from
      the receipt and changes nothing. */
  lemma PlainRepeats(env: Environment, start: State, calls: seq<Call>, i: nat, j: nat)
    requires i < j < |calls| && calls[i].Submit? && calls[j].Submit? && calls[j].key == calls[i].key
    requires !HasChoices(calls[i].commands) && Verdicts(env, After(env, start, calls[..i]), calls[i]).Committed?
    requires EventsOf(env, start, calls)[i].Request? && OnlyCommit(EventsOf(env, start, calls), i, j)
    requires Business(env, After(env, start, calls[..j]).state, calls[j]).Ok?
    ensures Verdicts(env, After(env, start, calls[..j]), calls[j]).Committed? <==> ReapedBetween(calls, i, j, calls[i].key)
    ensures !ReapedBetween(calls, i, j, calls[i].key) ==>
              Served(env, After(env, start, calls[..j]), calls[j]) == After(env, start, calls[..j])
  {
    VerdictIs(env, start, calls, i);
    VerdictIs(env, start, calls, j);
    UnguardedExact(EventsOf(env, start, calls), i, j);
    ReapsAreRemovals(env, start, calls, i, j);
  }
}

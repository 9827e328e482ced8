/** Idempotency receipts, which retention may delete, and identity guards, which nothing deletes. */
module Receipts {
  import opened Results

  /** Keys are unique per actor. */
  datatype Key = Key(actor: string, mutation: string)

  datatype Receipt<+R> = Receipt(hash: string, response: R, createdAt: int)

  datatype Ledger<+R> = Ledger(receipts: map<Key, Receipt<R>>, guards: map<Key, string>)

  /** What a request with a known or unknown key is told before any work is done. */
  datatype Replay<+R> = Unseen | Stored(response: R) | KeyReused | ReceiptExpired

  function Replayed<R>(l: Ledger<R>, key: Key, hash: string): Replay<R> {
    if key in l.receipts then
      if l.receipts[key].hash == hash then Stored(l.receipts[key].response) else KeyReused
    else if key in l.guards then
      if l.guards[key] == hash then ReceiptExpired else KeyReused
    else Unseen
  }

  /** Committing records the receipt and, for guarded operations, the permanent identity. */
  function Recorded<R>(l: Ledger<R>, key: Key, hash: string, guarded: bool, response: R, now: int): Ledger<R> {
    Ledger(l.receipts[key := Receipt(hash, response, now)], if guarded then l.guards[key := hash] else l.guards)
  }

  class ReceiptStore<R(==)> {
    var receipts: map<Key, Receipt<R>>
    var guards: map<Key, string>

    function Contents(): Ledger<R>
      reads this
    {
      Ledger(receipts, guards)
    }

    constructor ()
      ensures Contents() == Ledger(map[], map[])
    {
      receipts, guards := map[], map[];
    }

    method ReplayIdempotent(key: Key, hash: string) returns (found: Replay<R>)
      ensures found == Replayed(Contents(), key, hash)
    {
      if key !in receipts {
        if key !in guards {
          return Unseen;
        }
        if guards[key] != hash {
          return KeyReused;
        }
        return ReceiptExpired;
      }
      if receipts[key].hash != hash {
        return KeyReused;
      }
      return Stored(receipts[key].response);
    }

    /** The two inserts of a commit. Both tables have (actor, key) as primary key, hence the precondition. */
    method Save(key: Key, hash: string, guarded: bool, response: R, now: int)
      requires key !in receipts && (guarded ==> key !in guards)
      modifies this
      ensures Contents() == Recorded(old(Contents()), key, hash, guarded, response, now)
    {
      if guarded {
        guards := guards[key := hash];
      }
      receipts := receipts[key := Receipt(hash, response, now)];
    }

    /** Batches of at most `size` expired receipts are deleted; guards are out of reach. */
    method Cleanup(cutoffs: seq<int>, size: nat, ghost latest: int) returns (total: nat)
      requires forall c | c in cutoffs :: c <= latest
      modifies this`receipts
      ensures Reaped(old(receipts), receipts, latest)
      ensures total == |old(receipts)| - |receipts|
    {
      total := 0;
      var batch := 0;
      while batch < |cutoffs|
        invariant 0 <= batch <= |cutoffs|
        invariant Reaped(old(receipts), receipts, latest) && total == |old(receipts)| - |receipts|
      {
        assert cutoffs[batch] in cutoffs;
        var left, deleted := DeleteExpired(receipts, cutoffs[batch], size);
        ReapedTwice(old(receipts), receipts, left, cutoffs[batch], latest);
        receipts := left;
        total := total + deleted;
        batch := batch + 1;
        if deleted < size {
          return;
        }
      }
    }
  }

  /** Some receipts older than the limit are gone; the others are as they were. */
  ghost predicate Reaped<R>(before: map<Key, Receipt<R>>, left: map<Key, Receipt<R>>, limit: int) {
    && left.Keys <= before.Keys
    && (forall k | k in left :: left[k] == before[k])
    && (forall k | k in before && k !in left :: before[k].createdAt < limit)
  }

  lemma ReapedTwice<R>(a: map<Key, Receipt<R>>, b: map<Key, Receipt<R>>, c: map<Key, Receipt<R>>, early: int, limit: int)
    requires Reaped(a, b, limit) && Reaped(b, c, early) && early <= limit
    ensures Reaped(a, c, limit)
  {
  }

  method DeleteExpired<R(==)>(receipts: map<Key, Receipt<R>>, cutoff: int, size: nat)
    returns (left: map<Key, Receipt<R>>, deleted: nat)
    ensures Reaped(receipts, left, cutoff)
    ensures deleted == |receipts| - |left| && deleted <= size
    ensures deleted < size ==> forall k | k in left :: left[k].createdAt >= cutoff
  {
    left, deleted := receipts, 0;
    var expired := set k | k in receipts && receipts[k].createdAt < cutoff;
    while deleted < size && expired != {}
      invariant Reaped(receipts, left, cutoff)
      invariant expired == set k | k in left && left[k].createdAt < cutoff
      invariant deleted == |receipts| - |left| && deleted <= size
      decreases |expired|
    {
      var k :| k in expired;
      expired := expired - {k};
      ghost var before := left;
      left := left - {k};
      assert left.Keys == before.Keys - {k};
      assert |before| == |before.Keys| && |left| == |left.Keys|;
      deleted := deleted + 1;
    }
    if deleted < size {
      forall k | k in left ensures left[k].createdAt >= cutoff {
        assert k !in expired;
      }
    }
  }

  // ----- runs -----

  /** A request as it reaches the store: `outcome` is what the business part would do, None when it fails. */
  datatype Event<+R> =
    | Request(key: Key, hash: string, guarded: bool, outcome: Option<R>, now: int)
    | Cleaned(removed: set<Key>)

  datatype Verdict<+R> = Committed(response: R) | Failed | Answered(replay: Replay<R>) | Maintenance

  function Judge<R>(l: Ledger<R>, e: Event<R>): Verdict<R> {
    match e
    case Request(key, hash, guarded, outcome, now) =>
      (match Replayed(l, key, hash)
       case Unseen => (match outcome case None => Failed case Some(r) => Committed(r))
       case replay => Answered(replay))
    case Cleaned(_) => Maintenance
  }

  function Next<R>(l: Ledger<R>, e: Event<R>): Ledger<R> {
    match e
    case Request(key, hash, guarded, outcome, now) =>
      if Judge(l, e).Committed? then Recorded(l, key, hash, guarded, Judge(l, e).response, now) else l
    case Cleaned(removed) => l.(receipts := l.receipts - removed)
  }

  /** The ledger before each event of a run that starts from an empty store. */
  function Before<R>(events: seq<Event<R>>, i: nat): Ledger<R>
    requires i <= |events|
  {
    if i == 0 then Ledger(map[], map[]) else Next(Before(events, i - 1), events[i - 1])
  }

  function VerdictAt<R>(events: seq<Event<R>>, i: nat): Verdict<R>
    requires i < |events|
  {
    Judge(Before(events, i), events[i])
  }

  /** The ledger still knows the identity of a guarded commit, and never contradicts it. */
  ghost predicate Remembers<R>(l: Ledger<R>, key: Key, hash: string, response: R) {
    && key in l.guards && l.guards[key] == hash
    && (key in l.receipts ==> l.receipts[key].hash == hash && l.receipts[key].response == response)
  }

  lemma {:induction false} GuardPersists<R>(events: seq<Event<R>>, i: nat, j: nat)
    requires i < j <= |events| && events[i].Request? && events[i].guarded && VerdictAt(events, i).Committed?
    ensures Remembers(Before(events, j), events[i].key, events[i].hash, VerdictAt(events, i).response)
  {
    if j > i + 1 {
      GuardPersists(events, i, j - 1);
    }
  }

  /** Guarded operations take effect at most once: after one commits, every later request with its key gets the
      identical stored result or is told the receipt expired, and a different fingerprint is refused forever. */
  lemma GuardedExactlyOnce<R>(events: seq<Event<R>>, i: nat, j: nat)
    requires i < j < |events| && events[i].Request? && events[j].Request? && events[i].key == events[j].key
    requires events[i].guarded && VerdictAt(events, i).Committed?
    ensures !VerdictAt(events, j).Committed?
    ensures events[j].hash == events[i].hash ==>
              VerdictAt(events, j) == Answered(Stored(VerdictAt(events, i).response))
              || VerdictAt(events, j) == Answered(ReceiptExpired)
    ensures events[j].hash != events[i].hash ==> VerdictAt(events, j) == Answered(KeyReused)
  {
    GuardPersists(events, i, j);
  }

  /** "Expired" is final: the key never answers anything but expired or reused again. */
  lemma ExpiredForever<R>(events: seq<Event<R>>, i: nat, j: nat)
    requires i < j < |events| && events[i].Request? && events[j].Request? && events[i].key == events[j].key
    requires VerdictAt(events, i) == Answered(ReceiptExpired)
    ensures VerdictAt(events, j) == Answered(if events[j].hash == events[i].hash then ReceiptExpired else KeyReused)
  {
    OnlyGuard(events, i, j);
  }

  lemma {:induction false} OnlyGuard<R>(events: seq<Event<R>>, i: nat, j: nat)
    requires i < j <= |events| && events[i].Request? && VerdictAt(events, i) == Answered(ReceiptExpired)
    ensures var l := Before(events, j);
            events[i].key !in l.receipts && events[i].key in l.guards && l.guards[events[i].key] == events[i].hash
  {
    if j > i + 1 {
      OnlyGuard(events, i, j - 1);
    }
  }

  // ----- requests that did not commit -----

  function Dropped<R>(events: seq<Event<R>>, i: nat): seq<Event<R>>
    requires i < |events|
  {
    events[..i] + events[i + 1..]
  }

  lemma {:induction false} BeforeByPrefix<R>(a: seq<Event<R>>, b: seq<Event<R>>, n: nat)
    requires n <= |a| && n <= |b| && forall k | 0 <= k < n :: a[k] == b[k]
    ensures Before(a, n) == Before(b, n)
  {
    if n > 0 {
      BeforeByPrefix(a, b, n - 1);
    }
  }

  lemma {:induction false} LedgerWithout<R>(events: seq<Event<R>>, i: nat, j: nat)
    requires i < j <= |events| && events[i].Request? && !VerdictAt(events, i).Committed?
    ensures Before(Dropped(events, i), j - 1) == Before(events, j)
  {
    if j == i + 1 {
      BeforeByPrefix(Dropped(events, i), events, i);
    } else {
      LedgerWithout(events, i, j - 1);
      assert Dropped(events, i)[j - 2] == events[j - 1];
    }
  }

  /** A request that did not commit leaves no trace: every later event of the run is judged as if it had never been
      made, its own retries included. */
  lemma FailureLeavesNoTrace<R>(events: seq<Event<R>>, i: nat, j: nat)
    requires i < j < |events| && events[i].Request? && !VerdictAt(events, i).Committed?
    ensures VerdictAt(Dropped(events, i), j - 1) == VerdictAt(events, j)
  {
    LedgerWithout(events, i, j);
    assert Dropped(events, i)[j - 1] == events[j];
  }

  // ----- without a guard -----

  /** No other request with this key commits strictly between. */
  ghost predicate OnlyCommit<R>(events: seq<Event<R>>, i: nat, j: nat)
    requires i < j <= |events| && events[i].Request?
  {
    forall k | i < k < j && events[k].Request? && events[k].key == events[i].key :: !VerdictAt(events, k).Committed?
  }

  ghost predicate RemovedBetween<R>(events: seq<Event<R>>, i: nat, j: nat)
    requires i < j <= |events| && events[i].Request?
  {
    exists k | i < k < j && events[k].Cleaned? :: events[i].key in events[k].removed
  }

  lemma {:induction false} KnownUntilRemoved<R>(events: seq<Event<R>>, i: nat, j: nat)
    requires i < j <= |events| && events[i].Request? && !events[i].guarded && VerdictAt(events, i).Committed?
    requires OnlyCommit(events, i, j)
    ensures events[i].key !in Before(events, j).guards
    ensures events[i].key in Before(events, j).receipts <==> !RemovedBetween(events, i, j)
  {
    if j > i + 1 {
      KnownUntilRemoved(events, i, j - 1);
      assert Before(events, j) == Next(Before(events, j - 1), events[j - 1]);
      if RemovedBetween(events, i, j - 1) {
        var k :| i < k < j - 1 && events[k].Cleaned? && events[i].key in events[k].removed;
      }
    }
  }

  /** After an unguarded commit a later request with its key commits again exactly when a cleanup has removed the
      receipt in between; otherwise it is answered from the receipt. */
  lemma UnguardedExact<R>(events: seq<Event<R>>, i: nat, j: nat)
    requires i < j < |events| && events[i].Request? && events[j].Request? && events[j].key == events[i].key
    requires !events[i].guarded && VerdictAt(events, i).Committed? && OnlyCommit(events, i, j) && events[j].outcome.Some?
    ensures VerdictAt(events, j).Committed? <==> RemovedBetween(events, i, j)
    ensures !RemovedBetween(events, i, j) ==>
              VerdictAt(events, j) == Answered(if events[j].hash == events[i].hash then Stored(VerdictAt(events, i).response) else KeyReused)
  {
    KnownUntilRemoved(events, i, j);
    if !RemovedBetween(events, i, j) {
      UnguardedWhileKept(events, i, j);
    }
  }

  /** As long as no cleanup removes the receipt the key is exactly-once. */
  lemma {:induction false} UnguardedWhileKept<R>(events: seq<Event<R>>, i: nat, j: nat)
    requires i < j <= |events| && events[i].Request? && VerdictAt(events, i).Committed?
    requires !RemovedBetween(events, i, j)
    ensures events[i].key in Before(events, j).receipts
    ensures Before(events, j).receipts[events[i].key] ==
            Receipt(events[i].hash, VerdictAt(events, i).response, events[i].now)
  {
    if j > i + 1 {
      assert !RemovedBetween(events, i, j - 1);
      UnguardedWhileKept(events, i, j - 1);
    }
  }
}

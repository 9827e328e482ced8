/** The per-table change feed: an append-only log whose oldest rows are deleted by retention, a watermark per
    table saying how far deletion has reached, and clients that page forward from a cursor. */
module ChangeFeed {
  import opened Schema
  import opened Orders

  datatype Pulled = Page(items: seq<Change>, next: nat, hasMore: bool) | CursorExpired | InvalidCursor

  // ----- reading a sequence of changes -----

  /** Changes of one table after `low`, up to and including `high`. */
  function Between(s: seq<Change>, table: string, low: nat, high: nat): (r: seq<Change>)
    ensures forall c | c in r :: c in s && c.tableId == table && low < c.sequence <= high
  {
    if s == [] then []
    else
      var rest, last := Between(s[..|s| - 1], table, low, high), s[|s| - 1];
      if last.tableId == table && low < last.sequence <= high then rest + [last] else rest
  }

  /** Changes of one table after a sequence number. */
  function Since(s: seq<Change>, table: string, after: nat): (r: seq<Change>)
    ensures forall c | c in r :: c in s && c.tableId == table && after < c.sequence
  {
    if s == [] then []
    else
      var rest, last := Since(s[..|s| - 1], table, after), s[|s| - 1];
      if last.tableId == table && after < last.sequence then rest + [last] else rest
  }

  /** Changes whose sequence number is not among the dead ones. */
  function Alive(s: seq<Change>, dead: set<nat>): (r: seq<Change>)
    ensures forall c | c in r :: c in s && c.sequence !in dead
  {
    if s == [] then []
    else
      var rest, last := Alive(s[..|s| - 1], dead), s[|s| - 1];
      if last.sequence in dead then rest else rest + [last]
  }

  /** The highest sequence number of a table, 0 when it has none. */
  function Tail(s: seq<Change>, table: string): nat {
    if s == [] then 0
    else
      var rest, last := Tail(s[..|s| - 1], table), s[|s| - 1];
      if last.tableId == table && last.sequence > rest then last.sequence else rest
  }

  function Sequences(s: seq<Change>): set<nat> {
    set c | c in s :: c.sequence
  }

  lemma {:induction false} TailFacts(s: seq<Change>, table: string)
    ensures forall c | c in s && c.tableId == table :: c.sequence <= Tail(s, table)
    ensures Tail(s, table) == 0 || exists c | c in s :: c.tableId == table && c.sequence == Tail(s, table)
  {
    if s != [] {
      TailFacts(s[..|s| - 1], table);
      assert s == s[..|s| - 1] + [s[|s| - 1]];
    }
  }

  lemma TailMonotone(a: seq<Change>, b: seq<Change>, table: string)
    requires forall c | c in a :: c in b
    ensures Tail(a, table) <= Tail(b, table)
  {
    TailFacts(a, table);
    TailFacts(b, table);
  }

  /** Sequence numbers of one table grow with log position; all are positive and no two rows share one. */
  ghost predicate WellSequenced(s: seq<Change>) {
    && (forall i | 0 <= i < |s| :: s[i].sequence > 0)
    && (forall i, j | 0 <= i < j < |s| :: s[i].sequence != s[j].sequence)
    && (forall i, j | 0 <= i < j < |s| && s[i].tableId == s[j].tableId :: s[i].sequence < s[j].sequence)
  }

  // ----- the feed -----

  /** `log` is everything ever appended, `dead` the sequence numbers retention has deleted since. */
  datatype Feed = Feed(log: seq<Change>, dead: set<nat>, watermarks: map<string, nat>) {

    /** The rows still stored. */
    function Rows(): seq<Change> {
      Alive(log, dead)
    }

    function Watermark(table: string): nat {
      if table in watermarks then watermarks[table] else 0
    }

    /** Deletion never reaches past the watermark, and the watermark never past the log. */
    ghost predicate Valid() {
      && WellSequenced(log)
      && dead <= Sequences(log)
      && (forall c | c in log && c.sequence in dead :: c.sequence <= Watermark(c.tableId))
      && (forall t | t in watermarks :: watermarks[t] <= Tail(log, t))
    }

    predicate CanAppend(c: Change) {
      c.sequence > Tail(log, c.tableId) && c.sequence !in Sequences(log)
    }

    function Append(c: Change): Feed {
      this.(log := log + [c])
    }

    /** One retention batch: the `size` oldest expired rows go, and each table's watermark covers them. */
    function Cleanup(cutoff: int, size: nat): Feed {
      var doomed := Doomed(Rows(), cutoff, size);
      Feed(log, dead + Sequences(doomed), Raised(watermarks, doomed))
    }

    function ChangeTail(table: string): nat {
      Tail(Rows(), table)
    }

    function Pull(table: string, after: nat, limit: nat): Pulled {
      Answer(ChangeTail(table), Watermark(table), Rows(), table, after, limit)
    }
  }

  /** The reply computed from the three reads a pull makes: tail, watermark, rows. */
  function Answer(tail: nat, watermark: nat, rows: seq<Change>, table: string, after: nat, limit: nat): Pulled {
    if after > tail && after > watermark then InvalidCursor
    else if after < watermark then CursorExpired
    else PageOf(rows, table, after, limit)
  }

  function PageOf(rows: seq<Change>, table: string, after: nat, limit: nat): Pulled {
    FirstPage(Since(rows, table, after), after, limit)
  }

  function FirstPage(found: seq<Change>, after: nat, limit: nat): Pulled {
    var items := if |found| > limit then found[..limit] else found;
    Page(items, if items == [] then after else items[|items| - 1].sequence, |found| > limit)
  }

  predicate Older(a: Change, b: Change) {
    a.occurredAt < b.occurredAt || (a.occurredAt == b.occurredAt && a.sequence < b.sequence)
  }

  function Expired(rows: seq<Change>, cutoff: int): (r: seq<Change>)
    ensures forall c | c in r :: c in rows && c.occurredAt < cutoff
  {
    if rows == [] then []
    else
      var rest, last := Expired(rows[..|rows| - 1], cutoff), rows[|rows| - 1];
      if last.occurredAt < cutoff then rest + [last] else rest
  }

  function Doomed(rows: seq<Change>, cutoff: int, size: nat): (r: seq<Change>)
    ensures |r| <= size
  {
    var expired := Sort(Older, Expired(rows, cutoff));
    if |expired| <= size then expired else expired[..size]
  }

  lemma DoomedAreRows(rows: seq<Change>, cutoff: int, size: nat)
    ensures forall c | c in Doomed(rows, cutoff, size) :: c in rows && c.occurredAt < cutoff
  {
    var expired := Expired(rows, cutoff);
    SameElements(Sort(Older, expired), expired);
    forall c | c in Doomed(rows, cutoff, size) ensures c in rows && c.occurredAt < cutoff {
      assert c in Elements(Sort(Older, expired));
    }
  }

  function Max(a: nat, b: nat): nat {
    if a < b then b else a
  }

  function TablesOf(s: seq<Change>): set<string> {
    set c | c in s :: c.tableId
  }

  function Raised(watermarks: map<string, nat>, doomed: seq<Change>): map<string, nat> {
    map t | t in watermarks.Keys + TablesOf(doomed) ::
      Max(if t in watermarks then watermarks[t] else 0, Tail(doomed, t))
  }

  // ----- what every transaction keeps -----

  lemma AppendSequenced(log: seq<Change>, c: Change)
    requires WellSequenced(log) && c.sequence > Tail(log, c.tableId) && c.sequence !in Sequences(log)
    ensures WellSequenced(log + [c])
  {
    TailFacts(log, c.tableId);
    forall i | 0 <= i < |log|
      ensures log[i].sequence != c.sequence && (log[i].tableId == c.tableId ==> log[i].sequence < c.sequence)
    {
      assert log[i] in log;
    }
  }

  lemma AppendKeepsValid(f: Feed, c: Change)
    requires f.Valid() && f.CanAppend(c)
    ensures f.Append(c).Valid()
  {
    var g := f.Append(c);
    AppendSequenced(f.log, c);
    assert Sequences(g.log) == Sequences(f.log) + {c.sequence};
    forall d | d in g.log && d.sequence in g.dead ensures d.sequence <= g.Watermark(d.tableId) {
      assert d in f.log;
    }
    forall t | t in g.watermarks ensures g.watermarks[t] <= Tail(g.log, t) {
      TailMonotone(f.log, g.log, t);
    }
  }

  lemma RaisedCovers(watermarks: map<string, nat>, doomed: seq<Change>, c: Change)
    requires c in doomed
    ensures c.tableId in Raised(watermarks, doomed) && c.sequence <= Raised(watermarks, doomed)[c.tableId]
  {
    TailFacts(doomed, c.tableId);
  }

  lemma CleanupKeepsValid(f: Feed, cutoff: int, size: nat)
    requires f.Valid()
    ensures f.Cleanup(cutoff, size).Valid()
    ensures f.Cleanup(cutoff, size).log == f.log && f.dead <= f.Cleanup(cutoff, size).dead
    ensures forall t :: f.Watermark(t) <= f.Cleanup(cutoff, size).Watermark(t)
  {
    var doomed := Doomed(f.Rows(), cutoff, size);
    DoomedAreRows(f.Rows(), cutoff, size);
    MarksRise(f, doomed);
    RemovedKeepsValid(f, f.Cleanup(cutoff, size), doomed);
  }

  /** Deleting any rows of the log keeps the feed valid, provided the watermarks are raised over them. */
  lemma RemovedKeepsValid(f: Feed, g: Feed, doomed: seq<Change>)
    requires f.Valid() && g == Feed(f.log, f.dead + Sequences(doomed), Raised(f.watermarks, doomed))
    requires forall d | d in doomed :: d in f.log
    ensures g.Valid()
  {
    DeadCovered(f, g, doomed);
    MarksReached(f, doomed);
  }

  lemma MarksReached(f: Feed, doomed: seq<Change>)
    requires (forall t | t in f.watermarks :: f.watermarks[t] <= Tail(f.log, t)) && forall d | d in doomed :: d in f.log
    ensures forall t | t in Raised(f.watermarks, doomed) :: Raised(f.watermarks, doomed)[t] <= Tail(f.log, t)
  {
    forall t | t in Raised(f.watermarks, doomed) ensures Raised(f.watermarks, doomed)[t] <= Tail(f.log, t) {
      TailMonotone(doomed, f.log, t);
    }
  }

  lemma DeadCovered(f: Feed, g: Feed, doomed: seq<Change>)
    requires f.Valid() && g == Feed(f.log, f.dead + Sequences(doomed), Raised(f.watermarks, doomed))
    requires forall d | d in doomed :: d in f.log
    ensures forall c | c in f.log && c.sequence in g.dead :: c.sequence <= g.Watermark(c.tableId)
  {
    forall c | c in f.log && c.sequence in g.dead ensures c.sequence <= g.Watermark(c.tableId) {
      if c.sequence in Sequences(doomed) {
        DoomedCovered(f, doomed, c);
      }
    }
  }

  lemma MarksRise(f: Feed, doomed: seq<Change>)
    ensures forall t :: f.Watermark(t) <= (if t in Raised(f.watermarks, doomed) then Raised(f.watermarks, doomed)[t] else 0)
  {
  }

  lemma DoomedCovered(f: Feed, doomed: seq<Change>, c: Change)
    requires WellSequenced(f.log) && c in f.log && c.sequence in Sequences(doomed) && forall d | d in doomed :: d in f.log
    ensures c.tableId in Raised(f.watermarks, doomed) && c.sequence <= Raised(f.watermarks, doomed)[c.tableId]
  {
    var d :| d in doomed && d.sequence == c.sequence;
    SameSequence(f.log, c, d);
    RaisedCovers(f.watermarks, doomed, c);
  }

  lemma SameSequence(log: seq<Change>, c: Change, d: Change)
    requires WellSequenced(log) && c in log && d in log && c.sequence == d.sequence
    ensures c == d
  {
    var i :| 0 <= i < |log| && log[i] == c;
    var j :| 0 <= j < |log| && log[j] == d;
    assert i == j;
  }

  /** Behind no watermark, the stored rows of a table are the whole log of that table. */
  lemma {:induction false} AliveIsAll(log: seq<Change>, dead: set<nat>, table: string, after: nat)
    requires forall c | c in log && c.sequence in dead && c.tableId == table :: c.sequence <= after
    ensures Since(Alive(log, dead), table, after) == Since(log, table, after)
  {
    if log != [] {
      var front, last := log[..|log| - 1], log[|log| - 1];
      AliveIsAll(front, dead, table, after);
      if last.sequence !in dead {
        assert Alive(log, dead)[..|Alive(front, dead)|] == Alive(front, dead);
      }
    }
  }

  /** A page is cut from the full log, deletions notwithstanding; it ends where its last item ends. */
  lemma PullReadsLog(f: Feed, table: string, after: nat, limit: nat)
    requires f.Valid() && f.Pull(table, after, limit).Page?
    ensures f.Pull(table, after, limit) == PageOf(f.log, table, after, limit)
  {
    DeadAreBehind(f, table, after);
    AliveIsAll(f.log, f.dead, table, after);
  }

  lemma DeadAreBehind(f: Feed, table: string, after: nat)
    requires f.Valid() && after >= f.Watermark(table)
    ensures forall c | c in f.log && c.sequence in f.dead && c.tableId == table :: c.sequence <= after
  {
  }

  /** `Since` is ascending, so cutting it at any of its sequence numbers is `Between`. */
  lemma {:induction false} SinceAscends(log: seq<Change>, table: string, after: nat)
    requires WellSequenced(log)
    ensures forall i, j | 0 <= i < j < |Since(log, table, after)| ::
              Since(log, table, after)[i].sequence < Since(log, table, after)[j].sequence
  {
    if log != [] {
      var front, last := log[..|log| - 1], log[|log| - 1];
      SinceAscends(front, table, after);
      forall c | c in Since(front, table, after) && last.tableId == table ensures c.sequence < last.sequence {
        var i :| 0 <= i < |front| && front[i] == c;
        assert log[i] == c;
      }
    }
  }

  lemma {:induction false} NoneAbove(s: seq<Change>, table: string, high: nat)
    requires forall c | c in s && c.tableId == table :: c.sequence <= high
    ensures Since(s, table, high) == []
  {
    if s != [] {
      NoneAbove(s[..|s| - 1], table, high);
    }
  }

  lemma EarlierBelow(log: seq<Change>)
    requires WellSequenced(log) && log != []
    ensures forall c | c in log[..|log| - 1] && c.tableId == log[|log| - 1].tableId ::
              c.sequence < log[|log| - 1].sequence
  {
  }

  lemma {:induction false} SinceSplit(log: seq<Change>, table: string, low: nat, high: nat)
    requires WellSequenced(log) && low <= high
    ensures Since(log, table, low) == Between(log, table, low, high) + Since(log, table, high)
  {
    if log != [] {
      var front, last := log[..|log| - 1], log[|log| - 1];
      SinceSplit(front, table, low, high);
      if last.tableId == table && low < last.sequence <= high {
        EarlierBelow(log);
        NoneAbove(front, table, high);
      }
    }
  }

  lemma {:induction false} BetweenSplit(log: seq<Change>, table: string, low: nat, mid: nat, high: nat)
    requires WellSequenced(log) && low <= mid <= high
    ensures Between(log, table, low, high) == Between(log, table, low, mid) + Between(log, table, mid, high)
  {
    if log != [] {
      var front, last := log[..|log| - 1], log[|log| - 1];
      BetweenSplit(front, table, low, mid, high);
      if last.tableId == table && low < last.sequence <= mid {
        EarlierBelow(log);
        NoneBetween(front, table, mid, high);
      }
    }
  }

  lemma {:induction false} NoneBetween(s: seq<Change>, table: string, low: nat, high: nat)
    requires forall c | c in s && c.tableId == table :: c.sequence <= low || c.sequence > high
    ensures Between(s, table, low, high) == []
  {
    if s != [] {
      NoneBetween(s[..|s| - 1], table, low, high);
    }
  }

  lemma CutLength(found: seq<Change>, low: seq<Change>, high: seq<Change>, k: nat)
    requires found == low + high && 0 < k <= |found|
    requires forall i, j | 0 <= i < j < |found| :: found[i].sequence < found[j].sequence
    requires forall c | c in low :: c.sequence <= found[k - 1].sequence
    requires forall c | c in high :: c.sequence > found[k - 1].sequence
    ensures |low| == k && low == found[..k]
  {
    forall i | 0 <= i < |found| ensures found[i].sequence <= found[k - 1].sequence <==> i < |low| {
      assert i < |low| ==> found[i] == low[i] && low[i] in low;
      assert i >= |low| ==> found[i] == high[i - |low|] && high[i - |low|] in high;
    }
    var boundary := if k < |found| then found[k] else found[k - 1];
    assert |low| == k;
  }

  /** A page's items are exactly the log between the old and the new cursor, and it says "more" exactly when
      the log goes on after the new cursor. */
  lemma PageIsBetween(log: seq<Change>, table: string, after: nat, limit: nat)
    requires WellSequenced(log) && limit > 0
    ensures var page := PageOf(log, table, after, limit);
            && page.items == Between(log, table, after, page.next)
            && (page.hasMore <==> Since(log, table, page.next) != [])
            && after <= page.next <= Max(after, Tail(log, table))
            && (page.items != [] ==> after < page.next)
  {
    var found := Since(log, table, after);
    var page := PageOf(log, table, after, limit);
    if found == [] {
      SinceSplit(log, table, after, after);
      NoneBetween(log, table, after, after);
    } else {
      var k := |page.items|;
      var high := page.next;
      assert high == found[k - 1].sequence;
      SinceAscends(log, table, after);
      SinceSplit(log, table, after, high);
      var b, rest := Between(log, table, after, high), Since(log, table, high);
      CutLength(found, b, rest, k);
      TailFacts(log, table);
      assert found[k - 1] in found;
    }
  }

  // ----- clients -----

  /** A client of one table: where it started, where it is now, and everything it has been sent. */
  datatype Client = Client(table: string, start: nat, cursor: nat, received: seq<Change>)

  datatype World = World(feed: Feed, clients: map<string, Client>)

  /** Every kind of transaction that touches the feed. */
  datatype Event =
    | Appended(change: Change)
    | Retained(cutoff: int, size: nat)
    | Subscribed(client: string, table: string)
    | Pulled(client: string, limit: nat)

  function Step(w: World, e: Event): World {
    match e
    case Appended(c) => if w.feed.CanAppend(c) then w.(feed := w.feed.Append(c)) else w
    case Retained(cutoff, size) => w.(feed := w.feed.Cleanup(cutoff, size))
    case Subscribed(id, table) =>
      var tail := w.feed.ChangeTail(table);
      w.(clients := w.clients[id := Client(table, tail, tail, [])])
    case Pulled(id, limit) =>
      if id !in w.clients || limit == 0 then w
      else
        var c := w.clients[id];
        match w.feed.Pull(c.table, c.cursor, limit)
        case Page(items, next, _) =>
          w.(clients := w.clients[id := c.(cursor := next, received := c.received + items)])
        case _ => w
  }

  function Run(w: World, events: seq<Event>): World {
    if events == [] then w else Step(Run(w, events[..|events| - 1]), events[|events| - 1])
  }

  /** What a client may rely on: it holds the whole log between its two cursors, and its cursor is one the
      table really reached. */
  ghost predicate Faithful(f: Feed, c: Client) {
    && c.start <= c.cursor <= Tail(f.log, c.table)
    && c.received == Between(f.log, c.table, c.start, c.cursor)
  }

  ghost predicate Sound(w: World) {
    w.feed.Valid() && forall id | id in w.clients :: Faithful(w.feed, w.clients[id])
  }

  lemma AppendKeepsClient(f: Feed, change: Change, c: Client)
    requires f.Valid() && f.CanAppend(change) && Faithful(f, c)
    ensures Faithful(f.Append(change), c)
  {
    var g := f.Append(change);
    TailMonotone(f.log, g.log, c.table);
    assert g.log[..|g.log| - 1] == f.log;
  }

  lemma SubscribeIsFaithful(f: Feed, table: string)
    requires f.Valid()
    ensures Faithful(f, Client(table, f.ChangeTail(table), f.ChangeTail(table), []))
  {
    TailMonotone(f.Rows(), f.log, table);
    NoneBetween(f.log, table, f.ChangeTail(table), f.ChangeTail(table));
  }

  lemma PullKeepsClient(f: Feed, c: Client, limit: nat)
    requires f.Valid() && Faithful(f, c) && limit > 0 && f.Pull(c.table, c.cursor, limit).Page?
    ensures var page := f.Pull(c.table, c.cursor, limit);
            Faithful(f, c.(cursor := page.next, received := c.received + page.items))
  {
    PullReadsLog(f, c.table, c.cursor, limit);
    PageIsBetween(f.log, c.table, c.cursor, limit);
    BetweenSplit(f.log, c.table, c.start, c.cursor, f.Pull(c.table, c.cursor, limit).next);
  }

  lemma StepKeepsSound(w: World, e: Event)
    requires Sound(w)
    ensures Sound(Step(w, e))
  {
    var v := Step(w, e);
    match e
    case Appended(c) =>
      if w.feed.CanAppend(c) {
        AppendKeepsValid(w.feed, c);
        forall id | id in v.clients ensures Faithful(v.feed, v.clients[id]) {
          AppendKeepsClient(w.feed, c, w.clients[id]);
        }
      }
    case Retained(cutoff, size) =>
      CleanupKeepsValid(w.feed, cutoff, size);
    case Subscribed(id, table) =>
      SubscribeIsFaithful(w.feed, table);
    case Pulled(id, limit) =>
      if id in w.clients && limit > 0 && w.feed.Pull(w.clients[id].table, w.clients[id].cursor, limit).Page? {
        PullKeepsClient(w.feed, w.clients[id], limit);
      }
  }

  /** No silent gap: over every interleaving of appends, retention batches, subscriptions and pulls, what a
      client has received is the log between its first and current cursor, in order, once each. */
  lemma {:induction false} NoSilentGap(w: World, events: seq<Event>)
    requires Sound(w)
    ensures Sound(Run(w, events))
  {
    if events != [] {
      NoSilentGap(w, events[..|events| - 1]);
      StepKeepsSound(Run(w, events[..|events| - 1]), events[|events| - 1]);
    }
  }

  /** The table's highest number is still stored or lies behind the watermark. */
  lemma HighWater(f: Feed, table: string)
    requires f.Valid()
    ensures Tail(f.log, table) <= Max(f.ChangeTail(table), f.Watermark(table))
  {
    TailFacts(f.log, table);
    if Tail(f.log, table) != 0 {
      var c :| c in f.log && c.tableId == table && c.sequence == Tail(f.log, table);
      if c.sequence !in f.dead {
        AliveMember(f.log, f.dead, c);
        TailFacts(f.Rows(), table);
      }
    }
  }

  /** An honest cursor is never called invalid: it is answered, or declared expired exactly when retention has
      passed it. */
  lemma HonestCursor(f: Feed, table: string, cursor: nat, limit: nat)
    requires f.Valid() && cursor <= Tail(f.log, table)
    ensures !f.Pull(table, cursor, limit).InvalidCursor?
    ensures f.Pull(table, cursor, limit).CursorExpired? <==> cursor < f.Watermark(table)
  {
    HighWater(f, table);
  }

  lemma {:induction false} AliveMember(log: seq<Change>, dead: set<nat>, c: Change)
    requires c in log && c.sequence !in dead
    ensures c in Alive(log, dead)
  {
    if c != log[|log| - 1] {
      assert c in log[..|log| - 1];
      AliveMember(log[..|log| - 1], dead, c);
    }
  }

  /** A cursor just handed out can be pulled from unless retention has passed the last stored row: then the very next
      pull answers "expired". */
  lemma FreshCursor(f: Feed, table: string, limit: nat)
    requires f.Valid()
    ensures var reply := f.Pull(table, f.ChangeTail(table), limit);
            if f.Watermark(table) <= f.ChangeTail(table) then reply == Page([], f.ChangeTail(table), false)
            else reply.CursorExpired?
  {
    TailFacts(f.Rows(), table);
    NoneAbove(f.Rows(), table, f.ChangeTail(table));
  }

  /** Which happens once a table's rows are all cleaned up. */
  lemma FreshCursorExpired(c: Change, limit: nat)
    requires c.sequence == 1 && c.occurredAt == 0
    ensures var f := Feed([c], {}, map[]).Cleanup(1, 10);
            f.Valid() && f.Pull(c.tableId, f.ChangeTail(c.tableId), limit) == CursorExpired
  {
    var before := Feed([c], {}, map[]);
    assert Sequences([c]) == {1};
    CleanupKeepsValid(before, 1, 10);
    LoneRowDoomed(c);
    RaisedCovers(map[], [c], c);
    FreshCursor(before.Cleanup(1, 10), c.tableId, limit);
  }

  lemma LoneRowDoomed(c: Change)
    requires c.sequence == 1 && c.occurredAt == 0
    ensures Alive([c], {}) == [c] && Doomed([c], 1, 10) == [c] && Alive([c], {1}) == []
  {
    OneMore([], c, {}, 1, c.tableId, 0);
    OneMore([], c, {1}, 1, c.tableId, 0);
    assert [] + [c] == [c];
    SortOne(c);
  }

  // ----- the three reads of a pull are separate statements -----

  /** `g` is reached from `f` by appends and retention batches. */
  ghost predicate Later(f: Feed, g: Feed) {
    && f.Valid() && g.Valid()
    && f.log <= g.log && f.dead <= g.dead
    && forall t :: f.Watermark(t) <= g.Watermark(t)
  }

  /** The reply when the tail is read in state `f`, the watermark in `g` and the rows in `h`. */
  function SplitPull(f: Feed, g: Feed, h: Feed, table: string, after: nat, limit: nat): Pulled {
    Answer(f.ChangeTail(table), g.Watermark(table), h.Rows(), table, after, limit)
  }

  /** Transactions between the reads never turn an honest cursor invalid. */
  lemma SplitPullHonest(f: Feed, g: Feed, h: Feed, table: string, after: nat, limit: nat)
    requires Later(f, g) && after <= Tail(f.log, table)
    ensures !SplitPull(f, g, h, table, after, limit).InvalidCursor?
  {
    HighWater(f, table);
    assert f.Watermark(table) <= g.Watermark(table);
  }

  /** Deleting and then selecting is selecting and then deleting. */
  lemma {:induction false} AliveSince(log: seq<Change>, dead: set<nat>, table: string, after: nat)
    ensures Since(Alive(log, dead), table, after) == Alive(Since(log, table, after), dead)
  {
    if log != [] {
      var front, last := log[..|log| - 1], log[|log| - 1];
      AliveSince(front, dead, table, after);
      if last.sequence !in dead {
        assert Alive(log, dead)[..|Alive(front, dead)|] == Alive(front, dead);
      }
      if last.tableId == table && after < last.sequence {
        assert Since(log, table, after)[..|Since(front, table, after)|] == Since(front, table, after);
      }
    }
  }

  ghost predicate AllAlive(s: seq<Change>, dead: set<nat>) {
    forall c | c in s :: c.sequence !in dead
  }

  lemma {:induction false} AliveConcat(a: seq<Change>, b: seq<Change>, dead: set<nat>)
    ensures Alive(a + b, dead) == Alive(a, dead) + Alive(b, dead)
  {
    if b == [] {
      assert a + b == a;
    } else {
      assert (a + b)[..|a + b| - 1] == a + b[..|b| - 1];
      AliveConcat(a, b[..|b| - 1], dead);
    }
  }

  lemma {:induction false} AllStay(s: seq<Change>, dead: set<nat>)
    requires AllAlive(s, dead)
    ensures Alive(s, dead) == s
  {
    if s != [] {
      assert s == s[..|s| - 1] + [s[|s| - 1]];
      AllStay(s[..|s| - 1], dead);
    }
  }

  /** The items of a page and the cursor it ends at. */
  predicate SamePage(a: Pulled, b: Pulled)
    requires a.Page? && b.Page?
  {
    a.items == b.items && a.next == b.next
  }

  /** A page is what its first items say, whatever follows. */
  lemma PageOfFirst(kept: seq<Change>, rest: seq<Change>, after: nat, limit: nat)
    requires |kept| == limit
    ensures FirstPage(kept + rest, after, limit).items == kept
    ensures FirstPage(kept + rest, after, limit).next == if kept == [] then after else kept[|kept| - 1].sequence
  {
    assert rest == [] ==> kept + rest == kept;
  }

  lemma LivePage(found: seq<Change>, dead: set<nat>, after: nat, limit: nat)
    requires AllAlive(FirstPage(found, after, limit).items, dead)
    ensures SamePage(FirstPage(Alive(found, dead), after, limit), FirstPage(found, after, limit))
  {
    if |found| > limit {
      var kept, rest := found[..limit], found[limit..];
      assert found == kept + rest;
      AllStay(kept, dead);
      AliveConcat(kept, rest, dead);
      PageOfFirst(kept, rest, after, limit);
      PageOfFirst(kept, Alive(rest, dead), after, limit);
    } else {
      AllStay(found, dead);
    }
  }

  lemma PageLives(found: seq<Change>, dead: set<nat>, after: nat, limit: nat)
    requires FirstPage(Alive(found, dead), after, limit).items == FirstPage(found, after, limit).items
    ensures AllAlive(FirstPage(found, after, limit).items, dead)
  {
    var left := Alive(found, dead);
    forall c | c in FirstPage(left, after, limit).items ensures c.sequence !in dead {
      assert c in left;
    }
  }

  lemma AlivePage(found: seq<Change>, dead: set<nat>, after: nat, limit: nat)
    ensures SamePage(FirstPage(Alive(found, dead), after, limit), FirstPage(found, after, limit)) <==>
            AllAlive(FirstPage(found, after, limit).items, dead)
  {
    if AllAlive(FirstPage(found, after, limit).items, dead) {
      LivePage(found, dead, after, limit);
    } else if FirstPage(Alive(found, dead), after, limit).items == FirstPage(found, after, limit).items {
      PageLives(found, dead, after, limit);
    }
  }

  /** A pull whose rows are read in a later state `h` gives the log's page exactly when none of the rows of that page is
      deleted by then. It is so whenever retention has not passed the cursor. */
  lemma SplitPullFaithful(f: Feed, g: Feed, h: Feed, table: string, after: nat, limit: nat)
    requires SplitPull(f, g, h, table, after, limit).Page?
    ensures var page := PageOf(h.log, table, after, limit);
            SamePage(SplitPull(f, g, h, table, after, limit), page) <==> AllAlive(page.items, h.dead)
    ensures h.Valid() && h.Watermark(table) <= after ==>
              SplitPull(f, g, h, table, after, limit) == PageOf(h.log, table, after, limit)
  {
    AliveSince(h.log, h.dead, table, after);
    AlivePage(Since(h.log, table, after), h.dead, after, limit);
    if h.Valid() && h.Watermark(table) <= after {
      AliveIsAll(h.log, h.dead, table, after);
    }
  }

  /** Pages of every size agree with the log exactly when no row of the table after the cursor is deleted. */
  lemma SplitPagesExact(h: Feed, table: string, after: nat)
    ensures (forall limit: nat | limit > 0 :: PageOf(h.Rows(), table, after, limit) == PageOf(h.log, table, after, limit)) <==>
            AllAlive(Since(h.log, table, after), h.dead)
  {
    var found := Since(h.log, table, after);
    AliveSince(h.log, h.dead, table, after);
    if AllAlive(found, h.dead) {
      AllStay(found, h.dead);
    } else {
      var limit := |found| + 1;
      AlivePage(found, h.dead, after, limit);
      assert PageOf(h.log, table, after, limit).items == found;
      assert PageOf(h.Rows(), table, after, limit) != PageOf(h.log, table, after, limit);
    }
  }

  /** Two changes, the older one due for deletion. */
  ghost predicate RaceSetup(c: Change, d: Change) {
    c.sequence == 1 && d.sequence == 2 && c.tableId == d.tableId && c.occurredAt == 0 && d.occurredAt == 5
  }

  lemma OneMore(s: seq<Change>, c: Change, dead: set<nat>, cutoff: int, table: string, after: nat)
    ensures Alive(s + [c], dead) == Alive(s, dead) + if c.sequence in dead then [] else [c]
    ensures Expired(s + [c], cutoff) == Expired(s, cutoff) + if c.occurredAt < cutoff then [c] else []
    ensures Since(s + [c], table, after) ==
            Since(s, table, after) + if c.tableId == table && after < c.sequence then [c] else []
    ensures Tail(s + [c], table) ==
            if c.tableId == table && c.sequence > Tail(s, table) then c.sequence else Tail(s, table)
  {
    assert (s + [c])[..|s|] == s;
  }

  lemma RowsBefore(c: Change, d: Change)
    requires RaceSetup(c, d)
    ensures Alive([c, d], {}) == [c, d] && Expired([c, d], 1) == [c]
    ensures Since([c, d], c.tableId, 0) == [c, d]
  {
    OneMore([], c, {}, 1, c.tableId, 0);
    assert [] + [c] == [c];
    OneMore([c], d, {}, 1, c.tableId, 0);
    assert [c] + [d] == [c, d];
  }

  lemma RowsAfter(c: Change, d: Change)
    requires RaceSetup(c, d)
    ensures Alive([c, d], {1}) == [d]
  {
    OneMore([], c, {1}, 1, c.tableId, 0);
    assert [] + [c] == [c];
    assert Alive([c], {1}) == [];
    OneMore([c], d, {1}, 1, c.tableId, 0);
    assert [c] + [d] == [c, d];
  }

  lemma SinceOne(d: Change)
    ensures Since([d], d.tableId, 0) == if d.sequence > 0 then [d] else []
  {
    OneMore([], d, {}, 0, d.tableId, 0);
    assert [] + [d] == [d];
  }

  lemma RaceCleanup(c: Change, d: Change)
    requires RaceSetup(c, d)
    ensures var f := Feed([c, d], {}, map[]);
            f.Valid() && f.Cleanup(1, 10).log == [c, d] && f.Cleanup(1, 10).dead == {1}
  {
    RowsBefore(c, d);
    SortOne(c);
    assert Doomed([c, d], 1, 10) == [c];
    assert Sequences([c]) == {1};
  }

  lemma SortOne(c: Change)
    ensures Sort(Older, [c]) == [c]
  {
    assert [c][1..] == [];
  }

  /** The race: a retention batch between the watermark read and the row read loses change 1 silently. */
  lemma SplitPullGap(c: Change, d: Change)
    requires RaceSetup(c, d)
    ensures var f := Feed([c, d], {}, map[]);
            var h := f.Cleanup(1, 10);
            && Later(f, h)
            && SplitPull(f, f, h, c.tableId, 0, 100) == Page([d], 2, false)
            && PageOf(h.log, c.tableId, 0, 100) == Page([c, d], 2, false)
  {
    var f := Feed([c, d], {}, map[]);
    var h := f.Cleanup(1, 10);
    RaceLater(c, d);
    RaceRead(h, c, d, f.ChangeTail(c.tableId));
  }

  lemma RaceLater(c: Change, d: Change)
    requires RaceSetup(c, d)
    ensures var f := Feed([c, d], {}, map[]);
            Later(f, f.Cleanup(1, 10)) && f.Cleanup(1, 10).log == [c, d] && f.Cleanup(1, 10).dead == {1}
  {
    RaceCleanup(c, d);
    CleanupKeepsValid(Feed([c, d], {}, map[]), 1, 10);
  }

  lemma RaceRead(h: Feed, c: Change, d: Change, tail: nat)
    requires RaceSetup(c, d) && h.log == [c, d] && h.dead == {1}
    ensures Answer(tail, 0, h.Rows(), c.tableId, 0, 100) == Page([d], 2, false)
    ensures PageOf(h.log, c.tableId, 0, 100) == Page([c, d], 2, false)
  {
    RowsBefore(c, d);
    RowsAfter(c, d);
    SinceOne(d);
    RaceAnswer(tail, c, d);
  }

  lemma RaceAnswer(tail: nat, c: Change, d: Change)
    requires RaceSetup(c, d) && Since([d], c.tableId, 0) == [d] && Since([c, d], c.tableId, 0) == [c, d]
    ensures Answer(tail, 0, [d], c.tableId, 0, 100) == Page([d], 2, false)
    ensures PageOf([c, d], c.tableId, 0, 100) == Page([c, d], 2, false)
  {
  }

  // ----- the store -----

  lemma {:induction false} AliveAlive(log: seq<Change>, dead: set<nat>, more: set<nat>)
    ensures Alive(Alive(log, dead), more) == Alive(log, dead + more)
  {
    if log != [] {
      var front, last := log[..|log| - 1], log[|log| - 1];
      AliveAlive(front, dead, more);
      if last.sequence !in dead {
        assert Alive(log, dead)[..|Alive(front, dead)|] == Alive(front, dead);
      }
    }
  }

  lemma NoTail(s: seq<Change>, t: string)
    requires t !in TablesOf(s)
    ensures Tail(s, t) == 0
  {
    TailFacts(s, t);
  }

  function At(m: map<string, nat>, t: string): nat {
    if t in m then m[t] else 0
  }

  /** Every table's greater mark. */
  function Merged(a: map<string, nat>, b: map<string, nat>): map<string, nat> {
    map t | t in a.Keys + b.Keys :: Max(At(a, t), At(b, t))
  }

  lemma MarksAreRaised(watermarks: map<string, nat>, groups: map<string, nat>, doomed: seq<Change>)
    requires groups.Keys == TablesOf(doomed) && forall t | t in groups :: groups[t] == Tail(doomed, t)
    ensures Merged(watermarks, groups) == Raised(watermarks, doomed)
  {
    forall t | t in Merged(watermarks, groups) ensures At(groups, t) == Tail(doomed, t) {
      if t !in groups { NoTail(doomed, t); }
    }
  }

  /** The upsert loop: each group keeps the greater of the stored and the new mark. */
  method SaveWatermarks(before: map<string, nat>, groups: map<string, nat>) returns (watermarks: map<string, nat>)
    ensures watermarks == Merged(before, groups)
  {
    watermarks := before;
    var saved: map<string, nat> := map[];
    while groups.Keys - saved.Keys != {}
      invariant saved.Keys <= groups.Keys && forall t | t in saved :: saved[t] == groups[t]
      invariant watermarks == Merged(before, saved)
      decreases groups.Keys - saved.Keys
    {
      var t :| t in groups.Keys - saved.Keys;
      watermarks := watermarks[t := Max(At(watermarks, t), groups[t])];
      assert watermarks == Merged(before, saved[t := groups[t]]);
      saved := saved[t := groups[t]];
    }
    forall t | t in groups ensures t in saved {
      assert t !in groups.Keys - saved.Keys;
    }
    assert saved == groups;
  }

  /** The highest number of each table. */
  ghost predicate Grouped(s: seq<Change>, groups: map<string, nat>) {
    groups.Keys == TablesOf(s) && forall t | t in groups :: groups[t] == Tail(s, t)
  }

  lemma GroupMore(s: seq<Change>, groups: map<string, nat>, c: Change)
    requires Grouped(s, groups)
    ensures Grouped(s + [c], groups[c.tableId := Max(At(groups, c.tableId), c.sequence)])
  {
    if c.tableId !in groups {
      NoTail(s, c.tableId);
    }
    assert TablesOf(s + [c]) == TablesOf(s) + {c.tableId};
    assert (s + [c])[..|s|] == s;
  }

  /** The highest deleted number of each table, and how many rows went. */
  method GroupByTable(doomed: seq<Change>) returns (groups: map<string, nat>, deleted: nat)
    ensures Grouped(doomed, groups)
    ensures deleted == |doomed|
  {
    groups, deleted := map[], 0;
    while deleted < |doomed|
      invariant 0 <= deleted <= |doomed|
      invariant Grouped(doomed[..deleted], groups)
    {
      var c := doomed[deleted];
      GroupMore(doomed[..deleted], groups, c);
      assert doomed[..deleted + 1] == doomed[..deleted] + [c];
      var highest := if c.tableId in groups then groups[c.tableId] else 0;
      groups := groups[c.tableId := Max(highest, c.sequence)];
      deleted := deleted + 1;
    }
    assert doomed[..deleted] == doomed;
  }

  function Take(s: seq<Change>, n: nat): seq<Change> {
    if |s| <= n then s else s[..n]
  }

  lemma TakeMore(s: seq<Change>, c: Change, n: nat)
    ensures Take(s + [c], n) == if |Take(s, n)| < n then Take(s, n) + [c] else Take(s, n)
  {
  }

  /** The page cut from one row more than it holds. */
  method CutPage(loaded: seq<Change>, ghost found: seq<Change>, after: nat, limit: nat) returns (reply: Pulled)
    requires loaded == Take(found, limit + 1)
    ensures reply == FirstPage(found, after, limit)
  {
    var items := loaded;
    var hasMore := |items| > limit;
    if hasMore {
      items := items[..limit];
    }
    var next := after;
    if |items| > 0 {
      next := items[|items| - 1].sequence;
    }
    return Page(items, next, hasMore);
  }

  /** The two tables behind the feed. `feed` is their history. */
  class ChangeStore {
    var rows: seq<Change>
    var watermarks: map<string, nat>
    ghost var feed: Feed

    ghost predicate Valid()
      reads this
    {
      feed.Valid() && rows == feed.Rows() && watermarks == feed.watermarks
    }

    constructor ()
      ensures Valid() && feed == Feed([], {}, map[])
    {
      rows, watermarks, feed := [], map[], Feed([], {}, map[]);
    }

    method Append(c: Change)
      requires Valid() && feed.CanAppend(c)
      modifies this
      ensures Valid() && feed == old(feed).Append(c)
    {
      AppendKeepsValid(feed, c);
      assert c.sequence !in feed.dead;
      OneMore(feed.log, c, feed.dead, 0, "", 0);
      rows := rows + [c];
      feed := feed.Append(c);
    }

    method ChangeTail(table: string) returns (tail: nat)
      requires Valid()
      ensures tail == feed.ChangeTail(table)
    {
      tail := 0;
      var i := 0;
      while i < |rows|
        invariant 0 <= i <= |rows|
        invariant tail == Tail(rows[..i], table)
      {
        assert rows[..i + 1][..i] == rows[..i];
        if rows[i].tableId == table && rows[i].sequence > tail {
          tail := rows[i].sequence;
        }
        i := i + 1;
      }
      assert rows[..i] == rows;
    }

    /** The row read: at most `most` matching rows, in sequence order. */
    method ReadRows(table: string, after: nat, most: nat) returns (items: seq<Change>)
      requires Valid()
      ensures items == Take(Since(rows, table, after), most)
    {
      items := [];
      var i := 0;
      while i < |rows|
        invariant 0 <= i <= |rows|
        invariant items == Take(Since(rows[..i], table, after), most)
      {
        assert rows[..i + 1][..i] == rows[..i];
        TakeMore(Since(rows[..i], table, after), rows[i], most);
        if rows[i].tableId == table && after < rows[i].sequence && |items| < most {
          items := items + [rows[i]];
        }
        i := i + 1;
      }
      assert rows[..i] == rows;
    }

    method PullChanges(table: string, after: nat, limit: nat) returns (reply: Pulled)
      requires Valid()
      ensures reply == feed.Pull(table, after, limit)
    {
      var tail := ChangeTail(table);
      var expiredThrough := if table in watermarks then watermarks[table] else 0;
      if after > tail {
        if after > expiredThrough {
          return InvalidCursor;
        }
      }
      if after < expiredThrough {
        return CursorExpired;
      }
      var items := ReadRows(table, after, limit + 1);
      reply := CutPage(items, Since(rows, table, after), after, limit);
    }

    /** One batch: delete the doomed rows, collect the highest deleted number per table, raise the watermarks. */
    method CleanupBatch(cutoff: int, size: nat) returns (deleted: nat)
      requires Valid()
      modifies this
      ensures Valid() && feed == old(feed).Cleanup(cutoff, size)
      ensures deleted == |Doomed(old(rows), cutoff, size)|
    {
      var doomed := Doomed(rows, cutoff, size);
      CleanupKeepsValid(feed, cutoff, size);
      AliveAlive(feed.log, feed.dead, Sequences(doomed));
      rows := Alive(rows, Sequences(doomed));
      var groups;
      groups, deleted := GroupByTable(doomed);
      MarksAreRaised(watermarks, groups, doomed);
      watermarks := SaveWatermarks(watermarks, groups);
      feed := feed.Cleanup(cutoff, size);
    }

    /** The batch loop: it stops early at a short batch, and reports how many rows it removed. */
    method CleanupChanges(cutoffs: seq<int>, size: nat) returns (total: nat)
      requires Valid()
      modifies this
      ensures Valid() && feed == Cleaned(old(feed), cutoffs, size)
      ensures total == |old(rows)| - |rows|
    {
      total := 0;
      var batch := 0;
      while batch < |cutoffs|
        invariant 0 <= batch <= |cutoffs|
        invariant Valid() && Cleaned(feed, cutoffs[batch..], size) == Cleaned(old(feed), cutoffs, size)
        invariant total == |old(rows)| - |rows|
      {
        CleanupCounts(feed, cutoffs[batch], size);
        assert cutoffs[batch..][1..] == cutoffs[batch + 1..];
        var deleted := CleanupBatch(cutoffs[batch], size);
        total := total + deleted;
        batch := batch + 1;
        if deleted < size {
          return;
        }
      }
    }
  }

  /** Retention batches until one of them is short. */
  function Cleaned(f: Feed, cutoffs: seq<int>, size: nat): Feed
    decreases |cutoffs|
  {
    if cutoffs == [] then f
    else if |Doomed(f.Rows(), cutoffs[0], size)| < size then f.Cleanup(cutoffs[0], size)
    else Cleaned(f.Cleanup(cutoffs[0], size), cutoffs[1..], size)
  }

  // ----- what a cleanup leaves -----

  lemma {:induction false} AliveSize(s: seq<Change>, dead: set<nat>)
    requires dead <= Sequences(s) && forall i, j | 0 <= i < j < |s| :: s[i].sequence != s[j].sequence
    ensures |Alive(s, dead)| == |s| - |dead|
  {
    if s != [] {
      var front, last := s[..|s| - 1], s[|s| - 1];
      assert s == front + [last];
      NotAmong(front, last);
      AliveSize(front, dead - {last.sequence});
      AliveBut(front, dead, last.sequence);
    }
  }

  lemma NotAmong(front: seq<Change>, last: Change)
    requires forall i, j | 0 <= i < j < |front + [last]| :: (front + [last])[i].sequence != (front + [last])[j].sequence
    ensures last.sequence !in Sequences(front)
  {
    forall i | 0 <= i < |front| ensures front[i].sequence != last.sequence {
      assert (front + [last])[i] == front[i] && (front + [last])[|front|] == last;
    }
  }

  lemma {:induction false} AliveBut(s: seq<Change>, dead: set<nat>, n: nat)
    requires n !in Sequences(s)
    ensures Alive(s, dead - {n}) == Alive(s, dead)
  {
    if s != [] {
      assert s[|s| - 1] in s;
      AliveBut(s[..|s| - 1], dead, n);
    }
  }

  /** Different numbers, each once. */
  lemma {:induction false} SequenceCount(s: seq<Change>)
    requires forall i, j | 0 <= i < j < |s| :: s[i].sequence != s[j].sequence
    ensures |Sequences(s)| == |s|
  {
    if s != [] {
      var front, last := s[..|s| - 1], s[|s| - 1];
      assert s == front + [last];
      NotAmong(front, last);
      SequenceCount(front);
      assert Sequences(s) == Sequences(front) + {last.sequence};
    }
  }

  /** No two rows share a number. */
  ghost predicate Apart(s: seq<Change>) {
    forall i, j | 0 <= i < j < |s| :: s[i].sequence != s[j].sequence
  }

  lemma ApartMore(front: seq<Change>, last: Change)
    requires Apart(front) && last.sequence !in Sequences(front)
    ensures Apart(front + [last])
  {
    forall i | 0 <= i < |front| ensures front[i].sequence != last.sequence {
      assert front[i] in front;
    }
  }

  lemma {:induction false} AliveApart(s: seq<Change>, dead: set<nat>)
    requires Apart(s)
    ensures Apart(Alive(s, dead))
  {
    if s != [] {
      var front, last := s[..|s| - 1], s[|s| - 1];
      assert s == front + [last];
      NotAmong(front, last);
      AliveApart(front, dead);
      assert Sequences(Alive(front, dead)) <= Sequences(front);
      ApartMore(Alive(front, dead), last);
    }
  }

  lemma {:induction false} ExpiredApart(s: seq<Change>, cutoff: int)
    requires Apart(s)
    ensures Apart(Expired(s, cutoff))
  {
    if s != [] {
      var front, last := s[..|s| - 1], s[|s| - 1];
      assert s == front + [last];
      NotAmong(front, last);
      ExpiredApart(front, cutoff);
      assert Sequences(Expired(front, cutoff)) <= Sequences(front);
      ApartMore(Expired(front, cutoff), last);
    }
  }

  lemma ApartTells(s: seq<Change>, c: Change, d: Change)
    requires Apart(s) && c in s && d in s
    ensures c.sequence == d.sequence ==> c == d
  {
    var i :| 0 <= i < |s| && s[i] == c;
    var j :| 0 <= j < |s| && s[j] == d;
  }

  lemma OlderTotal(s: seq<Change>)
    requires Apart(s)
    ensures TotalOn(Older, Elements(s)) && Distinct(s)
  {
    forall c, d | c in s && d in s ensures Older(c, d) || c == d || Older(d, c) {
      ApartTells(s, c, d);
    }
  }

  lemma SortApart(s: seq<Change>)
    requires Apart(s)
    ensures Apart(Sort(Older, s)) && forall c :: c in Sort(Older, s) <==> c in s
  {
    OlderTotal(s);
    SortAscending(Older, s);
    var r := Sort(Older, s);
    forall c ensures c in r <==> c in s {
      assert c in Elements(r) <==> c in Elements(s);
    }
    forall i, j | 0 <= i < j < |r| ensures r[i].sequence != r[j].sequence {
      assert Older(r[i], r[j]) && r[i] in s && r[j] in s;
      ApartTells(s, r[i], r[j]);
    }
  }

  lemma DoomedApart(rows: seq<Change>, cutoff: int, size: nat)
    requires Apart(rows)
    ensures Apart(Doomed(rows, cutoff, size))
    ensures |Doomed(rows, cutoff, size)| < size ==> forall c | c in Expired(rows, cutoff) :: c in Doomed(rows, cutoff, size)
  {
    ExpiredApart(rows, cutoff);
    SortApart(Expired(rows, cutoff));
  }

  /** A batch removes exactly the rows it reports. */
  lemma CleanupCounts(f: Feed, cutoff: int, size: nat)
    requires f.Valid()
    ensures |f.Cleanup(cutoff, size).Rows()| == |f.Rows()| - |Doomed(f.Rows(), cutoff, size)|
  {
    var doomed := Doomed(f.Rows(), cutoff, size);
    AliveApart(f.log, f.dead);
    DoomedApart(f.Rows(), cutoff, size);
    DoomedAreRows(f.Rows(), cutoff, size);
    SequenceCount(doomed);
    AliveAlive(f.log, f.dead, Sequences(doomed));
    AliveSize(f.Rows(), Sequences(doomed));
  }

  lemma {:induction false} ExpiredMember(s: seq<Change>, cutoff: int, c: Change)
    requires c in s && c.occurredAt < cutoff
    ensures c in Expired(s, cutoff)
  {
    if c != s[|s| - 1] {
      assert c in s[..|s| - 1];
      ExpiredMember(s[..|s| - 1], cutoff, c);
    }
  }

  /** A short batch, the one at which the loop stops, leaves no expired row behind. */
  lemma ShortBatchFinishes(f: Feed, cutoff: int, size: nat)
    requires f.Valid() && |Doomed(f.Rows(), cutoff, size)| < size
    ensures forall c | c in f.Cleanup(cutoff, size).Rows() :: c.occurredAt >= cutoff
  {
    var doomed := Doomed(f.Rows(), cutoff, size);
    AliveApart(f.log, f.dead);
    DoomedApart(f.Rows(), cutoff, size);
    AliveAlive(f.log, f.dead, Sequences(doomed));
    forall c | c in Alive(f.Rows(), Sequences(doomed)) ensures c.occurredAt >= cutoff {
      if c.occurredAt < cutoff {
        ExpiredMember(f.Rows(), cutoff, c);
      }
    }
  }

  lemma LaterTrans(f: Feed, g: Feed, h: Feed)
    requires Later(f, g) && Later(g, h)
    ensures Later(f, h)
  {
    forall t ensures f.Watermark(t) <= h.Watermark(t) {
      assert f.Watermark(t) <= g.Watermark(t);
    }
  }

  lemma BatchIsLater(f: Feed, cutoff: int, size: nat)
    requires f.Valid()
    ensures Later(f, f.Cleanup(cutoff, size)) && f.Cleanup(cutoff, size).log == f.log
  {
    CleanupKeepsValid(f, cutoff, size);
  }

  /** A cleanup never rewrites history: the log stays, nothing deleted comes back, watermarks only rise. */
  lemma {:induction false} CleanedKeeps(f: Feed, cutoffs: seq<int>, size: nat)
    requires f.Valid()
    ensures Later(f, Cleaned(f, cutoffs, size)) && Cleaned(f, cutoffs, size).log == f.log
    decreases |cutoffs|
  {
    if cutoffs != [] {
      var g := f.Cleanup(cutoffs[0], size);
      BatchIsLater(f, cutoffs[0], size);
      if |Doomed(f.Rows(), cutoffs[0], size)| >= size {
        CleanedKeeps(g, cutoffs[1..], size);
        LaterTrans(f, g, Cleaned(g, cutoffs[1..], size));
      }
    }
  }
}

/** Retention takes the oldest rows first, watermarks are exact, and so is the verdict on a cursor. */
module Retention {
  import opened Schema
  import opened Orders
  import opened ChangeFeed

  // ----- which rows go -----

  lemma {:induction false} ExpiredAre(rows: seq<Change>, cutoff: int)
    ensures forall c :: c in Expired(rows, cutoff) <==> c in rows && c.occurredAt < cutoff
  {
    if rows != [] {
      ExpiredAre(rows[..|rows| - 1], cutoff);
      assert rows == rows[..|rows| - 1] + [rows[|rows| - 1]];
    }
  }

  lemma CutAscends(s: seq<Change>, size: nat, c: Change, d: Change)
    requires Ascending(Older, s) && size <= |s| && c in s[..size] && d in s && d !in s[..size]
    ensures Older(c, d)
  {
    var i :| 0 <= i < size && s[i] == c;
    var j :| 0 <= j < |s| && s[j] == d;
    forall k | 0 <= k < size ensures s[k] in s[..size] {
      assert s[..size][k] == s[k];
    }
  }

  lemma DoomedOldest(rows: seq<Change>, cutoff: int, size: nat, c: Change, d: Change)
    requires Apart(rows) && c in Doomed(rows, cutoff, size) && d in rows && d.occurredAt < cutoff && d !in Doomed(rows, cutoff, size)
    ensures Older(c, d)
  {
    var expired := Expired(rows, cutoff);
    ExpiredAre(rows, cutoff);
    ExpiredApart(rows, cutoff);
    OlderTotal(expired);
    SortAscending(Older, expired);
    SortApart(expired);
    CutAscends(Sort(Older, expired), size, c, d);
  }

  /** A row that was stored and is gone. */
  ghost predicate Gone(f: Feed, g: Feed, c: Change) {
    c in f.Rows() && c !in g.Rows()
  }

  lemma {:induction false} AliveAre(log: seq<Change>, dead: set<nat>)
    ensures forall c :: c in Alive(log, dead) <==> c in log && c.sequence !in dead
  {
    if log != [] {
      AliveAre(log[..|log| - 1], dead);
      assert log == log[..|log| - 1] + [log[|log| - 1]];
    }
  }

  lemma GoneAreDoomed(f: Feed, cutoff: int, size: nat, c: Change)
    requires f.Valid()
    ensures Gone(f, f.Cleanup(cutoff, size), c) <==> c in Doomed(f.Rows(), cutoff, size)
  {
    var doomed := Doomed(f.Rows(), cutoff, size);
    DoomedAreRows(f.Rows(), cutoff, size);
    AliveAre(f.log, f.dead);
    AliveAre(f.log, f.dead + Sequences(doomed));
    if c in f.Rows() && c.sequence in Sequences(doomed) {
      var d :| d in doomed && d.sequence == c.sequence;
      SameSequence(f.log, c, d);
    }
  }

  /** A batch takes expired rows only, and of these the oldest: whatever expired row it leaves is younger than every row it
      takes. No row comes back. */
  lemma OldestGoFirst(f: Feed, cutoff: int, size: nat, c: Change, d: Change)
    requires f.Valid() && Gone(f, f.Cleanup(cutoff, size), c)
    ensures c.occurredAt < cutoff
    ensures d in f.Cleanup(cutoff, size).Rows() ==>
              d in f.Rows()
              && (d.occurredAt < cutoff ==>
                    c.occurredAt < d.occurredAt || (c.occurredAt == d.occurredAt && c.sequence < d.sequence))
  {
    var g := f.Cleanup(cutoff, size);
    GoneAreDoomed(f, cutoff, size, c);
    DoomedAreRows(f.Rows(), cutoff, size);
    AliveAre(f.log, f.dead);
    AliveAre(f.log, g.dead);
    if d in g.Rows() && d.occurredAt < cutoff {
      GoneAreDoomed(f, cutoff, size, d);
      AliveApart(f.log, f.dead);
      DoomedOldest(f.Rows(), cutoff, size, c, d);
    }
  }

  // ----- how far a watermark reaches -----

  /** A row of the table that retention has deleted. */
  ghost predicate Deleted(f: Feed, table: string, c: Change) {
    c in f.log && c.tableId == table && c.sequence in f.dead
  }

  /** A table's watermark is the number of a row deleted from it; no watermark runs ahead of deletion. */
  ghost predicate Marked(f: Feed) {
    forall t | f.Watermark(t) > 0 :: exists c | Deleted(f, t, c) :: c.sequence == f.Watermark(t)
  }

  lemma AppendKeepsMarked(f: Feed, c: Change)
    requires f.Valid() && Marked(f) && f.CanAppend(c)
    ensures Marked(f.Append(c))
  {
    var g := f.Append(c);
    forall t | g.Watermark(t) > 0 ensures exists d | Deleted(g, t, d) :: d.sequence == g.Watermark(t) {
      assert f.Watermark(t) > 0;
      var d :| Deleted(f, t, d) && d.sequence == f.Watermark(t);
      assert Deleted(g, t, d);
    }
  }

  lemma RaisedIs(f: Feed, doomed: seq<Change>, t: string)
    ensures var raised := if t in Raised(f.watermarks, doomed) then Raised(f.watermarks, doomed)[t] else 0;
            raised == f.Watermark(t) || (raised == Tail(doomed, t) && raised > 0)
  {
  }

  lemma DeletedStays(f: Feed, doomed: seq<Change>, watermarks: map<string, nat>, t: string, c: Change)
    requires Deleted(f, t, c) || (c in doomed && c in f.log && c.tableId == t)
    ensures Deleted(Feed(f.log, f.dead + Sequences(doomed), watermarks), t, c)
  {
  }

  lemma CleanupKeepsMarked(f: Feed, cutoff: int, size: nat)
    requires f.Valid() && Marked(f)
    ensures Marked(f.Cleanup(cutoff, size))
  {
    var g, doomed := f.Cleanup(cutoff, size), Doomed(f.Rows(), cutoff, size);
    DoomedAreRows(f.Rows(), cutoff, size);
    forall t | g.Watermark(t) > 0 ensures exists d | Deleted(g, t, d) :: d.sequence == g.Watermark(t) {
      RaisedIs(f, doomed, t);
      TailFacts(doomed, t);
      if g.Watermark(t) == f.Watermark(t) {
        var d :| Deleted(f, t, d) && d.sequence == f.Watermark(t);
        DeletedStays(f, doomed, g.watermarks, t, d);
      } else {
        var d :| d in doomed && d.tableId == t && d.sequence == Tail(doomed, t);
        DeletedStays(f, doomed, g.watermarks, t, d);
      }
    }
  }

  lemma StepKeepsMarked(w: World, e: Event)
    requires w.feed.Valid() && Marked(w.feed)
    ensures Marked(Step(w, e).feed)
  {
    match e
    case Appended(c) => if w.feed.CanAppend(c) { AppendKeepsMarked(w.feed, c); }
    case Retained(cutoff, size) => CleanupKeepsMarked(w.feed, cutoff, size);
    case _ =>
  }

  /** So it is after any run. */
  lemma {:induction false} RunMarked(w: World, events: seq<Event>)
    requires Sound(w) && Marked(w.feed)
    ensures Run(w, events).feed.Valid() && Marked(Run(w, events).feed)
  {
    NoSilentGap(w, events);
    if events != [] {
      RunMarked(w, events[..|events| - 1]);
      StepKeepsMarked(Run(w, events[..|events| - 1]), events[|events| - 1]);
    }
  }

  // ----- the verdict on a cursor -----

  lemma TailOfLog(f: Feed, table: string)
    requires f.Valid() && Marked(f)
    ensures Tail(f.log, table) == Max(f.ChangeTail(table), f.Watermark(table))
  {
    AliveAre(f.log, f.dead);
    TailFacts(f.log, table);
    TailFacts(f.Rows(), table);
    TailMonotone(f.Rows(), f.log, table);
    if Tail(f.log, table) > 0 {
      var c :| c in f.log && c.tableId == table && c.sequence == Tail(f.log, table);
      assert c in f.Rows() || c.sequence in f.dead;
    }
  }

  /** Main result: the verdict on a cursor is exact. It is invalid when it lies beyond everything ever logged for the table,
      expired when a change after it has been deleted, and answered otherwise. */
  lemma PullExactly(f: Feed, table: string, after: nat, limit: nat)
    requires f.Valid() && Marked(f)
    ensures f.Pull(table, after, limit) == InvalidCursor <==>
            after > 0 && forall c | c in f.log && c.tableId == table :: c.sequence < after
    ensures f.Pull(table, after, limit) == CursorExpired <==> exists c | Deleted(f, table, c) :: c.sequence > after
    ensures f.Pull(table, after, limit).Page? ==> f.Pull(table, after, limit) == PageOf(f.log, table, after, limit)
  {
    TailOfLog(f, table);
    TailFacts(f.log, table);
    if f.Watermark(table) > after {
      var c :| Deleted(f, table, c) && c.sequence == f.Watermark(table);
    }
    if f.Pull(table, after, limit).Page? {
      PullReadsLog(f, table, after, limit);
    }
  }
}

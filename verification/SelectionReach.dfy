/** Selections over the tables that the writers really leave behind, and an instance of everything assumed about library
    code. */
module SelectionReach {
  import opened Results
  import opened Schema
  import opened Values
  import opened FilterTexts
  import opened RecordWhere
  import opened SelectionPlans
  import opened SelectionScopes
  import opened SelectionCoherence
  import opened SelectionReplan
  import opened SelectionMeaning
  import Mutations
  import StoredValues
  import IndexShapes

  /** The table as the scopes see it is the one the writers left. */
  ghost predicate Shows(w: World, table: string, s: Mutations.State) {
    && FieldsOf(w.tables, table) == s.fields
    && forall id | id in w.rows && w.rows[id].tableId == table :: id in s.rows && s.rows[id] == w.rows[id]
  }

  lemma ShownShaped(w: World, table: string, t: Mutations.State)
    requires IndexShapes.AllShaped(t) && Shows(w, table, t)
    ensures ShapedRows(FieldsOf(w.tables, table), w.rows, table)
  {
  }

  /** Over tables reached by mutations, moves, duplications and conversions every live scope with a safe root holds exactly
      the active records its stored query wants now: those that satisfy the filter in force and contain the search. */
  lemma ReachableScopesAreExact(x: Reader, w: World, events: seq<Event>, u: World, id: string,
                                env: Mutations.Environment, s: Mutations.State, ws: seq<IndexShapes.Writer>, t: Mutations.State)
    requires Encodes(x.enc) && Settled(x) && Coherent(x, w) && Replans(x, w) && LegalRun(x, w, events) && u == Run(x, w, events)
    requires id in u.scopes && InForce(u.scopes[id], u.now) && SafeRoot(u.scopes[id].fingerprint.filter)
    requires IndexShapes.Reached(env, s, u.scopes[id].table, ws, t) && Shows(u, u.scopes[id].table, t)
    ensures HoldsWanted(x, u, u.scopes[id].table, u.scopes[id].query, u.scopes[id].members)
    ensures SelectedByQuery(x, u, u.scopes[id].table, u.scopes[id].query) == Some(u.scopes[id].members)
  {
    IndexShapes.ReachShaped(env, s, u.scopes[id].table, ws, t);
    ShownShaped(u, u.scopes[id].table, t);
    StoredQueryIsExact(x, w, events, id);
    LiveScopesHoldWanted(x, w, events, u, id);
  }

  // ----- the assumptions have an instance -----

  function Ones(n: nat): (r: string)
    ensures |r| == n
  {
    seq(n, i => '1')
  }

  /** Library code that does as little as the laws allow. */
  function PlainLibrary(): Library {
    Library(s => s, s => if 1 <= |s| <= 100 then Some(s) else None, s => true, s => true, s => true, s => s != "",
            (n: nat) => Ones(n), s => |s|, s => |s| == 10, s => true, s => s, s => s, s => None, x => "",
            v => Some(v), (v, n) => Some(v))
  }

  function PlainReader(): Reader {
    Reader(PlainLibrary(), node => WriteNode(node), s => s)
  }

  /** The laws assumed of library code hold together, and an empty store meets every invariant: nothing proved here is
      about no system at all. */
  lemma AssumptionsAreMet(tables: map<string, TableState>)
    ensures var x, w := PlainReader(), World(tables, map[], map[], 0);
            Encodes(x.enc) && Settled(x) && Lawful(x.lib) && Coherent(x, w) && Replans(x, w)
    ensures var env := Mutations.Environment(PlainLibrary(), (n: nat) => Ones(n), (cells, fields) => true);
            var s := Mutations.State(map[], map[], [], 0, 0);
            && Mutations.FreshIds(env) && Mutations.Counted(env, s)
            && StoredValues.Sound(env, s) && IndexShapes.ReflectsAll(s)
  {
    WriteNodeEncodes();
    forall m: nat, n: nat | m != n ensures Ones(m) != Ones(n) {
      assert |Ones(m)| != |Ones(n)|;
    }
  }
}

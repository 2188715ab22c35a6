/** The event store of the engine, with the behaviour test/engine-test.py
    asserts of `insert_events`, `get_events`, `delete_events`,
    `find_eventids` and `find_events`, its interning tables and its event
    cache.

    Stored events are kept in id order. Every attribute value an event
    refers to is interned: each table maps a value to a row id. Deleting
    events drops the rows no stored event refers to any more. The cache maps
    ids to stored events and is only ever a copy of what is stored. */
module Engine {
  import opened Wrappers
  import opened Datamodel
  import Templates
  import Ranking
  import Extensions
  import Moves

  // ---------------------------------------------------------------------
  // Validation

  /** Why `_insert_event` refuses an event; `insert_events` reports each of
      these as id 0. */
  datatype InsertError = PredefinedId | NoSubjects | IllegalMove | IllegalCurrentUri | Blocked

  /** The checks made before the hooks run: no preassigned id, at least one
      subject, a move event's subjects actually move, and other events'
      subjects have no current URI or their own URI as current URI. */
  function Validate(ev: Event): (r: Outcome<InsertError>)
    ensures r == Pass <==>
      && ev.id == 0 && ev.subjects != []
      && (IsMove(ev) ==> forall k :: 0 <= k < |ev.subjects| ==> ev.subjects[k].uri != ev.subjects[k].currentUri)
      && (!IsMove(ev) ==> forall k :: 0 <= k < |ev.subjects| ==> ev.subjects[k].currentUri in {"", ev.subjects[k].uri})
    ensures ev.id != 0 ==> r == Fail(PredefinedId)
    ensures ev.id == 0 && ev.subjects == [] ==> r == Fail(NoSubjects)
  {
    if ev.id != 0 then Fail(PredefinedId)
    else if ev.subjects == [] then Fail(NoSubjects)
    else if IsMove(ev) && exists k :: 0 <= k < |ev.subjects| && ev.subjects[k].uri == ev.subjects[k].currentUri then
      Fail(IllegalMove)
    else if !IsMove(ev) && exists k :: 0 <= k < |ev.subjects| && ev.subjects[k].currentUri !in {"", ev.subjects[k].uri} then
      Fail(IllegalCurrentUri)
    else Pass
  }

  function FillCurrentUri(s: Subject): Subject
  {
    if s.currentUri == "" then s.(currentUri := s.uri) else s
  }

  /** The defaults the engine fills in: the current time for a missing
      timestamp, and on events other than moves the URI as current URI. */
  function Normalize(ev: Event, now: int): (r: Event)
    ensures r.timestamp.Some? && TimeOf(r) == (if ev.timestamp.Some? then ev.timestamp.value else now)
    ensures |r.subjects| == |ev.subjects|
    ensures forall k :: 0 <= k < |r.subjects| ==>
      r.subjects[k] == ev.subjects[k].(currentUri := r.subjects[k].currentUri)
      && r.subjects[k].currentUri == (if IsMove(ev) || ev.subjects[k].currentUri != "" then ev.subjects[k].currentUri else ev.subjects[k].uri)
    ensures r.(timestamp := ev.timestamp, subjects := ev.subjects) == ev
  {
    var t := if ev.timestamp.Some? then ev.timestamp else Some(now);
    if IsMove(ev) then ev.(timestamp := t)
    else ev.(timestamp := t, subjects := seq(|ev.subjects|, k requires 0 <= k < |ev.subjects| => FillCurrentUri(ev.subjects[k])))
  }

  /** The event that gets stored under `id`, or why none is: the checks,
      the defaults, then the insert hooks, which see the new id. A hook that
      blocks the event, or returns it without subjects, stops the insert. */
  function Prepare(hooks: seq<Extensions.ExtensionClass>, ev: Event, id: nat, now: int): (r: Result<Event, InsertError>)
    ensures Validate(ev).Fail? ==> r == Err(Validate(ev).error)
    ensures r.Ok? ==> r.value.id == id && r.value.subjects != []
    ensures hooks == [] && Validate(ev).Pass? ==> r == Ok(Normalize(ev, now).(id := id))
  {
    match Validate(ev)
    case Fail(err) => Err(err)
    case Pass =>
      var hooked := Extensions.InsertChain(hooks, Normalize(ev, now).(id := id));
      if hooked.None? then Err(Blocked)
      else if hooked.value.subjects == [] then Err(NoSubjects)
      else Ok(hooked.value.(id := id))
  }

  // ---------------------------------------------------------------------
  // Stored events

  /** Ids are positive, at most the last id handed out, and increasing. */
  predicate IdsIncreasing(events: seq<Event>, lastId: nat)
  {
    && (forall i :: 0 <= i < |events| ==> 0 < events[i].id <= lastId)
    && (forall i, j :: 0 <= i < j < |events| ==> events[i].id < events[j].id)
  }

  /** The stored event with that id, if any. */
  function Lookup(events: seq<Event>, id: nat): (r: Option<Event>)
    ensures r.Some? ==> r.value in events && r.value.id == id
    ensures r.None? ==> forall i :: 0 <= i < |events| ==> events[i].id != id
  {
    if events == [] then None
    else if events[0].id == id then Some(events[0])
    else Lookup(events[1..], id)
  }

  lemma {:induction false} LookupStored(events: seq<Event>, lastId: nat, e: Event)
    requires IdsIncreasing(events, lastId) && e in events
    ensures Lookup(events, e.id) == Some(e)
  {
    if events[0] != e {
      assert e in events[1..];
      assert IdsIncreasing(events[1..], lastId);
      LookupStored(events[1..], lastId, e);
    }
  }

  /** The duplicate of `c` already stored: an event equal to it but for the
      id. */
  function FindDuplicate(events: seq<Event>, c: Event): (r: Option<nat>)
    ensures r.Some? ==> exists e :: e in events && e.id == r.value && e.(id := 0) == c.(id := 0)
    ensures r.None? <==> forall e :: e in events ==> e.(id := 0) != c.(id := 0)
  {
    if events == [] then None
    else if events[0].(id := 0) == c.(id := 0) then Some(events[0].id)
    else FindDuplicate(events[1..], c)
  }

  /** The stored events whose id is not in `ids`, in their order. */
  function Remove(events: seq<Event>, ids: set<nat>): (r: seq<Event>)
    ensures forall e :: e in r <==> e in events && e.id !in ids
    ensures |r| <= |events|
  {
    if events == [] then []
    else
      var init, last := events[..|events| - 1], events[|events| - 1];
      assert events == init + [last];
      Remove(init, ids) + (if last.id in ids then [] else [last])
  }

  lemma {:induction false} RemoveKeepsOrder(events: seq<Event>, lastId: nat, ids: set<nat>)
    requires IdsIncreasing(events, lastId)
    ensures IdsIncreasing(Remove(events, ids), lastId)
  {
    if events != [] {
      var init, last := events[..|events| - 1], events[|events| - 1];
      assert events == init + [last];
      assert IdsIncreasing(init, lastId);
      RemoveKeepsOrder(init, lastId, ids);
      forall e | e in Remove(init, ids) ensures e.id < last.id {
        assert e in init;
      }
    }
  }

  // ---------------------------------------------------------------------
  // Interning tables

  /** The tables the engine interns attribute values in: interpretations and
      manifestations of events and subjects, actors, URIs (subject URIs,
      current URIs and origins, and event origins), mimetypes and subject
      texts. Payloads have a table of their own. */
  datatype Table = InterpretationTable | ManifestationTable | ActorTable | UriTable | MimetypeTable | TextTable

  function SubjectValues(s: Subject, d: Table): seq<string>
  {
    match d
    case InterpretationTable => [s.interpretation]
    case ManifestationTable => [s.manifestation]
    case ActorTable => []
    case UriTable => [s.uri, s.currentUri, s.origin]
    case MimetypeTable => [s.mimetype]
    case TextTable => [s.text]
  }

  function SubjectsValues(ss: seq<Subject>, d: Table): (r: seq<string>)
    ensures forall v :: v in r <==> exists s :: s in ss && v in SubjectValues(s, d)
  {
    if ss == [] then []
    else
      var init, last := ss[..|ss| - 1], ss[|ss| - 1];
      assert ss == init + [last];
      SubjectsValues(init, d) + SubjectValues(last, d)
  }

  function EventValues(e: Event, d: Table): seq<string>
  {
    match d
    case InterpretationTable => [e.interpretation]
    case ManifestationTable => [e.manifestation]
    case ActorTable => [e.actor]
    case UriTable => [e.origin]
    case MimetypeTable => []
    case TextTable => []
  }

  /** The values of table `d` that event `e` refers to, in the order they
      are interned; an empty string is an unset field and is not interned. */
  function Values(e: Event, d: Table): seq<string>
  {
    EventValues(e, d) + SubjectsValues(e.subjects, d)
  }

  /** The values of table `d` that `e` sets, the empty string being an unset
      field. */
  function ValueSet(e: Event, d: Table): set<string>
  {
    set v | v in Values(e, d) && v != ""
  }

  /** A row key: a value and the table it is interned in. The six tables
      are kept as one map from these keys to row ids. */
  type Entry = (Table, string)

  function Tagged(d: Table, vs: seq<string>): (r: seq<Entry>)
    ensures forall p :: p in r <==> p.0 == d && p.1 in vs
  {
    if vs == [] then []
    else
      var init, last := vs[..|vs| - 1], vs[|vs| - 1];
      assert vs == init + [last];
      Tagged(d, init) + [(d, last)]
  }

  /** The order in which the engine fills the tables of an event. */
  const TableOrder: seq<Table> :=
    [InterpretationTable, ManifestationTable, ActorTable, UriTable, MimetypeTable, TextTable]

  /** Every value of `e`, tagged with its table, table after table in the
      order the engine fills them. */
  function Entries(e: Event): seq<Entry>
  {
    EntriesIn(e, TableOrder)
  }

  function EntriesIn(e: Event, ds: seq<Table>): (r: seq<Entry>)
    ensures forall p :: p in r <==> p.0 in ds && p.1 in Values(e, p.0)
  {
    if ds == [] then [] else Tagged(ds[0], Values(e, ds[0])) + EntriesIn(e, ds[1..])
  }

  /** The entries of `es` that get a row: all but those of an empty string. */
  function NonEmptyEntries(es: seq<Entry>): set<Entry>
  {
    set p | p in es && p.1 != ""
  }

  /** The rows event `e` needs. */
  function EntrySet(e: Event): set<Entry>
  {
    NonEmptyEntries(Entries(e))
  }

  /** An event needs a row for exactly the values it sets, each in the
      table of its field. */
  lemma EntrySetByTable(e: Event, d: Table, v: string)
    ensures (d, v) in EntrySet(e) <==> v in ValueSet(e, d)
  {
    assert d in TableOrder by {
      match d
      case InterpretationTable =>
      case ManifestationTable =>
      case ActorTable =>
      case UriTable =>
      case MimetypeTable =>
      case TextTable =>
    }
  }

  function PayloadSet(e: Event): set<seq<bv8>>
  {
    if e.payload == [] then {} else {e.payload}
  }

  /** Everything `f` gives for some stored event. */
  function Gather<T>(f: Event -> set<T>, events: seq<Event>): set<T>
  {
    if events == [] then {} else Gather(f, events[..|events| - 1]) + f(events[|events| - 1])
  }

  /** The rows the stored events refer to. */
  function Referenced(events: seq<Event>): set<Entry>
  {
    Gather(EntrySet, events)
  }

  function Payloads(events: seq<Event>): set<seq<bv8>>
  {
    Gather(PayloadSet, events)
  }

  lemma {:induction false} GatherAppend<T>(f: Event -> set<T>, a: seq<Event>, b: seq<Event>)
    ensures Gather(f, a + b) == Gather(f, a) + Gather(f, b)
    decreases |b|
  {
    if b == [] {
      assert a + b == a;
    } else {
      assert (a + b)[..|a + b| - 1] == a + b[..|b| - 1];
      GatherAppend(f, a, b[..|b| - 1]);
    }
  }

  lemma {:induction false} GatherMember<T>(f: Event -> set<T>, events: seq<Event>, x: T)
    ensures x in Gather(f, events) <==> exists i :: 0 <= i < |events| && x in f(events[i])
  {
    if events != [] {
      var init := events[..|events| - 1];
      GatherMember(f, init, x);
      if x in Gather(f, init) {
        var i :| 0 <= i < |init| && x in f(init[i]);
        assert events[i] == init[i];
      }
      if i :| 0 <= i < |events| && x in f(events[i]) {
        if i < |init| {
          assert events[i] == init[i];
        }
      }
    }
  }

  /** Events drawn from `b` refer to nothing `b` does not. */
  lemma GatherSubset<T>(f: Event -> set<T>, a: seq<Event>, b: seq<Event>)
    requires forall e :: e in a ==> e in b
    ensures Gather(f, a) <= Gather(f, b)
  {
    forall x | x in Gather(f, a) ensures x in Gather(f, b) {
      GatherMember(f, a, x);
      var i :| 0 <= i < |a| && x in f(a[i]);
      assert a[i] in a;
      var j :| 0 <= j < |b| && b[j] == a[i];
      GatherMember(f, b, x);
    }
  }

  /** `m` cut down to the keys in `keep`. */
  function Restrict<K, V>(m: map<K, V>, keep: set<K>): (r: map<K, V>)
    ensures r.Keys == m.Keys * keep
    ensures forall k :: k in r ==> r[k] == m[k]
  {
    map k | k in m && k in keep :: m[k]
  }

  predicate Injective<K>(m: map<K, nat>)
  {
    forall a, b :: a in m && b in m && m[a] == m[b] ==> a == b
  }

  /** Distinct keys have distinct rows, all below `nextRow`. */
  predicate RowsFresh<K>(m: map<K, nat>, nextRow: nat)
  {
    Injective(m) && forall k :: k in m ==> m[k] < nextRow
  }

  /** Rows are numbered table by table: distinct values of one table have
      distinct rows, all below that table's next row. */
  predicate RowsNumbered(rows: map<Entry, nat>, nextRow: map<Table, nat>)
  {
    && (forall p :: p in rows ==> p.0 in nextRow && rows[p] < nextRow[p.0])
    && (forall p, q :: p in rows && q in rows && p.0 == q.0 && rows[p] == rows[q] ==> p == q)
  }

  /** The values of table `d` that have a row in `rows'` and none in `rows`. */
  function NewRows(d: Table, rows: map<Entry, nat>, rows': map<Entry, nat>): set<Entry>
  {
    set p | p in rows' && p !in rows && p.0 == d
  }

  /** Rows added in two steps are those of the first step and those of the
      second, which are distinct. */
  lemma NewRowsCompose(d: Table, r0: map<Entry, nat>, r1: map<Entry, nat>, r2: map<Entry, nat>)
    requires r0.Keys <= r1.Keys <= r2.Keys
    ensures |NewRows(d, r0, r2)| == |NewRows(d, r0, r1)| + |NewRows(d, r1, r2)|
  {
    assert NewRows(d, r0, r2) == NewRows(d, r0, r1) + NewRows(d, r1, r2);
    assert NewRows(d, r0, r1) !! NewRows(d, r1, r2);
  }

  /** A value that had no row is the one new value of its table. */
  lemma NewRowsAdd(d: Table, rows: map<Entry, nat>, p: Entry, row: nat)
    requires p !in rows
    ensures |NewRows(d, rows, rows[p := row])| == if d == p.0 then 1 else 0
  {
    assert NewRows(d, rows, rows[p := row]) == if d == p.0 then {p} else {};
  }

  /** Going from `rows` to `rows'`, every table's counter has advanced by
      the number of its new values. */
  predicate Counted(rows: map<Entry, nat>, nextRow: map<Table, nat>, rows': map<Entry, nat>, nextRow': map<Table, nat>)
  {
    forall d: Table :: CountedIn(d, rows, nextRow, rows', nextRow')
  }

  /** The counter of table `d` has advanced by the number of its new values. */
  predicate CountedIn(d: Table, rows: map<Entry, nat>, nextRow: map<Table, nat>, rows': map<Entry, nat>, nextRow': map<Table, nat>)
  {
    d in nextRow && d in nextRow' && nextRow'[d] == nextRow[d] + |NewRows(d, rows, rows')|
  }

  /** Row counters advanced in two steps, each by the rows it added, have
      advanced by the rows added in both. */
  lemma CountersCompose(r0: map<Entry, nat>, r1: map<Entry, nat>, r2: map<Entry, nat>,
                        n0: map<Table, nat>, n1: map<Table, nat>, n2: map<Table, nat>)
    requires r0.Keys <= r1.Keys <= r2.Keys
    requires Counted(r0, n0, r1, n1) && Counted(r1, n1, r2, n2)
    ensures Counted(r0, n0, r2, n2)
  {
    forall d: Table ensures CountedIn(d, r0, n0, r2, n2) {
      assert CountedIn(d, r0, n0, r1, n1) && CountedIn(d, r1, n1, r2, n2);
      NewRowsCompose(d, r0, r1, r2);
    }
  }

  /** Unchanged rows leave every counter where it was. */
  lemma NothingCounted(rows: map<Entry, nat>, nextRow: map<Table, nat>)
    requires forall d: Table :: d in nextRow
    ensures Counted(rows, nextRow, rows, nextRow)
  {
    forall d: Table ensures CountedIn(d, rows, nextRow, rows, nextRow) {
      NoNewRows(d, rows, rows);
    }
  }

  /** Nothing is new when no row was added. */
  lemma NoNewRows(d: Table, rows: map<Entry, nat>, rows': map<Entry, nat>)
    requires rows'.Keys <= rows.Keys
    ensures |NewRows(d, rows, rows')| == 0
  {
    assert NewRows(d, rows, rows') == {};
  }

  /** Only the current URIs a move writes are new to the URI table, and no
      other table sees a new value. */
  lemma MoveReferences(events: seq<Event>, m: Event)
    ensures Referenced(Moves.ApplyMove(events, m)) <= Referenced(events) + EntrySet(m)
    ensures Payloads(Moves.ApplyMove(events, m)) == Payloads(events)
  {
    var r := Moves.ApplyMove(events, m);
    Moves.MoveOnlyEarlier(events, TimeOf(m), m.subjects);
    forall i | 0 <= i < |r|
      ensures EntrySet(r[i]) <= EntrySet(events[i]) + EntrySet(m)
      ensures PayloadSet(r[i]) == PayloadSet(events[i])
    {
      MovedEventReferences(events, m, i);
    }
    GatherPointwise(EntrySet, events, r, EntrySet(m));
    GatherPointwise(PayloadSet, events, r, {});
    GatherPointwise(PayloadSet, r, events, {});
  }

  /** Gathering over events that each give no more than their counterpart
      plus `extra` gives no more than the counterparts plus `extra`. */
  lemma GatherPointwise<T>(f: Event -> set<T>, a: seq<Event>, b: seq<Event>, extra: set<T>)
    requires |a| == |b|
    requires forall i :: 0 <= i < |b| ==> f(b[i]) <= f(a[i]) + extra
    ensures Gather(f, b) <= Gather(f, a) + extra
  {
    forall x | x in Gather(f, b) ensures x in Gather(f, a) + extra {
      GatherMember(f, b, x);
      GatherMember(f, a, x);
    }
  }

  lemma MovedEventReferences(events: seq<Event>, m: Event, i: nat)
    requires i < |events|
    requires Moves.SameButCurrentUris(events[i], Moves.ApplyMove(events, m)[i])
    ensures EntrySet(Moves.ApplyMove(events, m)[i]) <= EntrySet(events[i]) + EntrySet(m)
    ensures PayloadSet(Moves.ApplyMove(events, m)[i]) == PayloadSet(events[i])
  {
    var e' := Moves.ApplyMove(events, m)[i];
    forall p | p in EntrySet(e') ensures p in EntrySet(events[i]) + EntrySet(m) {
      EntrySetByTable(e', p.0, p.1);
      EntrySetByTable(events[i], p.0, p.1);
      EntrySetByTable(m, p.0, p.1);
      MovedValues(events, m, p.0, i);
    }
  }

  lemma MovedValues(events: seq<Event>, m: Event, d: Table, i: nat)
    requires i < |events|
    requires Moves.SameButCurrentUris(events[i], Moves.ApplyMove(events, m)[i])
    ensures ValueSet(Moves.ApplyMove(events, m)[i], d) <= ValueSet(events[i], d) + ValueSet(m, d)
  {
    var e, e' := events[i], Moves.ApplyMove(events, m)[i];
    forall v | v in ValueSet(e', d) ensures v in ValueSet(e, d) + ValueSet(m, d) {
      if v in SubjectsValues(e'.subjects, d) {
        var s' :| s' in e'.subjects && v in SubjectValues(s', d);
        var k :| 0 <= k < |e'.subjects| && e'.subjects[k] == s';
        var s := e.subjects[k];
        if d == UriTable && v == s'.currentUri && v != s.currentUri {
          MovedUriIsMoveTarget(events, TimeOf(m), m.subjects, i, k);
          var j :| 0 <= j < |m.subjects| && m.subjects[j].currentUri == v;
          assert v in SubjectValues(m.subjects[j], d);
          assert m.subjects[j] in m.subjects;
          assert v in Values(m, d);
        } else {
          assert v in SubjectValues(s, d);
          assert s in e.subjects;
          assert v in Values(e, d);
        }
      } else {
        assert e'.(subjects := e.subjects) == e;
        assert v in Values(e, d);
      }
    }
  }

  /** A current URI that a move changed is the new location of one of the
      move's subjects. */
  lemma {:induction false} MovedUriIsMoveTarget(events: seq<Event>, t: int, moved: seq<Subject>, i: nat, k: nat)
    requires i < |events| && k < |events[i].subjects|
    ensures var r := Moves.ApplySubjects(events, t, moved);
      r[i].subjects[k].currentUri == events[i].subjects[k].currentUri
      || exists j :: 0 <= j < |moved| && moved[j].currentUri == r[i].subjects[k].currentUri
    decreases |moved|
  {
    if moved != [] {
      var step := Moves.Rewrite(events, t, moved[0].uri, moved[0].currentUri);
      assert step[i] == Moves.RewriteEvent(events[i], t, moved[0].uri, moved[0].currentUri);
      MovedUriIsMoveTarget(step, t, moved[1..], i, k);
      var r := Moves.ApplySubjects(events, t, moved);
      assert r == Moves.ApplySubjects(step, t, moved[1..]);
      if r[i].subjects[k].currentUri != step[i].subjects[k].currentUri {
        var j :| 0 <= j < |moved[1..]| && moved[1..][j].currentUri == r[i].subjects[k].currentUri;
        assert moved[j + 1] == moved[1..][j];
      }
    }
  }

  // ---------------------------------------------------------------------
  // Queries

  /** The events `keep` accepts, in their order. */
  function Filter(keep: Event -> bool, events: seq<Event>): (r: seq<Event>)
    ensures forall e :: e in r <==> e in events && keep(e)
    ensures |r| <= |events|
  {
    if events == [] then []
    else
      var init, last := events[..|events| - 1], events[|events| - 1];
      assert events == init + [last];
      Filter(keep, init) + (if keep(last) then [last] else [])
  }

  /** The test a query puts on one stored event. */
  function Selector(ont: Templates.Ontology, mounted: set<string>, q: Templates.Query): Event -> bool
  {
    e => Templates.QueryMatches(ont, mounted, q, e)
  }

  /** The stored events a query selects, in id order. */
  function Matching(ont: Templates.Ontology, mounted: set<string>, q: Templates.Query, events: seq<Event>): seq<Event>
  {
    Filter(Selector(ont, mounted, q), events)
  }

  lemma {:induction false} FilterKeepsOrder(keep: Event -> bool, events: seq<Event>, lastId: nat)
    requires IdsIncreasing(events, lastId)
    ensures IdsIncreasing(Filter(keep, events), lastId)
  {
    if events != [] {
      var init, last := events[..|events| - 1], events[|events| - 1];
      assert events == init + [last];
      assert IdsIncreasing(init, lastId);
      FilterKeepsOrder(keep, init, lastId);
      var f := Filter(keep, init);
      if keep(last) {
        forall e | e in f ensures e.id < last.id {
          assert e in init;
        }
        AppendGreaterId(f, last, lastId);
      }
    }
  }

  /** Increasing events followed by a stored event with a greater id than
      all of them still have increasing ids. */
  lemma AppendGreaterId(events: seq<Event>, e: Event, lastId: nat)
    requires IdsIncreasing(events, lastId) && 0 < e.id <= lastId
    requires forall x :: x in events ==> x.id < e.id
    ensures IdsIncreasing(events + [e], lastId)
  {
    var r := events + [e];
    forall i, j | 0 <= i < j < |r| ensures r[i].id < r[j].id {
      assert r[i] in events;
    }
  }

  /** Two tests that accept complementary events split the events between
      them. */
  lemma {:induction false} FilterComplement(keep1: Event -> bool, keep2: Event -> bool, events: seq<Event>)
    requires forall e :: e in events ==> (keep1(e) <==> !keep2(e))
    ensures |Filter(keep1, events)| + |Filter(keep2, events)| == |events|
  {
    if events != [] {
      var init := events[..|events| - 1];
      assert forall e :: e in init ==> e in events;
      FilterComplement(keep1, keep2, init);
    }
  }

  /** Ungrouped, `find_eventids` returns every selected event once, and
      only those: as many ids as selected events (up to the limit), each the
      id of a stored event the query selects. */
  lemma FindAllSelected(ont: Templates.Ontology, mounted: set<string>, q: Templates.Query, events: seq<Event>, lastId: nat, o: Ranking.Order, limit: nat)
    requires IdsIncreasing(events, lastId)
    ensures var sel := Matching(ont, mounted, q, events);
      var ids := Ranking.RankedIds(sel, Ranking.ResultType(Ranking.PerEvent, o, false), limit);
      && |ids| == (if limit == 0 || limit >= |sel| then |sel| else limit)
      && (forall id :: id in ids ==> exists e :: e in events && e.id == id && Templates.QueryMatches(ont, mounted, q, e))
    ensures forall id :: id in Ranking.RankedIds(Matching(ont, mounted, q, events), Ranking.ResultType(Ranking.PerEvent, o, false), 0) <==>
      exists e :: e in events && e.id == id && Templates.QueryMatches(ont, mounted, q, e)
  {
    var sel := Matching(ont, mounted, q, events);
    var rt := Ranking.ResultType(Ranking.PerEvent, o, false);
    FilterKeepsOrder(Selector(ont, mounted, q), events, lastId);
    assert Ranking.RankedIds(sel, rt, 0) == Ranking.RankedIds(sel, Ranking.ResultType(Ranking.PerEvent, o, false), 0);
    Ranking.PerEventResult(sel, o);
    Ranking.PerEventKeys(sel);
    Ranking.RankedCorrect(sel, rt, limit);
    var ids := Ranking.RankedIds(sel, rt, limit);
    var r := Ranking.Ranked(sel, rt, limit);
    forall id | id in ids
      ensures exists e :: e in events && e.id == id && Templates.QueryMatches(ont, mounted, q, e)
    {
      var i :| 0 <= i < |ids| && ids[i] == id;
      assert Ranking.Represents(Ranking.KeyFn(rt.grouping), rt.earliest, sel, r[i]);
      assert r[i].rep in sel;
      assert Selector(ont, mounted, q)(r[i].rep);
    }
    forall e | e in events && Templates.QueryMatches(ont, mounted, q, e)
      ensures e in sel
    {
      assert Selector(ont, mounted, q)(e);
    }
  }

  /** A template that sets the actor to `!v` and one that sets it to `v`
      split the stored events between them (`!ge*` and `ge*`,
      test/engine-test.py:791-807). */
  lemma NegatedActorSplits(ont: Templates.Ontology, mounted: set<string>, r: Templates.TimeRange, v: string, events: seq<Event>)
    requires v != "" && v[0] != '!'
    requires forall e :: e in events ==> e.subjects != [] && Templates.InTimeRange(r, TimeOf(e))
    ensures |Matching(ont, mounted, Templates.Query(r, [BlankEvent.(actor := v)], Templates.Any), events)|
      + |Matching(ont, mounted, Templates.Query(r, [BlankEvent.(actor := "!" + v)], Templates.Any), events)| == |events|
  {
    var q1 := Templates.Query(r, [BlankEvent.(actor := v)], Templates.Any);
    var q2 := Templates.Query(r, [BlankEvent.(actor := "!" + v)], Templates.Any);
    forall e | e in events
      ensures Selector(ont, mounted, q1)(e) <==> !Selector(ont, mounted, q2)(e)
    {
      SingleTemplate(ont, mounted, r, BlankEvent.(actor := v), e);
      SingleTemplate(ont, mounted, r, BlankEvent.(actor := "!" + v), e);
      Templates.EventNegationIsComplement(ont, v, e);
    }
    FilterComplement(Selector(ont, mounted, q1), Selector(ont, mounted, q2), events);
  }

  /** With storage unconstrained, a one-template query selects an event in
      range exactly when the template matches it. */
  lemma SingleTemplate(ont: Templates.Ontology, mounted: set<string>, r: Templates.TimeRange, t: Event, e: Event)
    requires Templates.InTimeRange(r, TimeOf(e))
    ensures Templates.QueryMatches(ont, mounted, Templates.Query(r, [t], Templates.Any), e) <==> Templates.TemplateMatches(ont, t, e)
  {
    var q := Templates.Query(r, [t], Templates.Any);
    if Templates.TemplateMatches(ont, t, e) {
      var j :| 0 <= j < |e.subjects| && Templates.TemplateMatchesRow(ont, t, e, j);
      assert q.templates[0] == t;
      assert Templates.AnyTemplateMatchesRow(ont, q.templates, e, j);
    }
  }

  // ---------------------------------------------------------------------
  // Insert and delete on the stored events

  /** The stored events once `c` is inserted: a move event first rewrites
      the earlier events, then `c` is appended. */
  function AfterInsert(events: seq<Event>, c: Event): seq<Event>
  {
    (if IsMove(c) then Moves.ApplyMove(events, c) else events) + [c]
  }

  /** Events with the same ids as increasing stored events, followed by the
      event with the next id, have increasing ids. */
  lemma AppendNextId(events: seq<Event>, stored: seq<Event>, c: Event, lastId: nat)
    requires IdsIncreasing(events, lastId) && c.id == lastId + 1
    requires |stored| == |events| && forall i :: 0 <= i < |stored| ==> stored[i].id == events[i].id
    ensures IdsIncreasing(stored + [c], lastId + 1)
  {
    var r := stored + [c];
    forall i | 0 <= i < |r| ensures 0 < r[i].id <= lastId + 1 {
      if i < |stored| {
        assert r[i].id == events[i].id;
      }
    }
    forall i, j | 0 <= i < j < |r| ensures r[i].id < r[j].id {
      assert r[i].id == events[i].id;
      if j < |stored| {
        assert r[j].id == events[j].id;
      }
    }
  }

  /** A move leaves every stored event with as many subjects as before. */
  lemma MoveKeepsSubjects(events: seq<Event>, m: Event)
    requires forall e :: e in events ==> e.subjects != []
    ensures forall e :: e in Moves.ApplyMove(events, m) ==> e.subjects != []
  {
    var stored := Moves.ApplyMove(events, m);
    forall e' | e' in stored ensures e'.subjects != [] {
      var i :| 0 <= i < |stored| && stored[i] == e';
      assert events[i] in events;
    }
  }

  /** Inserting `c` under the next id keeps the ids increasing and every
      stored event with a subject, and refers to nothing but what was
      referred to before and what `c` itself refers to. */
  lemma InsertKeepsInvariants(events: seq<Event>, c: Event, lastId: nat)
    requires IdsIncreasing(events, lastId) && c.id == lastId + 1 && c.subjects != []
    requires forall e :: e in events ==> e.subjects != []
    ensures IdsIncreasing(AfterInsert(events, c), lastId + 1)
    ensures forall e :: e in AfterInsert(events, c) ==> e.subjects != []
    ensures Referenced(AfterInsert(events, c)) <= Referenced(events) + EntrySet(c)
    ensures Payloads(AfterInsert(events, c)) <= Payloads(events) + PayloadSet(c)
  {
    var stored := if IsMove(c) then Moves.ApplyMove(events, c) else events;
    AppendNextId(events, stored, c, lastId);
    assert [c][..0] == [];
    GatherAppend(EntrySet, stored, [c]);
    GatherAppend(PayloadSet, stored, [c]);
    if IsMove(c) {
      MoveReferences(events, c);
      MoveKeepsSubjects(events, c);
    }
  }

  /** Removing events keeps the ids increasing and refers to nothing new. */
  lemma RemoveKeepsInvariants(events: seq<Event>, ids: set<nat>, lastId: nat)
    requires IdsIncreasing(events, lastId)
    ensures IdsIncreasing(Remove(events, ids), lastId)
    ensures Referenced(Remove(events, ids)) <= Referenced(events)
    ensures Payloads(Remove(events, ids)) <= Payloads(events)
  {
    RemoveKeepsOrder(events, lastId, ids);
    GatherSubset(EntrySet, Remove(events, ids), events);
    GatherSubset(PayloadSet, Remove(events, ids), events);
  }

  /** The cache entries whose event is still stored as it is cached. */
  function StillCurrent(cache: map<nat, Event>, events: seq<Event>): (r: map<nat, Event>)
    ensures forall id :: id in r <==> id in cache && cache[id] in events
    ensures forall id :: id in r ==> r[id] == cache[id]
  {
    Restrict(cache, set id | id in cache && cache[id] in events)
  }

  /** Every id of `ids` other than 0 is the id of a stored event. */
  predicate AllStored(events: seq<Event>, ids: seq<nat>)
  {
    forall k :: 0 <= k < |ids| && ids[k] != 0 ==> Lookup(events, ids[k]).Some?
  }

  /** An insert keeps every stored id: the ids found before are found
      after, and so is the id it reports. */
  lemma StoredIdsSurvive(before: seq<Event>, after: seq<Event>, ids: seq<nat>, id: nat)
    requires |before| <= |after| && forall i :: 0 <= i < |before| ==> after[i].id == before[i].id
    requires AllStored(before, ids) && (id != 0 ==> Lookup(after, id).Some?)
    ensures AllStored(after, ids + [id])
  {
    var ids' := ids + [id];
    forall k | 0 <= k < |ids'| && ids'[k] != 0
      ensures Lookup(after, ids'[k]).Some?
    {
      if k < |ids| {
        var e := Lookup(before, ids[k]).value;
        var i :| 0 <= i < |before| && before[i] == e;
        assert after[i] in after;
      }
    }
  }

  /** A cache of stored events: each entry is the stored event of its id. */
  predicate CacheOf(cache: map<nat, Event>, events: seq<Event>)
  {
    forall id :: id in cache ==> cache[id] in events && cache[id].id == id
  }

  /** Reads `ids` through the cache: a cached event is served as is, any
      other id is looked up and, when found, cached. */
  method ReadThrough(events: seq<Event>, lastId: nat, cache: map<nat, Event>, ids: seq<nat>)
    returns (found: seq<Option<Event>>, c: map<nat, Event>)
    requires IdsIncreasing(events, lastId) && CacheOf(cache, events)
    ensures CacheOf(c, events)
    ensures |found| == |ids|
    ensures forall i :: 0 <= i < |ids| ==> found[i] == Lookup(events, ids[i])
    ensures forall id :: id in cache ==> id in c
    ensures forall i :: 0 <= i < |ids| && found[i].Some? ==> ids[i] in c
  {
    c := cache;
    found := [];
    var i := 0;
    while i < |ids|
      invariant 0 <= i <= |ids| && |found| == i
      invariant forall k :: 0 <= k < i ==> found[k] == Lookup(events, ids[k])
      invariant CacheOf(c, events)
      invariant forall id :: id in cache ==> id in c
      invariant forall k :: 0 <= k < i && found[k].Some? ==> ids[k] in c
    {
      var o;
      o, c := ReadOne(events, lastId, c, ids[i]);
      found := found + [o];
      i := i + 1;
    }
  }

  /** One lookup through the cache: a cached event is the stored one, and a
      stored event that was not cached is cached afterwards. */
  method ReadOne(events: seq<Event>, lastId: nat, cache: map<nat, Event>, id: nat)
    returns (o: Option<Event>, c: map<nat, Event>)
    requires IdsIncreasing(events, lastId) && CacheOf(cache, events)
    ensures o == Lookup(events, id)
    ensures CacheOf(c, events) && cache.Keys <= c.Keys
    ensures o.Some? ==> id in c
  {
    c := cache;
    if id in c {
      o := Some(c[id]);
      assert o == Lookup(events, id) by { LookupStored(events, lastId, c[id]); }
    } else {
      o := Lookup(events, id);
      if o.Some? {
        c := c[id := o.value];
      }
    }
  }

  /** `apply_get_hooks` on each result in turn. */
  function HookEach(hooks: seq<Extensions.ExtensionClass>, found: seq<Option<Event>>): (r: seq<Option<Event>>)
    ensures |r| == |found|
    ensures forall i :: 0 <= i < |found| && found[i].None? ==> r[i].None?
  {
    seq(|found|, i requires 0 <= i < |found| => Extensions.GetChain(hooks, found[i]))
  }

  /** One answer per requested id, in order: the stored event passed
      through the get hooks, or nothing for an unknown id. */
  predicate Answers(hooks: seq<Extensions.ExtensionClass>, events: seq<Event>, ids: seq<nat>, r: seq<Option<Event>>)
  {
    && |r| == |ids|
    && forall i :: 0 <= i < |ids| ==> r[i] == Extensions.GetChain(hooks, Lookup(events, ids[i]))
  }

  /** The cache keeps what it held and gains every requested id that is
      stored. */
  predicate CacheGrows(cache: map<nat, Event>, c: map<nat, Event>, events: seq<Event>, ids: seq<nat>)
  {
    && (forall id :: id in cache ==> id in c)
    && forall i :: 0 <= i < |ids| && Lookup(events, ids[i]).Some? ==> ids[i] in c
  }

  /** `get_events` on the stored events and the cache: each id read
      through the cache, then passed through the get hooks. */
  method Get(hooks: seq<Extensions.ExtensionClass>, events: seq<Event>, lastId: nat, cache: map<nat, Event>, ids: seq<nat>)
    returns (r: seq<Option<Event>>, c: map<nat, Event>)
    requires IdsIncreasing(events, lastId) && CacheOf(cache, events)
    ensures CacheOf(c, events)
    ensures Answers(hooks, events, ids, r)
    ensures CacheGrows(cache, c, events, ids)
  {
    var found;
    found, c := ReadThrough(events, lastId, cache, ids);
    r := HookEach(hooks, found);
  }

  // ---------------------------------------------------------------------
  // The store

  /** The row of entry `p` in its table: its existing row, or else the
      table's next row, which the table then counts as used. */
  method InternRow(rows: map<Entry, nat>, nextRow: map<Table, nat>, p: Entry)
    returns (row: nat, rows': map<Entry, nat>, nextRow': map<Table, nat>)
    requires p.0 in nextRow && RowsNumbered(rows, nextRow)
    ensures nextRow'.Keys == nextRow.Keys && RowsNumbered(rows', nextRow')
    ensures p in rows' && row == rows'[p]
    ensures rows'.Keys == rows.Keys + {p} && forall q :: q in rows ==> rows'[q] == rows[q]
    ensures p in rows ==> rows' == rows && nextRow' == nextRow
    ensures p !in rows ==>
      && row == nextRow[p.0]
      && rows' == rows[p := row]
      && nextRow' == nextRow[p.0 := row + 1]
    ensures forall d :: d in nextRow ==> CountedIn(d, rows, nextRow, rows', nextRow')
  {
    if p in rows {
      row, rows', nextRow' := rows[p], rows, nextRow;
      forall d | d in nextRow ensures CountedIn(d, rows, nextRow, rows', nextRow') {
        NoNewRows(d, rows, rows');
      }
    } else {
      row := nextRow[p.0];
      rows', nextRow' := rows[p := row], nextRow[p.0 := row + 1];
      forall d | d in nextRow ensures CountedIn(d, rows, nextRow, rows', nextRow') {
        NewRowsAdd(d, rows, p, row);
      }
    }
  }

  /** `rows'` and `nextRow'` are `rows` and `nextRow` after interning the
      first `i` entries of `es`. */
  predicate InternedUpTo(rows: map<Entry, nat>, nextRow: map<Table, nat>, es: seq<Entry>, i: nat,
                         rows': map<Entry, nat>, nextRow': map<Table, nat>)
    requires i <= |es|
  {
    && (forall d: Table :: d in nextRow') && RowsNumbered(rows', nextRow')
    && rows'.Keys == rows.Keys + NonEmptyEntries(es[..i])
    && (forall p :: p in rows ==> rows'[p] == rows[p])
    && Counted(rows, nextRow, rows', nextRow')
  }

  /** One more entry interned: the rows gain it when it sets a value, keep
      their ids, and count it. */
  lemma InternedUpToNext(rows0: map<Entry, nat>, nextRow0: map<Table, nat>, es: seq<Entry>, i: nat,
                         rows: map<Entry, nat>, nextRow: map<Table, nat>, rows': map<Entry, nat>, nextRow': map<Table, nat>)
    requires i < |es| && InternedUpTo(rows0, nextRow0, es, i, rows, nextRow)
    requires es[i].1 == "" ==> rows' == rows && nextRow' == nextRow
    requires es[i].1 != "" ==>
      && nextRow'.Keys == nextRow.Keys && RowsNumbered(rows', nextRow')
      && rows'.Keys == rows.Keys + {es[i]} && (forall q :: q in rows ==> rows'[q] == rows[q])
      && (forall d :: d in nextRow ==> CountedIn(d, rows, nextRow, rows', nextRow'))
    ensures InternedUpTo(rows0, nextRow0, es, i + 1, rows', nextRow')
  {
    var added := if es[i].1 != "" then {es[i]} else {};
    assert rows'.Keys == rows.Keys + added;
    NonEmptyEntriesNext(es, i);
    UnionNext(rows0.Keys, rows.Keys, rows'.Keys, NonEmptyEntries(es[..i]), NonEmptyEntries(es[..i + 1]), added);
    KeptRowsCompose(rows0, rows, rows');
    assert Counted(rows, nextRow, rows', nextRow') by {
      if es[i].1 == "" {
        NothingCounted(rows, nextRow);
      } else {
        AllCounted(rows, nextRow, rows', nextRow');
      }
    }
    CountersCompose(rows0, rows, rows', nextRow0, nextRow, nextRow');
  }

  /** Growing by `a` and then by `added` is growing by `a + added`. */
  lemma UnionNext<T>(k0: set<T>, k1: set<T>, k2: set<T>, a: set<T>, b: set<T>, added: set<T>)
    requires k1 == k0 + a && k2 == k1 + added && b == a + added
    ensures k2 == k0 + b
  {
  }

  /** Rows kept by two steps are kept by both together. */
  lemma KeptRowsCompose(r0: map<Entry, nat>, r1: map<Entry, nat>, r2: map<Entry, nat>)
    requires r0.Keys <= r1.Keys <= r2.Keys
    requires forall p :: p in r0 ==> r1[p] == r0[p]
    requires forall p :: p in r1 ==> r2[p] == r1[p]
    ensures forall p :: p in r0 ==> r2[p] == r0[p]
  {
  }

  /** What `InternRow` counts for its own tables, it counts for all. */
  lemma AllCounted(rows: map<Entry, nat>, nextRow: map<Table, nat>, rows': map<Entry, nat>, nextRow': map<Table, nat>)
    requires forall d: Table :: d in nextRow
    requires forall d :: d in nextRow ==> CountedIn(d, rows, nextRow, rows', nextRow')
    ensures Counted(rows, nextRow, rows', nextRow')
  {
  }

  /** The values set by the first `i + 1` entries. */
  lemma NonEmptyEntriesNext(es: seq<Entry>, i: nat)
    requires i < |es|
    ensures NonEmptyEntries(es[..i + 1]) == NonEmptyEntries(es[..i]) + (if es[i].1 != "" then {es[i]} else {})
  {
    assert es[..i + 1] == es[..i] + [es[i]];
  }

  /** Interns entry `es[i]` if it sets a value. */
  method InternNext(ghost rows0: map<Entry, nat>, ghost nextRow0: map<Table, nat>,
                    rows: map<Entry, nat>, nextRow: map<Table, nat>, es: seq<Entry>, i: nat)
    returns (rows': map<Entry, nat>, nextRow': map<Table, nat>)
    requires i < |es| && InternedUpTo(rows0, nextRow0, es, i, rows, nextRow)
    ensures InternedUpTo(rows0, nextRow0, es, i + 1, rows', nextRow')
  {
    rows', nextRow' := rows, nextRow;
    if es[i].1 != "" {
      var _, r, n := InternRow(rows, nextRow, es[i]);
      rows', nextRow' := r, n;
    }
    InternedUpToNext(rows0, nextRow0, es, i, rows, nextRow, rows', nextRow');
  }

  /** Before the first `InternNext`, nothing is interned. */
  lemma InternedNothing(rows: map<Entry, nat>, nextRow: map<Table, nat>, es: seq<Entry>)
    requires (forall d: Table :: d in nextRow) && RowsNumbered(rows, nextRow)
    ensures InternedUpTo(rows, nextRow, es, 0, rows, nextRow)
  {
    assert es[..0] == [];
    NothingCounted(rows, nextRow);
  }

  /** Interns every entry of `es` that sets a value; rows that exist keep
      their ids. */
  method InternEntries(rows: map<Entry, nat>, nextRow: map<Table, nat>, es: seq<Entry>)
    returns (rows': map<Entry, nat>, nextRow': map<Table, nat>)
    requires (forall d: Table :: d in nextRow) && RowsNumbered(rows, nextRow)
    ensures (forall d: Table :: d in nextRow') && RowsNumbered(rows', nextRow')
    ensures rows'.Keys == rows.Keys + NonEmptyEntries(es)
    ensures forall p :: p in rows ==> rows'[p] == rows[p]
    ensures Counted(rows, nextRow, rows', nextRow')
  {
    rows', nextRow' := rows, nextRow;
    InternedNothing(rows, nextRow, es);
    var i := 0;
    while i < |es|
      invariant 0 <= i <= |es|
      invariant InternedUpTo(rows, nextRow, es, i, rows', nextRow')
    {
      rows', nextRow' := InternNext(rows, nextRow, rows', nextRow', es, i);
      i := i + 1;
    }
    assert es[..i] == es;
  }

  /** Interns a non-empty payload. */
  method InternPayload(payloads: map<seq<bv8>, nat>, nextPayloadRow: nat, p: seq<bv8>)
    returns (payloads': map<seq<bv8>, nat>, nextPayloadRow': nat)
    requires RowsFresh(payloads, nextPayloadRow)
    ensures payloads'.Keys == payloads.Keys + (if p == [] then {} else {p})
    ensures forall k :: k in payloads ==> payloads'[k] == payloads[k]
    ensures RowsFresh(payloads', nextPayloadRow')
    ensures nextPayloadRow' == nextPayloadRow + (|payloads'| - |payloads|)
  {
    if p != [] && p !in payloads {
      payloads', nextPayloadRow' := payloads[p := nextPayloadRow], nextPayloadRow + 1;
    } else {
      payloads', nextPayloadRow' := payloads, nextPayloadRow;
    }
  }

  /** The row counters of empty tables. */
  function EmptyCounters(): (m: map<Table, nat>)
    ensures forall d: Table :: d in m && m[d] == 0
  {
    var m := map[InterpretationTable := 0, ManifestationTable := 0, ActorTable := 0,
                 UriTable := 0, MimetypeTable := 0, TextTable := 0];
    EveryTableCounted(m);
    m
  }

  lemma EveryTableCounted(m: map<Table, nat>)
    requires InterpretationTable in m && ManifestationTable in m && ActorTable in m
    requires UriTable in m && MimetypeTable in m && TextTable in m
    ensures forall d: Table :: d in m
  {
    forall d: Table ensures d in m {
      match d
      case InterpretationTable =>
      case ManifestationTable =>
      case ActorTable =>
      case UriTable =>
      case MimetypeTable =>
      case TextTable =>
    }
  }

  ghost predicate TablesOf(events: seq<Event>, rows: map<Entry, nat>, nextRow: map<Table, nat>,
                           payloads: map<seq<bv8>, nat>, nextPayloadRow: nat)
  {
    && (forall d: Table :: d in nextRow)
    && Referenced(events) <= rows.Keys
    && RowsNumbered(rows, nextRow)
    && Payloads(events) <= payloads.Keys && RowsFresh(payloads, nextPayloadRow)
  }

  ghost predicate StoreInvariant(events: seq<Event>, lastId: nat, rows: map<Entry, nat>, nextRow: map<Table, nat>,
                                 payloads: map<seq<bv8>, nat>, nextPayloadRow: nat, cache: map<nat, Event>)
  {
    && IdsIncreasing(events, lastId)
    && (forall e :: e in events ==> e.subjects != [])
    && TablesOf(events, rows, nextRow, payloads, nextPayloadRow)
    && CacheOf(cache, events)
  }

  /** The rows after storing the events `stored`: their values gain rows,
      existing rows keep their ids, and every table's counter advances by
      the rows added to it. */
  predicate RowsGrow(rows: map<Entry, nat>, nextRow: map<Table, nat>, rows': map<Entry, nat>, nextRow': map<Table, nat>,
                     stored: seq<Event>)
  {
    && rows'.Keys == rows.Keys + Referenced(stored)
    && (forall k :: k in rows ==> rows'[k] == rows[k])
    && Counted(rows, nextRow, rows', nextRow')
  }

  /** The payloads after storing the events `stored`: theirs gain rows,
      existing ones keep their ids, and the counter advances by one per new
      payload. */
  predicate PayloadsGrow(payloads: map<seq<bv8>, nat>, nextPayloadRow: nat,
                         payloads': map<seq<bv8>, nat>, nextPayloadRow': nat, stored: seq<Event>)
  {
    && payloads'.Keys == payloads.Keys + Payloads(stored)
    && (forall k :: k in payloads ==> payloads'[k] == payloads[k])
    && nextPayloadRow' == nextPayloadRow + (|payloads'| - |payloads|)
  }

  /** The cache keeps only entries it had, unchanged. */
  predicate CacheShrinks(cache: map<nat, Event>, cache': map<nat, Event>)
  {
    forall id :: id in cache' ==> id in cache && cache'[id] == cache[id]
  }

  /** The tables and the cache of the store, as a value. */
  datatype TableState = TableState(rows: map<Entry, nat>, nextRow: map<Table, nat>, payloads: map<seq<bv8>, nat>,
                                   nextPayloadRow: nat, cache: map<nat, Event>)

  /** From the tables and cache `t` to `t'` by storing `stored`; storing
      nothing leaves the cache as it was. */
  predicate TablesGrow(t: TableState, t': TableState, stored: seq<Event>)
  {
    && RowsGrow(t.rows, t.nextRow, t'.rows, t'.nextRow, stored)
    && PayloadsGrow(t.payloads, t.nextPayloadRow, t'.payloads, t'.nextPayloadRow, stored)
    && CacheShrinks(t.cache, t'.cache)
    && (stored == [] ==> t'.cache == t.cache)
  }

  /** Storing nothing leaves the tables and the cache as they were. */
  lemma NothingStored(t: TableState, t': TableState)
    requires forall d: Table :: d in t.nextRow && d in t'.nextRow
    requires TablesGrow(t, t', [])
    ensures t' == t
  {
    NoRowsStored(t.rows, t.nextRow, t'.rows, t'.nextRow);
    NoPayloadsStored(t.payloads, t.nextPayloadRow, t'.payloads, t'.nextPayloadRow);
  }

  lemma NoRowsStored(rows: map<Entry, nat>, nextRow: map<Table, nat>, rows': map<Entry, nat>, nextRow': map<Table, nat>)
    requires forall d: Table :: d in nextRow && d in nextRow'
    requires RowsGrow(rows, nextRow, rows', nextRow', [])
    ensures rows' == rows && nextRow' == nextRow
  {
    assert rows' == rows;
    forall d: Table ensures nextRow'[d] == nextRow[d] {
      assert CountedIn(d, rows, nextRow, rows', nextRow');
      NoNewRows(d, rows, rows');
    }
  }

  lemma NoPayloadsStored(payloads: map<seq<bv8>, nat>, nextPayloadRow: nat, payloads': map<seq<bv8>, nat>, nextPayloadRow': nat)
    requires PayloadsGrow(payloads, nextPayloadRow, payloads', nextPayloadRow', [])
    ensures payloads' == payloads && nextPayloadRow' == nextPayloadRow
  {
    assert payloads' == payloads;
  }

  /** The rows and payloads one stored event needs. */
  lemma StoredOne(c: Event)
    ensures Referenced([c]) == EntrySet(c) && Payloads([c]) == PayloadSet(c)
  {
    assert [c][..0] == [];
    assert Gather(EntrySet, [c]) == Gather(EntrySet, []) + EntrySet(c);
    assert Gather(PayloadSet, [c]) == Gather(PayloadSet, []) + PayloadSet(c);
  }

  /** Storing nothing leaves the tables as they are. */
  lemma TablesKept(t: TableState)
    requires forall d: Table :: d in t.nextRow
    ensures TablesGrow(t, t, [])
  {
    NothingCounted(t.rows, t.nextRow);
  }

  lemma RowsGrowCompose(rows0: map<Entry, nat>, nextRow0: map<Table, nat>, rows1: map<Entry, nat>, nextRow1: map<Table, nat>,
                        rows2: map<Entry, nat>, nextRow2: map<Table, nat>, a: seq<Event>, b: seq<Event>)
    requires RowsGrow(rows0, nextRow0, rows1, nextRow1, a) && RowsGrow(rows1, nextRow1, rows2, nextRow2, b)
    ensures RowsGrow(rows0, nextRow0, rows2, nextRow2, a + b)
  {
    GatherAppend(EntrySet, a, b);
    CountersCompose(rows0, rows1, rows2, nextRow0, nextRow1, nextRow2);
  }

  lemma PayloadsGrowCompose(payloads0: map<seq<bv8>, nat>, nextPayloadRow0: nat,
                            payloads1: map<seq<bv8>, nat>, nextPayloadRow1: nat,
                            payloads2: map<seq<bv8>, nat>, nextPayloadRow2: nat, a: seq<Event>, b: seq<Event>)
    requires PayloadsGrow(payloads0, nextPayloadRow0, payloads1, nextPayloadRow1, a)
    requires PayloadsGrow(payloads1, nextPayloadRow1, payloads2, nextPayloadRow2, b)
    ensures PayloadsGrow(payloads0, nextPayloadRow0, payloads2, nextPayloadRow2, a + b)
  {
    GatherAppend(PayloadSet, a, b);
  }

  /** Storing `a` and then `b` grows the tables by `a + b`. */
  lemma TablesGrowCompose(t0: TableState, t1: TableState, t2: TableState, a: seq<Event>, b: seq<Event>)
    requires TablesGrow(t0, t1, a) && TablesGrow(t1, t2, b)
    ensures TablesGrow(t0, t2, a + b)
  {
    RowsGrowCompose(t0.rows, t0.nextRow, t1.rows, t1.nextRow, t2.rows, t2.nextRow, a, b);
    assert a + b == [] ==> a == [] && b == [];
    PayloadsGrowCompose(t0.payloads, t0.nextPayloadRow, t1.payloads, t1.nextPayloadRow, t2.payloads, t2.nextPayloadRow, a, b);
  }

  /** Stores the prepared event `c` under the next id: the stored events
      become `AfterInsert(events, c)`, every value and the payload of `c` are
      interned, and only the cache entries whose event is still stored as
      cached are kept. */
  method StoreEvent(events: seq<Event>, lastId: nat, rows: map<Entry, nat>, nextRow: map<Table, nat>,
                    payloads: map<seq<bv8>, nat>, nextPayloadRow: nat, cache: map<nat, Event>, c: Event)
    returns (events': seq<Event>, rows': map<Entry, nat>, nextRow': map<Table, nat>,
             payloads': map<seq<bv8>, nat>, nextPayloadRow': nat, cache': map<nat, Event>)
    requires StoreInvariant(events, lastId, rows, nextRow, payloads, nextPayloadRow, cache)
    requires c.id == lastId + 1 && c.subjects != []
    ensures StoreInvariant(events', lastId + 1, rows', nextRow', payloads', nextPayloadRow', cache')
    ensures events' == AfterInsert(events, c) && Lookup(events', c.id) == Some(c)
    ensures rows'.Keys == rows.Keys + EntrySet(c) && forall k :: k in rows ==> rows'[k] == rows[k]
    ensures Counted(rows, nextRow, rows', nextRow')
    ensures payloads'.Keys == payloads.Keys + PayloadSet(c) && forall k :: k in payloads ==> payloads'[k] == payloads[k]
    ensures nextPayloadRow' == nextPayloadRow + (|payloads'| - |payloads|)
    ensures forall id :: id in cache' <==> id in cache && cache[id] in events'
    ensures TablesGrow(TableState(rows, nextRow, payloads, nextPayloadRow, cache),
                       TableState(rows', nextRow', payloads', nextPayloadRow', cache'), [c])
  {
    events' := AfterInsert(events, c);
    InsertKeepsInvariants(events, c, lastId);
    rows', nextRow' := InternEntries(rows, nextRow, Entries(c));
    payloads', nextPayloadRow' := InternPayload(payloads, nextPayloadRow, c.payload);
    cache' := StillCurrent(cache, events');
    StoredOne(c);
    assert events'[|events'| - 1] == c;
    LookupStored(events', lastId + 1, c);
  }

  /** `_insert_event` on the state of the store: a refused event and the
      duplicate of a stored event leave the state as it is; any other event
      is stored under the next id. */
  method Insert(hooks: seq<Extensions.ExtensionClass>, ev: Event, now: int,
                events: seq<Event>, lastId: nat, rows: map<Entry, nat>, nextRow: map<Table, nat>,
                payloads: map<seq<bv8>, nat>, nextPayloadRow: nat, cache: map<nat, Event>)
    returns (r: Result<nat, InsertError>, events': seq<Event>, lastId': nat, rows': map<Entry, nat>, nextRow': map<Table, nat>,
             payloads': map<seq<bv8>, nat>, nextPayloadRow': nat, cache': map<nat, Event>)
    requires StoreInvariant(events, lastId, rows, nextRow, payloads, nextPayloadRow, cache)
    ensures StoreInvariant(events', lastId', rows', nextRow', payloads', nextPayloadRow', cache')
    ensures var p := Prepare(hooks, ev, lastId + 1, now);
      && (p.Err? || FindDuplicate(events, p.value).Some? ==>
            && events' == events && lastId' == lastId && rows' == rows && nextRow' == nextRow
            && payloads' == payloads && nextPayloadRow' == nextPayloadRow && cache' == cache)
      && (p.Err? ==> r == Err(p.error))
      && (p.Ok? && FindDuplicate(events, p.value).Some? ==> r == Ok(FindDuplicate(events, p.value).value))
      && (p.Ok? && FindDuplicate(events, p.value).None? ==>
            && r == Ok(lastId + 1) && lastId' == lastId + 1
            && events' == AfterInsert(events, p.value)
            && rows'.Keys == rows.Keys + EntrySet(p.value)
            && (forall k :: k in rows ==> rows'[k] == rows[k])
            && payloads'.Keys == payloads.Keys + PayloadSet(p.value)
            && (forall id :: id in cache' <==> id in cache && cache[id] in events'))
    ensures r.Ok? ==> r.value > 0 && Lookup(events', r.value).Some?
    ensures r.Err? <==> Prepare(hooks, ev, lastId + 1, now).Err?
    ensures |events| <= |events'| && forall i :: 0 <= i < |events| ==> events'[i].id == events[i].id
    ensures Inserted(hooks, ev, now, events, lastId) == (events', lastId', if r.Ok? then r.value else 0)
    ensures TablesGrow(TableState(rows, nextRow, payloads, nextPayloadRow, cache),
                       TableState(rows', nextRow', payloads', nextPayloadRow', cache'), StoredBy(hooks, ev, now, events, lastId))
  {
    events', lastId', rows', nextRow', payloads', nextPayloadRow', cache' :=
      events, lastId, rows, nextRow, payloads, nextPayloadRow, cache;
    InsertedCases(hooks, ev, now, events, lastId);
    var id := lastId + 1;
    var p := Prepare(hooks, ev, id, now);
    if p.Err? || FindDuplicate(events, p.value).Some? {
      TablesKept(TableState(rows, nextRow, payloads, nextPayloadRow, cache));
      if p.Err? {
        return Err(p.error), events', lastId', rows', nextRow', payloads', nextPayloadRow', cache';
      }
      var dup := FindDuplicate(events, p.value).value;
      var e :| e in events && e.id == dup && e.(id := 0) == p.value.(id := 0);
      LookupStored(events, lastId, e);
      return Ok(dup), events', lastId', rows', nextRow', payloads', nextPayloadRow', cache';
    }
    events', rows', nextRow', payloads', nextPayloadRow', cache' :=
      StoreEvent(events, lastId, rows, nextRow, payloads, nextPayloadRow, cache, p.value);
    lastId' := id;
    r := Ok(id);
  }

  /** Drops the events whose id is in `gone`, their cache entries, and
      every row and payload no remaining event refers to. */
  method DropEvents(events: seq<Event>, lastId: nat, rows: map<Entry, nat>, nextRow: map<Table, nat>,
                    payloads: map<seq<bv8>, nat>, nextPayloadRow: nat, cache: map<nat, Event>, gone: set<nat>)
    returns (events': seq<Event>, rows': map<Entry, nat>, payloads': map<seq<bv8>, nat>, cache': map<nat, Event>)
    requires StoreInvariant(events, lastId, rows, nextRow, payloads, nextPayloadRow, cache)
    ensures StoreInvariant(events', lastId, rows', nextRow, payloads', nextPayloadRow, cache')
    ensures events' == Remove(events, gone)
    ensures rows'.Keys == Referenced(events') && forall k :: k in rows' ==> k in rows && rows'[k] == rows[k]
    ensures payloads'.Keys == Payloads(events') && forall k :: k in payloads' ==> k in payloads && payloads'[k] == payloads[k]
    ensures forall id :: id in cache' <==> id in cache && id !in gone
  {
    events' := Remove(events, gone);
    RemoveKeepsInvariants(events, gone, lastId);
    rows' := Restrict(rows, Referenced(events'));
    payloads' := Restrict(payloads, Payloads(events'));
    cache' := Restrict(cache, cache.Keys - gone);
    forall id | id in cache' ensures cache'[id] in events' && cache'[id].id == id {
      assert cache[id] in events;
    }
  }

  /** The stored events, the last id handed out and the reported id after
      `_insert_event`: a refused event reports 0 and a duplicate the stored
      event's id, both storing nothing; any other event is stored under the
      next id. */
  function Inserted(hooks: seq<Extensions.ExtensionClass>, ev: Event, now: int, events: seq<Event>, lastId: nat)
    : (seq<Event>, nat, nat)
  {
    match Prepare(hooks, ev, lastId + 1, now)
    case Err(_) => (events, lastId, 0)
    case Ok(c) =>
      match FindDuplicate(events, c)
      case Some(id) => (events, lastId, id)
      case None => (AfterInsert(events, c), lastId + 1, lastId + 1)
  }

  /** `Inserted` and `StoredBy` case by case: a refused event and a
      duplicate store nothing; any other prepared event is appended under
      the next id. */
  lemma InsertedCases(hooks: seq<Extensions.ExtensionClass>, ev: Event, now: int, events: seq<Event>, lastId: nat)
    ensures var p := Prepare(hooks, ev, lastId + 1, now);
      && (p.Err? ==> Inserted(hooks, ev, now, events, lastId) == (events, lastId, 0)
                     && StoredBy(hooks, ev, now, events, lastId) == [])
      && (p.Ok? && FindDuplicate(events, p.value).Some? ==>
            && Inserted(hooks, ev, now, events, lastId) == (events, lastId, FindDuplicate(events, p.value).value)
            && StoredBy(hooks, ev, now, events, lastId) == [])
      && (p.Ok? && FindDuplicate(events, p.value).None? ==>
            && Inserted(hooks, ev, now, events, lastId) == (AfterInsert(events, p.value), lastId + 1, lastId + 1)
            && StoredBy(hooks, ev, now, events, lastId) == [p.value])
  {
  }

  /** The prepared event one insert stores, whose values and payload it
      interns: none for a refused event or a duplicate. */
  function StoredBy(hooks: seq<Extensions.ExtensionClass>, ev: Event, now: int, events: seq<Event>, lastId: nat): seq<Event>
  {
    match Prepare(hooks, ev, lastId + 1, now)
    case Err(_) => []
    case Ok(c) => if FindDuplicate(events, c).Some? then [] else [c]
  }

  /** Appending the event with the next id keeps the ids increasing and
      every stored id, and finds the new event under its id. */
  lemma AppendedStored(events: seq<Event>, c: Event, lastId: nat)
    requires IdsIncreasing(events, lastId) && c.id == lastId + 1
    ensures IdsIncreasing(AfterInsert(events, c), lastId + 1)
    ensures Lookup(AfterInsert(events, c), c.id) == Some(c)
    ensures |events| < |AfterInsert(events, c)| && forall i :: 0 <= i < |events| ==> AfterInsert(events, c)[i].id == events[i].id
  {
    var stored := if IsMove(c) then Moves.ApplyMove(events, c) else events;
    AppendNextId(events, stored, c, lastId);
    assert AfterInsert(events, c)[|events|] == c;
    LookupStored(AfterInsert(events, c), lastId + 1, c);
  }

  /** Inserting a valid event that duplicates no stored event, with no hooks
      loaded, reports the next id, under which the event reads back with
      its defaults filled in. */
  lemma InsertReadsBack(ev: Event, now: int, events: seq<Event>, lastId: nat)
    requires IdsIncreasing(events, lastId) && Validate(ev).Pass?
    requires FindDuplicate(events, Normalize(ev, now).(id := lastId + 1)).None?
    ensures var (events', lastId', id) := Inserted([], ev, now, events, lastId);
      && id == lastId' == lastId + 1
      && Lookup(events', id) == Some(Normalize(ev, now).(id := id))
  {
    AppendedStored(events, Normalize(ev, now).(id := lastId + 1), lastId);
  }

  /** `insert_events` on the stored events: each event inserted in turn, on
      what the ones before it left. */
  function InsertedAll(hooks: seq<Extensions.ExtensionClass>, evs: seq<Event>, now: int, events: seq<Event>, lastId: nat)
    : (r: (seq<Event>, nat, seq<nat>))
    ensures |r.2| == |evs| && r.1 >= lastId
  {
    if evs == [] then (events, lastId, [])
    else
      var before := InsertedAll(hooks, evs[..|evs| - 1], now, events, lastId);
      var after := Inserted(hooks, evs[|evs| - 1], now, before.0, before.1);
      (after.0, after.1, before.2 + [after.2])
  }

  /** The prepared events a batch stores, in the order it stores them. */
  function StoredByAll(hooks: seq<Extensions.ExtensionClass>, evs: seq<Event>, now: int, events: seq<Event>, lastId: nat): seq<Event>
  {
    if evs == [] then []
    else
      var before := InsertedAll(hooks, evs[..|evs| - 1], now, events, lastId);
      StoredByAll(hooks, evs[..|evs| - 1], now, events, lastId) + StoredBy(hooks, evs[|evs| - 1], now, before.0, before.1)
  }

  /** The events the batch up to `evs[i]` stores are those stored before
      it followed by the one `evs[i]` stores. */
  lemma StoredByAllNext(hooks: seq<Extensions.ExtensionClass>, evs: seq<Event>, i: nat, now: int, events: seq<Event>, lastId: nat)
    requires i < |evs|
    ensures var b := InsertedAll(hooks, evs[..i], now, events, lastId);
      StoredByAll(hooks, evs[..i + 1], now, events, lastId)
        == StoredByAll(hooks, evs[..i], now, events, lastId) + StoredBy(hooks, evs[i], now, b.0, b.1)
  {
    assert evs[..i + 1][..i] == evs[..i] && evs[..i + 1][i] == evs[i];
  }

  /** The tables after the batch up to `evs[i]` are those after the batch
      before it, grown by what `evs[i]` stores. */
  lemma TablesNext(hooks: seq<Extensions.ExtensionClass>, evs: seq<Event>, i: nat, now: int, events: seq<Event>, lastId: nat,
                   t0: TableState, t1: TableState, t2: TableState)
    requires i < |evs|
    requires TablesGrow(t0, t1, StoredByAll(hooks, evs[..i], now, events, lastId))
    requires var b := InsertedAll(hooks, evs[..i], now, events, lastId);
      TablesGrow(t1, t2, StoredBy(hooks, evs[i], now, b.0, b.1))
    ensures TablesGrow(t0, t2, StoredByAll(hooks, evs[..i + 1], now, events, lastId))
  {
    StoredByAllNext(hooks, evs, i, now, events, lastId);
    var b := InsertedAll(hooks, evs[..i], now, events, lastId);
    TablesGrowCompose(t0, t1, t2, StoredByAll(hooks, evs[..i], now, events, lastId), StoredBy(hooks, evs[i], now, b.0, b.1));
  }

  /** A batch whose every event fails the checks reports 0 for each, keeps
      the stored events and the last id, and stores nothing. */
  lemma {:induction false} RefusedStoresNothing(hooks: seq<Extensions.ExtensionClass>, evs: seq<Event>, now: int,
                                                events: seq<Event>, lastId: nat)
    requires AllRefused(evs)
    ensures var (events', lastId', _) := InsertedAll(hooks, evs, now, events, lastId);
      events' == events && lastId' == lastId
    ensures StoredByAll(hooks, evs, now, events, lastId) == []
    decreases |evs|
  {
    if evs != [] {
      var init := evs[..|evs| - 1];
      assert AllRefused(init) by {
        forall k | 0 <= k < |init| ensures Validate(init[k]).Fail? {
          assert init[k] == evs[k];
        }
      }
      RefusedStoresNothing(hooks, init, now, events, lastId);
      InsertedCases(hooks, evs[|evs| - 1], now, events, lastId);
    }
  }

  /** The batch up to `evs[i]` is the batch before it followed by the insert
      of `evs[i]`. */
  lemma InsertedAllNext(hooks: seq<Extensions.ExtensionClass>, evs: seq<Event>, i: nat, now: int, events: seq<Event>, lastId: nat)
    requires i < |evs|
    ensures var b := InsertedAll(hooks, evs[..i], now, events, lastId);
      var a := Inserted(hooks, evs[i], now, b.0, b.1);
      InsertedAll(hooks, evs[..i + 1], now, events, lastId) == (a.0, a.1, b.2 + [a.2])
  {
    assert evs[..i + 1][..i] == evs[..i] && evs[..i + 1][i] == evs[i];
  }

  /** The ids `insert_events` reports for the first `|ids|` events of
      `evs`: 0 for every refused event and, with no hooks loaded, for those
      alone. */
  predicate ReportsRefused(evs: seq<Event>, ids: seq<nat>, noHooks: bool)
    requires |ids| <= |evs|
  {
    && (forall k :: 0 <= k < |ids| && Validate(evs[k]).Fail? ==> ids[k] == 0)
    && (noHooks ==> forall k :: 0 <= k < |ids| ==> (ids[k] == 0 <==> Validate(evs[k]).Fail?))
  }

  /** One insert keeps the ids increasing and every stored id, and the id
      it reports, when not 0, is that of a stored event. */
  lemma InsertedStored(hooks: seq<Extensions.ExtensionClass>, ev: Event, now: int, events: seq<Event>, lastId: nat)
    requires IdsIncreasing(events, lastId)
    ensures var (events', lastId', id) := Inserted(hooks, ev, now, events, lastId);
      && IdsIncreasing(events', lastId')
      && (id != 0 ==> Lookup(events', id).Some?)
      && |events| <= |events'| && (forall i :: 0 <= i < |events| ==> events'[i].id == events[i].id)
  {
    match Prepare(hooks, ev, lastId + 1, now)
    case Err(_) =>
    case Ok(c) =>
      match FindDuplicate(events, c)
      case Some(id) =>
        var e :| e in events && e.id == id && e.(id := 0) == c.(id := 0);
        LookupStored(events, lastId, e);
      case None =>
        AppendedStored(events, c, lastId);
  }

  /** A batch keeps the ids increasing, and every id it reports other than
      0 is that of an event stored afterwards. */
  lemma {:induction false} InsertedAllStored(hooks: seq<Extensions.ExtensionClass>, evs: seq<Event>, now: int, events: seq<Event>, lastId: nat)
    requires IdsIncreasing(events, lastId)
    ensures var (events', lastId', ids) := InsertedAll(hooks, evs, now, events, lastId);
      && IdsIncreasing(events', lastId') && AllStored(events', ids)
      && |events| <= |events'| && (forall i :: 0 <= i < |events| ==> events'[i].id == events[i].id)
    decreases |evs|
  {
    if evs != [] {
      var init := evs[..|evs| - 1];
      InsertedAllStored(hooks, init, now, events, lastId);
      var b := InsertedAll(hooks, init, now, events, lastId);
      InsertedStored(hooks, evs[|evs| - 1], now, b.0, b.1);
      var a := Inserted(hooks, evs[|evs| - 1], now, b.0, b.1);
      StoredIdsSurvive(b.0, a.0, b.2, a.2);
    }
  }

  /** One insert reports 0 for an event refused by the checks and, with no
      hooks loaded, only for such an event. */
  lemma InsertedReports(hooks: seq<Extensions.ExtensionClass>, ev: Event, now: int, events: seq<Event>, lastId: nat)
    requires IdsIncreasing(events, lastId)
    ensures Validate(ev).Fail? ==> Inserted(hooks, ev, now, events, lastId).2 == 0
    ensures hooks == [] && Validate(ev).Pass? ==> Inserted(hooks, ev, now, events, lastId).2 != 0
  {
    if hooks == [] && Validate(ev).Pass? {
      var c := Prepare(hooks, ev, lastId + 1, now).value;
      if FindDuplicate(events, c).Some? {
        var e :| e in events && e.id == FindDuplicate(events, c).value && e.(id := 0) == c.(id := 0);
      }
    }
  }

  /** The id a batch reports for `evs[k]` is 0 when the checks refuse it
      and, with no hooks loaded, only then. */
  lemma {:induction false} InsertedAllReportsAt(hooks: seq<Extensions.ExtensionClass>, evs: seq<Event>, now: int,
                                                events: seq<Event>, lastId: nat, k: nat)
    requires IdsIncreasing(events, lastId) && k < |evs|
    ensures Validate(evs[k]).Fail? ==> InsertedAll(hooks, evs, now, events, lastId).2[k] == 0
    ensures hooks == [] && Validate(evs[k]).Pass? ==> InsertedAll(hooks, evs, now, events, lastId).2[k] != 0
    decreases |evs|
  {
    var init := evs[..|evs| - 1];
    var b := InsertedAll(hooks, init, now, events, lastId);
    if k == |evs| - 1 {
      InsertedAllStored(hooks, init, now, events, lastId);
      InsertedReports(hooks, evs[k], now, b.0, b.1);
    } else {
      InsertedAllReportsAt(hooks, init, now, events, lastId, k);
      assert evs[k] == init[k];
    }
  }

  /** A batch reports 0 for every event refused by the checks and, with no
      hooks loaded, for those alone. */
  lemma InsertedAllReports(hooks: seq<Extensions.ExtensionClass>, evs: seq<Event>, now: int, events: seq<Event>, lastId: nat)
    requires IdsIncreasing(events, lastId)
    ensures ReportsRefused(evs, InsertedAll(hooks, evs, now, events, lastId).2, hooks == [])
  {
    forall k | 0 <= k < |evs|
      ensures Validate(evs[k]).Fail? ==> InsertedAll(hooks, evs, now, events, lastId).2[k] == 0
      ensures hooks == [] && Validate(evs[k]).Pass? ==> InsertedAll(hooks, evs, now, events, lastId).2[k] != 0
    {
      InsertedAllReportsAt(hooks, evs, now, events, lastId, k);
    }
  }

  /** `Insert` of `evs[i]` after the first `i` events of `evs`. */
  method InsertNext(hooks: seq<Extensions.ExtensionClass>, evs: seq<Event>, i: nat, now: int,
                    ghost events0: seq<Event>, ghost lastId0: nat, ghost t0: TableState, ghost ids: seq<nat>,
                    events: seq<Event>, lastId: nat, rows: map<Entry, nat>, nextRow: map<Table, nat>,
                    payloads: map<seq<bv8>, nat>, nextPayloadRow: nat, cache: map<nat, Event>)
    returns (id: nat, events': seq<Event>, lastId': nat, rows': map<Entry, nat>, nextRow': map<Table, nat>,
             payloads': map<seq<bv8>, nat>, nextPayloadRow': nat, cache': map<nat, Event>)
    requires i < |evs|
    requires StoreInvariant(events, lastId, rows, nextRow, payloads, nextPayloadRow, cache)
    requires InsertedAll(hooks, evs[..i], now, events0, lastId0) == (events, lastId, ids)
    requires TablesGrow(t0, TableState(rows, nextRow, payloads, nextPayloadRow, cache), StoredByAll(hooks, evs[..i], now, events0, lastId0))
    ensures StoreInvariant(events', lastId', rows', nextRow', payloads', nextPayloadRow', cache')
    ensures InsertedAll(hooks, evs[..i + 1], now, events0, lastId0) == (events', lastId', ids + [id])
    ensures TablesGrow(t0, TableState(rows', nextRow', payloads', nextPayloadRow', cache'), StoredByAll(hooks, evs[..i + 1], now, events0, lastId0))
  {
    var r;
    r, events', lastId', rows', nextRow', payloads', nextPayloadRow', cache' :=
      Insert(hooks, evs[i], now, events, lastId, rows, nextRow, payloads, nextPayloadRow, cache);
    id := if r.Ok? then r.value else 0;
    InsertedAllNext(hooks, evs, i, now, events0, lastId0);
    TablesNext(hooks, evs, i, now, events0, lastId0, t0, TableState(rows, nextRow, payloads, nextPayloadRow, cache),
               TableState(rows', nextRow', payloads', nextPayloadRow', cache'));
  }

  /** `Insert` of each event of `evs` in turn, collecting the reported ids. */
  method InsertAll(hooks: seq<Extensions.ExtensionClass>, evs: seq<Event>, now: int,
                   events: seq<Event>, lastId: nat, rows: map<Entry, nat>, nextRow: map<Table, nat>,
                   payloads: map<seq<bv8>, nat>, nextPayloadRow: nat, cache: map<nat, Event>)
    returns (ids: seq<nat>, events': seq<Event>, lastId': nat, rows': map<Entry, nat>, nextRow': map<Table, nat>,
             payloads': map<seq<bv8>, nat>, nextPayloadRow': nat, cache': map<nat, Event>)
    requires StoreInvariant(events, lastId, rows, nextRow, payloads, nextPayloadRow, cache)
    ensures StoreInvariant(events', lastId', rows', nextRow', payloads', nextPayloadRow', cache')
    ensures InsertedAll(hooks, evs, now, events, lastId) == (events', lastId', ids)
    ensures TablesGrow(TableState(rows, nextRow, payloads, nextPayloadRow, cache),
                       TableState(rows', nextRow', payloads', nextPayloadRow', cache'), StoredByAll(hooks, evs, now, events, lastId))
  {
    ghost var t0 := TableState(rows, nextRow, payloads, nextPayloadRow, cache);
    events', lastId', rows', nextRow', payloads', nextPayloadRow', cache' :=
      events, lastId, rows, nextRow, payloads, nextPayloadRow, cache;
    TablesKept(t0);
    ids := [];
    var i := 0;
    while i < |evs|
      invariant StoreInvariant(events', lastId', rows', nextRow', payloads', nextPayloadRow', cache')
      invariant 0 <= i <= |evs| && |ids| == i
      invariant InsertedAll(hooks, evs[..i], now, events, lastId) == (events', lastId', ids)
      invariant TablesGrow(t0, TableState(rows', nextRow', payloads', nextPayloadRow', cache'), StoredByAll(hooks, evs[..i], now, events, lastId))
    {
      var id;
      id, events', lastId', rows', nextRow', payloads', nextPayloadRow', cache' :=
        InsertNext(hooks, evs, i, now, events, lastId, t0, ids, events', lastId', rows', nextRow', payloads', nextPayloadRow', cache');
      ids := ids + [id];
      i := i + 1;
    }
    assert evs[..i] == evs;
  }

  /** Every event fails the checks made before the hooks run. */
  predicate AllRefused(evs: seq<Event>)
  {
    forall k :: 0 <= k < |evs| ==> Validate(evs[k]).Fail?
  }

  class EventStore {
    /** The ontology the interpretation and manifestation filters use. */
    const ontology: Templates.Ontology
    /** The loaded extensions, in the order their hooks run. */
    const hooks: seq<Extensions.ExtensionClass>

    var events: seq<Event>
    var lastId: nat
    /** The interning tables: the row id of each value in its table;
        `nextRow` is the next row id of each table. */
    var rows: map<Entry, nat>
    var nextRow: map<Table, nat>
    var payloads: map<seq<bv8>, nat>
    var nextPayloadRow: nat
    var cache: map<nat, Event>

    /** The ids are increasing, every stored event has a subject, the
        tables hold every value and payload a stored event refers to under
        distinct rows, and the cache holds only stored events. */
    ghost predicate Valid()
      reads this
    {
      StoreInvariant(events, lastId, rows, nextRow, payloads, nextPayloadRow, cache)
    }

    constructor (ontology: Templates.Ontology, hooks: seq<Extensions.ExtensionClass>)
      ensures Valid()
      ensures this.ontology == ontology && this.hooks == hooks
      ensures events == [] && lastId == 0 && cache == map[] && payloads == map[]
      ensures rows == map[]
    {
      this.ontology := ontology;
      this.hooks := hooks;
      events, lastId, rows, payloads, nextPayloadRow, cache := [], 0, map[], map[], 0, map[];
      nextRow := EmptyCounters();
    }

    /** The tables and the cache of the store. */
    function Tables(): TableState
      reads this
    {
      TableState(rows, nextRow, payloads, nextPayloadRow, cache)
    }

    /** The state of the store is what it was. */
    twostate predicate Unchanged()
      reads this
    {
      && events == old(events) && lastId == old(lastId) && rows == old(rows) && nextRow == old(nextRow)
      && payloads == old(payloads) && nextPayloadRow == old(nextPayloadRow) && cache == old(cache)
    }

    /** Replaces the whole state of the store in one step, as the engine
        commits an insert or a delete. */
    method Commit(events': seq<Event>, lastId': nat, rows': map<Entry, nat>, nextRow': map<Table, nat>,
                  payloads': map<seq<bv8>, nat>, nextPayloadRow': nat, cache': map<nat, Event>)
      modifies this
      ensures events == events' && lastId == lastId' && rows == rows' && nextRow == nextRow'
      ensures payloads == payloads' && nextPayloadRow == nextPayloadRow' && cache == cache'
    {
      events, lastId, rows, nextRow, payloads, nextPayloadRow, cache :=
        events', lastId', rows', nextRow', payloads', nextPayloadRow', cache';
    }

    /** `_insert_event` with its errors: the event is checked, completed and
        passed through the insert hooks under the next id. A duplicate of a
        stored event gives that event's id and stores nothing. Otherwise the
        event is stored under the next id with its values interned; a move
        event first rewrites the earlier events, whose cache entries go. A
        refused event changes nothing. */
    method InsertEvent(ev: Event, now: int) returns (r: Result<nat, InsertError>)
      requires Valid()
      modifies this
      ensures Valid()
      ensures var p := Prepare(hooks, ev, old(lastId) + 1, now);
        && (p.Err? || FindDuplicate(old(events), p.value).Some? ==> Unchanged())
        && (p.Err? ==> r == Err(p.error))
        && (p.Ok? && FindDuplicate(old(events), p.value).Some? ==> r == Ok(FindDuplicate(old(events), p.value).value))
        && (p.Ok? && FindDuplicate(old(events), p.value).None? ==>
              && r == Ok(old(lastId) + 1) && lastId == old(lastId) + 1
              && events == AfterInsert(old(events), p.value)
              && rows.Keys == old(rows.Keys) + EntrySet(p.value)
              && (forall k :: k in old(rows) ==> rows[k] == old(rows[k]))
              && payloads.Keys == old(payloads.Keys) + PayloadSet(p.value)
              && (forall id :: id in cache <==> id in old(cache) && old(cache)[id] in events))
      ensures r.Ok? ==> r.value > 0 && Lookup(events, r.value).Some?
      ensures r.Err? <==> Prepare(hooks, ev, old(lastId) + 1, now).Err?
      ensures |old(events)| <= |events| && forall i :: 0 <= i < |old(events)| ==> events[i].id == old(events)[i].id
      ensures Inserted(hooks, ev, now, old(events), old(lastId)) == (events, lastId, if r.Ok? then r.value else 0)
      ensures TablesGrow(old(Tables()), Tables(), StoredBy(hooks, ev, now, old(events), old(lastId)))
    {
      var events', lastId', rows', nextRow', payloads', nextPayloadRow', cache';
      r, events', lastId', rows', nextRow', payloads', nextPayloadRow', cache' :=
        Insert(hooks, ev, now, events, lastId, rows, nextRow, payloads, nextPayloadRow, cache);
      Commit(events', lastId', rows', nextRow', payloads', nextPayloadRow', cache');
    }

    /** `insert_events`: each event on its own, 0 for the refused ones. */
    method InsertEvents(evs: seq<Event>, now: int) returns (ids: seq<nat>)
      requires Valid()
      modifies this
      ensures Valid()
      ensures |ids| == |evs| && ReportsRefused(evs, ids, hooks == [])
      ensures AllStored(events, ids)
      ensures AllRefused(evs) ==> Unchanged()
      ensures InsertedAll(hooks, evs, now, old(events), old(lastId)) == (events, lastId, ids)
      ensures TablesGrow(old(Tables()), Tables(), StoredByAll(hooks, evs, now, old(events), old(lastId)))
    {
      var es, lid, rs, nr, ps, np, c;
      ids, es, lid, rs, nr, ps, np, c := InsertAll(hooks, evs, now, events, lastId, rows, nextRow, payloads, nextPayloadRow, cache);
      Commit(es, lid, rs, nr, ps, np, c);
      InsertedAllStored(hooks, evs, now, old(events), old(lastId));
      InsertedAllReports(hooks, evs, now, old(events), old(lastId));
      if AllRefused(evs) {
        RefusedStoresNothing(hooks, evs, now, old(events), old(lastId));
        NothingStored(old(Tables()), Tables());
      }
    }

    /** `get_events`: one entry per requested id, in order; the stored event
        passed through the get hooks, or nothing for an unknown id. Served
        from the cache when it holds the id; afterwards the cache holds
        every id that was found. */
    method GetEvents(ids: seq<nat>) returns (r: seq<Option<Event>>)
      requires Valid()
      modifies this`cache
      ensures Valid()
      ensures Answers(hooks, events, ids, r)
      ensures CacheGrows(old(cache), cache, events, ids)
    {
      var c;
      r, c := Get(hooks, events, lastId, cache, ids);
      cache := c;
    }

    /** `delete_events`: the events with those ids go, unknown ids are
        ignored, their cache entries go, and every table keeps exactly the
        rows the remaining events refer to, under their old ids. */
    method DeleteEvents(ids: seq<nat>)
      requires Valid()
      modifies this
      ensures Valid()
      ensures events == Remove(old(events), set id | id in ids)
      ensures rows.Keys == Referenced(events)
      ensures forall k :: k in rows ==> k in old(rows) && rows[k] == old(rows[k])
      ensures payloads.Keys == Payloads(events)
      ensures forall k :: k in payloads ==> k in old(payloads) && payloads[k] == old(payloads[k])
      ensures forall id :: id in cache <==> id in old(cache) && id !in ids
      ensures lastId == old(lastId) && nextRow == old(nextRow) && nextPayloadRow == old(nextPayloadRow)
      ensures events == [] ==> payloads == map[] && rows == map[]
    {
      var events', rows', payloads', cache' :=
        DropEvents(events, lastId, rows, nextRow, payloads, nextPayloadRow, cache, set id | id in ids);
      Commit(events', lastId, rows', nextRow, payloads', nextPayloadRow, cache');
    }

    /** Empties the event cache; what the store returns does not change. */
    method ClearCache()
      requires Valid()
      modifies this`cache
      ensures Valid() && cache == map[]
    {
      cache := map[];
    }

    /** `find_eventids`: the ids of the selected events, grouped, ranked
        and cut to the limit as the result type says. */
    function FindEventIds(q: Templates.Query, mounted: set<string>, limit: nat, rt: Ranking.ResultType): seq<nat>
      reads this
    {
      Ranking.RankedIds(Matching(ontology, mounted, q, events), rt, limit)
    }

    /** `find_events`: the events behind `find_eventids`, read as
        `get_events` reads them. */
    method FindEvents(q: Templates.Query, mounted: set<string>, limit: nat, rt: Ranking.ResultType) returns (r: seq<Option<Event>>)
      requires Valid()
      modifies this`cache
      ensures Valid()
      ensures var ids := FindEventIds(q, mounted, limit, rt);
        |r| == |ids| && forall i :: 0 <= i < |ids| ==> r[i] == Extensions.GetChain(hooks, Lookup(events, ids[i]))
    {
      r := GetEvents(FindEventIds(q, mounted, limit, rt));
    }
  }
  /** A one-event batch without hooks, of a valid event that duplicates no
      stored event, stores that event completed under the next id. */
  lemma InsertedAlone(ev: Event, now: int, events: seq<Event>, lastId: nat)
    requires Validate(ev).Pass?
    requires FindDuplicate(events, Normalize(ev, now).(id := lastId + 1)).None?
    ensures var c := Normalize(ev, now).(id := lastId + 1);
      && StoredByAll([], [ev], now, events, lastId) == [c]
      && InsertedAll([], [ev], now, events, lastId) == (AfterInsert(events, c), lastId + 1, [lastId + 1])
  {
    var c := Normalize(ev, now).(id := lastId + 1);
    assert Prepare([], ev, lastId + 1, now) == Ok(c);
    InsertedCases([], ev, now, events, lastId);
    assert Inserted([], ev, now, events, lastId) == (AfterInsert(events, c), lastId + 1, lastId + 1);
    assert [ev][..0] == [];
    assert InsertedAll([], [ev][..0], now, events, lastId) == (events, lastId, []);
    assert InsertedAll([], [ev], now, events, lastId) == (AfterInsert(events, c), lastId + 1, [] + [lastId + 1]);
    assert [] + [lastId + 1] == [lastId + 1];
    assert StoredByAll([], [ev], now, events, lastId) == [] + StoredBy([], ev, now, events, lastId);
  }

  /** testDeleteSingle (test/engine-test.py:137-141): a new store without
      extensions, one valid event inserted and then deleted by its id; the
      store is left with no events and no rows, its last id being 1. */
  method DeleteSingle(ontology: Templates.Ontology, ev: Event, now: int) returns (store: EventStore)
    requires Validate(ev).Pass?
    ensures fresh(store) && store.Valid() && store.hooks == []
    ensures store.events == [] && store.lastId == 1 && store.rows == map[] && store.payloads == map[]
  {
    store := new EventStore(ontology, []);
    var ids := store.InsertEvents([ev], now);
    InsertedFirst(ev, now);
    store.DeleteEvents([1]);
  }

  /** A one-event batch of a valid event into an empty store without hooks
      stores the event under id 1, and deleting id 1 removes it again. */
  lemma InsertedFirst(ev: Event, now: int)
    requires Validate(ev).Pass?
    ensures var (events, lastId, ids) := InsertedAll([], [ev], now, [], 0);
      && lastId == 1 && ids == [1] && Remove(events, set id | id in [1]) == []
  {
    var c1 := Normalize(ev, now).(id := 1);
    InsertedAlone(ev, now, [], 0);
    assert |Moves.ApplyMove([], c1)| == 0;
    assert AfterInsert([], c1) == [c1];
    assert Remove([c1], {1}) == Remove([], {1});
    assert (set id | id in [1]) == {1};
  }

  /** testEventInsertionAfterRemovingCachedRow (test/engine-test.py:143-155):
      after `DeleteSingle` the tables are empty, and inserting the event
      again brings back exactly the rows it refers to. */
  method InsertAfterDelete(ontology: Templates.Ontology, ev: Event, now: int)
    returns (rowsAfterDelete: set<Entry>, rowsAfterInsert: set<Entry>)
    requires Validate(ev).Pass?
    ensures rowsAfterDelete == {}
    ensures rowsAfterInsert == EntrySet(Normalize(ev, now).(id := 2))
  {
    var store := DeleteSingle(ontology, ev, now);
    rowsAfterDelete := store.rows.Keys;
    ghost var t := store.Tables();
    var ids := store.InsertEvents([ev], now);
    ReinsertedRows(ev, now, t, store.Tables());
    rowsAfterInsert := store.rows.Keys;
  }

  /** The tables of an empty store after a one-event batch that stores the
      event under id 2 hold exactly the rows of that event. */
  lemma ReinsertedRows(ev: Event, now: int, t: TableState, t': TableState)
    requires Validate(ev).Pass? && t.rows == map[]
    requires TablesGrow(t, t', StoredByAll([], [ev], now, [], 1))
    ensures t'.rows.Keys == EntrySet(Normalize(ev, now).(id := 2))
  {
    InsertedAlone(ev, now, [], 1);
    StoredOne(Normalize(ev, now).(id := 2));
  }

  /** testSingleInsertGet (test/engine-test.py:77-93): a valid event inserted
      into a new store without extensions reads back as itself, with id 1
      and its defaults filled in. */
  method SingleInsertGet(ontology: Templates.Ontology, ev: Event, now: int) returns (got: seq<Option<Event>>)
    requires Validate(ev).Pass?
    ensures got == [Some(Normalize(ev, now).(id := 1))]
  {
    var store := new EventStore(ontology, []);
    var ids := store.InsertEvents([ev], now);
    assert [ev][..0] == [];
    InsertReadsBack(ev, now, [], 0);
    got := store.GetEvents(ids);
  }
}

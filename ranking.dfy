/** Result types: how `find_eventids` groups the matching events, which event
    represents each group, and in which order the groups come back
    (test/engine-test.py:338-360, 1063-1399).

    A result type is a grouping key, an order and the choice of
    representative. Every group is represented by its most recent event
    (later timestamp, ties to the higher id), except for `OldestActor`, which
    takes the oldest. Recency orders sort the groups by their
    representative; popularity orders sort them by size, ties by the
    representative's recency. The "least" orders are the exact reverse of the
    "most" ones. Ungrouped results are groups of one event each. */
module Ranking {
  import opened Datamodel

  datatype Grouping =
    | PerEvent | SubjectUri | SubjectCurrentUri | Actor | EventOrigin
    | SubjectOrigin | Mimetype | SubjectInterpretation

  datatype Order = MostRecent | LeastRecent | MostPopular | LeastPopular

  /** `earliest` picks the oldest event of a group as its representative. */
  datatype ResultType = ResultType(grouping: Grouping, order: Order, earliest: bool)

  const MostRecentEvents := ResultType(PerEvent, MostRecent, false)
  const LeastRecentEvents := ResultType(PerEvent, LeastRecent, false)
  const MostRecentSubjects := ResultType(SubjectUri, MostRecent, false)
  const LeastRecentSubjects := ResultType(SubjectUri, LeastRecent, false)
  const MostPopularSubjects := ResultType(SubjectUri, MostPopular, false)
  const LeastPopularSubjects := ResultType(SubjectUri, LeastPopular, false)
  const MostRecentCurrentUri := ResultType(SubjectCurrentUri, MostRecent, false)
  const LeastRecentCurrentUri := ResultType(SubjectCurrentUri, LeastRecent, false)
  const MostPopularCurrentUri := ResultType(SubjectCurrentUri, MostPopular, false)
  const LeastPopularCurrentUri := ResultType(SubjectCurrentUri, LeastPopular, false)
  const MostRecentActor := ResultType(Actor, MostRecent, false)
  const LeastRecentActor := ResultType(Actor, LeastRecent, false)
  const MostPopularActor := ResultType(Actor, MostPopular, false)
  const LeastPopularActor := ResultType(Actor, LeastPopular, false)
  const OldestActor := ResultType(Actor, LeastRecent, true)
  const MostRecentEventOrigin := ResultType(EventOrigin, MostRecent, false)
  const LeastRecentEventOrigin := ResultType(EventOrigin, LeastRecent, false)
  const MostPopularEventOrigin := ResultType(EventOrigin, MostPopular, false)
  const LeastPopularEventOrigin := ResultType(EventOrigin, LeastPopular, false)
  const MostRecentOrigin := ResultType(SubjectOrigin, MostRecent, false)
  const LeastRecentOrigin := ResultType(SubjectOrigin, LeastRecent, false)
  const MostPopularOrigin := ResultType(SubjectOrigin, MostPopular, false)
  const LeastPopularOrigin := ResultType(SubjectOrigin, LeastPopular, false)
  const MostRecentMimeType := ResultType(Mimetype, MostRecent, false)
  const LeastRecentMimeType := ResultType(Mimetype, LeastRecent, false)
  const MostPopularMimeType := ResultType(Mimetype, MostPopular, false)
  const LeastPopularMimeType := ResultType(Mimetype, LeastPopular, false)
  const MostRecentSubjectInterpretation := ResultType(SubjectInterpretation, MostRecent, false)
  const LeastRecentSubjectInterpretation := ResultType(SubjectInterpretation, LeastRecent, false)
  const MostPopularSubjectInterpretation := ResultType(SubjectInterpretation, MostPopular, false)
  const LeastPopularSubjectInterpretation := ResultType(SubjectInterpretation, LeastPopular, false)

  datatype GroupKey = EventKey(id: nat) | ValueKey(value: string)

  function KeyOf(g: Grouping, e: Event): GroupKey
  {
    match g
    case PerEvent => EventKey(e.id)
    case SubjectUri => ValueKey(FirstSubject(e).uri)
    case SubjectCurrentUri => ValueKey(FirstSubject(e).currentUri)
    case Actor => ValueKey(e.actor)
    case EventOrigin => ValueKey(e.origin)
    case SubjectOrigin => ValueKey(FirstSubject(e).origin)
    case Mimetype => ValueKey(FirstSubject(e).mimetype)
    case SubjectInterpretation => ValueKey(FirstSubject(e).interpretation)
  }

  /** `a` is more recent than `b`: a later timestamp, or the same one and a
      higher id. */
  predicate Newer(a: Event, b: Event)
  {
    TimeOf(a) > TimeOf(b) || (TimeOf(a) == TimeOf(b) && a.id > b.id)
  }

  /** `a` is at least as fit as `b` to represent a group. */
  predicate Fitter(earliest: bool, a: Event, b: Event)
  {
    if earliest then !Newer(a, b) else !Newer(b, a)
  }

  /** The grouping key as a function of the event. */
  function KeyFn(g: Grouping): Event -> GroupKey
  {
    e => KeyOf(g, e)
  }

  datatype Group = Group(rep: Event, size: nat)

  /** The distinct keys of a sequence of events. */
  function Keys(key: Event -> GroupKey, events: seq<Event>): set<GroupKey>
  {
    set e | e in events :: key(e)
  }

  /** How many events have key `k`. */
  function CountKey(key: Event -> GroupKey, events: seq<Event>, k: GroupKey): nat
  {
    if events == [] then 0
    else CountKey(key, events[..|events| - 1], k) + (if key(events[|events| - 1]) == k then 1 else 0)
  }

  /** `gr` is the group of its representative's key: the representative is
      one of the events, fitter than every event of the same key, and the
      size counts the events of that key. */
  ghost predicate Represents(key: Event -> GroupKey, earliest: bool, events: seq<Event>, gr: Group)
  {
    && gr.rep in events
    && gr.size == CountKey(key, events, key(gr.rep))
    && forall e :: e in events && key(e) == key(gr.rep) ==> Fitter(earliest, gr.rep, e)
  }

  ghost predicate DistinctKeys(key: Event -> GroupKey, gs: seq<Group>)
  {
    forall i, j :: 0 <= i < j < |gs| ==> key(gs[i].rep) != key(gs[j].rep)
  }

  ghost predicate AllRepresent(key: Event -> GroupKey, earliest: bool, events: seq<Event>, gs: seq<Group>)
  {
    forall i :: 0 <= i < |gs| ==> Represents(key, earliest, events, gs[i])
  }

  /** Every event's key has its group. */
  ghost predicate Covers(key: Event -> GroupKey, events: seq<Event>, gs: seq<Group>)
  {
    forall e :: e in events ==> IndexOfKey(gs, key, key(e)) >= 0
  }

  /** The groups are a partition of `events` by key, with one correct
      representative and size per key. */
  ghost predicate Partition(key: Event -> GroupKey, earliest: bool, events: seq<Event>, gs: seq<Group>)
  {
    && |gs| == |Keys(key, events)|
    && DistinctKeys(key, gs)
    && AllRepresent(key, earliest, events, gs)
    && Covers(key, events, gs)
  }

  /** The position of the group with key `k`, or -1. */
  function IndexOfKey(gs: seq<Group>, key: Event -> GroupKey, k: GroupKey): (i: int)
    ensures -1 <= i < |gs|
    ensures i == -1 <==> forall j :: 0 <= j < |gs| ==> key(gs[j].rep) != k
    ensures i >= 0 ==> key(gs[i].rep) == k
  {
    if gs == [] then -1
    else if key(gs[|gs| - 1].rep) == k then |gs| - 1
    else IndexOfKey(gs[..|gs| - 1], key, k)
  }

  /** Adds one event to the group of its key: the fitter of the two events
      represents the group, and the group grows by one. */
  function Join(earliest: bool, gr: Group, e: Event): Group
  {
    Group(if Fitter(earliest, gr.rep, e) then gr.rep else e, gr.size + 1)
  }

  function AddEvent(gs: seq<Group>, key: Event -> GroupKey, earliest: bool, e: Event): seq<Group>
  {
    var i := IndexOfKey(gs, key, key(e));
    if i < 0 then gs + [Group(e, 1)] else gs[i := Join(earliest, gs[i], e)]
  }

  function GroupBy(events: seq<Event>, key: Event -> GroupKey, earliest: bool): seq<Group>
  {
    if events == [] then []
    else AddEvent(GroupBy(events[..|events| - 1], key, earliest), key, earliest, events[|events| - 1])
  }

  lemma CountAbsent(key: Event -> GroupKey, events: seq<Event>, k: GroupKey)
    requires forall e :: e in events ==> key(e) != k
    ensures CountKey(key, events, k) == 0
  {
    if events != [] {
      var init := events[..|events| - 1];
      assert forall e :: e in init ==> e in events;
      CountAbsent(key, init, k);
    }
  }

  lemma CountSnoc(key: Event -> GroupKey, events: seq<Event>, e: Event, k: GroupKey)
    ensures CountKey(key, events + [e], k) == CountKey(key, events, k) + (if key(e) == k then 1 else 0)
  {
    assert (events + [e])[..|events|] == events;
  }

  lemma FitterTransitive(earliest: bool, a: Event, b: Event, c: Event)
    requires Fitter(earliest, a, b) && Fitter(earliest, b, c)
    ensures Fitter(earliest, a, c)
  {
  }

  /** Adding one event keeps the groups a correct partition. */
  lemma KeysSnoc(key: Event -> GroupKey, events: seq<Event>, e: Event)
    ensures Keys(key, events + [e]) == Keys(key, events) + {key(e)}
  {
    assert forall x :: x in events + [e] <==> x in events || x == e;
  }

  /** A group of another key than the new event's stays as it is. */
  lemma KeepGroup(key: Event -> GroupKey, earliest: bool, events: seq<Event>, gr: Group, e: Event)
    requires Represents(key, earliest, events, gr)
    requires key(gr.rep) != key(e)
    ensures Represents(key, earliest, events + [e], gr)
  {
    CountSnoc(key, events, e, key(gr.rep));
    assert forall x :: x in events + [e] ==> x in events || x == e;
  }

  /** An event of a key not seen before forms a group of its own. */
  lemma NewGroup(key: Event -> GroupKey, earliest: bool, events: seq<Event>, e: Event)
    requires forall x :: x in events ==> key(x) != key(e)
    ensures Represents(key, earliest, events + [e], Group(e, 1))
  {
    CountAbsent(key, events, key(e));
    CountSnoc(key, events, e, key(e));
    assert forall x :: x in events + [e] ==> x in events || x == e;
  }

  /** An event of a known key joins its group. */
  lemma JoinGroup(key: Event -> GroupKey, earliest: bool, events: seq<Event>, gr: Group, e: Event)
    requires Represents(key, earliest, events, gr)
    requires key(gr.rep) == key(e)
    ensures key(Join(earliest, gr, e).rep) == key(e)
    ensures Represents(key, earliest, events + [e], Join(earliest, gr, e))
  {
    var j := Join(earliest, gr, e);
    CountSnoc(key, events, e, key(e));
    forall x | x in events + [e] && key(x) == key(e)
      ensures Fitter(earliest, j.rep, x)
    {
      assert x in events || x == e;
      if x != e {
        FitterTransitive(earliest, j.rep, gr.rep, x);
      }
    }
  }

  lemma AddNewDistinct(key: Event -> GroupKey, gs: seq<Group>, e: Event)
    requires DistinctKeys(key, gs)
    requires forall j :: 0 <= j < |gs| ==> key(gs[j].rep) != key(e)
    ensures DistinctKeys(key, gs + [Group(e, 1)])
  {
    var gs' := gs + [Group(e, 1)];
    forall i, j | 0 <= i < j < |gs'| ensures key(gs'[i].rep) != key(gs'[j].rep) {
      assert gs'[i] == gs[i];
      if j < |gs| {
        assert gs'[j] == gs[j];
      }
    }
  }

  lemma AddNewRepresent(key: Event -> GroupKey, earliest: bool, events: seq<Event>, gs: seq<Group>, e: Event)
    requires AllRepresent(key, earliest, events, gs)
    requires forall j :: 0 <= j < |gs| ==> key(gs[j].rep) != key(e)
    requires forall x :: x in events ==> key(x) != key(e)
    ensures AllRepresent(key, earliest, events + [e], gs + [Group(e, 1)])
  {
    var gs' := gs + [Group(e, 1)];
    NewGroup(key, earliest, events, e);
    forall i | 0 <= i < |gs'| ensures Represents(key, earliest, events + [e], gs'[i]) {
      if i < |gs| {
        assert gs'[i] == gs[i];
        KeepGroup(key, earliest, events, gs[i], e);
      }
    }
  }

  lemma AddNewCovers(key: Event -> GroupKey, events: seq<Event>, gs: seq<Group>, e: Event)
    requires Covers(key, events, gs)
    ensures Covers(key, events + [e], gs + [Group(e, 1)])
  {
    var gs' := gs + [Group(e, 1)];
    forall x | x in events + [e] ensures IndexOfKey(gs', key, key(x)) >= 0 {
      if x == e {
        assert gs'[|gs|].rep == e;
      } else {
        assert x in events;
        var j := IndexOfKey(gs, key, key(x));
        assert gs'[j] == gs[j];
      }
    }
  }

  lemma AddNew(key: Event -> GroupKey, earliest: bool, events: seq<Event>, gs: seq<Group>, e: Event)
    requires Partition(key, earliest, events, gs)
    requires forall j :: 0 <= j < |gs| ==> key(gs[j].rep) != key(e)
    ensures Partition(key, earliest, events + [e], gs + [Group(e, 1)])
  {
    forall x | x in events ensures key(x) != key(e) {
      var j := IndexOfKey(gs, key, key(x));
    }
    KeysSnoc(key, events, e);
    assert key(e) !in Keys(key, events);
    AddNewDistinct(key, gs, e);
    AddNewRepresent(key, earliest, events, gs, e);
    AddNewCovers(key, events, gs, e);
  }

  /** Replacing groups by groups of the same keys keeps the keys distinct and
      covering, also of an event whose key is already there. */
  lemma SameKeys(key: Event -> GroupKey, events: seq<Event>, gs: seq<Group>, gs': seq<Group>, e: Event, i: nat)
    requires |gs'| == |gs| && i < |gs| && key(gs[i].rep) == key(e)
    requires forall j :: 0 <= j < |gs| ==> key(gs'[j].rep) == key(gs[j].rep)
    requires DistinctKeys(key, gs) && Covers(key, events, gs)
    ensures DistinctKeys(key, gs') && Covers(key, events + [e], gs')
  {
    forall x | x in events + [e] ensures IndexOfKey(gs', key, key(x)) >= 0 {
      if x == e {
        assert key(gs'[i].rep) == key(e);
      } else {
        assert x in events;
        var j := IndexOfKey(gs, key, key(x));
        assert key(gs'[j].rep) == key(x);
      }
    }
  }

  lemma AddExistingRepresent(key: Event -> GroupKey, earliest: bool, events: seq<Event>, gs: seq<Group>, e: Event, i: nat)
    requires AllRepresent(key, earliest, events, gs) && DistinctKeys(key, gs)
    requires i < |gs| && key(gs[i].rep) == key(e)
    ensures AllRepresent(key, earliest, events + [e], gs[i := Join(earliest, gs[i], e)])
  {
    var gs' := gs[i := Join(earliest, gs[i], e)];
    JoinGroup(key, earliest, events, gs[i], e);
    forall j | 0 <= j < |gs'| ensures Represents(key, earliest, events + [e], gs'[j]) {
      if j != i {
        assert key(gs[j].rep) != key(gs[i].rep);
        KeepGroup(key, earliest, events, gs[j], e);
      }
    }
  }

  /** An event whose key already has a group adds no key. */
  lemma KnownKey(key: Event -> GroupKey, earliest: bool, events: seq<Event>, gs: seq<Group>, e: Event, i: nat)
    requires AllRepresent(key, earliest, events, gs)
    requires i < |gs| && key(gs[i].rep) == key(e)
    ensures Keys(key, events + [e]) == Keys(key, events)
  {
    KeysSnoc(key, events, e);
    assert Represents(key, earliest, events, gs[i]);
    assert key(e) in Keys(key, events);
  }

  lemma AddExistingKeys(key: Event -> GroupKey, earliest: bool, events: seq<Event>, gs: seq<Group>, e: Event, i: nat)
    requires AllRepresent(key, earliest, events, gs) && DistinctKeys(key, gs) && Covers(key, events, gs)
    requires i < |gs| && key(gs[i].rep) == key(e)
    ensures var gs' := gs[i := Join(earliest, gs[i], e)];
      DistinctKeys(key, gs') && Covers(key, events + [e], gs')
  {
    var gs' := gs[i := Join(earliest, gs[i], e)];
    JoinGroup(key, earliest, events, gs[i], e);
    SameKeys(key, events, gs, gs', e, i);
  }

  lemma AddExisting(key: Event -> GroupKey, earliest: bool, events: seq<Event>, gs: seq<Group>, e: Event, i: nat)
    requires Partition(key, earliest, events, gs)
    requires i < |gs| && key(gs[i].rep) == key(e)
    ensures Partition(key, earliest, events + [e], gs[i := Join(earliest, gs[i], e)])
  {
    var gs' := gs[i := Join(earliest, gs[i], e)];
    assert |gs'| == |Keys(key, events + [e])| by {
      KnownKey(key, earliest, events, gs, e, i);
    }
    assert DistinctKeys(key, gs') && Covers(key, events + [e], gs') by {
      AddExistingKeys(key, earliest, events, gs, e, i);
    }
    assert AllRepresent(key, earliest, events + [e], gs') by {
      AddExistingRepresent(key, earliest, events, gs, e, i);
    }
  }

  /** Adding one event keeps the groups a correct partition. */
  lemma AddEventPartition(key: Event -> GroupKey, earliest: bool, events: seq<Event>, gs: seq<Group>, e: Event)
    requires Partition(key, earliest, events, gs)
    ensures Partition(key, earliest, events + [e], AddEvent(gs, key, earliest, e))
  {
    var i := IndexOfKey(gs, key, key(e));
    if i < 0 {
      AddNew(key, earliest, events, gs, e);
    } else {
      AddExisting(key, earliest, events, gs, e, i);
    }
  }

  /** Grouping yields one group per distinct key, each with the right size and
      the fittest event of that key as its representative. */
  lemma {:induction false} GroupByPartition(events: seq<Event>, key: Event -> GroupKey, earliest: bool)
    ensures Partition(key, earliest, events, GroupBy(events, key, earliest))
  {
    if events == [] {
      assert Keys(key, events) == {};
    } else {
      var init := events[..|events| - 1];
      GroupByPartition(init, key, earliest);
      assert init + [events[|events| - 1]] == events;
      assert GroupBy(events, key, earliest) == AddEvent(GroupBy(init, key, earliest), key, earliest, events[|events| - 1]);
      AddEventPartition(key, earliest, init, GroupBy(init, key, earliest), events[|events| - 1]);
    }
  }

  // ---------------------------------------------------------------------
  // Ordering the groups

  /** `a` may come before `b` in the result. */
  predicate Before(o: Order, a: Group, b: Group)
  {
    match o
    case MostRecent => !Newer(b.rep, a.rep)
    case LeastRecent => !Newer(a.rep, b.rep)
    case MostPopular => a.size > b.size || (a.size == b.size && !Newer(b.rep, a.rep))
    case LeastPopular => a.size < b.size || (a.size == b.size && !Newer(a.rep, b.rep))
  }

  predicate SortedBy(o: Order, s: seq<Group>)
  {
    forall i, j :: 0 <= i < j < |s| ==> Before(o, s[i], s[j])
  }

  lemma BeforeTransitive(o: Order, a: Group, b: Group, c: Group)
    requires Before(o, a, b) && Before(o, b, c)
    ensures Before(o, a, c)
  {
  }

  /** The head of a sorted sequence may come before everything after it. */
  lemma SortedHead(o: Order, s: seq<Group>)
    requires SortedBy(o, s) && s != []
    ensures forall y :: y in s[1..] ==> Before(o, s[0], y)
  {
    forall y | y in s[1..] ensures Before(o, s[0], y) {
      var j :| 0 <= j < |s[1..]| && s[1..][j] == y;
      assert s[j + 1] == y;
    }
  }

  lemma ConsSorted(o: Order, h: Group, t: seq<Group>)
    requires SortedBy(o, t) && forall y :: y in t ==> Before(o, h, y)
    ensures SortedBy(o, [h] + t)
  {
    var r := [h] + t;
    forall i, j | 0 <= i < j < |r| ensures Before(o, r[i], r[j]) {
      if i == 0 {
        assert r[j] == t[j - 1];
        assert r[j] in t;
      } else {
        assert r[i] == t[i - 1] && r[j] == t[j - 1];
      }
    }
  }

  lemma ConsDistinct(key: Event -> GroupKey, h: Group, t: seq<Group>)
    requires DistinctKeys(key, t) && forall y :: y in t ==> key(y.rep) != key(h.rep)
    ensures DistinctKeys(key, [h] + t)
  {
    var r := [h] + t;
    forall i, j | 0 <= i < j < |r| ensures key(r[i].rep) != key(r[j].rep) {
      if i == 0 {
        assert r[j] == t[j - 1];
        assert r[j] in t;
      } else {
        assert r[i] == t[i - 1] && r[j] == t[j - 1];
      }
    }
  }

  function Insert(o: Order, x: Group, s: seq<Group>): (r: seq<Group>)
    ensures multiset(r) == multiset(s) + multiset{x}
    ensures forall y :: y in r <==> y == x || y in s
  {
    if s == [] then [x]
    else if Before(o, x, s[0]) then
      assert s == [s[0]] + s[1..];
      [x] + s
    else
      assert s == [s[0]] + s[1..];
      [s[0]] + Insert(o, x, s[1..])
  }

  lemma {:induction false} InsertSorted(o: Order, x: Group, s: seq<Group>)
    requires SortedBy(o, s)
    ensures SortedBy(o, Insert(o, x, s))
  {
    if s == [] {
    } else if Before(o, x, s[0]) {
      SortedHead(o, s);
      forall y | y in s ensures Before(o, x, y) {
        if y != s[0] {
          assert s == [s[0]] + s[1..];
          BeforeTransitive(o, x, s[0], y);
        }
      }
      ConsSorted(o, x, s);
    } else {
      var tail := s[1..];
      assert SortedBy(o, tail);
      InsertSorted(o, x, tail);
      SortedHead(o, s);
      ConsSorted(o, s[0], Insert(o, x, tail));
    }
  }

  function Sort(o: Order, s: seq<Group>): (r: seq<Group>)
    ensures SortedBy(o, r)
    ensures multiset(r) == multiset(s)
    ensures |r| == |s| && forall y :: y in r <==> y in s
  {
    if s == [] then []
    else
      assert s == [s[0]] + s[1..];
      InsertSorted(o, s[0], Sort(o, s[1..]));
      Insert(o, s[0], Sort(o, s[1..]))
  }

  lemma {:induction false} InsertDistinct(key: Event -> GroupKey, o: Order, x: Group, s: seq<Group>)
    requires DistinctKeys(key, s)
    requires forall y :: y in s ==> key(y.rep) != key(x.rep)
    ensures DistinctKeys(key, Insert(o, x, s))
  {
    if s == [] {
    } else if Before(o, x, s[0]) {
      ConsDistinct(key, x, s);
    } else {
      var tail := s[1..];
      assert forall y :: y in tail ==> y in s;
      assert DistinctKeys(key, tail);
      InsertDistinct(key, o, x, tail);
      forall y | y in tail ensures key(y.rep) != key(s[0].rep) {
        var j :| 0 <= j < |tail| && tail[j] == y;
        assert s[j + 1] == y;
      }
      assert s[0] in s;
      ConsDistinct(key, s[0], Insert(o, x, tail));
    }
  }

  lemma {:induction false} SortDistinct(key: Event -> GroupKey, o: Order, s: seq<Group>)
    requires DistinctKeys(key, s)
    ensures DistinctKeys(key, Sort(o, s))
  {
    if s != [] {
      SortDistinct(key, o, s[1..]);
      var t := Sort(o, s[1..]);
      forall y | y in t ensures key(y.rep) != key(s[0].rep) {
        assert y in s[1..];
        var j :| 0 <= j < |s[1..]| && s[1..][j] == y;
        assert s[j + 1] == y;
      }
      InsertDistinct(key, o, s[0], t);
    }
  }

  /** Sorting keeps a partition a partition. */
  lemma SortPartition(key: Event -> GroupKey, earliest: bool, events: seq<Event>, gs: seq<Group>, o: Order)
    requires Partition(key, earliest, events, gs)
    ensures Partition(key, earliest, events, Sort(o, gs))
  {
    SortDistinct(key, o, gs);
    SortRepresents(key, earliest, events, gs, o);
    SortCovers(key, events, gs, o);
  }

  lemma SortRepresents(key: Event -> GroupKey, earliest: bool, events: seq<Event>, gs: seq<Group>, o: Order)
    requires AllRepresent(key, earliest, events, gs)
    ensures AllRepresent(key, earliest, events, Sort(o, gs))
  {
    var all := Sort(o, gs);
    forall i | 0 <= i < |all| ensures Represents(key, earliest, events, all[i]) {
      assert all[i] in gs;
      var j :| 0 <= j < |gs| && gs[j] == all[i];
    }
  }

  lemma SortCovers(key: Event -> GroupKey, events: seq<Event>, gs: seq<Group>, o: Order)
    requires Covers(key, events, gs)
    ensures Covers(key, events, Sort(o, gs))
  {
    var all := Sort(o, gs);
    forall x | x in events ensures IndexOfKey(all, key, key(x)) >= 0 {
      var j := IndexOfKey(gs, key, key(x));
      assert gs[j] in all;
      var i :| 0 <= i < |all| && all[i] == gs[j];
    }
  }

  // ---------------------------------------------------------------------
  // The ranked result

  /** All groups, best first. */
  function AllRanked(events: seq<Event>, rt: ResultType): seq<Group>
  {
    Sort(rt.order, GroupBy(events, KeyFn(rt.grouping), rt.earliest))
  }

  /** The groups that come back, best first, at most `limit` of them
      (0 for no limit). */
  function Ranked(events: seq<Event>, rt: ResultType, limit: nat): seq<Group>
  {
    var all := AllRanked(events, rt);
    if limit == 0 || limit >= |all| then all else all[..limit]
  }

  /** The ids `find_eventids` returns for the matching `events`. */
  function RankedIds(events: seq<Event>, rt: ResultType, limit: nat): seq<nat>
  {
    var r := Ranked(events, rt, limit);
    seq(|r|, i requires 0 <= i < |r| => r[i].rep.id)
  }

  lemma AllRankedPartition(events: seq<Event>, rt: ResultType)
    ensures Partition(KeyFn(rt.grouping), rt.earliest, events, AllRanked(events, rt))
  {
    GroupByPartition(events, KeyFn(rt.grouping), rt.earliest);
    SortPartition(KeyFn(rt.grouping), rt.earliest, events, GroupBy(events, KeyFn(rt.grouping), rt.earliest), rt.order);
  }

  /** The result has one entry per group key and no more (fewer when the
      limit cuts it), in the order of the result type; each entry is its
      group's representative and carries its group's size; what the limit
      cuts off ranks no better than what it keeps. */
  lemma RankedCorrect(events: seq<Event>, rt: ResultType, limit: nat)
    ensures var r := Ranked(events, rt, limit);
      && |r| == (if limit == 0 || limit >= |Keys(KeyFn(rt.grouping), events)| then |Keys(KeyFn(rt.grouping), events)| else limit)
      && SortedBy(rt.order, r)
      && DistinctKeys(KeyFn(rt.grouping), r)
      && (forall i :: 0 <= i < |r| ==> Represents(KeyFn(rt.grouping), rt.earliest, events, r[i]))
      && (forall i, j :: 0 <= i < |r| <= j < |AllRanked(events, rt)| ==>
            Before(rt.order, r[i], AllRanked(events, rt)[j]))
  {
    AllRankedPartition(events, rt);
  }

  /** Without a limit every key of the matching events has its group in the
      result. */
  lemma RankedCoversAllKeys(events: seq<Event>, rt: ResultType)
    ensures forall e :: e in events ==>
      exists i :: 0 <= i < |Ranked(events, rt, 0)| && KeyOf(rt.grouping, Ranked(events, rt, 0)[i].rep) == KeyOf(rt.grouping, e)
  {
    AllRankedPartition(events, rt);
    var r := Ranked(events, rt, 0);
    forall e | e in events
      ensures exists i :: 0 <= i < |r| && KeyOf(rt.grouping, r[i].rep) == KeyOf(rt.grouping, e)
    {
      var i := IndexOfKey(r, KeyFn(rt.grouping), KeyFn(rt.grouping)(e));
      assert KeyFn(rt.grouping)(r[i].rep) == KeyOf(rt.grouping, r[i].rep);
    }
  }

  /** Events with pairwise distinct ids have as many per-event keys as
      events. */
  lemma {:induction false} PerEventKeys(events: seq<Event>)
    requires forall i, j :: 0 <= i < j < |events| ==> events[i].id != events[j].id
    ensures |Keys(KeyFn(PerEvent), events)| == |events|
  {
    if events != [] {
      var init, e := events[..|events| - 1], events[|events| - 1];
      PerEventKeys(init);
      assert init + [e] == events;
      KeysSnoc(KeyFn(PerEvent), init, e);
      assert EventKey(e.id) !in Keys(KeyFn(PerEvent), init);
    }
  }

  /** Ungrouped and unlimited, every matching event comes back exactly once. */
  lemma PerEventResult(events: seq<Event>, o: Order)
    requires forall i, j :: 0 <= i < j < |events| ==> events[i].id != events[j].id
    ensures |RankedIds(events, ResultType(PerEvent, o, false), 0)| == |events|
    ensures forall id :: id in RankedIds(events, ResultType(PerEvent, o, false), 0) <==>
      exists e :: e in events && e.id == id
  {
    var rt := ResultType(PerEvent, o, false);
    var key := KeyFn(PerEvent);
    var r := Ranked(events, rt, 0);
    AllRankedPartition(events, rt);
    PerEventKeys(events);
    var ids := RankedIds(events, rt, 0);
    assert |ids| == |r| == |events|;
    forall id | id in ids ensures exists e :: e in events && e.id == id {
      var i :| 0 <= i < |ids| && ids[i] == id;
      assert Represents(key, false, events, r[i]);
      assert r[i].rep in events;
    }
    forall e | e in events ensures e.id in ids {
      var i := IndexOfKey(r, key, key(e));
      assert key(e) == EventKey(e.id) && key(r[i].rep) == EventKey(r[i].rep.id);
      assert ids[i] == e.id;
    }
  }
}

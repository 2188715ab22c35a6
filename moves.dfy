/** The move-event rewrite of `current_uri` (test/engine-test.py:972-1033).

    Inserting an event whose interpretation is the move event, with a
    subject that went from `uri` A to `current_uri` B, rewrites every stored
    subject whose current URI is A to current URI B, but only on events that
    are not move events themselves and whose timestamp is strictly earlier
    than the move event's. A move event with several subjects applies them
    one after another, in subject order. */
module Moves {
  import opened Wrappers
  import opened Datamodel

  function RewriteSubject(s: Subject, from: string, to: string): Subject
  {
    if s.currentUri == from then s.(currentUri := to) else s
  }

  /** One event under the move of `from` to `to` at time `t`. */
  function RewriteEvent(e: Event, t: int, from: string, to: string): Event
  {
    if IsMove(e) || TimeOf(e) >= t then e
    else e.(subjects := seq(|e.subjects|, i requires 0 <= i < |e.subjects| => RewriteSubject(e.subjects[i], from, to)))
  }

  function Rewrite(events: seq<Event>, t: int, from: string, to: string): seq<Event>
  {
    seq(|events|, i requires 0 <= i < |events| => RewriteEvent(events[i], t, from, to))
  }

  /** The stored events after the move event `m` is inserted. */
  function ApplyMove(events: seq<Event>, m: Event): (r: seq<Event>)
    ensures |r| == |events|
    ensures forall i :: 0 <= i < |r| ==> r[i].id == events[i].id && |r[i].subjects| == |events[i].subjects|
  {
    ApplySubjects(events, TimeOf(m), m.subjects)
  }

  function ApplySubjects(events: seq<Event>, t: int, moved: seq<Subject>): (r: seq<Event>)
    ensures |r| == |events|
    ensures forall i :: 0 <= i < |r| ==> r[i].id == events[i].id && |r[i].subjects| == |events[i].subjects|
    decreases |moved|
  {
    if moved == [] then events
    else ApplySubjects(Rewrite(events, t, moved[0].uri, moved[0].currentUri), t, moved[1..])
  }

  /** `b` is `a` with at most its subjects' current URIs changed. */
  predicate SameButCurrentUris(a: Event, b: Event)
  {
    && b.(subjects := a.subjects) == a
    && |b.subjects| == |a.subjects|
    && forall k :: 0 <= k < |a.subjects| ==> b.subjects[k] == a.subjects[k].(currentUri := b.subjects[k].currentUri)
  }

  /** A move touches only current URIs, and only on earlier events that are
      not moves: every other event, and every other field, keeps its
      value. */
  lemma {:induction false} MoveOnlyEarlier(events: seq<Event>, t: int, moved: seq<Subject>)
    ensures var r := ApplySubjects(events, t, moved);
      && |r| == |events|
      && (forall i :: 0 <= i < |events| ==> SameButCurrentUris(events[i], r[i]))
      && (forall i :: 0 <= i < |events| && (IsMove(events[i]) || TimeOf(events[i]) >= t) ==> r[i] == events[i])
    decreases |moved|
  {
    if moved != [] {
      var step := Rewrite(events, t, moved[0].uri, moved[0].currentUri);
      MoveOnlyEarlier(step, t, moved[1..]);
      var r := ApplySubjects(events, t, moved);
      assert r == ApplySubjects(step, t, moved[1..]);
      forall i | 0 <= i < |events|
        ensures SameButCurrentUris(events[i], r[i])
      {
        assert step[i] == RewriteEvent(events[i], t, moved[0].uri, moved[0].currentUri);
        assert SameButCurrentUris(events[i], step[i]);
        assert SameButCurrentUris(step[i], r[i]);
      }
    }
  }

  /** A subject of an earlier, non-move event whose current URI is the moved
      URI ends up at the new location when the move has one subject. */
  lemma MoveReachesEarlier(events: seq<Event>, m: Subject, t: int, i: nat, k: nat)
    requires i < |events| && k < |events[i].subjects|
    requires !IsMove(events[i]) && TimeOf(events[i]) < t
    ensures ApplySubjects(events, t, [m])[i].subjects[k].currentUri ==
      if events[i].subjects[k].currentUri == m.uri then m.currentUri else events[i].subjects[k].currentUri
  {
    assert [m][1..] == [];
  }

  // ---------------------------------------------------------------------
  // testMoveEventTimeWarp (test/engine-test.py:1009-1033)

  function Stored(id: nat, t: int, uri: string): Event
  {
    BlankEvent.(id := id, timestamp := Some(t), subjects := [BlankSubject.(uri := uri, currentUri := uri)])
  }

  const TimeWarpEvents: seq<Event> :=
    [Stored(1, 100, "A"), Stored(2, 200, "A"), Stored(3, 300, "A"), Stored(4, 400, "B"), Stored(5, 500, "A")]

  const TimeWarpMove: Event :=
    BlankEvent.(timestamp := Some(500), interpretation := MoveEvent,
                subjects := [BlankSubject.(uri := "A", currentUri := "X")])

  /** Moving A to X at 500 rewrites the A events at 100, 200 and 300; the B
      event at 400 and the A event at 500 keep their current URI. */
  lemma TimeWarp()
    ensures var r := ApplyMove(TimeWarpEvents, TimeWarpMove);
      && |r| == 5
      && r[0].subjects[0].currentUri == "X"
      && r[1].subjects[0].currentUri == "X"
      && r[2].subjects[0].currentUri == "X"
      && r[3].subjects[0].currentUri == "B"
      && r[4].subjects[0].currentUri == "A"
  {
    var m := TimeWarpMove.subjects[0];
    assert !IsMove(Stored(1, 100, "A")) by { assert MoveEvent != ""; }
    MoveOnlyEarlier(TimeWarpEvents, 500, [m]);
    forall i | 0 <= i < 4
      ensures ApplyMove(TimeWarpEvents, TimeWarpMove)[i].subjects[0].currentUri ==
        if TimeWarpEvents[i].subjects[0].currentUri == "A" then "X" else TimeWarpEvents[i].subjects[0].currentUri
    {
      MoveReachesEarlier(TimeWarpEvents, m, 500, i, 0);
    }
  }

  // ---------------------------------------------------------------------
  // testSubjectCurrentUri (test/engine-test.py:972-994)

  function Move(id: nat, t: int, from: string, to: string): Event
  {
    BlankEvent.(id := id, timestamp := Some(t), interpretation := MoveEvent,
                subjects := [BlankSubject.(uri := from, currentUri := to)])
  }

  /** x is moved to y at 200 and back to x at 300: the plain event at 100
      follows both moves, while the stored move event at 200 keeps y. */
  lemma MoveEventsAreNotRewritten()
    ensures var first := ApplyMove([Stored(1, 100, "x")], Move(2, 200, "x", "y")) + [Move(2, 200, "x", "y")];
      var second := ApplyMove(first, Move(3, 300, "y", "x"));
      && first[0].subjects[0].currentUri == "y"
      && second[0].subjects[0].currentUri == "x"
      && second[1].subjects[0].currentUri == "y"
  {
    var m1, m2 := Move(2, 200, "x", "y"), Move(3, 300, "y", "x");
    assert !IsMove(Stored(1, 100, "x")) by { assert MoveEvent != ""; }
    MoveReachesEarlier([Stored(1, 100, "x")], m1.subjects[0], 200, 0, 0);
    var first := ApplyMove([Stored(1, 100, "x")], m1) + [m1];
    MoveOnlyEarlier([Stored(1, 100, "x")], 200, m1.subjects);
    assert !IsMove(first[0]);
    MoveReachesEarlier(first, m2.subjects[0], 300, 0, 0);
    MoveOnlyEarlier(first, 300, m2.subjects);
    assert IsMove(first[1]);
  }
}

/**
 * The reconciliation step of `apply` in synchronize.py: snapshot the live
 * zone, diff it against the declared records, then print and (unless in a
 * dry run) apply the removals followed by the additions.
 *
 * The provider client is not modelled: its listing is an input, and each
 * call the step makes is an entry of the output trace.
 */
module Reconcile {
  import opened Wrappers
  import opened ZoneFile

  /** One entry of the provider's record listing, with the fields `apply` reads. */
  datatype Listed = Listed(name: string, displayName: string, rtype: string, content: string, recId: string)

  /** The live zone: its records, and the record id last listed under each name. */
  datatype Snapshot = Snapshot(present: set<Record>, ids: map<string, string>)

  /** The changes that make the live zone match the declared one. */
  datatype Plan = Plan(toAdd: set<Record>, toRemove: set<Record>)

  /** The optional record attributes the provider's create call accepts. */
  datatype Extras = Extras(
    prio: Option<string>, service: Option<string>, serviceName: Option<string>,
    protocol: Option<string>, weight: Option<string>, port: Option<string>, target: Option<string>)

  /** Every optional attribute left as `None`. */
  const NoExtras := Extras(None, None, None, None, None, None, None)

  /** The ttl value that asks the provider for an automatic time-to-live. */
  const AutomaticTtl := 1

  /** A call into the provider client. */
  datatype Op =
    | LoadAll(zone: string)
    | Delete(zone: string, recId: string)
    | Create(zone: string, rtype: string, name: string, content: string, ttl: int, extras: Extras)

  /** A printed diff line. */
  datatype Line = Removed(record: Record) | Added(record: Record)

  /** What one run of `apply` does, in order. */
  datatype Event = Print(line: Line) | Call(op: Op)

  /** The outcome of a run: what it did, and the parse error it raised, if any. */
  datatype Run = Run(trace: seq<Event>, failure: Option<ParseError>)

  /**
   * The text of a printed line: `- ` or `+ `, then the record as the zone
   * file writes it.
   */
  function Text(line: Line): (s: string)
    ensures s == (if line.Removed? then "- " else "+ ") + Render(line.record)
  {
    var r := line.record;
    JoinThree(r.name, r.rtype, r.content, ' ');
    (if line.Removed? then "- " else "+ ") + r.name + " " + r.rtype + " " + r.content
  }

  /** The lines a trace prints, in order. */
  function Prints(trace: seq<Event>): seq<Line>
    decreases |trace|
  {
    if |trace| == 0 then []
    else (if trace[0].Print? then [trace[0].line] else []) + Prints(trace[1..])
  }

  /** The provider calls a trace makes, in order. */
  function Calls(trace: seq<Event>): seq<Op>
    decreases |trace|
  {
    if |trace| == 0 then []
    else (if trace[0].Call? then [trace[0].op] else []) + Calls(trace[1..])
  }

  /** Printed lines and calls of a trace split over concatenation. */
  lemma ProjectionsAppend(a: seq<Event>, b: seq<Event>)
    ensures Prints(a + b) == Prints(a) + Prints(b)
    ensures Calls(a + b) == Calls(a) + Calls(b)
  {
    PrintsAppend(a, b);
    CallsAppend(a, b);
  }

  lemma {:induction false} PrintsAppend(a: seq<Event>, b: seq<Event>)
    ensures Prints(a + b) == Prints(a) + Prints(b)
    decreases |a|
  {
    if |a| == 0 {
      assert a + b == b;
    } else {
      var head := if a[0].Print? then [a[0].line] else [];
      assert (a + b)[0] == a[0];
      assert (a + b)[1..] == a[1..] + b;
      PrintsAppend(a[1..], b);
      calc {
        Prints(a + b);
        head + Prints(a[1..] + b);
        head + (Prints(a[1..]) + Prints(b));
        (head + Prints(a[1..])) + Prints(b);
      }
    }
  }

  lemma {:induction false} CallsAppend(a: seq<Event>, b: seq<Event>)
    ensures Calls(a + b) == Calls(a) + Calls(b)
    decreases |a|
  {
    if |a| == 0 {
      assert a + b == b;
    } else {
      var head := if a[0].Call? then [a[0].op] else [];
      assert (a + b)[0] == a[0];
      assert (a + b)[1..] == a[1..] + b;
      CallsAppend(a[1..], b);
      calc {
        Calls(a + b);
        head + Calls(a[1..] + b);
        head + (Calls(a[1..]) + Calls(b));
        (head + Calls(a[1..])) + Calls(b);
      }
    }
  }

  /** The name under which a listed record appears: `@` for the zone apex. */
  function LiveName(zone: string, l: Listed): string {
    if l.name != zone then l.displayName else "@"
  }

  function LiveRecord(zone: string, l: Listed): Record {
    Record(LiveName(zone, l), l.rtype, l.content)
  }

  /** The position of the last listed record with a given live name, or -1. */
  function LastIndex(zone: string, listing: seq<Listed>, name: string): (i: int)
    ensures -1 <= i < |listing|
    ensures i >= 0 ==> LiveName(zone, listing[i]) == name
    ensures forall j :: i < j < |listing| ==> LiveName(zone, listing[j]) != name
    decreases |listing|
  {
    if |listing| == 0 then -1
    else if LiveName(zone, listing[|listing| - 1]) == name then |listing| - 1
    else LastIndex(zone, listing[..|listing| - 1], name)
  }

  /**
   * The first loop of `apply`: every listed record goes into the live set
   * under its live name, and the id map keeps, for each name, the id of the
   * last record listed under it (later entries overwrite earlier ones).
   */
  function TakeSnapshot(zone: string, listing: seq<Listed>): (snap: Snapshot)
    ensures snap.present == set l | l in listing :: LiveRecord(zone, l)
    ensures forall r :: r in snap.present ==> r.name in snap.ids
    ensures forall n :: n in snap.ids ==>
      0 <= LastIndex(zone, listing, n) && snap.ids[n] == listing[LastIndex(zone, listing, n)].recId
    decreases |listing|
  {
    if |listing| == 0 then Snapshot({}, map[])
    else
      var init := listing[..|listing| - 1];
      var l := listing[|listing| - 1];
      var prev := TakeSnapshot(zone, init);
      var snap := Snapshot(prev.present + {LiveRecord(zone, l)}, prev.ids[LiveName(zone, l) := l.recId]);
      SnapshotStep(zone, listing, prev, snap);
      snap
  }

  /** One iteration of the snapshot loop keeps the snapshot's three facts. */
  lemma SnapshotStep(zone: string, listing: seq<Listed>, prev: Snapshot, snap: Snapshot)
    requires |listing| > 0
    requires var init := listing[..|listing| - 1];
      && prev.present == (set l | l in init :: LiveRecord(zone, l))
      && (forall r :: r in prev.present ==> r.name in prev.ids)
      && (forall n :: n in prev.ids ==>
            0 <= LastIndex(zone, init, n) && prev.ids[n] == init[LastIndex(zone, init, n)].recId)
    requires var l := listing[|listing| - 1];
      snap == Snapshot(prev.present + {LiveRecord(zone, l)}, prev.ids[LiveName(zone, l) := l.recId])
    ensures snap.present == set l | l in listing :: LiveRecord(zone, l)
    ensures forall r :: r in snap.present ==> r.name in snap.ids
    ensures forall n :: n in snap.ids ==>
      0 <= LastIndex(zone, listing, n) && snap.ids[n] == listing[LastIndex(zone, listing, n)].recId
  {
    var init := listing[..|listing| - 1];
    var last := listing[|listing| - 1];
    assert listing == init + [last];
    assert forall l :: l in listing <==> l in init || l == last;
    forall n | n in snap.ids
      ensures 0 <= LastIndex(zone, listing, n) && snap.ids[n] == listing[LastIndex(zone, listing, n)].recId
    {
      if n != LiveName(zone, last) {
        assert LastIndex(zone, listing, n) == LastIndex(zone, init, n);
      }
    }
  }

  /** The declared records as a set: `set(parsed_zone)`. */
  function ToSet(recs: seq<Record>): set<Record> {
    set r | r in recs
  }

  /**
   * `to_add = future - present` and `to_remove = present - future`. They
   * are the only plan that touches nothing beyond what must change, turns
   * the live set into the declared one, and is empty exactly when the two
   * already agree.
   */
  function Diff(future: set<Record>, present: set<Record>): (p: Plan)
    ensures p.toAdd !! p.toRemove
    ensures p.toRemove <= present && p.toAdd !! present
    ensures (present - p.toRemove) + p.toAdd == future
    ensures (p.toAdd == {} && p.toRemove == {}) <==> future == present
  {
    Plan(future - present, present - future)
  }

  /** The plan `apply` computes for the declared records and the listing. */
  function PlanFor(zone: string, recs: seq<Record>, listing: seq<Listed>): Plan {
    Diff(ToSet(recs), TakeSnapshot(zone, listing).present)
  }

  /**
   * What the plan holds, record by record: a declared record that no listed
   * record equals is added; a listed record that the file does not declare
   * is removed.
   */
  lemma PlanForContents(zone: string, recs: seq<Record>, listing: seq<Listed>, r: Record)
    ensures r in PlanFor(zone, recs, listing).toAdd <==> r in recs && forall l :: l in listing ==> LiveRecord(zone, l) != r
    ensures r in PlanFor(zone, recs, listing).toRemove <==> r !in recs && exists l :: l in listing && LiveRecord(zone, l) == r
  {
  }

  /** `order` lists the elements of `s`, each exactly once: one way Python may iterate a set. */
  predicate Enumerates(order: seq<Record>, s: set<Record>) {
    && (forall i :: 0 <= i < |order| ==> order[i] in s)
    && (forall r :: r in s ==> r in order)
    && (forall i, j :: 0 <= i < j < |order| ==> order[i] != order[j])
  }

  /** An enumeration is as long as the set it enumerates. */
  lemma {:induction false} EnumerationLength(order: seq<Record>, s: set<Record>)
    requires Enumerates(order, s)
    ensures |order| == |s|
    decreases |order|
  {
    if |order| > 0 {
      var last := order[|order| - 1];
      var init := order[..|order| - 1];
      assert forall r :: r in s - {last} ==> r in init by {
        forall r | r in s - {last} ensures r in init {
          var k :| 0 <= k < |order| && order[k] == r;
          assert k < |order| - 1;
          assert init[k] == r;
        }
      }
      EnumerationLength(init, s - {last});
    } else {
      assert forall r :: r !in s;
    }
  }

  /** The printed lines of a removal phase over `order`. */
  function RemovedLines(order: seq<Record>): seq<Line> {
    seq(|order|, i requires 0 <= i < |order| => Removed(order[i]))
  }

  /** The printed lines of an addition phase over `order`. */
  function AddedLines(order: seq<Record>): seq<Line> {
    seq(|order|, i requires 0 <= i < |order| => Added(order[i]))
  }

  /** The delete calls of a live removal phase: each record by the id stored under its name. */
  function Deletes(zone: string, ids: map<string, string>, order: seq<Record>): seq<Op>
    requires forall i :: 0 <= i < |order| ==> order[i].name in ids
  {
    seq(|order|, i requires 0 <= i < |order| => Delete(zone, ids[order[i].name]))
  }

  /** The create calls of a live addition phase: automatic ttl and no optional attributes. */
  function Creates(zone: string, order: seq<Record>): seq<Op> {
    seq(|order|, i requires 0 <= i < |order| =>
      Create(zone, order[i].rtype, order[i].name, order[i].content, AutomaticTtl, NoExtras))
  }

  /** How many events `n` loop iterations add: a line each, and a call each when live. */
  function Span(live: bool, n: nat): nat {
    if live then 2 * n else n
  }

  /**
   * From position `at`, `t` holds the removal loop over `order`: the `-`
   * line of each record, directly followed by its delete when live.
   */
  predicate RemovalsAt(t: seq<Event>, at: nat, zone: string, ids: map<string, string>, order: seq<Record>, live: bool)
    requires forall i :: 0 <= i < |order| ==> order[i].name in ids
  {
    if live then
      && at + 2 * |order| <= |t|
      && forall i :: 0 <= i < |order| ==>
           t[at + 2 * i] == Print(Removed(order[i])) && t[at + 2 * i + 1] == Call(Delete(zone, ids[order[i].name]))
    else
      && at + |order| <= |t|
      && forall i :: 0 <= i < |order| ==> t[at + i] == Print(Removed(order[i]))
  }

  /**
   * From position `at`, `t` holds the addition loop over `order`: the `+`
   * line of each record, directly followed by its create when live.
   */
  predicate AdditionsAt(t: seq<Event>, at: nat, zone: string, order: seq<Record>, live: bool) {
    if live then
      && at + 2 * |order| <= |t|
      && forall i :: 0 <= i < |order| ==>
           && t[at + 2 * i] == Print(Added(order[i]))
           && t[at + 2 * i + 1] == Call(Create(zone, order[i].rtype, order[i].name, order[i].content, AutomaticTtl, NoExtras))
    else
      && at + |order| <= |t|
      && forall i :: 0 <= i < |order| ==> t[at + i] == Print(Added(order[i]))
  }

  /**
   * The removal loop of `apply`: print each record, then delete it when
   * live. A dry run prints the same lines and calls nothing.
   */
  function RemovalSteps(zone: string, ids: map<string, string>, order: seq<Record>, live: bool): (t: seq<Event>)
    requires forall i :: 0 <= i < |order| ==> order[i].name in ids
    ensures Prints(t) == RemovedLines(order)
    ensures Calls(t) == if live then Deletes(zone, ids, order) else []
    decreases |order|
  {
    if |order| == 0 then []
    else
      var r := order[0];
      var rest := RemovalSteps(zone, ids, order[1..], live);
      RemovalProjections(zone, ids, order, live, rest);
      [Print(Removed(r))] + (if live then [Call(Delete(zone, ids[r.name]))] else []) + rest
  }

  /** One more removal in front of a removal loop's events extends its lines and calls. */
  lemma RemovalProjections(zone: string, ids: map<string, string>, order: seq<Record>, live: bool, rest: seq<Event>)
    requires |order| > 0 && forall i :: 0 <= i < |order| ==> order[i].name in ids
    requires Prints(rest) == RemovedLines(order[1..])
    requires Calls(rest) == if live then Deletes(zone, ids, order[1..]) else []
    ensures var r := order[0];
      var t := [Print(Removed(r))] + (if live then [Call(Delete(zone, ids[r.name]))] else []) + rest;
      && Prints(t) == RemovedLines(order)
      && Calls(t) == if live then Deletes(zone, ids, order) else []
  {
    var r := order[0];
    var step := [Print(Removed(r))] + (if live then [Call(Delete(zone, ids[r.name]))] else []);
    StepProjections(step, rest);
    RemovedLinesCons(order);
    if live {
      LiveStep(Removed(r), Delete(zone, ids[r.name]));
      DeletesCons(zone, ids, order);
    } else {
      DryStep(Removed(r));
    }
  }

  /** A live iteration prints its line and makes its call. */
  lemma LiveStep(line: Line, op: Op)
    ensures Prints([Print(line)] + [Call(op)]) == [line]
    ensures Calls([Print(line)] + [Call(op)]) == [op]
  {
    var step := [Print(line)] + [Call(op)];
    var tail := step[1..];
    assert tail == [Call(op)];
    assert tail[1..] == [];
    assert Prints(tail) == [] + Prints(tail[1..]);
    assert Calls(tail) == [op] + Calls(tail[1..]);
    assert Prints(step) == [line] + Prints(tail);
    assert Calls(step) == [] + Calls(tail);
  }

  /** A dry iteration only prints its line. */
  lemma DryStep(line: Line)
    ensures Prints([Print(line)] + []) == [line]
    ensures Calls([Print(line)] + []) == []
  {
    assert ([Print(line)] + [])[1..] == [];
  }

  /** The projections of one iteration followed by the rest of a loop. */
  lemma StepProjections(step: seq<Event>, rest: seq<Event>)
    ensures Prints(step + rest) == Prints(step) + Prints(rest)
    ensures Calls(step + rest) == Calls(step) + Calls(rest)
  {
    ProjectionsAppend(step, rest);
  }

  lemma RemovedLinesCons(order: seq<Record>)
    requires |order| > 0
    ensures RemovedLines(order) == [Removed(order[0])] + RemovedLines(order[1..])
  {
  }

  lemma DeletesCons(zone: string, ids: map<string, string>, order: seq<Record>)
    requires |order| > 0 && forall i :: 0 <= i < |order| ==> order[i].name in ids
    ensures Deletes(zone, ids, order) == [Delete(zone, ids[order[0].name])] + Deletes(zone, ids, order[1..])
  {
  }

  /** The removal loop prints each record's `-` line directly followed, when live, by its delete. */
  lemma {:induction false} RemovalStepsShape(zone: string, ids: map<string, string>, order: seq<Record>, live: bool)
    requires forall i :: 0 <= i < |order| ==> order[i].name in ids
    ensures var t := RemovalSteps(zone, ids, order, live);
      |t| == Span(live, |order|) && RemovalsAt(t, 0, zone, ids, order, live)
    decreases |order|
  {
    if |order| > 0 {
      RemovalStepsShape(zone, ids, order[1..], live);
      RemovalsCons(zone, ids, order, live, RemovalSteps(zone, ids, order[1..], live));
    }
  }

  /** One more removal in front of a removal loop's events. */
  lemma RemovalsCons(zone: string, ids: map<string, string>, order: seq<Record>, live: bool, rest: seq<Event>)
    requires |order| > 0 && forall i :: 0 <= i < |order| ==> order[i].name in ids
    requires |rest| == Span(live, |order| - 1) && RemovalsAt(rest, 0, zone, ids, order[1..], live)
    ensures var r := order[0];
      var t := [Print(Removed(r))] + (if live then [Call(Delete(zone, ids[r.name]))] else []) + rest;
      |t| == Span(live, |order|) && RemovalsAt(t, 0, zone, ids, order, live)
  {
    var r := order[0];
    var step := [Print(Removed(r))] + (if live then [Call(Delete(zone, ids[r.name]))] else []);
    var t := step + rest;
    var tail := order[1..];
    if live {
      forall i | 0 <= i < |order|
        ensures t[2 * i] == Print(Removed(order[i])) && t[2 * i + 1] == Call(Delete(zone, ids[order[i].name]))
      {
        if i > 0 {
          assert order[i] == tail[i - 1];
          assert t[2 * i] == rest[2 * (i - 1)] && t[2 * i + 1] == rest[2 * (i - 1) + 1];
        }
      }
    } else {
      forall i | 0 <= i < |order| ensures t[i] == Print(Removed(order[i])) {
        if i > 0 {
          assert order[i] == tail[i - 1];
          assert t[i] == rest[i - 1];
        }
      }
    }
  }

  /**
   * The addition loop of `apply`: print each record, then create it when
   * live. A dry run prints the same lines and calls nothing.
   */
  function AdditionSteps(zone: string, order: seq<Record>, live: bool): (t: seq<Event>)
    ensures Prints(t) == AddedLines(order)
    ensures Calls(t) == if live then Creates(zone, order) else []
    decreases |order|
  {
    if |order| == 0 then []
    else
      var r := order[0];
      var rest := AdditionSteps(zone, order[1..], live);
      AdditionProjections(zone, order, live, rest);
      [Print(Added(r))] + (if live then [Call(Create(zone, r.rtype, r.name, r.content, AutomaticTtl, NoExtras))] else [])
        + rest
  }

  /** One more addition in front of an addition loop's events extends its lines and calls. */
  lemma AdditionProjections(zone: string, order: seq<Record>, live: bool, rest: seq<Event>)
    requires |order| > 0
    requires Prints(rest) == AddedLines(order[1..])
    requires Calls(rest) == if live then Creates(zone, order[1..]) else []
    ensures var r := order[0];
      var call := Create(zone, r.rtype, r.name, r.content, AutomaticTtl, NoExtras);
      var t := [Print(Added(r))] + (if live then [Call(call)] else []) + rest;
      && Prints(t) == AddedLines(order)
      && Calls(t) == if live then Creates(zone, order) else []
  {
    var r := order[0];
    var call := Create(zone, r.rtype, r.name, r.content, AutomaticTtl, NoExtras);
    var step := [Print(Added(r))] + (if live then [Call(call)] else []);
    StepProjections(step, rest);
    AddedLinesCons(order);
    if live {
      LiveStep(Added(r), call);
      CreatesCons(zone, order);
    } else {
      DryStep(Added(r));
    }
  }

  lemma AddedLinesCons(order: seq<Record>)
    requires |order| > 0
    ensures AddedLines(order) == [Added(order[0])] + AddedLines(order[1..])
  {
  }

  lemma CreatesCons(zone: string, order: seq<Record>)
    requires |order| > 0
    ensures Creates(zone, order)
      == [Create(zone, order[0].rtype, order[0].name, order[0].content, AutomaticTtl, NoExtras)] + Creates(zone, order[1..])
  {
  }

  /** The addition loop prints each record's `+` line directly followed, when live, by its create. */
  lemma {:induction false} AdditionStepsShape(zone: string, order: seq<Record>, live: bool)
    ensures var t := AdditionSteps(zone, order, live);
      |t| == Span(live, |order|) && AdditionsAt(t, 0, zone, order, live)
    decreases |order|
  {
    if |order| > 0 {
      AdditionStepsShape(zone, order[1..], live);
      AdditionsCons(zone, order, live, AdditionSteps(zone, order[1..], live));
    }
  }

  /** One more addition in front of an addition loop's events. */
  lemma AdditionsCons(zone: string, order: seq<Record>, live: bool, rest: seq<Event>)
    requires |order| > 0
    requires |rest| == Span(live, |order| - 1) && AdditionsAt(rest, 0, zone, order[1..], live)
    ensures var r := order[0];
      var call := Create(zone, r.rtype, r.name, r.content, AutomaticTtl, NoExtras);
      var t := [Print(Added(r))] + (if live then [Call(call)] else []) + rest;
      |t| == Span(live, |order|) && AdditionsAt(t, 0, zone, order, live)
  {
    var r := order[0];
    var call := Create(zone, r.rtype, r.name, r.content, AutomaticTtl, NoExtras);
    var step := [Print(Added(r))] + (if live then [Call(call)] else []);
    var t := step + rest;
    var tail := order[1..];
    if live {
      forall i | 0 <= i < |order|
        ensures && t[2 * i] == Print(Added(order[i]))
                && t[2 * i + 1] == Call(Create(zone, order[i].rtype, order[i].name, order[i].content, AutomaticTtl, NoExtras))
      {
        if i > 0 {
          assert order[i] == tail[i - 1];
          assert t[2 * i] == rest[2 * (i - 1)] && t[2 * i + 1] == rest[2 * (i - 1) + 1];
        }
      }
    } else {
      forall i | 0 <= i < |order| ensures t[i] == Print(Added(order[i])) {
        if i > 0 {
          assert order[i] == tail[i - 1];
          assert t[i] == rest[i - 1];
        }
      }
    }
  }

  /** The records a plan removes are all in the snapshot's id map. */
  lemma RemovalsHaveIds(zone: string, recs: seq<Record>, listing: seq<Listed>, order: seq<Record>)
    requires Enumerates(order, PlanFor(zone, recs, listing).toRemove)
    ensures forall i :: 0 <= i < |order| ==> order[i].name in TakeSnapshot(zone, listing).ids
  {
  }

  /** Both loops of `apply`: all removals, then all additions. */
  function Steps(zone: string, ids: map<string, string>, removeOrder: seq<Record>, addOrder: seq<Record>,
                 live: bool): (t: seq<Event>)
    requires forall i :: 0 <= i < |removeOrder| ==> removeOrder[i].name in ids
    ensures Prints(t) == RemovedLines(removeOrder) + AddedLines(addOrder)
    ensures Calls(t) == if live then Deletes(zone, ids, removeOrder) + Creates(zone, addOrder) else []
  {
    var removals := RemovalSteps(zone, ids, removeOrder, live);
    var additions := AdditionSteps(zone, addOrder, live);
    ProjectionsAppend(removals, additions);
    removals + additions
  }

  /** Both loops in sequence: the whole removal loop, then the whole addition loop. */
  lemma StepsShape(zone: string, ids: map<string, string>, removeOrder: seq<Record>, addOrder: seq<Record>, live: bool)
    requires forall i :: 0 <= i < |removeOrder| ==> removeOrder[i].name in ids
    ensures var t := Steps(zone, ids, removeOrder, addOrder, live);
      && |t| == Span(live, |removeOrder|) + Span(live, |addOrder|)
      && RemovalsAt(t, 0, zone, ids, removeOrder, live)
      && AdditionsAt(t, Span(live, |removeOrder|), zone, addOrder, live)
  {
    var removals := RemovalSteps(zone, ids, removeOrder, live);
    var additions := AdditionSteps(zone, addOrder, live);
    RemovalStepsShape(zone, ids, removeOrder, live);
    AdditionStepsShape(zone, addOrder, live);
    LoopsInSequence(removals, additions, zone, ids, removeOrder, addOrder, live);
  }

  /** A removal loop's events followed by an addition loop's keep both shapes. */
  lemma LoopsInSequence(removals: seq<Event>, additions: seq<Event>, zone: string, ids: map<string, string>,
                        removeOrder: seq<Record>, addOrder: seq<Record>, live: bool)
    requires forall i :: 0 <= i < |removeOrder| ==> removeOrder[i].name in ids
    requires |removals| == Span(live, |removeOrder|) && RemovalsAt(removals, 0, zone, ids, removeOrder, live)
    requires |additions| == Span(live, |addOrder|) && AdditionsAt(additions, 0, zone, addOrder, live)
    ensures var t := removals + additions;
      && |t| == Span(live, |removeOrder|) + Span(live, |addOrder|)
      && RemovalsAt(t, 0, zone, ids, removeOrder, live)
      && AdditionsAt(t, Span(live, |removeOrder|), zone, addOrder, live)
  {
    RemovalsWithin([], removals, additions, zone, ids, removeOrder, live);
    AdditionsWithin(removals, additions, [], zone, addOrder, live);
    assert [] + removals + additions == removals + additions;
    assert removals + additions + [] == removals + additions;
  }

  /** A removal loop keeps its shape inside a longer trace, shifted by what precedes it. */
  lemma RemovalsWithin(before: seq<Event>, t: seq<Event>, after: seq<Event>,
                       zone: string, ids: map<string, string>, order: seq<Record>, live: bool)
    requires forall i :: 0 <= i < |order| ==> order[i].name in ids
    requires RemovalsAt(t, 0, zone, ids, order, live)
    ensures RemovalsAt(before + t + after, |before|, zone, ids, order, live)
  {
    var u := before + t + after;
    assert forall k :: 0 <= k < |t| ==> u[|before| + k] == t[k];
  }

  /** An addition loop keeps its shape inside a longer trace, shifted by what precedes it. */
  lemma AdditionsWithin(before: seq<Event>, t: seq<Event>, after: seq<Event>,
                        zone: string, order: seq<Record>, live: bool)
    requires AdditionsAt(t, 0, zone, order, live)
    ensures AdditionsAt(before + t + after, |before|, zone, order, live)
  {
    var u := before + t + after;
    assert forall k :: 0 <= k < |t| ==> u[|before| + k] == t[k];
  }

  /** Behind the listing call, both loops sit one position further on. */
  lemma StepsAfterLoad(zone: string, ids: map<string, string>, removeOrder: seq<Record>, addOrder: seq<Record>,
                       live: bool, steps: seq<Event>)
    requires forall i :: 0 <= i < |removeOrder| ==> removeOrder[i].name in ids
    requires RemovalsAt(steps, 0, zone, ids, removeOrder, live)
    requires AdditionsAt(steps, Span(live, |removeOrder|), zone, addOrder, live)
    ensures RemovalsAt([Call(LoadAll(zone))] + steps, 1, zone, ids, removeOrder, live)
    ensures AdditionsAt([Call(LoadAll(zone))] + steps, 1 + Span(live, |removeOrder|), zone, addOrder, live)
  {
    var u := [Call(LoadAll(zone))] + steps;
    assert forall k :: 0 <= k < |steps| ==> u[1 + k] == steps[k];
  }

  /** A run whose file parsed: the listing call, then both loops, and no failure. */
  function ParsedRun(zone: string, ids: map<string, string>, removeOrder: seq<Record>, addOrder: seq<Record>,
                     live: bool): (run: Run)
    requires forall i :: 0 <= i < |removeOrder| ==> removeOrder[i].name in ids
    ensures run.failure == None && |run.trace| > 0 && run.trace[0] == Call(LoadAll(zone))
    ensures Prints(run.trace) == RemovedLines(removeOrder) + AddedLines(addOrder)
    ensures !live ==> Calls(run.trace) == [LoadAll(zone)]
    ensures live ==> Calls(run.trace) == [LoadAll(zone)] + Deletes(zone, ids, removeOrder) + Creates(zone, addOrder)
    ensures |run.trace| == 1 + Span(live, |removeOrder|) + Span(live, |addOrder|)
    ensures RemovalsAt(run.trace, 1, zone, ids, removeOrder, live)
    ensures AdditionsAt(run.trace, 1 + Span(live, |removeOrder|), zone, addOrder, live)
  {
    var steps := Steps(zone, ids, removeOrder, addOrder, live);
    LoadThenSteps(zone, steps);
    LoadThenCalls(zone, steps, live, Deletes(zone, ids, removeOrder), Creates(zone, addOrder));
    LoadThenLoops(zone, ids, removeOrder, addOrder, live);
    Run([Call(LoadAll(zone))] + steps, None)
  }

  /** The calls of a parsed run: the listing, then those of the loops. */
  lemma LoadThenCalls(zone: string, steps: seq<Event>, live: bool, deletes: seq<Op>, creates: seq<Op>)
    requires Calls(steps) == if live then deletes + creates else []
    ensures !live ==> Calls([Call(LoadAll(zone))] + steps) == [LoadAll(zone)]
    ensures live ==> Calls([Call(LoadAll(zone))] + steps) == [LoadAll(zone)] + deletes + creates
  {
    LoadThenSteps(zone, steps);
    assert [LoadAll(zone)] + [] == [LoadAll(zone)];
    assert [LoadAll(zone)] + (deletes + creates) == [LoadAll(zone)] + deletes + creates;
  }

  /** Behind the listing call, the two loops keep their shapes. */
  lemma LoadThenLoops(zone: string, ids: map<string, string>, removeOrder: seq<Record>, addOrder: seq<Record>,
                      live: bool)
    requires forall i :: 0 <= i < |removeOrder| ==> removeOrder[i].name in ids
    ensures var t := [Call(LoadAll(zone))] + Steps(zone, ids, removeOrder, addOrder, live);
      && |t| == 1 + Span(live, |removeOrder|) + Span(live, |addOrder|)
      && RemovalsAt(t, 1, zone, ids, removeOrder, live)
      && AdditionsAt(t, 1 + Span(live, |removeOrder|), zone, addOrder, live)
  {
    var steps := Steps(zone, ids, removeOrder, addOrder, live);
    StepsShape(zone, ids, removeOrder, addOrder, live);
    StepsAfterLoad(zone, ids, removeOrder, addOrder, live, steps);
  }

  /** Listing the zone first adds one call and prints nothing. */
  lemma LoadThenSteps(zone: string, steps: seq<Event>)
    ensures Prints([Call(LoadAll(zone))] + steps) == Prints(steps)
    ensures Calls([Call(LoadAll(zone))] + steps) == [LoadAll(zone)] + Calls(steps)
  {
    ProjectionsAppend([Call(LoadAll(zone))], steps);
  }

  /**
   * `apply` run with the set iteration orders `removeOrder` and `addOrder`.
   * It lists the zone first; a parse error then surfaces before anything is
   * printed, deleted or created. Otherwise it prints every removal before
   * every addition, and calls the provider only when live, deleting before
   * creating.
   */
  function ApplyWith(zone: string, parsed: Result<seq<Record>, ParseError>, listing: seq<Listed>,
                     live: bool, removeOrder: seq<Record>, addOrder: seq<Record>): (run: Run)
    requires parsed.Success? ==>
      && Enumerates(removeOrder, PlanFor(zone, parsed.value, listing).toRemove)
      && Enumerates(addOrder, PlanFor(zone, parsed.value, listing).toAdd)
    ensures |run.trace| > 0 && run.trace[0] == Call(LoadAll(zone))
    ensures parsed.Failure? ==> run == Run([Call(LoadAll(zone))], Some(parsed.error))
    ensures parsed.Success? ==>
      && run.failure == None
      && Prints(run.trace) == RemovedLines(removeOrder) + AddedLines(addOrder)
    ensures parsed.Success? ==>
      && |run.trace| == 1 + Span(live, |removeOrder|) + Span(live, |addOrder|)
      && RemovalsAt(run.trace, 1, zone, TakeSnapshot(zone, listing).ids, removeOrder, live)
      && AdditionsAt(run.trace, 1 + Span(live, |removeOrder|), zone, addOrder, live)
    ensures parsed.Success? && !live ==> Calls(run.trace) == [LoadAll(zone)]
    ensures parsed.Success? && live ==>
      Calls(run.trace) == [LoadAll(zone)] + Deletes(zone, TakeSnapshot(zone, listing).ids, removeOrder)
                                         + Creates(zone, addOrder)
  {
    match parsed
    case Failure(e) => Run([Call(LoadAll(zone))], Some(e))
    case Success(recs) =>
      var ids := TakeSnapshot(zone, listing).ids;
      RemovalsHaveIds(zone, recs, listing, removeOrder);
      ParsedRun(zone, ids, removeOrder, addOrder, live)
  }

  /** Iterate a set in some order, as a Python `for` loop over a set does. */
  method Enumerate(s: set<Record>) returns (order: seq<Record>)
    ensures Enumerates(order, s)
    ensures |order| == |s|
  {
    order := [];
    var rest := s;
    while rest != {}
      invariant rest <= s
      invariant forall i :: 0 <= i < |order| ==> order[i] in s && order[i] !in rest
      invariant forall r :: r in s ==> r in rest || r in order
      invariant forall i, j :: 0 <= i < j < |order| ==> order[i] != order[j]
      invariant |order| + |rest| == |s|
      decreases rest
    {
      var r :| r in rest;
      order := order + [r];
      rest := rest - {r};
    }
  }

  /**
   * `apply(zone_name, parsed_zone, cloudflare, live)`: the run for some
   * iteration order of `to_remove` and of `to_add`, as Python leaves the
   * order of set iteration open.
   */
  method Apply(zone: string, parsed: Result<seq<Record>, ParseError>, listing: seq<Listed>, live: bool)
    returns (run: Run)
    ensures parsed.Failure? ==> run == Run([Call(LoadAll(zone))], Some(parsed.error))
    ensures parsed.Success? ==>
      var plan := PlanFor(zone, parsed.value, listing);
      exists removeOrder, addOrder ::
        && Enumerates(removeOrder, plan.toRemove) && Enumerates(addOrder, plan.toAdd)
        && run == ApplyWith(zone, parsed, listing, live, removeOrder, addOrder)
  {
    match parsed
    case Failure(e) =>
      run := Run([Call(LoadAll(zone))], Some(e));
    case Success(recs) =>
      var plan := PlanFor(zone, recs, listing);
      var removeOrder := Enumerate(plan.toRemove);
      var addOrder := Enumerate(plan.toAdd);
      run := ApplyWith(zone, parsed, listing, live, removeOrder, addOrder);
  }

  /**
   * Declaring exactly what is live makes the run quiet: after the listing
   * nothing is printed, deleted or created.
   */
  lemma InSyncIsQuiet(zone: string, recs: seq<Record>, listing: seq<Listed>, live: bool,
                      removeOrder: seq<Record>, addOrder: seq<Record>)
    requires ToSet(recs) == TakeSnapshot(zone, listing).present
    requires Enumerates(removeOrder, PlanFor(zone, recs, listing).toRemove)
    requires Enumerates(addOrder, PlanFor(zone, recs, listing).toAdd)
    ensures ApplyWith(zone, Success(recs), listing, live, removeOrder, addOrder).trace == [Call(LoadAll(zone))]
  {
    var plan := PlanFor(zone, recs, listing);
    assert plan.toRemove == {} && plan.toAdd == {};
    EnumerationLength(removeOrder, plan.toRemove);
    EnumerationLength(addOrder, plan.toAdd);
  }

  /**
   * A dry run prints exactly the lines a live run with the same iteration
   * orders prints, and makes no call beyond the listing.
   */
  lemma DryRunMatchesLive(zone: string, recs: seq<Record>, listing: seq<Listed>,
                          removeOrder: seq<Record>, addOrder: seq<Record>)
    requires Enumerates(removeOrder, PlanFor(zone, recs, listing).toRemove)
    requires Enumerates(addOrder, PlanFor(zone, recs, listing).toAdd)
    ensures var dry := ApplyWith(zone, Success(recs), listing, false, removeOrder, addOrder);
      var wet := ApplyWith(zone, Success(recs), listing, true, removeOrder, addOrder);
      Prints(dry.trace) == Prints(wet.trace) && Calls(dry.trace) == [LoadAll(zone)]
  {
  }

  /**
   * A live run lists the zone, then issues exactly one delete per record
   * to remove, then exactly one create per record to add, each create with
   * the automatic ttl and no optional attribute. Each delete uses the id of
   * the last listed record with that name.
   */
  lemma LiveRunCalls(zone: string, recs: seq<Record>, listing: seq<Listed>,
                     removeOrder: seq<Record>, addOrder: seq<Record>)
    requires Enumerates(removeOrder, PlanFor(zone, recs, listing).toRemove)
    requires Enumerates(addOrder, PlanFor(zone, recs, listing).toAdd)
    ensures |removeOrder| == |PlanFor(zone, recs, listing).toRemove|
    ensures |addOrder| == |PlanFor(zone, recs, listing).toAdd|
    ensures var calls := Calls(ApplyWith(zone, Success(recs), listing, true, removeOrder, addOrder).trace);
      && |calls| == 1 + |removeOrder| + |addOrder|
      && calls[0] == LoadAll(zone)
      && (forall i :: 1 <= i <= |removeOrder| ==>
            calls[i] == Delete(zone, listing[LastIndex(zone, listing, removeOrder[i - 1].name)].recId))
      && (forall i :: 1 + |removeOrder| <= i < |calls| ==>
            var r := addOrder[i - 1 - |removeOrder|];
            calls[i] == Create(zone, r.rtype, r.name, r.content, AutomaticTtl, NoExtras))
  {
    PlanSizes(zone, recs, listing, removeOrder, addOrder);
    var calls := Calls(ApplyWith(zone, Success(recs), listing, true, removeOrder, addOrder).trace);
    var snap := TakeSnapshot(zone, listing);
    assert forall i :: 0 <= i < |removeOrder| ==> removeOrder[i].name in snap.ids by {
      RemovalsHaveIds(zone, recs, listing, removeOrder);
    }
    assert calls == [LoadAll(zone)] + Deletes(zone, snap.ids, removeOrder) + Creates(zone, addOrder) by {
      LiveCalls(zone, recs, listing, removeOrder, addOrder);
    }
    LiveCallsLayout(calls, zone, listing, snap.ids, removeOrder, addOrder);
  }

  /** The two iteration orders are as long as the sets they enumerate. */
  lemma PlanSizes(zone: string, recs: seq<Record>, listing: seq<Listed>,
                  removeOrder: seq<Record>, addOrder: seq<Record>)
    requires Enumerates(removeOrder, PlanFor(zone, recs, listing).toRemove)
    requires Enumerates(addOrder, PlanFor(zone, recs, listing).toAdd)
    ensures |removeOrder| == |PlanFor(zone, recs, listing).toRemove|
    ensures |addOrder| == |PlanFor(zone, recs, listing).toAdd|
  {
    var plan := PlanFor(zone, recs, listing);
    EnumerationLength(removeOrder, plan.toRemove);
    EnumerationLength(addOrder, plan.toAdd);
  }

  /** The calls of a live run, as `ApplyWith` states them. */
  lemma LiveCalls(zone: string, recs: seq<Record>, listing: seq<Listed>,
                  removeOrder: seq<Record>, addOrder: seq<Record>)
    requires Enumerates(removeOrder, PlanFor(zone, recs, listing).toRemove)
    requires Enumerates(addOrder, PlanFor(zone, recs, listing).toAdd)
    ensures var calls := Calls(ApplyWith(zone, Success(recs), listing, true, removeOrder, addOrder).trace);
      calls == [LoadAll(zone)] + Deletes(zone, TakeSnapshot(zone, listing).ids, removeOrder) + Creates(zone, addOrder)
  {
    RemovalsHaveIds(zone, recs, listing, removeOrder);
  }

  /** Where each call of a live run sits, given the ids the snapshot stores. */
  lemma LiveCallsLayout(calls: seq<Op>, zone: string, listing: seq<Listed>, ids: map<string, string>,
                        removeOrder: seq<Record>, addOrder: seq<Record>)
    requires forall i :: 0 <= i < |removeOrder| ==> removeOrder[i].name in ids
    requires forall n :: n in ids ==> 0 <= LastIndex(zone, listing, n) && ids[n] == listing[LastIndex(zone, listing, n)].recId
    requires calls == [LoadAll(zone)] + Deletes(zone, ids, removeOrder) + Creates(zone, addOrder)
    ensures |calls| == 1 + |removeOrder| + |addOrder|
    ensures calls[0] == LoadAll(zone)
    ensures forall i :: 1 <= i <= |removeOrder| ==>
      calls[i] == Delete(zone, listing[LastIndex(zone, listing, removeOrder[i - 1].name)].recId)
    ensures forall i :: 1 + |removeOrder| <= i < |calls| ==>
      var r := addOrder[i - 1 - |removeOrder|];
      calls[i] == Create(zone, r.rtype, r.name, r.content, AutomaticTtl, NoExtras)
  {
  }

  /**
   * Two records to remove that share a name are deleted by the same id:
   * the id map is keyed by name alone.
   */
  lemma SharedNameSharesId(zone: string, recs: seq<Record>, listing: seq<Listed>,
                           removeOrder: seq<Record>, addOrder: seq<Record>, i: nat, j: nat)
    requires Enumerates(removeOrder, PlanFor(zone, recs, listing).toRemove)
    requires Enumerates(addOrder, PlanFor(zone, recs, listing).toAdd)
    requires i < j < |removeOrder| && removeOrder[i].name == removeOrder[j].name
    ensures var calls := Calls(ApplyWith(zone, Success(recs), listing, true, removeOrder, addOrder).trace);
      removeOrder[i] != removeOrder[j] && calls[1 + i] == calls[1 + j] && calls[1 + i].Delete?
  {
    LiveRunCalls(zone, recs, listing, removeOrder, addOrder);
  }

  /**
   * The zone file can only declare CNAME and A records, so every live
   * record of another type is removed by a run over a parsed file.
   */
  lemma UndeclarableTypesRemoved(zone: string, buffer: string, listing: seq<Listed>)
    requires Parse(buffer).Success?
    ensures forall r :: r in TakeSnapshot(zone, listing).present && r.rtype != "CNAME" && r.rtype != "A" ==>
      r in PlanFor(zone, Parse(buffer).value, listing).toRemove
  {
    var recs := Parse(buffer).value;
    assert forall r :: r in ToSet(recs) ==> Declarable(r);
  }

  /** After the plan is carried out the live set is the declared one, so a rerun plans nothing. */
  lemma RerunPlansNothing(future: set<Record>, present: set<Record>)
    ensures var p := Diff(future, present);
      Diff(future, (present - p.toRemove) + p.toAdd) == Plan({}, {})
  {
  }

  /** A record whose content changed is removed with its old content and added with the new. */
  lemma ContentChangeIsRemoveAndAdd(name: string, rtype: string, before: string, after: string)
    requires before != after
    ensures Diff({Record(name, rtype, after)}, {Record(name, rtype, before)})
      == Plan({Record(name, rtype, after)}, {Record(name, rtype, before)})
  {
  }
}

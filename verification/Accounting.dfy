/** End-to-end accounting: what the report's counters say about the committed
    rows, in every reachable state of the pipeline. */
module Accounting {
  import opened Base
  import opened Performance
  import opened History
  import opened Sums
  import opened Oltp
  import opened Consistency
  import opened Projections
  import opened Pipeline
  import Consumer = AnalyticsConsumers
  import Reports

  /** Positions of the analytics messages that announce a recorded completion. */
  function TaskIds(outbox: seq<OutboxRow>): set<nat> {
    set id: nat | id < |outbox| && Records(outbox[id], Analytics)
  }

  function AnalyticsIds(outbox: seq<OutboxRow>): set<nat> {
    set id: nat | id < |outbox| && outbox[id].topic.Analytics?
  }

  lemma {:induction false} OneTaskIdPerAnnouncement(outbox: seq<OutboxRow>)
    ensures |TaskIds(outbox)| == |RecordedOn(outbox, Analytics)|
  {
    if outbox != [] {
      OneTaskIdPerAnnouncement(Init(outbox));
      if Records(Last(outbox), Analytics) {
        assert TaskIds(outbox) == TaskIds(Init(outbox)) + {|outbox| - 1};
      } else {
        assert TaskIds(outbox) == TaskIds(Init(outbox));
      }
    }
  }

  // --- Where each committed row stands -----------------------------------------------

  function Unsent(s: State): set<nat> {
    set id | id in TaskIds(s.db.outbox) && s.sent <= id
  }

  /** Some logged copy of the message has not been read. */
  predicate HasUnread(s: State, id: nat) {
    exists position :: 0 <= position < |s.log| && s.log[position] == id && position !in s.read
  }

  /** Sent, not admitted, and a copy is unread or will be: an unpublished row is sent again. */
  function ToRead(s: State): set<nat> {
    set id | id in TaskIds(s.db.outbox) && id < s.sent && id !in s.admitted && (s.published <= id || HasUnread(s, id))
  }

  /** Read past without being admitted, and never sent again. */
  function Skipped(s: State): set<nat> {
    set id | id in TaskIds(s.db.outbox) && id < s.sent && id !in s.admitted && id < s.published && !HasUnread(s, id)
  }

  function InFlight(s: State): set<nat> {
    TaskIds(s.db.outbox) * s.inflight
  }

  /** Admitted, but the attempt to project it is over and did not take effect. */
  function LostTasks(s: State): set<nat> {
    TaskIds(s.db.outbox) * (s.admitted - s.inflight - s.projection.seen)
  }

  function Claimed(s: State): set<nat> {
    TaskIds(s.db.outbox) * s.projection.seen
  }

  /** The report's total of recorded tasks. */
  ghost function Counted(s: State): int {
    SumKeys(s.projection.rows, s.projection.rows.Keys).tasksRecorded
  }

  /** Every completion stands in exactly one place. */
  ghost predicate Split(s: State) {
    && TaskIds(s.db.outbox) == Unsent(s) + ToRead(s) + Skipped(s) + InFlight(s) + LostTasks(s) + Claimed(s)
    && Unsent(s) !! ToRead(s) !! Skipped(s) !! InFlight(s) !! LostTasks(s) !! Claimed(s)
  }

  lemma SplitOfTaskIds(s: State)
    requires Funnel(s)
    ensures Split(s)
  {
    forall id ensures id in TaskIds(s.db.outbox) <==> id in Unsent(s) + ToRead(s) + Skipped(s) + InFlight(s) + LostTasks(s) + Claimed(s) {
    }
  }

  lemma SplitSizes(s: State)
    requires Split(s)
    ensures |Unsent(s)| + |ToRead(s)| + |Skipped(s)| + |InFlight(s)| + |LostTasks(s)| + |Claimed(s)| == |TaskIds(s.db.outbox)|
  {
    var unread := Unsent(s) + ToRead(s) + Skipped(s);
    assert |Unsent(s) + ToRead(s)| == |Unsent(s)| + |ToRead(s)|;
    assert |unread| == |Unsent(s) + ToRead(s)| + |Skipped(s)|;
    assert |unread + InFlight(s)| == |unread| + |InFlight(s)|;
    assert |unread + InFlight(s) + LostTasks(s)| == |unread + InFlight(s)| + |LostTasks(s)|;
  }

  // --- Which row a position announces ---------------------------------------------------

  /** The row announced at an analytics position: as many announcements precede it. */
  function RowAt(outbox: seq<OutboxRow>, id: nat): nat
    requires id <= |outbox|
  {
    |RecordedOn(outbox[..id], Analytics)|
  }

  lemma {:induction false} AnnouncedAt(outbox: seq<OutboxRow>, id: nat)
    requires id in TaskIds(outbox)
    ensures RowAt(outbox, id) < |RecordedOn(outbox, Analytics)|
    ensures RecordedOn(outbox, Analytics)[RowAt(outbox, id)] == outbox[id].event
  {
    if id == |outbox| - 1 {
      assert outbox[..id] == Init(outbox);
    } else {
      assert Init(outbox)[..id] == outbox[..id];
      AnnouncedAt(Init(outbox), id);
    }
  }

  lemma {:induction false} AnnouncedSomewhere(outbox: seq<OutboxRow>, k: nat) returns (id: nat)
    requires k < |RecordedOn(outbox, Analytics)|
    ensures id in TaskIds(outbox) && RowAt(outbox, id) == k
  {
    var before := RecordedOn(Init(outbox), Analytics);
    if k < |before| {
      id := AnnouncedSomewhere(Init(outbox), k);
      assert Init(outbox)[..id] == outbox[..id];
    } else {
      id := |outbox| - 1;
      assert outbox[..id] == Init(outbox);
    }
  }

  lemma {:induction false} RowAtGrows(outbox: seq<OutboxRow>, id: nat, later: nat)
    requires id in TaskIds(outbox) && id < later <= |outbox|
    ensures RowAt(outbox, id) < RowAt(outbox, later)
    decreases later
  {
    assert Init(outbox[..later]) == outbox[..later - 1];
    if id < later - 1 { RowAtGrows(outbox, id, later - 1); }
  }

  ghost predicate HasPosition(outbox: seq<OutboxRow>, k: nat) {
    exists id :: id in TaskIds(outbox) && RowAt(outbox, id) == k
  }

  /** Positions and rows correspond one to one, each position announcing its row and the
      idle time before it. */
  ghost predicate AnnouncesRows(t: Tables, capSeconds: int) {
    && (forall id :: id in TaskIds(t.outbox) ==>
          RowAt(t.outbox, id) < |t.performances| && Announces(t.outbox[id].event, t.performances, RowAt(t.outbox, id), capSeconds))
    && (forall id, other :: id in TaskIds(t.outbox) && other in TaskIds(t.outbox) && RowAt(t.outbox, id) == RowAt(t.outbox, other) ==>
          id == other)
    && (forall k :: 0 <= k < |t.performances| ==> HasPosition(t.outbox, k))
  }

  lemma PositionsAnnounceRows(t: Tables, capSeconds: int)
    requires Consistent(t, capSeconds)
    ensures AnnouncesRows(t, capSeconds)
  {
    forall id | id in TaskIds(t.outbox)
      ensures RowAt(t.outbox, id) < |t.performances| && Announces(t.outbox[id].event, t.performances, RowAt(t.outbox, id), capSeconds)
    {
      AnnouncedAt(t.outbox, id);
      assert Announces(RecordedOn(t.outbox, Analytics)[RowAt(t.outbox, id)], t.performances, RowAt(t.outbox, id), capSeconds);
    }
    forall id, other | id in TaskIds(t.outbox) && other in TaskIds(t.outbox) && RowAt(t.outbox, id) == RowAt(t.outbox, other)
      ensures id == other
    {
      if id < other { RowAtGrows(t.outbox, id, other); }
      if other < id { RowAtGrows(t.outbox, other, id); }
    }
    forall k | 0 <= k < |t.performances| ensures HasPosition(t.outbox, k) {
      var id := AnnouncedSomewhere(t.outbox, k);
    }
  }

  lemma OneClaim(ids: set<nat>, outbox: seq<OutboxRow>, id: nat)
    requires ids <= AnalyticsIds(outbox) && id in ids
    ensures EffectsOf(ids, outbox).Keys == ids == Deltas(EffectsOf(ids, outbox)).Keys
    ensures Deltas(EffectsOf(ids, outbox))[id].tasksRecorded == if id in TaskIds(outbox) then 1 else 0
  {
    assert outbox[id].topic.Analytics?;
  }

  lemma FewerIds(ids: set<nat>, outbox: seq<OutboxRow>, id: nat)
    requires ids <= AnalyticsIds(outbox) && id in ids
    ensures ids - {id} <= Deltas(EffectsOf(ids, outbox)).Keys && ids - {id} <= Deltas(EffectsOf(ids - {id}, outbox)).Keys
    ensures SumKeys(Deltas(EffectsOf(ids, outbox)), ids - {id}) == SumKeys(Deltas(EffectsOf(ids - {id}, outbox)), ids - {id})
  {
    SumKeysAgree(Deltas(EffectsOf(ids, outbox)), Deltas(EffectsOf(ids - {id}, outbox)), ids - {id});
  }

  lemma CountWithout(tasks: set<nat>, ids: set<nat>, id: nat)
    requires id in ids
    ensures |tasks * ids| == |tasks * (ids - {id})| + if id in tasks then 1 else 0
  {
    if id in tasks {
      assert tasks * ids == tasks * (ids - {id}) + {id};
    } else {
      assert tasks * ids == tasks * (ids - {id});
    }
  }

  lemma {:induction false} ClaimsAreCounted(ids: set<nat>, outbox: seq<OutboxRow>)
    requires ids <= AnalyticsIds(outbox)
    ensures EffectsOf(ids, outbox).Keys == ids
    ensures SumKeys(Deltas(EffectsOf(ids, outbox)), ids).tasksRecorded == |TaskIds(outbox) * ids|
    decreases ids
  {
    if ids == {} {
      assert TaskIds(outbox) * ids == {};
    } else {
      var id :| id in ids;
      OneClaim(ids, outbox, id);
      SumKeysPick(Deltas(EffectsOf(ids, outbox)), ids, id);
      FewerIds(ids, outbox, id);
      ClaimsAreCounted(ids - {id}, outbox);
      CountWithout(TaskIds(outbox), ids, id);
    }
  }

  /** In every reachable state the report's total of recorded tasks is the number of
      claimed completions; the committed rows correspond one to one to the positions that
      announce them, and each of these is unsent, still to be read, skipped by the reader,
      in flight, lost between the gate and the projection, or claimed, and only one of
      these: nothing is counted twice, nothing is unaccounted for. */
  lemma {:induction false} EveryRowIsAccountedFor(actions: seq<Action>, c: Config)
    ensures var s := Run(actions, c);
            && Counted(s) == |Claimed(s)|
            && AnnouncesRows(s.db, c.capSeconds)
            && Split(s)
            && |s.db.performances| == |Unsent(s)| + |ToRead(s)| + |Skipped(s)| + |InFlight(s)| + |LostTasks(s)| + |Claimed(s)|
  {
    EveryRunKeepsInv(actions, c);
    var s := Run(actions, c);
    ClaimsTotal(s, c);
    PositionsAnnounceRows(s.db, c.capSeconds);
    OneTaskIdPerAnnouncement(s.db.outbox);
    SplitOfTaskIds(s);
    SplitSizes(s);
  }

  lemma ClaimsTotal(s: State, c: Config)
    requires Inv(s, c)
    ensures Counted(s) == |Claimed(s)|
  {
    assert s.projection.seen <= AnalyticsIds(s.db.outbox);
    ClaimsAreCounted(s.projection.seen, s.db.outbox);
    assert EffectsOf(s.projection.seen, s.db.outbox).Keys == s.projection.seen;
  }

  /** What was lost between the gate and the projection stays lost, and what was
      claimed stays claimed: nothing that happens later changes the verdict on an id. */
  lemma {:induction false} VerdictsAreFinal(before: seq<Action>, more: seq<Action>, c: Config)
    ensures var s, t := Run(before, c), Run(before + more, c);
            LostTasks(s) <= LostTasks(t) && Claimed(s) <= Claimed(t)
  {
    if more == [] {
      assert before + more == before;
    } else {
      VerdictsAreFinal(before, Init(more), c);
      assert before + more == before + Init(more) + [Last(more)];
      AppendParts(before + Init(more), Last(more));
      VerdictsSurviveStep(before + Init(more), Last(more), c);
    }
  }

  lemma VerdictsSurviveStep(actions: seq<Action>, a: Action, c: Config)
    ensures var s, t := Run(actions, c), Next(Run(actions, c), a, c);
            LostTasks(s) <= LostTasks(t) && Claimed(s) <= Claimed(t)
  {
    EveryRunKeepsInv(actions, c);
    var s := Run(actions, c);
    NextExtends(s, a, c);
    MoreTaskIds(s.db.outbox, Next(s, a, c).db.outbox);
    VerdictSets(s, a, c);
  }

  lemma MoreTaskIds(outbox: seq<OutboxRow>, outbox': seq<OutboxRow>)
    requires Extends(outbox, outbox')
    ensures TaskIds(outbox) <= TaskIds(outbox')
  {
  }

  lemma VerdictSets(s: State, a: Action, c: Config)
    requires Funnel(s)
    ensures var t := Next(s, a, c);
            && s.projection.seen <= t.projection.seen
            && s.admitted - s.inflight - s.projection.seen <= t.admitted - t.inflight - t.projection.seen
  {
  }

  // --- What each count is made of ------------------------------------------------------

  function EventsTally(events: seq<DomainEvent>): Counters {
    if events == [] then ZERO else Add(EventsTally(Init(events)), DeltaOf(FactIn(Last(events))))
  }

  function DeltaIn(row: OutboxRow): Option<Counters> {
    if row.topic.Analytics? then Some(DeltaOf(FactIn(row.event))) else None
  }

  /** The delta of each analytics message, by position. */
  function AnalyticsDeltas(outbox: seq<OutboxRow>): seq<Option<Counters>> {
    seq(|outbox|, i requires 0 <= i < |outbox| => DeltaIn(outbox[i]))
  }

  /** The counters of task completions alone. */
  function TasksOnly(c: Counters): Counters {
    c.(standardsDefined := 0, standardsRevised := 0)
  }

  lemma OneRowBySort(before: Counters, row: OutboxRow)
    ensures DeltaIn(row).Some? ==>
              var after := Add(before, DeltaIn(row).value);
              && TasksOnly(after) ==
                 (if Records(row, Analytics) then Add(TasksOnly(before), DeltaOf(FactIn(row.event))) else TasksOnly(before))
              && after.standardsDefined + after.standardsRevised ==
                 before.standardsDefined + before.standardsRevised + |DefinitionOf(row)|
    ensures DeltaIn(row).None? ==> DefinitionOf(row) == [] && !Records(row, Analytics) && Add(before, ZERO) == before
  {
  }

  lemma {:induction false} DeltasBySort(outbox: seq<OutboxRow>)
    ensures var total := SumSome(AnalyticsDeltas(outbox));
            && TasksOnly(total) == EventsTally(RecordedOn(outbox, Analytics))
            && total.standardsDefined + total.standardsRevised == |DefinitionsIn(outbox)|
  {
    if outbox != [] {
      DeltasBySort(Init(outbox));
      assert Init(AnalyticsDeltas(outbox)) == AnalyticsDeltas(Init(outbox));
      OneRowBySort(SumSome(AnalyticsDeltas(Init(outbox))), Last(outbox));
      var events := RecordedOn(Init(outbox), Analytics);
      if Records(Last(outbox), Analytics) {
        AppendParts(events, Last(outbox).event);
        assert RecordedOn(outbox, Analytics) == events + [Last(outbox).event];
      } else {
        assert RecordedOn(outbox, Analytics) == events;
      }
    }
  }

  lemma {:induction false} TalliesAgree(events: seq<DomainEvent>, rows: seq<TaskPerformance>)
    requires |events| == |rows|
    requires forall k :: 0 <= k < |rows| ==> DeltaOf(FactIn(events[k])) == TallyOf(rows[k])
    ensures EventsTally(events) == Tally(rows)
  {
    if rows != [] { TalliesAgree(Init(events), Init(rows)); }
  }

  /** The analytics messages tell exactly what the performance table holds. */
  lemma MessagesTellTheTable(t: Tables, capSeconds: int)
    requires Consistent(t, capSeconds)
    ensures TasksOnly(SumSome(AnalyticsDeltas(t.outbox))) == Tally(t.performances)
  {
    DeltasBySort(t.outbox);
    var events := RecordedOn(t.outbox, Analytics);
    forall k | 0 <= k < |events| ensures DeltaOf(FactIn(events[k])) == TallyOf(t.performances[k]) {
      assert Announces(events[k], t.performances, k, capSeconds);
    }
    TalliesAgree(events, t.performances);
  }

  lemma AllEffects(outbox: seq<OutboxRow>)
    ensures EffectsOf(AnalyticsIds(outbox), outbox).Keys == AnalyticsIds(outbox)
    ensures Deltas(EffectsOf(AnalyticsIds(outbox), outbox)) == Positions(AnalyticsDeltas(outbox))
    ensures Positions(AnalyticsDeltas(outbox)).Keys == AnalyticsIds(outbox)
  {
    forall id | id in AnalyticsIds(outbox) ensures Deltas(EffectsOf(AnalyticsIds(outbox), outbox))[id] == DeltaIn(outbox[id]).value {
    }
  }

  lemma ReadModelTellsTable(s: State, c: Config)
    requires Inv(s, c) && s.projection.seen == AnalyticsIds(s.db.outbox)
    ensures var total := SumKeys(s.projection.rows, s.projection.rows.Keys);
            && TasksOnly(total) == Tally(s.db.performances)
            && total.standardsDefined + total.standardsRevised == |DefinitionsIn(s.db.outbox)|
  {
    AllEffects(s.db.outbox);
    SumOfPositions(AnalyticsDeltas(s.db.outbox));
    DeltasBySort(s.db.outbox);
    MessagesTellTheTable(s.db, c.capSeconds);
  }

  /** When every analytics message has been projected, the read model's grand total
      is the tally of the performance table, row for row, and counts each accepted
      definition once. */
  lemma {:induction false} CaughtUpMeansEqual(actions: seq<Action>, c: Config)
    requires var s := Run(actions, c); s.projection.seen == AnalyticsIds(s.db.outbox)
    ensures var s := Run(actions, c); var total := SumKeys(s.projection.rows, s.projection.rows.Keys);
            && TasksOnly(total) == Tally(s.db.performances)
            && total.standardsDefined + total.standardsRevised == |DefinitionsIn(s.db.outbox)|
  {
    EveryRunKeepsInv(actions, c);
    ReadModelTellsTable(Run(actions, c), c);
  }

  // --- Nested counters, end to end ----------------------------------------------------------

  lemma EffectsNest(t: Tables, capSeconds: int, id: nat)
    requires Consistent(t, capSeconds) && id in AnalyticsIds(t.outbox)
    ensures Nested(DeltaOf(FactIn(t.outbox[id].event)))
  {
    if id in TaskIds(t.outbox) {
      PositionsAnnounceRows(t, capSeconds);
      assert WellFormed(t.performances[RowAt(t.outbox, id)]);
    }
  }

  lemma EveryRowNests(s: State, c: Config, key: RowKey)
    requires Inv(s, c) && key in s.projection.rows
    ensures Nested(s.projection.rows[key])
  {
    var effects := EffectsOf(s.projection.seen, s.db.outbox);
    forall id | id in effects ensures Nested(effects[id].delta) {
      EffectsNest(s.db, c.capSeconds, id);
    }
    RowsNest(s.projection, effects, key);
  }

  /** Any report over any part of the read model, in any reachable state of the pipeline,
      whatever its window and type filter: in every row, bar and total the counters nest,
      so the unscored count is an exact difference and its clamp is never used. */
  lemma {:induction false} EveryReportNests(actions: seq<Action>, c: Config, r: Reports.LaborPerformanceReport, keys: set<RowKey>)
    requires var store := Run(actions, c).projection.rows; keys <= store.Keys && Reports.IsReportOf(r, store, keys)
    ensures forall row :: row in r.rows ==> Nested(row.counters)
    ensures r.totals.tasksUnscored == r.totals.tasksRecorded - r.totals.tasksScored
    ensures forall i :: 0 <= i < |r.byTaskType| ==>
              r.byTaskType[i].tasksUnscored == r.byTaskType[i].tasksRecorded - r.byTaskType[i].tasksScored
  {
    EveryRunKeepsInv(actions, c);
    var s := Run(actions, c);
    var rows: seq<Reports.Row> :| Reports.Selects(rows, s.projection.rows, keys) && Reports.IsReport(r, rows);
    forall row | row in rows ensures Nested(row.counters) {
      assert row.key in Reports.KeysOf(rows);
      EveryRowNests(s, c, row.key);
    }
    Reports.NestedReport(r, rows);
  }

  /** And a report over the whole read model counts exactly the claimed completions. */
  lemma {:induction false} ReportTellsTheClaims(actions: seq<Action>, c: Config, r: Reports.LaborPerformanceReport)
    requires var store := Run(actions, c).projection.rows; Reports.IsReportOf(r, store, store.Keys)
    ensures r.totals.tasksRecorded == |Claimed(Run(actions, c))|
  {
    EveryRunKeepsInv(actions, c);
    ClaimsTotal(Run(actions, c), c);
    Reports.ReportSums(r, Run(actions, c).projection.rows, Run(actions, c).projection.rows.Keys);
  }

  // --- The stages are the components -----------------------------------------------------------

  /** Delivering a message and projecting it in one go is one call of the analytics
      consumer, so the machine's two steps are that call with its crash window open. */
  lemma DeliverThenProjectIsHandle(s: State, c: Config, position: nat, outcome: ApplyOutcome)
    requires Enabled(s, Deliver(position, Consumer.GateOk), c) && s.log[position] !in s.admitted
    ensures var id := s.log[position];
            var t := Next(Next(s, Deliver(position, Consumer.GateOk), c), Project(id, outcome), c);
            Consumer.Projector(t.admitted, t.projection) ==
            Consumer.Handle(Consumer.Projector(s.admitted, s.projection), MessageOf(id, s.db.outbox[id].event),
                            Consumer.Env(Consumer.GateOk, false, outcome))
  {
  }
}

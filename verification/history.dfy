// The bounded event history of the agent's context: consecutive commits of one window are
// collapsed as they arrive, and only the newest entries are kept.

module History {
  import opened Core

  /** `text` is the payload-free description of an event other than a commit. */
  datatype Event =
    | SurfaceCommit(window: nat, seqNo: nat, tsMs: nat, commitSeq: nat, damage: nat)
    | Other(kind: string, target: Option<nat>, seqNo: nat, tsMs: nat, text: string)

  datatype Summary = Summary(kind: string, seqNo: nat, tsMs: nat, window: Option<nat>, detail: string)

  datatype CommitGroup = CommitGroup(window: nat, commits: nat, damageRects: nat)

  function CommitDetail(commitSeq: nat, commits: nat, damageRects: nat): string {
    var damage := if damageRects == 0 then "no damage"
                  else if damageRects == 1 then "1 damage rect"
                  else Decimal(damageRects) + " damage rects";
    if commits > 1 then "commit " + Decimal(commitSeq) + " (" + Decimal(commits) + " commits, " + damage + ")"
    else "commit " + Decimal(commitSeq) + " (" + damage + ")"
  }

  function FromEvent(e: Event, maxDetail: nat): Summary {
    match e
    case SurfaceCommit(w, s, ts, c, d) =>
      Summary("surface_commit", s, ts, Some(w), Take(CommitDetail(c, 1, d), maxDetail))
    case Other(kind, target, s, ts, text) => Summary(kind, s, ts, target, Take(text, maxDetail))
  }

  // ----- runs of the whole history -----

  type Group = g: seq<Event> | g != [] witness [SurfaceCommit(0, 0, 0, 0, 0)]

  /** Two events that belong in one entry. */
  predicate Joins(a: Event, b: Event) { a.SurfaceCommit? && b.SurfaceCommit? && a.window == b.window }

  function Flatten(groups: seq<Group>): seq<Event> {
    if groups == [] then [] else Flatten(Front(groups)) + Last(groups)
  }

  predicate IsRun(g: Group) { forall i :: 0 <= i < |g| - 1 ==> Joins(g[i], g[i + 1]) }

  /** No two neighbouring groups could be one. */
  predicate Apart(groups: seq<Group>) {
    forall i :: 0 <= i < |groups| - 1 ==> !Joins(Last(groups[i]), groups[i + 1][0])
  }

  /** `groups` cuts `history` into maximal runs. */
  predicate IsRuns(history: seq<Event>, groups: seq<Group>) {
    Flatten(groups) == history && (forall g :: g in groups ==> IsRun(g)) && Apart(groups)
  }

  /** The groups after one more event. */
  function Grown(groups: seq<Group>, e: Event): seq<Group> {
    if groups != [] && Joins(Last(Last(groups)), e) then Front(groups) + [Last(groups) + [e]] else groups + [[e]]
  }

  function Runs(history: seq<Event>): seq<Group> {
    if history == [] then [] else Grown(Runs(Front(history)), Last(history))
  }

  lemma GrownIsRuns(history: seq<Event>, groups: seq<Group>, e: Event)
    requires IsRuns(history, groups)
    ensures IsRuns(history + [e], Grown(groups, e))
  {
    hide Joins;
    var all := Grown(groups, e);
    if groups != [] && Joins(Last(Last(groups)), e) {
      assert Front(all) == Front(groups);
      assert Flatten(all) == Flatten(Front(groups)) + (Last(groups) + [e]);
      assert IsRun(Last(groups));
      assert IsRun(Last(all));
    } else {
      assert Front(all) == groups;
      assert IsRun([e]);
    }
  }

  lemma {:induction false} RunsAreRuns(history: seq<Event>)
    ensures IsRuns(history, Runs(history))
    decreases |history|
  {
    if history == [] {
      NoRuns();
    } else {
      var groups := Runs(Front(history));
      assert Runs(history) == Grown(groups, Last(history));
      hide Runs, IsRuns, Grown;
      RunsAreRuns(Front(history));
      GrownIsRuns(Front(history), groups, Last(history));
      assert Front(history) + [Last(history)] == history;
    }
  }

  lemma NoRuns()
    ensures Runs([]) == [] && IsRuns([], [])
  {
  }

  /** The groups before their last event. */
  function Shrunk(groups: seq<Group>): seq<Group>
    requires groups != []
  {
    Front(groups) + (if |Last(groups)| == 1 then [] else [Front(Last(groups))])
  }

  lemma ShrunkIsRuns(history: seq<Event>, groups: seq<Group>)
    requires IsRuns(history, groups) && history != []
    ensures groups != [] && IsRuns(Front(history), Shrunk(groups))
    ensures groups == Grown(Shrunk(groups), Last(history))
  {
    hide Joins;
    var rest, g := Shrunk(groups), Last(groups);
    assert g in groups && IsRun(g);
    assert Last(g) == Last(history);
    if |g| == 1 {
      assert rest == Front(groups);
      assert Front(history) == Flatten(rest);
      assert g == [Last(history)];
      assert rest != [] ==> !Joins(Last(Last(rest)), g[0]);
    } else {
      assert Front(rest) == Front(groups) && Last(rest) == Front(g);
      assert Front(history) == Flatten(Front(groups)) + Front(g);
      assert Joins(g[|g| - 2], g[|g| - 1]);
      assert g == Front(g) + [Last(g)];
    }
    assert groups == Front(groups) + [g];
  }

  lemma {:induction false} FlattenLength(groups: seq<Group>)
    ensures |Flatten(groups)| >= |groups|
  {
    if groups != [] { FlattenLength(Front(groups)); }
  }

  /** There is exactly one cut into maximal runs, and growing event by event finds it. */
  lemma {:induction false} RunsUnique(history: seq<Event>, groups: seq<Group>)
    ensures IsRuns(history, groups) <==> groups == Runs(history)
    decreases |history|
  {
    RunsAreRuns(history);
    if IsRuns(history, groups) {
      if history == [] {
        FlattenLength(groups);
      } else {
        ShrunkIsRuns(history, groups);
        hide Grown, Shrunk, IsRuns;
        RunsUnique(Front(history), Shrunk(groups));
      }
    }
  }

  // ----- summaries -----

  function DamageOf(g: seq<Event>): nat {
    if g == [] then 0 else DamageOf(Front(g)) + (if Last(g).SurfaceCommit? then Last(g).damage else 0)
  }

  /** One entry for a run: the last event's position, and the counts of the whole run. */
  function SummaryOf(g: Group, maxDetail: nat): Summary {
    match Last(g)
    case Other(_, _, _, _, _) => FromEvent(Last(g), maxDetail)
    case SurfaceCommit(w, s, ts, c, _) =>
      Summary("surface_commit", s, ts, Some(w), Take(CommitDetail(c, |g|, DamageOf(g)), maxDetail))
  }

  function SummariesOf(groups: seq<Group>, maxDetail: nat): seq<Summary> {
    seq(|groups|, i requires 0 <= i < |groups| => SummaryOf(groups[i], maxDetail))
  }

  /** What the context shows: the newest entries of the run-length compressed history. */
  function Recent(groups: seq<Group>, maxEvents: nat, maxDetail: nat): seq<Summary> {
    Take(Reverse(SummariesOf(groups, maxDetail)), maxEvents)
  }

  /** The run that the next event may still join. */
  function OpenGroup(groups: seq<Group>): Option<CommitGroup> {
    if groups == [] || Last(Last(groups)).Other? then None
    else Some(CommitGroup(Last(Last(groups)).window, |Last(groups)|, DamageOf(Last(groups))))
  }

  lemma SummariesSnoc(groups: seq<Group>, g: Group, maxDetail: nat)
    ensures SummariesOf(groups + [g], maxDetail) == SummariesOf(groups, maxDetail) + [SummaryOf(g, maxDetail)]
    ensures Reverse(SummariesOf(groups + [g], maxDetail)) ==
            [SummaryOf(g, maxDetail)] + Reverse(SummariesOf(groups, maxDetail))
  {
    hide SummaryOf;
  }

  /**
   * Whatever was recorded before and has been dropped, the head entry counts every event of
   * the newest run.
   */
  lemma HeadCountsNewestRun(older: seq<Event>, run: Group, maxEvents: nat, maxDetail: nat)
    requires IsRun(run) && (older == [] || !Joins(Last(older), run[0])) && maxEvents > 0
    ensures var recent := Recent(Runs(older + run), maxEvents, maxDetail);
            recent != [] && recent[0] == SummaryOf(run, maxDetail)
  {
    hide SummaryOf, SummariesOf, Runs, IsRuns, IsRun, Reverse, Joins;
    RunsAreRuns(older);
    AppendRun(older, Runs(older), run);
    RunsUnique(older + run, Runs(older) + [run]);
    SummariesSnoc(Runs(older), run, maxDetail);
  }

  /** Damage adds up over a run, commit by commit. */
  lemma {:induction false} DamageAdds(a: seq<Event>, b: seq<Event>)
    ensures DamageOf(a + b) == DamageOf(a) + DamageOf(b)
    ensures forall e: Event :: DamageOf([e]) == if e.SurfaceCommit? then e.damage else 0
    decreases |b|
  {
    forall e: Event ensures DamageOf([e]) == if e.SurfaceCommit? then e.damage else 0 {
      assert Front([e]) == [] && Last([e]) == e;
      assert DamageOf([]) == 0;
    }
    if b == [] {
      assert a + b == a;
    } else {
      assert Front(a + b) == a + Front(b) && Last(a + b) == Last(b);
      DamageAdds(a, Front(b));
    }
  }

  /** Two commits of one window. */
  predicate SameWindow(a: Event, b: Event) {
    match (a, b)
    case (SurfaceCommit(w, _, _, _, _), SurfaceCommit(v, _, _, _, _)) => w == v
    case _ => false
  }

  /**
   * The head entry, field by field: it stands where the last event of the newest run stands, and
   * a run of commits reads "commit <last> (<how many> commits, <all damage> damage rects)".
   */
  lemma HeadEntry(older: seq<Event>, run: Group, maxEvents: nat, maxDetail: nat)
    requires forall i :: 0 <= i < |run| - 1 ==> SameWindow(run[i], run[i + 1])
    requires maxEvents > 0 && (older == [] || !SameWindow(Last(older), run[0]))
    ensures Recent(Runs(older + run), maxEvents, maxDetail) != []
    ensures var head, e := Recent(Runs(older + run), maxEvents, maxDetail)[0], Last(run);
            && head.seqNo == e.seqNo && head.tsMs == e.tsMs
            && (e.Other? ==> head.kind == e.kind && head.window == e.target && head.detail == Take(e.text, maxDetail))
            && (e.SurfaceCommit? ==> head.kind == "surface_commit" && head.window == Some(e.window))
    ensures var head, e, total := Recent(Runs(older + run), maxEvents, maxDetail)[0], Last(run), DamageOf(run);
            e.SurfaceCommit? ==>
              var commits := if |run| > 1 then Decimal(|run|) + " commits, " else "";
              && (total == 0 ==>
                    head.detail ==
                      Take("commit " + Decimal(e.commitSeq) + " (" + (commits + "no damage") + ")", maxDetail))
              && (total == 1 ==>
                    head.detail ==
                      Take("commit " + Decimal(e.commitSeq) + " (" + (commits + "1 damage rect") + ")", maxDetail))
              && (total > 1 ==>
                    head.detail == Take("commit " + Decimal(e.commitSeq) + " (" +
                                        (commits + (Decimal(total) + " damage rects")) + ")", maxDetail))
  {
    HeadCountsNewestRun(older, run, maxEvents, maxDetail);
    hide Recent, Runs, DamageOf, Decimal, Take, IsRun;
    if Last(run).SurfaceCommit? { DetailText(Last(run).commitSeq, |run|, DamageOf(run)); }
    hide CommitDetail;
  }

  lemma DetailText(commitSeq: nat, count: nat, total: nat)
    ensures var commits := if count > 1 then Decimal(count) + " commits, " else "";
            var start := "commit " + Decimal(commitSeq) + " (";
            && (total == 0 ==> CommitDetail(commitSeq, count, total) == start + (commits + "no damage") + ")")
            && (total == 1 ==> CommitDetail(commitSeq, count, total) == start + (commits + "1 damage rect") + ")")
            && (total > 1 ==>
                  CommitDetail(commitSeq, count, total) == start + (commits + (Decimal(total) + " damage rects")) + ")")
  {
    hide Decimal;
    var start := "commit " + Decimal(commitSeq) + " (";
    var damage := if total == 0 then "no damage" else if total == 1 then "1 damage rect"
      else Decimal(total) + " damage rects";
    assert start + Decimal(count) + " commits, " + damage + ")" ==
      start + (Decimal(count) + " commits, " + damage) + ")";
    assert "" + damage == damage;
  }

  lemma AppendRun(older: seq<Event>, groups: seq<Group>, run: Group)
    requires IsRuns(older, groups) && IsRun(run) && (older == [] || !Joins(Last(older), run[0]))
    ensures IsRuns(older + run, groups + [run])
  {
    hide Joins, IsRun;
    var all := groups + [run];
    assert Front(all) == groups;
    assert groups != [] ==> older != [] && Last(Last(groups)) == Last(older);
  }

  /** An event that starts a run becomes the head. */
  lemma RecentPush(groups: seq<Group>, e: Event, maxEvents: nat, maxDetail: nat)
    ensures Recent(groups + [[e]], maxEvents, maxDetail) ==
            Take([FromEvent(e, maxDetail)] + Recent(groups, maxEvents, maxDetail), maxEvents)
    ensures OpenGroup(groups + [[e]]) == if e.SurfaceCommit? then Some(CommitGroup(e.window, 1, e.damage)) else None
  {
    SingleRun(e, maxDetail);
    hide SummaryOf, SummariesOf, FromEvent, Reverse, DamageOf;
    SummariesSnoc(groups, [e], maxDetail);
  }

  lemma SingleRun(e: Event, maxDetail: nat)
    ensures DamageOf([e]) == if e.SurfaceCommit? then e.damage else 0
    ensures SummaryOf([e], maxDetail) == FromEvent(e, maxDetail)
  {
    hide CommitDetail;
    assert Front([e]) == [];
  }

  /** The entry of the newest run after one more commit of its window. */
  function Collapsed(g: CommitGroup, e: Event, maxDetail: nat): Summary
    requires e.SurfaceCommit?
  {
    Summary("surface_commit", e.seqNo, e.tsMs, Some(e.window),
            Take(CommitDetail(e.commitSeq, g.commits, g.damageRects), maxDetail))
  }

  /** A commit that joins the newest run counts into it. */
  lemma GroupCollapse(groups: seq<Group>, e: Event, maxDetail: nat)
    requires groups != [] && Joins(Last(Last(groups)), e)
    ensures OpenGroup(groups).Some? && OpenGroup(groups).value.window == e.window
    ensures var g := OpenGroup(groups).value;
            var open := CommitGroup(e.window, g.commits + 1, g.damageRects + e.damage);
            && OpenGroup(Grown(groups, e)) == Some(open)
            && SummaryOf(Last(groups) + [e], maxDetail) == Collapsed(open, e, maxDetail)
    ensures SummaryOf(Last(groups), maxDetail).kind == "surface_commit"
    ensures SummaryOf(Last(groups), maxDetail).window == Some(e.window)
  {
    hide CommitDetail, FromEvent;
    var g := Last(groups);
    assert Front(g + [e]) == g && Last(g + [e]) == e;
    assert Last(Grown(groups, e)) == g + [e];
  }

  /** It rewrites the head entry and nothing else. */
  lemma RecentCollapse(groups: seq<Group>, e: Event, maxEvents: nat, maxDetail: nat)
    requires groups != [] && Joins(Last(Last(groups)), e) && maxEvents > 0
    ensures var recent := Recent(groups, maxEvents, maxDetail);
            && recent != [] && recent[0] == SummaryOf(Last(groups), maxDetail)
            && Recent(Grown(groups, e), maxEvents, maxDetail) ==
               [SummaryOf(Last(groups) + [e], maxDetail)] + recent[1..]
  {
    hide SummaryOf, SummariesOf, Reverse, Joins;
    var g := Last(groups);
    assert groups == Front(groups) + [g];
    SummariesSnoc(Front(groups), g, maxDetail);
    SummariesSnoc(Front(groups), g + [e], maxDetail);
  }

  lemma RunsSnoc(history: seq<Event>, e: Event)
    ensures Runs(history + [e]) == Grown(Runs(history), e)
  {
    assert Front(history + [e]) == history;
  }

  /** The open group tells whether an event joins the newest run. */
  lemma OpenGroupWindow(groups: seq<Group>, e: Event)
    ensures (groups != [] && Joins(Last(Last(groups)), e)) <==>
            (e.SurfaceCommit? && OpenGroup(groups).Some? && OpenGroup(groups).value.window == e.window)
  {
  }

  class ContextBuilder {
    const maxEvents: nat
    const maxDetail: nat
    var events: seq<Summary>
    var commitGroup: Option<CommitGroup>
    /** Every event recorded since the last reset. */
    ghost var history: seq<Event>

    ghost predicate Valid()
      reads this
    {
      && events == Recent(Runs(history), maxEvents, maxDetail)
      && commitGroup == OpenGroup(Runs(history))
      && (maxEvents == 0 ==> history == [])
    }

    constructor (maxEvents: nat, maxDetail: nat)
      ensures Valid() && history == []
      ensures this.maxEvents == maxEvents && this.maxDetail == maxDetail
    {
      this.maxEvents := maxEvents;
      this.maxDetail := maxDetail;
      events, commitGroup, history := [], None, [];
      new;
      assert Runs([]) == [];
      assert Reverse<Summary>([]) == [];
    }

    /** With a budget the shown events are the newest entries of everything recorded. */
    method RecordEvents(batch: seq<Event>)
      requires Valid()
      modifies this
      ensures Valid() && history == if maxEvents == 0 then [] else old(history) + batch
    {
      if maxEvents == 0 {
        events, commitGroup := [], None;
        return;
      }
      RecordAll(batch);
    }

    method RecordAll(batch: seq<Event>)
      requires Valid() && maxEvents > 0
      modifies this
      ensures Valid() && history == old(history) + batch
    {
      hide *;
      for i := 0 to |batch|
        invariant Valid() && history == old(history) + batch[..i]
      {
        RecordEvent(batch[i]);
        assert old(history) + batch[..i + 1] == (old(history) + batch[..i]) + [batch[i]];
      }
      assert batch[..|batch|] == batch;
    }

    method RecordEvent(event: Event)
      requires Valid() && maxEvents > 0
      modifies this
      ensures Valid() && history == old(history) + [event]
    {
      hide Recent, CommitDetail, OpenGroup, SummaryOf;
      ghost var groups := Runs(history);
      RunsSnoc(history, event);
      OpenGroupWindow(groups, event);
      hide Runs;
      if event.SurfaceCommit? {
        if commitGroup.Some? && commitGroup.value.window == event.window {
          GroupCollapse(groups, event, maxDetail);
          RecentCollapse(groups, event, maxEvents, maxDetail);
          var open := CommitGroup(event.window, commitGroup.value.commits + 1,
                                  commitGroup.value.damageRects + event.damage);
          commitGroup := Some(open);
          events := events[0 := events[0].(
                                seqNo := event.seqNo, tsMs := event.tsMs,
                                detail := Collapsed(open, event, maxDetail).detail)];
          history := history + [event];
          return;
        }
        commitGroup := Some(CommitGroup(event.window, 1, event.damage));
      } else {
        commitGroup := None;
      }
      RecentPush(groups, event, maxEvents, maxDetail);
      events := Take([FromEvent(event, maxDetail)] + events, maxEvents);
      history := history + [event];
    }

    method Reset()
      modifies this
      ensures Valid() && history == [] && events == []
    {
      events, commitGroup, history := [], None, [];
      assert Runs([]) == [];
    }
  }
}

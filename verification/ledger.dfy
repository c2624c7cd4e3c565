// The compositor's launch ledger: pending launches are matched with windows as these are
// mapped or announce their application late, and a matched launch is spent.

module Ledger {
  import opened Core
  import opened Selecting

  const TIMEOUT: nat := 10_000_000_000  // ten seconds, in nanoseconds
  const MAX_PENDING: nat := 32
  const MIN_TITLE_MATCH: nat := 3

  datatype Launch = Launch(id: nat, appId: string, pid: Option<int>, notedAt: nat)

  /** What is known about a window when it is matched. */
  datatype Evidence = Evidence(appId: Option<string>, pid: Option<int>, title: Option<string>)

  // ----- matching -----

  function Lower(s: string): string { seq(|s|, i requires 0 <= i < |s| => LowerChar(s[i])) }

  predicate AppIdsMatch(launched: string, window: string) {
    Lower(launched) == Lower(window) || Lower(Tail(launched)) == Lower(Tail(window))
  }

  predicate TitleMatches(appId: string, title: string) {
    || (ByteLen(Lower(appId)) >= MIN_TITLE_MATCH && Contains(Lower(title), Lower(appId)))
    || (ByteLen(Lower(Tail(appId))) >= MIN_TITLE_MATCH && Contains(Lower(title), Lower(Tail(appId))))
  }

  lemma {:induction false} TailLower(s: string)
    ensures Tail(Lower(s)) == Lower(Tail(s))
  {
    if s != "" {
      TailLower(Front(s));
      assert Front(Lower(s)) == Lower(Front(s));
      assert Last(Lower(s)) == LowerChar(Last(s));
      if Last(s) != '.' {
        assert Lower(Tail(s)) == Lower(Tail(Front(s))) + [LowerChar(Last(s))];
      }
    }
  }

  /** Application ids match exactly when their last segments do: the first test adds nothing. */
  lemma AppIdsMatchIffTails(a: string, b: string)
    ensures AppIdsMatch(a, b) <==> Lower(Tail(a)) == Lower(Tail(b))
  {
    TailLower(a);
    TailLower(b);
  }

  datatype Tier = Pid | AppId | Title

  predicate Matches(tier: Tier, l: Launch, e: Evidence) {
    match tier
    case Pid => e.pid.Some? && l.pid == e.pid
    case AppId => e.appId.Some? && AppIdsMatch(l.appId, e.appId.value)
    case Title => e.title.Some? && TitleMatches(l.appId, e.title.value)
  }

  /** Not older than the timeout; a launch noted after `now` counts as new. */
  predicate Fresh(l: Launch, now: nat) { now - l.notedAt <= TIMEOUT }

  function FreshAt(now: nat): Launch -> bool { (l: Launch) => Fresh(l, now) }

  function Except(id: nat): Launch -> bool { (l: Launch) => l.id != id }

  function InTier(admitted: Launch -> bool, tier: Tier, e: Evidence): Launch -> bool {
    l => admitted(l) && Matches(tier, l, e)
  }

  /** The last of the admitted launches in the first tier that knows one. */
  function Choice(launches: seq<Launch>, admitted: Launch -> bool, e: Evidence): Option<nat> {
    var byPid := LastMatch(launches, InTier(admitted, Pid, e));
    var byApp := LastMatch(launches, InTier(admitted, AppId, e));
    var byTitle := LastMatch(launches, InTier(admitted, Title, e));
    if byPid.Some? then Some(byPid.value.id)
    else if byApp.Some? then Some(byApp.value.id)
    else if byTitle.Some? then Some(byTitle.value.id)
    else None
  }

  /** Choosing among retained launches is choosing among all with the stronger condition. */
  lemma ChoiceFilter(launches: seq<Launch>, keep: Launch -> bool, admitted: Launch -> bool, both: Launch -> bool,
                     e: Evidence)
    requires Conjoins(launches, keep, admitted, both)
    ensures Choice(Filter(launches, keep), admitted, e) == Choice(launches, both, e)
  {
    hide Matches;
    LastMatchFilter(launches, keep, InTier(admitted, Pid, e), InTier(both, Pid, e));
    LastMatchFilter(launches, keep, InTier(admitted, AppId, e), InTier(both, AppId, e));
    LastMatchFilter(launches, keep, InTier(admitted, Title, e), InTier(both, Title, e));
  }

  /** Without the evidence a tier is about, it knows nothing. */
  lemma NoEvidence(launches: seq<Launch>, admitted: Launch -> bool, tier: Tier, e: Evidence)
    requires forall l :: !Matches(tier, l, e)
    ensures LastMatch(launches, InTier(admitted, tier, e)).None?
  {
    var at := LastMatchIsLast(launches, InTier(admitted, tier, e));
  }

  /** Two letters alike up to ASCII case. */
  predicate Alike(a: char, b: char) {
    || a == b
    || ('a' <= a <= 'z' && 'A' <= b <= 'Z' && a as int - b as int == 32)
    || ('A' <= a <= 'Z' && 'a' <= b <= 'z' && b as int - a as int == 32)
  }

  lemma LowerAlike(a: string, b: string)
    ensures Lower(a) == Lower(b) <==> |a| == |b| && forall i :: 0 <= i < |a| ==> Alike(a[i], b[i])
  {
    if Lower(a) == Lower(b) {
      assert |Lower(a)| == |Lower(b)|;
      forall i | 0 <= i < |a| ensures Alike(a[i], b[i]) { assert Lower(a)[i] == Lower(b)[i]; }
    }
  }

  /** At least three bytes that stand somewhere in the title, in any ASCII case. */
  predicate TitleHolds(title: string, needle: string) {
    ByteLen(Lower(needle)) >= 3 && exists i :: 0 <= i <= |Lower(title)| && Lower(needle) <= Lower(title)[i..]
  }

  lemma TitleMatchesExact(appId: string, title: string)
    ensures TitleMatches(appId, title) <==> TitleHolds(title, appId) || TitleHolds(title, Tail(appId))
  {
    ContainsIff(Lower(title), Lower(appId));
    ContainsIff(Lower(title), Lower(Tail(appId)));
  }

  /** Noted at most ten seconds ago. */
  predicate Recent(l: Launch, now: nat) { now <= l.notedAt + 10_000_000_000 }

  /** `i` is the last recent launch for which `p` holds. */
  ghost predicate LastRecent(launches: seq<Launch>, now: nat, p: Launch -> bool, i: int) {
    && 0 <= i < |launches| && Recent(launches[i], now) && p(launches[i])
    && forall j :: i < j < |launches| && Recent(launches[j], now) ==> !p(launches[j])
  }

  function SamePid(e: Evidence): Launch -> bool { (l: Launch) => e.pid.Some? && l.pid == Some(e.pid.value) }

  function SameApp(e: Evidence): Launch -> bool {
    (l: Launch) => e.appId.Some? && Lower(Tail(l.appId)) == Lower(Tail(e.appId.value))
  }

  function InTitle(e: Evidence): Launch -> bool {
    (l: Launch) =>
      e.title.Some? && (TitleHolds(e.title.value, l.appId) || TitleHolds(e.title.value, Tail(l.appId)))
  }

  /** A tier finds the last recent launch with the tier's property, if there is one. */
  lemma TierFinds(launches: seq<Launch>, now: nat, e: Evidence, tier: Tier, p: Launch -> bool)
    requires forall l: Launch :: Matches(tier, l, e) <==> p(l)
    ensures var r := LastMatch(launches, InTier(FreshAt(now), tier, e));
            && (r.None? ==> forall i :: 0 <= i < |launches| && Recent(launches[i], now) ==> !p(launches[i]))
            && (r.Some? ==> exists i :: LastRecent(launches, now, p, i) && launches[i] == r.value)
  {
    hide Matches, Lower, TitleMatches;
    var at := LastMatchIsLast(launches, InTier(FreshAt(now), tier, e));
    forall i | 0 <= i < |launches|
      ensures InTier(FreshAt(now), tier, e)(launches[i]) <==> Recent(launches[i], now) && p(launches[i])
    {
    }
    if LastMatch(launches, InTier(FreshAt(now), tier, e)).Some? {
      assert LastRecent(launches, now, p, at);
    }
  }

  /** The evidence in order: the process, then the application id, then the title; the last recent launch of each. */
  lemma ChoiceByEvidence(launches: seq<Launch>, now: nat, e: Evidence)
    ensures var r := Choice(launches, FreshAt(now), e);
            || (exists i :: LastRecent(launches, now, SamePid(e), i) && r == Some(launches[i].id))
            || ((forall i :: 0 <= i < |launches| && Recent(launches[i], now) ==> !SamePid(e)(launches[i]))
                && ((exists i :: LastRecent(launches, now, SameApp(e), i) && r == Some(launches[i].id))
                    || ((forall i :: 0 <= i < |launches| && Recent(launches[i], now) ==> !SameApp(e)(launches[i]))
                        && ((exists i :: LastRecent(launches, now, InTitle(e), i) && r == Some(launches[i].id))
                            || ((forall i :: 0 <= i < |launches| && Recent(launches[i], now)
                                   ==> !InTitle(e)(launches[i]))
                                && r == None)))))
  {
    forall l: Launch ensures Matches(AppId, l, e) <==> SameApp(e)(l) {
      if e.appId.Some? { AppIdsMatchIffTails(l.appId, e.appId.value); }
    }
    forall l: Launch ensures Matches(Title, l, e) <==> InTitle(e)(l) {
      if e.title.Some? { TitleMatchesExact(l.appId, e.title.value); }
    }
    hide LastRecent, Recent, Lower, TitleMatches, TitleHolds, AppIdsMatch;
    TierFinds(launches, now, e, Pid, SamePid(e));
    TierFinds(launches, now, e, AppId, SameApp(e));
    TierFinds(launches, now, e, Title, InTitle(e));
  }

  // ----- the ledger -----

  class LaunchLedger {
    var pending: seq<Launch>

    constructor ()
      ensures pending == []
    {
      pending := [];
    }

    method Expire(now: nat)
      modifies this
      ensures pending == Filter(old(pending), FreshAt(now))
      ensures forall l :: l in pending <==> l in old(pending) && now <= l.notedAt + 10_000_000_000
    {
      forall l: Launch
        ensures l in Filter(pending, FreshAt(now)) <==> l in pending && now <= l.notedAt + 10_000_000_000
      {
        FilterMembers(pending, FreshAt(now), l);
      }
      pending := Retain(pending, FreshAt(now));
    }

    method Record(id: nat, appId: string, pid: Option<int>, now: nat)
      modifies this
      ensures var kept := Filter(old(pending), FreshAt(now));
              pending == (if |kept| >= MAX_PENDING then kept[1..] else kept) + [Launch(id, appId, pid, now)]
    {
      Expire(now);
      if |pending| >= MAX_PENDING {
        pending := pending[1..];
      }
      pending := pending + [Launch(id, appId, pid, now)];
    }

    method Correlate(e: Evidence, now: nat) returns (launch: Option<nat>)
      ensures launch == Choice(pending, FreshAt(now), e)
    {
      hide FreshAt, AppIdsMatch, TitleMatches;
      if e.pid.None? {
        NoEvidence(pending, FreshAt(now), Pid, e);
      } else {
        var found := RFind(pending, InTier(FreshAt(now), Pid, e));
        if found.Some? { return Some(found.value.id); }
      }
      if e.appId.None? {
        NoEvidence(pending, FreshAt(now), AppId, e);
      } else {
        var found := RFind(pending, InTier(FreshAt(now), AppId, e));
        if found.Some? { return Some(found.value.id); }
      }
      if e.title.None? {
        NoEvidence(pending, FreshAt(now), Title, e);
      } else {
        var found := RFind(pending, InTier(FreshAt(now), Title, e));
        if found.Some? { return Some(found.value.id); }
      }
      return None;
    }

    method Take(id: nat)
      modifies this
      ensures pending == Filter(old(pending), Except(id))
    {
      pending := Retain(pending, Except(id));
    }
  }

  // ----- what has happened -----

  datatype Attribution = Attribution(launch: nat, window: nat)

  /**
   * Everything noted so far, what was matched with which window, what fell out of a full
   * ledger, which ids are still pending, and the latest reading of the monotonic clock.
   */
  datatype Past = Past(noted: seq<Launch>, given: seq<Attribution>, evicted: set<nat>, held: set<nat>, clock: nat)

  function Spent(given: seq<Attribution>): set<nat> { set a | a in given :: a.launch }

  function Ids(launches: seq<Launch>): set<nat> { set l | l in launches :: l.id }

  function HeldIn(held: set<nat>): Launch -> bool { (l: Launch) => l.id in held }

  /** Neither timed out, nor matched before, nor pushed out. */
  predicate Open(past: Past, now: nat, l: Launch) {
    Fresh(l, now) && l.id !in Spent(past.given) && l.id !in past.evicted
  }

  function OpenAt(past: Past, now: nat): Launch -> bool { (l: Launch) => Open(past, now, l) }

  predicate UniqueIds(launches: seq<Launch>) {
    forall i, j :: 0 <= i < j < |launches| ==> launches[i].id != launches[j].id
  }

  predicate InOrder(launches: seq<Launch>) {
    forall i, j :: 0 <= i < j < |launches| ==> launches[i].notedAt <= launches[j].notedAt
  }

  predicate EachOnce(given: seq<Attribution>) {
    forall i, j :: 0 <= i < j < |given| ==> given[i].launch != given[j].launch
  }

  /** At least 32 launches were noted after this one. */
  predicate Crowded(noted: seq<Launch>, id: nat) {
    exists i :: 0 <= i < |noted| - 32 && noted[i].id == id
  }

  /** A launch is pending unless it is spent, pushed out or timed out. */
  predicate Tracked(past: Past, l: Launch) {
    && (l.id in past.held ==> l.id !in Spent(past.given) && l.id !in past.evicted)
    && (Open(past, past.clock, l) ==> l.id in past.held)
  }

  /** How the ledger stands to everything that happened. */
  predicate Sound(pending: seq<Launch>, past: Past) {
    Exact(pending, past) && EvictedCrowded(past)
  }

  predicate EvictedCrowded(past: Past) { forall id :: id in past.evicted ==> Crowded(past.noted, id) }

  predicate Exact(pending: seq<Launch>, past: Past) {
    && |pending| <= 32
    && pending == Filter(past.noted, HeldIn(past.held))
    && UniqueIds(past.noted) && InOrder(past.noted)
    && (forall l :: l in past.noted ==> l.notedAt <= past.clock && Tracked(past, l))
    && EachOnce(past.given) && Spent(past.given) <= Ids(past.noted)
    && past.held <= Ids(past.noted) && past.evicted <= Ids(past.noted)
  }

  lemma {:induction false} FilterUnique(s: seq<Launch>, p: Launch -> bool)
    requires UniqueIds(s)
    ensures UniqueIds(Filter(s, p))
  {
    if s != [] {
      FilterUnique(Front(s), p);
      forall l | l in Filter(Front(s), p) ensures l.id != Last(s).id {
        FilterMembers(Front(s), p, l);
      }
    }
  }

  lemma {:induction false} ExceptFirst(s: seq<Launch>)
    requires s != [] && UniqueIds(s)
    ensures Filter(s, Except(s[0].id)) == s[1..]
  {
    if |s| > 1 {
      ExceptFirst(Front(s));
      assert s[1..] == Front(s)[1..] + [Last(s)];
    } else {
      assert Filter(Front(s), Except(s[0].id)) == [];
    }
  }

  lemma {:induction false} FirstPosition(s: seq<Launch>, p: Launch -> bool) returns (i: nat)
    requires Filter(s, p) != []
    ensures i < |s| && s[i] == Filter(s, p)[0] && |Filter(s, p)| <= |s| - i
  {
    if Filter(Front(s), p) == [] {
      i := |s| - 1;
    } else {
      i := FirstPosition(Front(s), p);
    }
  }

  lemma {:induction false} FilterSame(s: seq<Launch>, p: Launch -> bool, q: Launch -> bool)
    requires forall i :: 0 <= i < |s| ==> (p(s[i]) <==> q(s[i]))
    ensures Filter(s, p) == Filter(s, q)
  {
    if s != [] { FilterSame(Front(s), p, q); }
  }

  /** The clock moving on keeps everything. */
  lemma ClockKeepsSound(pending: seq<Launch>, past: Past, now: nat)
    requires Sound(pending, past) && past.clock <= now
    ensures Sound(pending, past.(clock := now))
  {
    hide Filter, Crowded, Spent;
    forall l | l in past.noted ensures Tracked(past.(clock := now), l) {
      assert Tracked(past, l);
    }
  }

  /** Ids that are held and not timed out. */
  function FreshHeld(past: Past): set<nat> {
    set l | l in past.noted && l.id in past.held && Fresh(l, past.clock) :: l.id
  }

  lemma FreshHeldOf(past: Past, l: Launch)
    requires UniqueIds(past.noted) && l in past.noted
    ensures l.id in FreshHeld(past) <==> l.id in past.held && Fresh(l, past.clock)
  {
    hide Fresh;
  }

  lemma ExpireKeepsExact(pending: seq<Launch>, past: Past)
    requires Exact(pending, past)
    ensures Exact(Filter(pending, FreshAt(past.clock)), past.(held := FreshHeld(past)))
  {
    var past' := past.(held := FreshHeld(past));
    hide Filter, Spent, InOrder, EachOnce, FreshHeld, UniqueIds, Ids, Fresh;
    forall l | l in past.noted ensures l.id in past'.held <==> l.id in past.held && Fresh(l, past.clock) {
      FreshHeldOf(past, l);
    }
    FilterFilter(past.noted, HeldIn(past.held), FreshAt(past.clock), HeldIn(past'.held));
    forall l | l in past.noted ensures Tracked(past', l) {
      assert Tracked(past, l);
    }
    assert past'.held <= past.held by { FreshHeldWithin(past); }
  }

  lemma FreshHeldWithin(past: Past)
    ensures FreshHeld(past) <= past.held
  {
  }

  /** Dropping the first of the held launches is holding all but it. */
  lemma EvictFilter(noted: seq<Launch>, held: set<nat>)
    requires UniqueIds(noted) && Filter(noted, HeldIn(held)) != []
    ensures var pending := Filter(noted, HeldIn(held));
            pending[1..] == Filter(noted, HeldIn(held - {pending[0].id}))
  {
    var pending := Filter(noted, HeldIn(held));
    FilterUnique(noted, HeldIn(held));
    ExceptFirst(pending);
    hide Filter;
    FilterFilter(noted, HeldIn(held), Except(pending[0].id), HeldIn(held - {pending[0].id}));
  }

  lemma FirstIsNoted(noted: seq<Launch>, held: set<nat>)
    requires Filter(noted, HeldIn(held)) != []
    ensures Filter(noted, HeldIn(held))[0].id in Ids(noted)
  {
    hide Filter;
    FilterMembers(noted, HeldIn(held), Filter(noted, HeldIn(held))[0]);
  }

  /** The oldest pending launch falls out. */
  lemma EvictKeepsExact(pending: seq<Launch>, past: Past)
    requires Exact(pending, past) && pending != []
    ensures var out := pending[0].id;
            Exact(pending[1..], past.(held := past.held - {out}, evicted := past.evicted + {out}))
  {
    var out := pending[0].id;
    var past' := past.(held := past.held - {out}, evicted := past.evicted + {out});
    EvictFilter(past.noted, past.held);
    FirstIsNoted(past.noted, past.held);
    hide Filter, Spent, InOrder, EachOnce, UniqueIds, Ids, Fresh;
    forall l | l in past.noted ensures Tracked(past', l) {
      assert Tracked(past, l);
    }
  }

  /** A full ledger pushes its oldest launch out only for the sake of as many younger ones. */
  lemma EvictedIsCrowded(pending: seq<Launch>, past: Past, l: Launch)
    requires Exact(pending, past) && |pending| >= MAX_PENDING
    ensures Crowded(past.noted + [l], pending[0].id)
  {
    var i := FirstPosition(past.noted, HeldIn(past.held));
    assert (past.noted + [l])[i].id == pending[0].id;
  }

  lemma CrowdedStays(noted: seq<Launch>, l: Launch, id: nat)
    requires Crowded(noted, id)
    ensures Crowded(noted + [l], id)
  {
    var i :| 0 <= i < |noted| - 32 && noted[i].id == id;
    assert (noted + [l])[i].id == id;
  }

  lemma PushFilter(noted: seq<Launch>, held: set<nat>, l: Launch)
    requires l.id !in Ids(noted)
    ensures Filter(noted + [l], HeldIn(held + {l.id})) == Filter(noted, HeldIn(held)) + [l]
    ensures Ids(noted + [l]) == Ids(noted) + {l.id}
  {
    assert Front(noted + [l]) == noted && Last(noted + [l]) == l;
    assert forall i :: 0 <= i < |noted| ==> noted[i].id in Ids(noted);
    FilterSame(noted, HeldIn(held + {l.id}), HeldIn(held));
  }

  lemma PushOrder(noted: seq<Launch>, l: Launch)
    requires UniqueIds(noted) && InOrder(noted) && l.id !in Ids(noted)
    requires forall o :: o in noted ==> o.notedAt <= l.notedAt
    ensures UniqueIds(noted + [l]) && InOrder(noted + [l])
  {
    assert forall i :: 0 <= i < |noted| ==> noted[i] in noted && noted[i].id in Ids(noted);
  }

  /** A new launch is noted. */
  lemma PushKeepsExact(pending: seq<Launch>, past: Past, l: Launch)
    requires Exact(pending, past) && |pending| < MAX_PENDING
    requires l.id !in Ids(past.noted) && l.notedAt == past.clock
    ensures Exact(pending + [l], past.(noted := past.noted + [l], held := past.held + {l.id}))
  {
    var past' := past.(noted := past.noted + [l], held := past.held + {l.id});
    PushFilter(past.noted, past.held, l);
    PushOrder(past.noted, l);
    forall o | o in past'.noted ensures o.notedAt <= past'.clock && Tracked(past', o) {
      hide Exact, Filter, Spent, EachOnce, Fresh;
      PushTracked(pending, past, l, o);
    }
    hide Filter, Spent, EachOnce, Fresh, UniqueIds, InOrder, Tracked, Ids;
  }

  lemma PushTracked(pending: seq<Launch>, past: Past, l: Launch, o: Launch)
    requires Exact(pending, past) && l.id !in Ids(past.noted) && l.notedAt == past.clock
    requires o in past.noted + [l]
    ensures o.notedAt <= past.clock
    ensures Tracked(past.(noted := past.noted + [l], held := past.held + {l.id}), o)
  {
    hide Filter, Spent, EachOnce, Fresh, UniqueIds, InOrder;
    if o in past.noted {
      assert Tracked(past, o) && o.id in Ids(past.noted);
    } else {
      assert o == l;
    }
  }

  /** The past after a launch is noted in a ledger that holds `pending`. */
  function AfterNote(pending: seq<Launch>, past: Past, l: Launch): Past {
    var ticked := past.(clock := l.notedAt);
    var expired := ticked.(held := FreshHeld(ticked));
    var kept := Filter(pending, FreshAt(l.notedAt));
    var room := if |kept| >= MAX_PENDING
                then expired.(held := expired.held - {kept[0].id}, evicted := expired.evicted + {kept[0].id})
                else expired;
    room.(noted := room.noted + [l], held := room.held + {l.id})
  }

  function Recorded(pending: seq<Launch>, l: Launch): seq<Launch> {
    var kept := Filter(pending, FreshAt(l.notedAt));
    (if |kept| >= MAX_PENDING then kept[1..] else kept) + [l]
  }

  /** Noting a launch keeps the ledger exact. */
  lemma NoteKeepsSound(pending: seq<Launch>, past: Past, l: Launch)
    requires Sound(pending, past) && past.clock <= l.notedAt && l.id !in Ids(past.noted)
    ensures Sound(Recorded(pending, l), AfterNote(pending, past, l))
  {
    hide Exact, Crowded, Filter, FreshHeld, Ids;
    var ticked := past.(clock := l.notedAt);
    var expired := ticked.(held := FreshHeld(ticked));
    var kept := Filter(pending, FreshAt(l.notedAt));
    ClockKeepsSound(pending, past, l.notedAt);
    ExpireKeepsExact(pending, ticked);
    forall id | id in past.evicted ensures Crowded(past.noted + [l], id) {
      CrowdedStays(past.noted, l, id);
    }
    AtMostPending(pending, past);
    if |kept| >= MAX_PENDING {
      EvictKeepsExact(kept, expired);
      EvictedIsCrowded(kept, expired, l);
      var out := kept[0].id;
      PushKeepsExact(kept[1..], expired.(held := expired.held - {out}, evicted := expired.evicted + {out}), l);
    } else {
      PushKeepsExact(kept, expired, l);
    }
  }

  lemma AtMostPending(pending: seq<Launch>, past: Past)
    requires Exact(pending, past)
    ensures |pending| <= 32
  {
  }

  function AfterGive(past: Past, id: nat, window: nat): Past {
    past.(given := past.given + [Attribution(id, window)], held := past.held - {id})
  }

  lemma SpentSnoc(given: seq<Attribution>, a: Attribution)
    ensures Spent(given + [a]) == Spent(given) + {a.launch}
  {
  }

  lemma NeverSpentTwice(past: Past, id: nat, window: nat)
    requires EachOnce(past.given) && id !in Spent(past.given)
    ensures EachOnce(AfterGive(past, id, window).given)
  {
    assert forall i :: 0 <= i < |past.given| ==> past.given[i].launch in Spent(past.given);
  }

  /** Matching a pending launch spends it; it was not spent before. */
  lemma GiveKeepsSound(pending: seq<Launch>, past: Past, id: nat, window: nat)
    requires Sound(pending, past) && id in past.held
    ensures Sound(Filter(pending, Except(id)), AfterGive(past, id, window))
    ensures id !in Spent(past.given)
  {
    var past' := AfterGive(past, id, window);
    assert id in Ids(past.noted);
    var l :| l in past.noted && l.id == id;
    assert Tracked(past, l);
    SpentSnoc(past.given, Attribution(id, window));
    NeverSpentTwice(past, id, window);
    hide Filter, Spent, EachOnce, UniqueIds, InOrder, Crowded, Fresh, Ids;
    FilterFilter(past.noted, HeldIn(past.held), Except(id), HeldIn(past'.held));
    forall o | o in past.noted ensures Tracked(past', o) {
      assert Tracked(past, o);
    }
    assert |Filter(pending, Except(id))| <= |pending|;
  }

  /**
   * Expiry at noting time, and spent launches dropped from the table, are unobservable: the
   * ledger chooses among all launches ever noted that are still open.
   */
  lemma ChoiceOfHistory(pending: seq<Launch>, past: Past, now: nat, e: Evidence)
    requires Sound(pending, past) && past.clock <= now
    ensures Choice(pending, FreshAt(now), e) == Choice(past.noted, OpenAt(past, now), e)
    ensures Choice(pending, FreshAt(now), e).Some? ==> Choice(pending, FreshAt(now), e).value in past.held
  {
    forall i | 0 <= i < |past.noted|
      ensures Open(past, now, past.noted[i]) <==> past.noted[i].id in past.held && Fresh(past.noted[i], now)
    {
      assert Tracked(past, past.noted[i]);
    }
    hide Matches, Exact, Spent, Choice, Fresh;
    ChoiceFilter(past.noted, HeldIn(past.held), FreshAt(now), OpenAt(past, now), e);
    assert pending == Filter(past.noted, HeldIn(past.held)) by { SoundPending(pending, past); }
    if Choice(pending, FreshAt(now), e).Some? {
      var l := ChoiceIsMember(pending, FreshAt(now), e);
      FilterMembers(past.noted, HeldIn(past.held), l);
    }
  }

  lemma SoundPending(pending: seq<Launch>, past: Past)
    requires Sound(pending, past)
    ensures pending == Filter(past.noted, HeldIn(past.held))
  {
  }

  lemma ChoiceIsMember(launches: seq<Launch>, admitted: Launch -> bool, e: Evidence) returns (l: Launch)
    requires Choice(launches, admitted, e).Some?
    ensures l in launches && admitted(l) && Choice(launches, admitted, e) == Some(l.id)
  {
    hide Matches;
    var p := LastMatchIsLast(launches, InTier(admitted, Pid, e));
    var a := LastMatchIsLast(launches, InTier(admitted, AppId, e));
    var t := LastMatchIsLast(launches, InTier(admitted, Title, e));
    l := if LastMatch(launches, InTier(admitted, Pid, e)).Some? then launches[p]
         else if LastMatch(launches, InTier(admitted, AppId, e)).Some? then launches[a]
         else launches[t];
  }

  predicate Before(a: Tier, b: Tier) { (a.Pid? && !b.Pid?) || (a.AppId? && b.Title?) }

  /** `l` is the newest admitted launch of `tier`, and no earlier tier knows any. */
  ghost predicate Newest(launches: seq<Launch>, admitted: Launch -> bool, e: Evidence, tier: Tier, l: Launch) {
    && l in launches && admitted(l) && Matches(tier, l, e)
    && forall o :: o in launches && admitted(o) ==>
         && (Matches(tier, o, e) ==> o.notedAt <= l.notedAt)
         && forall t :: Before(t, tier) ==> !Matches(t, o, e)
  }

  lemma TierIsNewest(launches: seq<Launch>, admitted: Launch -> bool, e: Evidence, tier: Tier)
    requires InOrder(launches)
    requires forall t :: Before(t, tier) ==> LastMatch(launches, InTier(admitted, t, e)).None?
    requires LastMatch(launches, InTier(admitted, tier, e)).Some?
    ensures Newest(launches, admitted, e, tier, LastMatch(launches, InTier(admitted, tier, e)).value)
  {
    hide Matches;
    var at := LastMatchIsLast(launches, InTier(admitted, tier, e));
    forall t, i | Before(t, tier) && 0 <= i < |launches| && admitted(launches[i]) ensures !Matches(t, launches[i], e) {
      var _ := LastMatchIsLast(launches, InTier(admitted, t, e));
      assert !InTier(admitted, t, e)(launches[i]);
    }
    forall i | 0 <= i < |launches| && admitted(launches[i]) && Matches(tier, launches[i], e)
      ensures launches[i].notedAt <= launches[at].notedAt
    {
      assert InTier(admitted, tier, e)(launches[i]);
    }
  }

  /** A launch is chosen exactly when one matches, and it is the newest of the first tier. */
  lemma ChoiceIsNewest(launches: seq<Launch>, admitted: Launch -> bool, e: Evidence)
    requires InOrder(launches)
    ensures Choice(launches, admitted, e).None? <==>
            forall l, t :: l in launches && admitted(l) ==> !Matches(t, l, e)
    ensures Choice(launches, admitted, e).Some? ==>
              exists t, l :: Newest(launches, admitted, e, t, l) && Choice(launches, admitted, e) == Some(l.id)
  {
    hide Matches, InOrder, Newest;
    var byPid := LastMatch(launches, InTier(admitted, Pid, e));
    var byApp := LastMatch(launches, InTier(admitted, AppId, e));
    var byTitle := LastMatch(launches, InTier(admitted, Title, e));
    if byPid.Some? {
      TierIsNewest(launches, admitted, e, Pid);
    } else if byApp.Some? {
      TierIsNewest(launches, admitted, e, AppId);
    } else if byTitle.Some? {
      TierIsNewest(launches, admitted, e, Title);
    } else {
      forall l, t | l in launches && admitted(l) ensures !Matches(t, l, e) {
        assert t == Pid || t == AppId || t == Title;
        var _ := LastMatchIsLast(launches, InTier(admitted, t, e));
        var i :| 0 <= i < |launches| && launches[i] == l;
        assert !InTier(admitted, t, e)(launches[i]);
      }
    }
    if Choice(launches, admitted, e).Some? {
      var t, l :| Newest(launches, admitted, e, t, l) && Choice(launches, admitted, e) == Some(l.id);
      NewestMatches(launches, admitted, e, t, l);
    }
  }

  lemma NewestMatches(launches: seq<Launch>, admitted: Launch -> bool, e: Evidence, tier: Tier, l: Launch)
    requires Newest(launches, admitted, e, tier, l)
    ensures l in launches && admitted(l) && Matches(tier, l, e)
  {
  }

  /** Only a launch with 32 younger ones can have been pushed out. */
  lemma YoungIsNotEvicted(pending: seq<Launch>, past: Past, i: nat)
    requires Sound(pending, past) && |past.noted| - 32 <= i < |past.noted|
    ensures past.noted[i].id !in past.evicted
  {
    var id := past.noted[i].id;
    assert id in past.evicted ==> Crowded(past.noted, id);
  }

  // ----- the window bridge -----

  class WmBridge {
    const launches: LaunchLedger
    /** The launch each mapped window was matched with. */
    var launchIds: map<nat, nat>
    /** The application id last seen of each mapped window. */
    var appIds: map<nat, Option<string>>
    /** The process of each mapped window, as the window model keeps it. */
    var pids: map<nat, Option<int>>
    ghost var past: Past

    ghost predicate Valid()
      reads this, launches
    {
      && Sound(launches.pending, past)
      && launchIds.Keys <= appIds.Keys
      && forall w :: w in launchIds ==> Attribution(launchIds[w], w) in past.given
    }

    constructor ()
      ensures Valid() && fresh(launches)
      ensures past == Past([], [], {}, {}, 0) && launchIds == map[] && appIds == map[] && pids == map[]
    {
      launches := new LaunchLedger();
      launchIds, appIds, pids := map[], map[], map[];
      past := Past([], [], {}, {}, 0);
    }

    /** Launch ids are unique, and the clock is monotonic. */
    method NoteLaunch(id: nat, appId: string, pid: Option<int>, now: nat)
      requires Valid() && past.clock <= now && id !in Ids(past.noted)
      modifies this, launches
      ensures Valid() && past == AfterNote(old(launches.pending), old(past), Launch(id, appId, pid, now))
      ensures launchIds == old(launchIds) && appIds == old(appIds) && pids == old(pids)
    {
      hide Sound, AfterNote, Filter;
      ghost var l := Launch(id, appId, pid, now);
      NoteKeepsSound(launches.pending, past, l);
      NoteGivesNothing(launches.pending, past, l);
      past := AfterNote(launches.pending, past, l);
      launches.Record(id, appId, pid, now);
    }

    /**
     * A mapped window gets the open launch, out of all ever noted, that its evidence
     * chooses; that launch is spent from then on.
     */
    method MapToplevel(window: nat, appId: Option<string>, pid: Option<int>, title: Option<string>, now: nat)
      returns (launch: Option<nat>)
      requires Valid() && past.clock <= now && window !in appIds
      modifies this, launches
      ensures Valid()
      ensures launch == Choice(old(past).noted, OpenAt(old(past), now), Evidence(appId, pid, title))
      ensures past == Given(old(past).(clock := now), launch, window)
      ensures launchIds == Linked(old(launchIds), launch, window)
      ensures appIds == old(appIds)[window := appId] && pids == old(pids)[window := pid]
    {
      hide Sound, Choice, OpenAt;
      ghost var e := Evidence(appId, pid, title);
      ChoiceOfHistory(launches.pending, past, now, e);
      ClockKeepsSound(launches.pending, past, now);
      launch := launches.Correlate(Evidence(appId, pid, title), now);
      past := past.(clock := now);
      appIds, pids := appIds[window := appId], pids[window := pid];
      if launch.Some? {
        Spend(launch.value, window);
      }
    }

    /** Takes the launch out of the ledger and remembers it with the window. */
    method Spend(id: nat, window: nat)
      requires Valid() && id in past.held && window in appIds
      modifies this, launches
      ensures Valid() && past == AfterGive(old(past), id, window) && launchIds == old(launchIds)[window := id]
      ensures appIds == old(appIds) && pids == old(pids)
      ensures id !in Spent(old(past).given)
    {
      hide Sound;
      GiveKeepsSound(launches.pending, past, id, window);
      launches.Take(id);
      launchIds := launchIds[window := id];
      past := AfterGive(past, id, window);
    }

    /**
     * An application id announced after the map: nothing happens when it is the known one,
     * and only a window without a launch is matched again.
     */
    method NoteAppId(window: nat, appId: Option<string>, title: Option<string>, now: nat)
      returns (changed: bool, launch: Option<nat>)
      requires Valid() && past.clock <= now
      modifies this, launches
      ensures Valid()
      ensures changed <==> (if window in old(appIds) then old(appIds)[window] else None) != appId
      ensures launch == if !changed || window in old(launchIds) then None
                        else Choice(old(past).noted, OpenAt(old(past), now),
                                    Evidence(appId, if window in pids then pids[window] else None, title))
      ensures past == if !changed || window in old(launchIds) then old(past)
                      else Given(old(past).(clock := now), launch, window)
      ensures launchIds == Linked(old(launchIds), launch, window)
      ensures appIds == (if changed then old(appIds)[window := appId] else old(appIds)) && pids == old(pids)
    {
      hide Sound, Choice, OpenAt;
      changed := (if window in appIds then appIds[window] else None) != appId;
      launch := None;
      if !changed { return; }
      appIds := appIds[window := appId];
      if window !in launchIds {
        var e := Evidence(appId, if window in pids then pids[window] else None, title);
        ChoiceOfHistory(launches.pending, past, now, e);
        ClockKeepsSound(launches.pending, past, now);
        launch := launches.Correlate(e, now);
        past := past.(clock := now);
        if launch.Some? {
          Spend(launch.value, window);
        }
      }
    }

    /** A destroyed window frees nothing: its launch stays spent. */
    method DestroyToplevel(window: nat)
      requires Valid()
      modifies this
      ensures Valid() && past == old(past)
      ensures launchIds == old(launchIds) - {window} && appIds == old(appIds) - {window} && pids == old(pids) - {window}
    {
      hide Sound;
      launchIds, appIds, pids := launchIds - {window}, appIds - {window}, pids - {window};
    }
  }

  function Given(past: Past, launch: Option<nat>, window: nat): Past {
    match launch case Some(id) => AfterGive(past, id, window) case None => past
  }

  function Linked(launchIds: map<nat, nat>, launch: Option<nat>, window: nat): map<nat, nat> {
    match launch case Some(id) => launchIds[window := id] case None => launchIds
  }

  lemma NoteGivesNothing(pending: seq<Launch>, past: Past, l: Launch)
    ensures AfterNote(pending, past, l).given == past.given
  {
    hide Filter, FreshHeld;
  }
}

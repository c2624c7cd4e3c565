// The server's correlator: which recent launch a newly mapped window belongs to, decided on
// a table that is pruned on every call.

module Correlation {
  import opened Core
  import opened Selecting

  const NANOS_PER_MILLI: nat := 1_000_000

  datatype LaunchRecord = LaunchRecord(id: nat, appId: string, pid: Option<int>, startedAtMs: nat)

  datatype PendingLaunch = PendingLaunch(record: LaunchRecord, startupWmClass: Option<string>, name: string)

  datatype Candidate = Candidate(windowId: nat, pid: Option<int>, appId: Option<string>, title: Option<string>)

  datatype Evidence = Pid | StartupWmClass | AppIdOrTitleSubstring

  datatype Outcome = Correlated(windowId: nat, launch: LaunchRecord, evidence: Evidence) | Uncorrelated

  // ----- matchers -----

  predicate MatchesWmClass(p: PendingLaunch, w: Candidate, fold: Folding) {
    && p.startupWmClass.Some? && p.startupWmClass.value != ""
    && w.appId.Some? && w.appId.value != ""
    && fold(p.startupWmClass.value) == fold(w.appId.value)
  }

  /** `text` is known and contains the needle; an empty needle is no evidence. */
  predicate Mentions(text: Option<string>, needle: string, fold: Folding) {
    text.Some? && needle != "" && Contains(fold(text.value), fold(needle))
  }

  predicate MentionsLaunch(text: Option<string>, p: PendingLaunch, fold: Folding) {
    || Mentions(text, p.record.appId, fold)
    || Mentions(text, Tail(p.record.appId), fold)
    || Mentions(text, p.name, fold)
  }

  predicate Matches(evidence: Evidence, p: PendingLaunch, w: Candidate, fold: Folding) {
    match evidence
    case Pid => p.record.pid.Some? && p.record.pid == w.pid
    case StartupWmClass => MatchesWmClass(p, w, fold)
    case AppIdOrTitleSubstring => MentionsLaunch(w.appId, p, fold) || MentionsLaunch(w.title, p, fold)
  }

  /** Age at most the timeout (in nanoseconds); a launch started after `nowMs` has no age. */
  predicate Unexpired(p: PendingLaunch, nowMs: nat, timeout: nat) {
    Max(nowMs - p.record.startedAtMs, 0) * NANOS_PER_MILLI <= timeout
  }

  function UnexpiredAt(nowMs: nat, timeout: nat): PendingLaunch -> bool {
    (p: PendingLaunch) => Unexpired(p, nowMs, timeout)
  }

  function InTier(admitted: PendingLaunch -> bool, evidence: Evidence, w: Candidate, fold: Folding)
    : PendingLaunch -> bool
  {
    (p: PendingLaunch) => admitted(p) && Matches(evidence, p, w, fold)
  }

  /** Earlier start, and on a tie the smaller id. */
  predicate KeyLe(a: PendingLaunch, b: PendingLaunch) {
    a.record.startedAtMs < b.record.startedAtMs
    || (a.record.startedAtMs == b.record.startedAtMs && a.record.id <= b.record.id)
  }

  // ----- the best match of a tier -----

  function Best(s: seq<PendingLaunch>, p: PendingLaunch -> bool): Option<PendingLaunch> {
    if s == [] then None
    else
      var best := Best(Front(s), p);
      if p(Last(s)) && (best.None? || KeyLe(best.value, Last(s))) then Some(Last(s)) else best
  }

  ghost predicate IsBest(s: seq<PendingLaunch>, p: PendingLaunch -> bool, l: PendingLaunch) {
    l in s && p(l) && forall o :: o in s && p(o) ==> KeyLe(o, l)
  }

  lemma {:induction false} BestIsBest(s: seq<PendingLaunch>, p: PendingLaunch -> bool)
    ensures Best(s, p).None? <==> forall l :: l in s ==> !p(l)
    ensures Best(s, p).Some? ==> IsBest(s, p, Best(s, p).value)
  {
    if s != [] {
      BestIsBest(Front(s), p);
      assert forall l :: l in s <==> l in Front(s) || l == Last(s);
    }
  }

  lemma {:induction false} BestFilter(s: seq<PendingLaunch>, keep: PendingLaunch -> bool, p: PendingLaunch -> bool,
                                      both: PendingLaunch -> bool)
    requires Conjoins(s, keep, p, both)
    ensures Best(Filter(s, keep), p) == Best(s, both)
  {
    hide KeyLe;
    if s != [] {
      BestFilter(Front(s), keep, p, both);
      assert keep(Last(s)) ==> Front(Filter(s, keep)) == Filter(Front(s), keep);
    }
  }

  predicate UniqueIds(s: seq<PendingLaunch>) {
    forall a, b :: a in s && b in s && a.record.id == b.record.id ==> a == b
  }

  /** With unique ids the best match depends on which launches there are, not on their order. */
  lemma BestIgnoresOrder(s: seq<PendingLaunch>, t: seq<PendingLaunch>, p: PendingLaunch -> bool)
    requires UniqueIds(s) && forall l :: l in s <==> l in t
    ensures Best(s, p) == Best(t, p)
  {
    BestIsBest(s, p);
    BestIsBest(t, p);
  }

  // ----- the decision -----

  function Pick(s: seq<PendingLaunch>, admitted: PendingLaunch -> bool, w: Candidate, fold: Folding): Outcome {
    var byPid := Best(s, InTier(admitted, Pid, w, fold));
    var byClass := Best(s, InTier(admitted, StartupWmClass, w, fold));
    var byText := Best(s, InTier(admitted, AppIdOrTitleSubstring, w, fold));
    if byPid.Some? then Correlated(w.windowId, byPid.value.record, Pid)
    else if byClass.Some? then Correlated(w.windowId, byClass.value.record, StartupWmClass)
    else if byText.Some? then Correlated(w.windowId, byText.value.record, AppIdOrTitleSubstring)
    else Uncorrelated
  }

  predicate Before(a: Evidence, b: Evidence) {
    (a.Pid? && !b.Pid?) || (a.StartupWmClass? && b.AppIdOrTitleSubstring?)
  }

  /** `l` is the latest launch the evidence admits, and no stronger evidence admits any. */
  ghost predicate Strongest(s: seq<PendingLaunch>, admitted: PendingLaunch -> bool, w: Candidate, fold: Folding,
                            evidence: Evidence, l: PendingLaunch) {
    && IsBest(s, InTier(admitted, evidence, w, fold), l)
    && forall e, o :: Before(e, evidence) && o in s && admitted(o) ==> !Matches(e, o, w, fold)
  }

  lemma TierNone(s: seq<PendingLaunch>, admitted: PendingLaunch -> bool, w: Candidate, fold: Folding, e: Evidence,
                 o: PendingLaunch)
    requires Best(s, InTier(admitted, e, w, fold)).None? && o in s && admitted(o)
    ensures !Matches(e, o, w, fold)
  {
    hide Matches;
    BestIsBest(s, InTier(admitted, e, w, fold));
    assert !InTier(admitted, e, w, fold)(o);
  }

  /**
   * A window is left uncorrelated exactly when no admitted launch matches by any evidence;
   * otherwise it gets the latest launch of the strongest evidence.
   */
  lemma PickIsStrongest(s: seq<PendingLaunch>, admitted: PendingLaunch -> bool, w: Candidate, fold: Folding)
    ensures var r := Pick(s, admitted, w, fold);
            && (r.Uncorrelated? <==> forall e, o :: o in s && admitted(o) ==> !Matches(e, o, w, fold))
            && (r.Correlated? ==> r.windowId == w.windowId)
            && (r.Correlated? ==>
                  exists l: PendingLaunch :: l.record == r.launch && Strongest(s, admitted, w, fold, r.evidence, l))
  {
    hide Matches, IsBest;
    var r := Pick(s, admitted, w, fold);
    forall e, o | Best(s, InTier(admitted, e, w, fold)).None? && o in s && admitted(o) ensures !Matches(e, o, w, fold) {
      TierNone(s, admitted, w, fold, e, o);
    }
    if r.Correlated? {
      var tier := InTier(admitted, r.evidence, w, fold);
      var l := Best(s, tier).value;
      BestIsBest(s, tier);
      assert Strongest(s, admitted, w, fold, r.evidence, l);
      BestMatches(s, admitted, w, fold, r.evidence, l);
    } else {
      forall e, o | o in s && admitted(o) ensures !Matches(e, o, w, fold) {
        assert e == Pid || e == StartupWmClass || e == AppIdOrTitleSubstring;
      }
    }
  }

  lemma BestMatches(s: seq<PendingLaunch>, admitted: PendingLaunch -> bool, w: Candidate, fold: Folding, e: Evidence,
                    l: PendingLaunch)
    requires IsBest(s, InTier(admitted, e, w, fold), l)
    ensures l in s && admitted(l) && Matches(e, l, w, fold)
  {
  }

  /** The order in which launches were recorded does not matter. */
  lemma PickIgnoresOrder(s: seq<PendingLaunch>, t: seq<PendingLaunch>, admitted: PendingLaunch -> bool, w: Candidate,
                         fold: Folding)
    requires UniqueIds(s) && forall l :: l in s <==> l in t
    ensures Pick(s, admitted, w, fold) == Pick(t, admitted, w, fold)
  {
    hide Best, UniqueIds;
    BestIgnoresOrder(s, t, InTier(admitted, Pid, w, fold));
    BestIgnoresOrder(s, t, InTier(admitted, StartupWmClass, w, fold));
    BestIgnoresOrder(s, t, InTier(admitted, AppIdOrTitleSubstring, w, fold));
  }

  // ----- the decision, field by field -----

  /** Started no longer ago than the timeout, given in nanoseconds; the clock may be behind the start. */
  predicate Young(p: PendingLaunch, nowMs: nat, timeout: nat) {
    nowMs <= p.record.startedAtMs || (nowMs - p.record.startedAtMs) * 1_000_000 <= timeout
  }

  function SamePid(w: Candidate): PendingLaunch -> bool {
    (p: PendingLaunch) => w.pid.Some? && p.record.pid == Some(w.pid.value)
  }

  function SameClass(w: Candidate, fold: Folding): PendingLaunch -> bool {
    (p: PendingLaunch) =>
      w.appId.Some? && w.appId.value != "" && p.startupWmClass.Some? && p.startupWmClass.value != ""
      && fold(w.appId.value) == fold(p.startupWmClass.value)
  }

  /** A non-empty needle stands somewhere in the text, both folded. */
  predicate Holds(text: Option<string>, needle: string, fold: Folding) {
    && text.Some? && needle != ""
    && exists i :: 0 <= i <= |fold(text.value)| && fold(needle) <= fold(text.value)[i..]
  }

  function Mentioned(w: Candidate, fold: Folding): PendingLaunch -> bool {
    (p: PendingLaunch) =>
      || Holds(w.appId, p.record.appId, fold)
      || Holds(w.appId, Tail(p.record.appId), fold)
      || Holds(w.appId, p.name, fold)
      || Holds(w.title, p.record.appId, fold)
      || Holds(w.title, Tail(p.record.appId), fold)
      || Holds(w.title, p.name, fold)
  }

  lemma HoldsExact(text: Option<string>, needle: string, fold: Folding)
    ensures Mentions(text, needle, fold) <==> Holds(text, needle, fold)
  {
    if text.Some? { ContainsIff(fold(text.value), fold(needle)); }
  }

  lemma MatchesExact(p: PendingLaunch, w: Candidate, fold: Folding)
    ensures Matches(Pid, p, w, fold) <==> SamePid(w)(p)
    ensures Matches(StartupWmClass, p, w, fold) <==> SameClass(w, fold)(p)
    ensures Matches(AppIdOrTitleSubstring, p, w, fold) <==> Mentioned(w, fold)(p)
  {
    HoldsExact(w.appId, p.record.appId, fold);
    HoldsExact(w.appId, Tail(p.record.appId), fold);
    HoldsExact(w.appId, p.name, fold);
    HoldsExact(w.title, p.record.appId, fold);
    HoldsExact(w.title, Tail(p.record.appId), fold);
    HoldsExact(w.title, p.name, fold);
    hide Mentions, Holds, Tail;
  }

  /** `l` is young and has the property; every other such launch started earlier, or as early with no larger id. */
  ghost predicate Latest(s: seq<PendingLaunch>, nowMs: nat, timeout: nat, p: PendingLaunch -> bool, l: PendingLaunch) {
    && l in s && Young(l, nowMs, timeout) && p(l)
    && forall o :: o in s && Young(o, nowMs, timeout) && p(o) ==>
         || o.record.startedAtMs < l.record.startedAtMs
         || (o.record.startedAtMs == l.record.startedAtMs && o.record.id <= l.record.id)
  }

  ghost predicate NoneYoung(s: seq<PendingLaunch>, nowMs: nat, timeout: nat, p: PendingLaunch -> bool) {
    forall o :: o in s && Young(o, nowMs, timeout) ==> !p(o)
  }

  lemma TierDecides(s: seq<PendingLaunch>, nowMs: nat, timeout: nat, w: Candidate, fold: Folding, e: Evidence,
                    p: PendingLaunch -> bool)
    requires forall o: PendingLaunch :: Matches(e, o, w, fold) <==> p(o)
    ensures var r := Best(s, InTier(UnexpiredAt(nowMs, timeout), e, w, fold));
            && (r.None? ==> NoneYoung(s, nowMs, timeout, p))
            && (r.Some? ==> Latest(s, nowMs, timeout, p, r.value))
  {
    hide Matches;
    var tier := InTier(UnexpiredAt(nowMs, timeout), e, w, fold);
    BestIsBest(s, tier);
    forall o | o in s ensures tier(o) <==> Young(o, nowMs, timeout) && p(o) {
    }
  }

  /**
   * The same process decides first, then the declared window class, then a mention of the
   * application; within each the latest launch. Without any the window stays uncorrelated.
   */
  lemma PickByEvidence(s: seq<PendingLaunch>, nowMs: nat, timeout: nat, w: Candidate, fold: Folding)
    ensures var r := Pick(s, UnexpiredAt(nowMs, timeout), w, fold);
            && (r.Uncorrelated? ==>
                  && NoneYoung(s, nowMs, timeout, SamePid(w)) && NoneYoung(s, nowMs, timeout, SameClass(w, fold))
                  && NoneYoung(s, nowMs, timeout, Mentioned(w, fold)))
            && (r.Correlated? ==> r.windowId == w.windowId)
            && (r.Correlated? && r.evidence.Pid? ==>
                  exists l: PendingLaunch :: l.record == r.launch && Latest(s, nowMs, timeout, SamePid(w), l))
            && (r.Correlated? && r.evidence.StartupWmClass? ==>
                  && NoneYoung(s, nowMs, timeout, SamePid(w))
                  && exists l: PendingLaunch ::
                       l.record == r.launch && Latest(s, nowMs, timeout, SameClass(w, fold), l))
            && (r.Correlated? && r.evidence.AppIdOrTitleSubstring? ==>
                  && NoneYoung(s, nowMs, timeout, SamePid(w)) && NoneYoung(s, nowMs, timeout, SameClass(w, fold))
                  && exists l: PendingLaunch ::
                       l.record == r.launch && Latest(s, nowMs, timeout, Mentioned(w, fold), l))
  {
    forall o: PendingLaunch
      ensures Matches(Pid, o, w, fold) <==> SamePid(w)(o)
      ensures Matches(StartupWmClass, o, w, fold) <==> SameClass(w, fold)(o)
      ensures Matches(AppIdOrTitleSubstring, o, w, fold) <==> Mentioned(w, fold)(o)
    {
      MatchesExact(o, w, fold);
    }
    hide Matches, Best, Latest, NoneYoung, SamePid, SameClass, Mentioned;
    TierDecides(s, nowMs, timeout, w, fold, Pid, SamePid(w));
    TierDecides(s, nowMs, timeout, w, fold, StartupWmClass, SameClass(w, fold));
    TierDecides(s, nowMs, timeout, w, fold, AppIdOrTitleSubstring, Mentioned(w, fold));
  }

  lemma PickFilter(s: seq<PendingLaunch>, keep: PendingLaunch -> bool, admitted: PendingLaunch -> bool,
                   both: PendingLaunch -> bool, w: Candidate, fold: Folding)
    requires Conjoins(s, keep, admitted, both)
    ensures Pick(Filter(s, keep), admitted, w, fold) == Pick(s, both, w, fold)
  {
    hide Matches, Best;
    BestFilter(s, keep, InTier(admitted, Pid, w, fold), InTier(both, Pid, w, fold));
    BestFilter(s, keep, InTier(admitted, StartupWmClass, w, fold), InTier(both, StartupWmClass, w, fold));
    BestFilter(s, keep, InTier(admitted, AppIdOrTitleSubstring, w, fold), InTier(both, AppIdOrTitleSubstring, w, fold));
  }

  function Always(): PendingLaunch -> bool { (p: PendingLaunch) => true }

  /**
   * With a clock that can run backwards pruning is observable: a launch pruned at a late
   * reading is missing at an earlier one at which it had not expired.
   */
  lemma PruningObservableWhenClockRunsBack(timeout: nat, fold: Folding)
    returns (l: PendingLaunch, late: nat, w: Candidate)
    ensures Pick([l], UnexpiredAt(0, timeout), w, fold).Correlated?
    ensures Pick(Filter([l], UnexpiredAt(late, timeout)), UnexpiredAt(0, timeout), w, fold).Uncorrelated?
  {
    l := PendingLaunch(LaunchRecord(1, "a", Some(7), 0), None, "");
    late := timeout + 1;
    w := Candidate(1, Some(7), None, None);
    PickIsStrongest([l], UnexpiredAt(0, timeout), w, fold);
    PickIsStrongest([], UnexpiredAt(0, timeout), w, fold);
    assert l in [l] && UnexpiredAt(0, timeout)(l) && Matches(Pid, l, w, fold);
    assert Front([l]) == [] && Last([l]) == l;
    assert !UnexpiredAt(late, timeout)(l);
  }

  class Correlator {
    const timeout: nat
    const fold: Folding
    var pending: seq<PendingLaunch>
    /** Every launch ever recorded, and the latest clock reading so far. */
    ghost var recorded: seq<PendingLaunch>
    ghost var latest: nat

    /** What a later reading can still see of the table is what it could see of everything. */
    ghost predicate Valid()
      reads this
    {
      Filter(pending, UnexpiredAt(latest, timeout)) == Filter(recorded, UnexpiredAt(latest, timeout))
    }

    constructor (timeout: nat, fold: Folding)
      ensures Valid() && recorded == [] && latest == 0 && this.timeout == timeout && this.fold == fold
    {
      this.timeout, this.fold := timeout, fold;
      pending, recorded, latest := [], [], 0;
    }

    method RecordLaunch(record: LaunchRecord, startupWmClass: Option<string>, name: string)
      requires Valid()
      modifies this
      ensures Valid() && latest == old(latest)
      ensures recorded == old(recorded) +
              [PendingLaunch(record, if startupWmClass == Some("") then None else startupWmClass, name)]
    {
      var launch := PendingLaunch(record, if startupWmClass == Some("") then None else startupWmClass, name);
      assert Front(pending + [launch]) == pending && Front(recorded + [launch]) == recorded;
      pending := pending + [launch];
      recorded := recorded + [launch];
    }

    /**
     * Pruning is unobservable: as long as the clock does not run back the outcome is decided
     * among all launches ever recorded that have not expired.
     */
    method Correlate(w: Candidate, nowMs: nat) returns (outcome: Outcome)
      requires Valid()
      modifies this
      ensures Valid() && recorded == old(recorded) && latest == Max(old(latest), nowMs)
      ensures pending == Filter(old(pending), UnexpiredAt(nowMs, timeout))
      ensures outcome == Pick(old(pending), UnexpiredAt(nowMs, timeout), w, fold)
      ensures old(latest) <= nowMs ==> outcome == Pick(recorded, UnexpiredAt(nowMs, timeout), w, fold)
    {
      PruneExpired(nowMs);
      hide Pick, Unexpired;
      outcome := Decide(w);
      PickFilter(old(pending), UnexpiredAt(nowMs, timeout), Always(), UnexpiredAt(nowMs, timeout), w, fold);
      if old(latest) <= nowMs {
        PickFilter(recorded, UnexpiredAt(nowMs, timeout), Always(), UnexpiredAt(nowMs, timeout), w, fold);
      }
    }

    method PruneExpired(nowMs: nat)
      requires Valid()
      modifies this
      ensures Valid() && recorded == old(recorded) && latest == Max(old(latest), nowMs)
      ensures pending == Filter(old(pending), UnexpiredAt(nowMs, timeout))
      ensures old(latest) <= nowMs ==> pending == Filter(recorded, UnexpiredAt(nowMs, timeout))
    {
      ghost var now, was := UnexpiredAt(nowMs, timeout), UnexpiredAt(latest, timeout);
      ghost var seen := UnexpiredAt(Max(latest, nowMs), timeout);
      FilterFilter(pending, now, seen, seen);
      FilterFilter(pending, was, seen, seen);
      FilterFilter(recorded, was, seen, seen);
      if latest <= nowMs {
        FilterFilter(pending, now, now, now);
      }
      pending := Retain(pending, UnexpiredAt(nowMs, timeout));
      latest := Max(latest, nowMs);
    }

    /** The tiers in order over the pruned table. */
    method Decide(w: Candidate) returns (outcome: Outcome)
      ensures outcome == Pick(pending, Always(), w, fold)
    {
      hide Best, Matches;
      var tiers := [Pid, StartupWmClass, AppIdOrTitleSubstring];
      assert tiers[0] == Pid && tiers[1] == StartupWmClass && tiers[2] == AppIdOrTitleSubstring;
      for i := 0 to |tiers|
        invariant forall k :: 0 <= k < i ==> Best(pending, InTier(Always(), tiers[k], w, fold)).None?
      {
        var matched := BestMatch(w, tiers[i]);
        if matched.Some? {
          assert i == 0 || i == 1 || i == 2;
          return Correlated(w.windowId, matched.value.record, tiers[i]);
        }
      }
      return Uncorrelated;
    }

    method BestMatch(w: Candidate, evidence: Evidence) returns (best: Option<PendingLaunch>)
      ensures best == Best(pending, InTier(Always(), evidence, w, fold))
    {
      hide Matches, KeyLe;
      best := None;
      for i := 0 to |pending|
        invariant best == Best(pending[..i], InTier(Always(), evidence, w, fold))
      {
        assert Front(pending[..i + 1]) == pending[..i];
        if Matches(evidence, pending[i], w, fold) && (best.None? || KeyLe(best.value, pending[i])) {
          best := Some(pending[i]);
        }
      }
      assert pending[..|pending|] == pending;
    }
  }
}

// Stable ids for backend handles, bounded by a registry that clears itself wholesale.

module ElementIds {
  import opened Core

  /** Both directions of the map, the next id, and the cap on tracked handles. */
  datatype Reg = Reg(byHandle: map<string, nat>, byId: map<nat, string>, next: nat, cap: nat)

  function Empty(cap: nat): Reg { Reg(map[], map[], 0, cap) }

  function HandleOf(r: Reg, id: nat): Option<string> {
    if id in r.byId then Some(r.byId[id]) else None
  }

  function Assigned(r: Reg, h: string): (Reg, nat) {
    if h in r.byHandle then (r, r.byHandle[h])
    else
      var full := |r.byHandle| >= r.cap;
      var byHandle, byId := if full then map[] else r.byHandle, if full then map[] else r.byId;
      (Reg(byHandle[h := r.next], byId[r.next := h], r.next + 1, r.cap), r.next)
  }

  /** The ids handed out for a sequence of sightings. */
  function AssignedAll(r: Reg, hs: seq<string>): (o: (Reg, seq<nat>))
    ensures |o.1| == |hs|
    decreases |hs|
  {
    if hs == [] then (r, [])
    else
      var (r', id) := Assigned(r, hs[0]);
      var (r'', ids) := AssignedAll(r', hs[1..]);
      (r'', [id] + ids)
  }

  /** The maps are inverse to each other, bounded, and hold issued ids only. */
  predicate Consistent(r: Reg) {
    && (forall h :: h in r.byHandle ==> r.byHandle[h] in r.byId && r.byId[r.byHandle[h]] == h)
    && (forall id :: id in r.byId ==> id < r.next && r.byId[id] in r.byHandle && r.byHandle[r.byId[id]] == id)
    && |r.byHandle| <= Max(r.cap, 1)
  }

  /** The maps before a new handle is entered: as they are, or cleared when full. */
  function Room(r: Reg): Reg { if |r.byHandle| >= r.cap then Reg(map[], map[], r.next, r.cap) else r }

  lemma EntryConsistent(r: Reg, h: string)
    requires Consistent(r) && h !in r.byHandle && |r.byHandle| < Max(r.cap, 1)
    ensures Consistent(Reg(r.byHandle[h := r.next], r.byId[r.next := h], r.next + 1, r.cap))
  {
    var r' := Reg(r.byHandle[h := r.next], r.byId[r.next := h], r.next + 1, r.cap);
    assert r'.byHandle.Keys == r.byHandle.Keys + {h};
    assert |r'.byHandle| == |r'.byHandle.Keys| && |r.byHandle| == |r.byHandle.Keys|;
  }

  lemma RoomConsistent(r: Reg)
    requires Consistent(r)
    ensures Consistent(Room(r)) && |Room(r).byHandle| < Max(r.cap, 1)
  {
  }

  lemma AssignedConsistent(r: Reg, h: string)
    requires Consistent(r)
    ensures Consistent(Assigned(r, h).0) && HandleOf(Assigned(r, h).0, Assigned(r, h).1) == Some(h)
    ensures Assigned(r, h).0.next >= r.next && Assigned(r, h).0.cap == r.cap
    ensures forall id: nat :: id < r.next ==>
              HandleOf(Assigned(r, h).0, id) == None || HandleOf(Assigned(r, h).0, id) == HandleOf(r, id)
  {
    if h !in r.byHandle {
      RoomConsistent(r);
      EntryConsistent(Room(r), h);
      hide Consistent;
    }
  }

  lemma {:induction false} AssignedAllConsistent(r: Reg, hs: seq<string>)
    requires Consistent(r)
    ensures Consistent(AssignedAll(r, hs).0)
    ensures AssignedAll(r, hs).0.next >= r.next
    ensures forall id: nat :: id < r.next ==>
              HandleOf(AssignedAll(r, hs).0, id) == None || HandleOf(AssignedAll(r, hs).0, id) == HandleOf(r, id)
    decreases |hs|
  {
    if hs != [] {
      AssignedConsistent(r, hs[0]);
      hide Consistent, Assigned;
      AssignedAllConsistent(Assigned(r, hs[0]).0, hs[1..]);
    }
  }

  /** An id handed out is below the counter and, as long as it resolves, resolves to its handle. */
  lemma {:induction false} IdKeepsHandle(r: Reg, hs: seq<string>, i: nat)
    requires Consistent(r) && i < |hs|
    ensures var (r', ids) := AssignedAll(r, hs);
            ids[i] < r'.next && (HandleOf(r', ids[i]) == None || HandleOf(r', ids[i]) == Some(hs[i]))
    decreases |hs|
  {
    var (r1, id) := Assigned(r, hs[0]);
    AssignedConsistent(r, hs[0]);
    if i == 0 {
      AssignedAllConsistent(r1, hs[1..]);
    } else {
      hide Consistent, Assigned;
      IdKeepsHandle(r1, hs[1..], i - 1);
    }
  }

  /**
   * Over every run of sightings, clears included: one id never stands for two handles, and an
   * id ever handed out resolves at the end to its own handle or to nothing.
   */
  lemma IdsNeverReused(cap: nat, hs: seq<string>, i: nat, j: nat)
    requires i < |hs| && j < |hs|
    ensures var (r, ids) := AssignedAll(Empty(cap), hs);
            && (ids[i] == ids[j] ==> hs[i] == hs[j])
            && (HandleOf(r, ids[i]) == None || HandleOf(r, ids[i]) == Some(hs[i]))
            && Consistent(r)
  {
    EmptyConsistent(cap);
    hide Consistent, HandleOf, AssignedAll;
    AssignedAllConsistent(Empty(cap), hs);
    IdKeepsHandle(Empty(cap), hs, i);
    if i < j { SameIdSameHandle(Empty(cap), hs, i, j); }
    if j < i { SameIdSameHandle(Empty(cap), hs, j, i); }
  }

  lemma EmptyConsistent(cap: nat)
    ensures Consistent(Empty(cap))
  {
  }

  lemma {:induction false} SameIdSameHandle(r: Reg, hs: seq<string>, i: nat, j: nat)
    requires Consistent(r) && i < j < |hs|
    ensures AssignedAll(r, hs).1[i] == AssignedAll(r, hs).1[j] ==> hs[i] == hs[j]
    decreases |hs|
  {
    var (r1, id) := Assigned(r, hs[0]);
    AssignedConsistent(r, hs[0]);
    if i > 0 {
      hide Consistent, Assigned;
      SameIdSameHandle(r1, hs[1..], i - 1, j - 1);
    } else {
      if AssignedAll(r1, hs[1..]).1[j - 1] == id { OldIdOldHandle(r1, hs[1..], j - 1, id); }
    }
  }

  /** An id from before the run is handed out again only for the handle it stands for. */
  lemma {:induction false} OldIdOldHandle(r: Reg, hs: seq<string>, j: nat, id: nat)
    requires Consistent(r) && j < |hs| && id < r.next && AssignedAll(r, hs).1[j] == id
    ensures HandleOf(r, id) == Some(hs[j])
    decreases |hs|
  {
    var r1 := Assigned(r, hs[0]).0;
    AssignedConsistent(r, hs[0]);
    if j > 0 {
      OldIdOldHandle(r1, hs[1..], j - 1, id);
    }
  }

  // ----- snapshots that fit -----

  function SetOf(hs: seq<string>): set<string> { set h | h in hs }

  /** All the sightings, together with what is tracked, stay within the cap. */
  predicate FitsCap(r: Reg, hs: seq<string>) { |r.byHandle.Keys + SetOf(hs)| <= r.cap }

  lemma SubsetSize(a: set<string>, b: set<string>)
    requires a <= b
    ensures |a| <= |b|
  {
    assert b == a + (b - a);
  }

  lemma KnownId(r: Reg, h: string)
    requires Consistent(r)
    ensures h in Assigned(r, h).0.byHandle && Assigned(r, h).0.byHandle[h] == Assigned(r, h).1
  {
  }

  /** A handle that is known or for which there is room is added to what is tracked. */
  lemma RoomStep(r: Reg, h: string)
    requires h in r.byHandle || |r.byHandle| < r.cap
    ensures var r1 := Assigned(r, h).0;
            && r1.byHandle.Keys == r.byHandle.Keys + {h} && r1.cap == r.cap
            && forall g :: g in r.byHandle ==> r1.byHandle[g] == r.byHandle[g]
  {
  }

  lemma FitsMeansRoom(r: Reg, h: string, rest: seq<string>)
    requires FitsCap(r, [h] + rest)
    ensures h in r.byHandle || |r.byHandle| < r.cap
    ensures |(r.byHandle.Keys + {h}) + SetOf(rest)| <= r.cap
  {
    var keys := r.byHandle.Keys;
    assert SetOf([h] + rest) == {h} + SetOf(rest);
    assert (keys + {h}) + SetOf(rest) == keys + SetOf([h] + rest);
    SubsetSize(keys + {h}, keys + SetOf([h] + rest));
    assert |r.byHandle| == |keys|;
    assert h !in keys ==> |keys + {h}| == |keys| + 1;
  }

  lemma FittingStep(r: Reg, h: string, rest: seq<string>)
    requires Consistent(r) && FitsCap(r, [h] + rest)
    ensures var r1 := Assigned(r, h).0;
            && Consistent(r1) && FitsCap(r1, rest)
            && r1.byHandle.Keys == r.byHandle.Keys + {h}
            && (forall g :: g in r.byHandle ==> r1.byHandle[g] == r.byHandle[g])
            && r1.byHandle[h] == Assigned(r, h).1
  {
    AssignedConsistent(r, h);
    KnownId(r, h);
    FitsMeansRoom(r, h, rest);
    RoomStep(r, h);
    hide Consistent, Assigned, SetOf;
  }

  /** Sightings that fit never clear: old entries stay, and every sighting is tracked. */
  lemma {:induction false} FittingKeepsAll(r: Reg, hs: seq<string>)
    requires Consistent(r) && FitsCap(r, hs)
    ensures var (r', ids) := AssignedAll(r, hs);
            && (forall h :: h in r.byHandle ==> h in r'.byHandle && r'.byHandle[h] == r.byHandle[h])
            && (forall i :: 0 <= i < |hs| ==> hs[i] in r'.byHandle && ids[i] == r'.byHandle[hs[i]])
    decreases |hs|
  {
    if hs == [] {
      assert AssignedAll(r, hs) == (r, []);
    } else {
      hide *;
      assert hs == [hs[0]] + hs[1..];
      FittingStep(r, hs[0], hs[1..]);
      var r1, id := Assigned(r, hs[0]).0, Assigned(r, hs[0]).1;
      FittingKeepsAll(r1, hs[1..]);
      AssignedAllCons(r, hs);
      var r', ids := AssignedAll(r1, hs[1..]).0, AssignedAll(r1, hs[1..]).1;
      assert hs[0] in r1.byHandle;
      forall i | 0 <= i < |hs| ensures hs[i] in r'.byHandle && ([id] + ids)[i] == r'.byHandle[hs[i]] {
        if i > 0 { assert hs[1..][i - 1] == hs[i]; }
      }
    }
  }

  lemma AssignedAllCons(r: Reg, hs: seq<string>)
    requires hs != []
    ensures var r1, id := Assigned(r, hs[0]).0, Assigned(r, hs[0]).1;
            AssignedAll(r, hs) == (AssignedAll(r1, hs[1..]).0, [id] + AssignedAll(r1, hs[1..]).1)
  {
    hide Assigned;
  }

  /** Different handles, none of them tracked. */
  predicate NewHandles(r: Reg, hs: seq<string>) {
    && (forall i :: 0 <= i < |hs| ==> hs[i] !in r.byHandle)
    && forall i, j :: 0 <= i < j < |hs| ==> hs[i] != hs[j]
  }

  lemma HeadIsNew(r: Reg, hs: seq<string>)
    requires hs != [] && NewHandles(r, hs)
    ensures hs[0] !in r.byHandle
  {
  }

  lemma NewHandlesStep(r: Reg, hs: seq<string>)
    requires hs != [] && NewHandles(r, hs) && Consistent(r) && FitsCap(r, hs)
    ensures var r1 := Assigned(r, hs[0]).0;
            && NewHandles(r1, hs[1..]) && Consistent(r1) && FitsCap(r1, hs[1..])
            && r1.next == r.next + 1 && Assigned(r, hs[0]).1 == r.next
  {
    hide *;
    HeadIsNew(r, hs);
    assert hs == [hs[0]] + hs[1..];
    FittingStep(r, hs[0], hs[1..]);
    assert |r.byHandle| < r.cap by { FitsMeansRoom(r, hs[0], hs[1..]); }
    FreshIdIsNext(r, hs[0]);
    NewHandlesTail(r, Assigned(r, hs[0]).0, hs);
  }

  lemma NewHandlesTail(r: Reg, r1: Reg, hs: seq<string>)
    requires hs != [] && NewHandles(r, hs) && r1.byHandle.Keys == r.byHandle.Keys + {hs[0]}
    ensures NewHandles(r1, hs[1..])
  {
    forall i | 0 <= i < |hs| - 1 ensures hs[1..][i] !in r1.byHandle {
      assert hs[1..][i] == hs[i + 1] && hs[i + 1] !in r.byHandle.Keys && hs[0] != hs[i + 1];
    }
  }

  /** The ids of a new registry count up from 0. */
  lemma FirstIds(cap: nat, hs: seq<string>)
    requires |hs| <= cap && forall i, j :: 0 <= i < j < |hs| ==> hs[i] != hs[j]
    ensures forall i :: 0 <= i < |hs| ==> AssignedAll(Empty(cap), hs).1[i] == i
  {
    assert Empty(cap).byHandle.Keys + SetOf(hs) == SetOf(hs);
    SetOfSmall(hs);
    FreshIdsInOrder(Empty(cap), hs);
  }

  lemma {:induction false} SetOfSmall(hs: seq<string>)
    ensures |SetOf(hs)| <= |hs|
  {
    if hs != [] {
      SetOfSmall(hs[1..]);
      assert hs == [hs[0]] + hs[1..];
      assert SetOf(hs) == {hs[0]} + SetOf(hs[1..]);
    }
  }

  /** New handles get consecutive ids, in the order they are seen. */
  lemma {:induction false} FreshIdsInOrder(r: Reg, hs: seq<string>)
    requires Consistent(r) && FitsCap(r, hs) && NewHandles(r, hs)
    ensures forall i :: 0 <= i < |hs| ==> AssignedAll(r, hs).1[i] == r.next + i
    decreases |hs|
  {
    if hs != [] {
      NewHandlesStep(r, hs);
      var (r1, id) := Assigned(r, hs[0]);
      var (r2, ids) := AssignedAll(r1, hs[1..]);
      assert AssignedAll(r, hs) == (r2, [id] + ids);
      hide Consistent, FitsCap, Assigned, AssignedAll, NewHandles;
      FreshIdsInOrder(r1, hs[1..]);
      forall i | 0 <= i < |hs| ensures ([id] + ids)[i] == r.next + i {
        assert i > 0 ==> ids[i - 1] == r1.next + (i - 1);
      }
    }
  }

  lemma FreshIdIsNext(r: Reg, h: string)
    requires h !in r.byHandle && |r.byHandle| < r.cap
    ensures Assigned(r, h).1 == r.next && Assigned(r, h).0.next == r.next + 1
  {
  }

  /** Once every handle is tracked, another round of sightings changes nothing. */
  lemma {:induction false} TrackedUnchanged(r: Reg, hs: seq<string>)
    requires forall i :: 0 <= i < |hs| ==> hs[i] in r.byHandle
    ensures AssignedAll(r, hs).0 == r
    ensures forall i :: 0 <= i < |hs| ==> AssignedAll(r, hs).1[i] == r.byHandle[hs[i]]
    decreases |hs|
  {
    if hs != [] {
      TrackedUnchanged(r, hs[1..]);
    }
  }

  /** A snapshot that fits the cap keeps its ids when it is taken again. */
  lemma FittingSnapshotStable(r: Reg, hs: seq<string>)
    requires Consistent(r) && FitsCap(r, hs)
    ensures var (r', ids) := AssignedAll(r, hs);
            AssignedAll(r', hs).0 == r' && AssignedAll(r', hs).1 == ids
  {
    FittingKeepsAll(r, hs);
    hide AssignedAll, Consistent;
    TrackedUnchanged(AssignedAll(r, hs).0, hs);
  }

  lemma {:induction false} AssignedAllAppend(r: Reg, a: seq<string>, b: seq<string>)
    ensures var (r1, ids) := AssignedAll(r, a);
            && AssignedAll(r, a + b).0 == AssignedAll(r1, b).0
            && AssignedAll(r, a + b).1 == ids + AssignedAll(r1, b).1
    decreases |a|
  {
    if a == [] {
      assert a + b == b;
    } else {
      assert (a + b)[0] == a[0] && (a + b)[1..] == a[1..] + b;
      hide Assigned;
      var (r1, id) := Assigned(r, a[0]);
      AssignedAllAppend(r1, a[1..], b);
      var (r2, ids) := AssignedAll(r1, a[1..]);
      assert ([id] + ids) + AssignedAll(r2, b).1 == [id] + (ids + AssignedAll(r2, b).1);
    }
  }

  class Registry {
    var byHandle: map<string, nat>
    var byId: map<nat, string>
    var next: nat
    const cap: nat

    function View(): Reg
      reads this
    {
      Reg(byHandle, byId, next, cap)
    }

    constructor (cap: nat)
      ensures View() == Empty(cap)
    {
      byHandle, byId, next := map[], map[], 0;
      this.cap := cap;
    }

    method Assign(handle: string) returns (id: nat)
      modifies this
      ensures (View(), id) == Assigned(old(View()), handle)
    {
      if handle in byHandle {
        return byHandle[handle];
      }
      if |byHandle| >= cap {
        byHandle := map[];
        byId := map[];
      }
      id := next;
      next := next + 1;
      byHandle := byHandle[handle := id];
      byId := byId[id := handle];
    }

    method Resolve(id: nat) returns (h: Option<string>)
      ensures h == HandleOf(View(), id)
    {
      h := if id in byId then Some(byId[id]) else None;
    }
  }
}

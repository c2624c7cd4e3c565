// Key injection: a key or chord becomes a plan of presses and releases, worked out in full
// before anything reaches the seat.

module KeyPlan {
  import opened Core

  datatype Stroke = Press(code: nat) | Release(code: nat)

  datatype KeyCode = Single(key: nat) | Chord(keys: seq<nat>)

  datatype Resolved = Resolved(code: nat, level: nat)

  datatype Modifier = Shift | LevelThree

  /** What the compiled keymap can produce. */
  datatype Keymap = Keymap(table: map<nat, Resolved>, shift: Option<nat>, levelThree: Option<nat>)

  datatype Error =
    | EmptyChord
    | ReleasedChord
    | UnknownKey(key: nat)
    | MissingModifier(name: Modifier)
    | NoFocus
    | UnknownWindow(window: nat)

  // ----- the keys one key stands for -----

  function LevelModifiers(level: nat): seq<Modifier> {
    match level
    case 0 => []
    case 1 => [Shift]
    case 2 => [LevelThree]
    case _ => [Shift, LevelThree]
  }

  function ModifierCode(m: Keymap, name: Modifier): Option<nat> {
    match name case Shift => m.shift case LevelThree => m.levelThree
  }

  /** The first modifier the keymap cannot produce. */
  function Missing(m: Keymap, names: seq<Modifier>): Option<Modifier> {
    if names == [] then None else if ModifierCode(m, names[0]).None? then Some(names[0]) else Missing(m, names[1..])
  }

  function Codes(m: Keymap, names: seq<Modifier>): seq<nat>
    requires Missing(m, names).None?
  {
    if names == [] then [] else [ModifierCode(m, names[0]).value] + Codes(m, names[1..])
  }

  /** The physical keys behind a key, modifiers first. */
  function Physical(m: Keymap, key: nat): Result<seq<nat>, Error> {
    if key !in m.table then Err(UnknownKey(key))
    else
      var names := LevelModifiers(m.table[key].level);
      if Missing(m, names).Some? then Err(MissingModifier(Missing(m, names).value))
      else Ok(Codes(m, names) + [m.table[key].code])
  }

  function Presses(codes: seq<nat>): seq<Stroke> { seq(|codes|, i requires 0 <= i < |codes| => Press(codes[i])) }

  function Releases(codes: seq<nat>): seq<Stroke> { seq(|codes|, i requires 0 <= i < |codes| => Release(codes[i])) }

  /** Physical keys of several keys in press order; the first key that fails decides the error. */
  function PhysicalAll(m: Keymap, keys: seq<nat>): Result<seq<nat>, Error> {
    if keys == [] then Ok([])
    else
      var older := PhysicalAll(m, Front(keys));
      if older.Err? then older
      else
        var newest := Physical(m, Last(keys));
        if newest.Err? then newest else Ok(older.value + newest.value)
  }

  // ----- the plan -----

  function Sequence(key: KeyCode, pressed: bool): Result<seq<(nat, bool)>, Error> {
    match key
    case Single(k) => Ok([(k, pressed)])
    case Chord(keys) =>
      if keys == [] then Err(EmptyChord)
      else if !pressed then Err(ReleasedChord)
      else
        Ok(Events(keys, true) + Events(Reverse(keys), false))
  }

  function Strokes(codes: seq<nat>, pressed: bool): seq<Stroke> {
    if pressed then Presses(codes) else Releases(Reverse(codes))
  }

  /** The strokes of a sequence of key events. */
  function Plan(m: Keymap, events: seq<(nat, bool)>): Result<seq<Stroke>, Error> {
    if events == [] then Ok([])
    else
      var older := Plan(m, Front(events));
      if older.Err? then older
      else
        var codes := Physical(m, Last(events).0);
        if codes.Err? then Err(codes.error) else Ok(older.value + Strokes(codes.value, Last(events).1))
  }

  method BuildPlan(m: Keymap, events: seq<(nat, bool)>) returns (r: Result<seq<Stroke>, Error>)
    ensures r == Plan(m, events)
  {
    hide Missing, LevelModifiers, Codes;
    var plan: seq<Stroke> := [];
    for i := 0 to |events|
      invariant Plan(m, events[..i]) == Ok(plan)
    {
      assert Front(events[..i + 1]) == events[..i];
      var (key, pressed) := events[i];
      if key !in m.table {
        PlanFails(m, events, i);
        return Err(UnknownKey(key));
      }
      var modifiers := Modifiers(m, m.table[key].level);
      if modifiers.Err? {
        PlanFails(m, events, i);
        return Err(modifiers.error);
      }
      StrokesOf(modifiers.value, m.table[key].code);
      if pressed {
        plan := plan + (Presses(modifiers.value) + [Press(m.table[key].code)]);
      } else {
        plan := plan + ([Release(m.table[key].code)] + Releases(Reverse(modifiers.value)));
      }
    }
    assert events[..|events|] == events;
    return Ok(plan);
  }

  /** The modifier codes of a level, or the first modifier that is missing. */
  method Modifiers(m: Keymap, level: nat) returns (r: Result<seq<nat>, Error>)
    ensures var names := LevelModifiers(level);
            r == if Missing(m, names).Some? then Err(MissingModifier(Missing(m, names).value)) else Ok(Codes(m, names))
  {
    var names := LevelModifiers(level);
    var codes: seq<nat> := [];
    for i := 0 to |names|
      invariant Missing(m, names[i..]) == Missing(m, names)
      invariant Missing(m, names).None? ==> codes + Codes(m, names[i..]) == Codes(m, names)
    {
      assert names[i..][0] == names[i] && names[i..][1..] == names[i + 1..];
      var code := ModifierCode(m, names[i]);
      if code.None? {
        return Err(MissingModifier(names[i]));
      }
      codes := codes + [code.value];
    }
    assert names[|names|..] == [] && codes + [] == codes;
    return Ok(codes);
  }

  lemma StrokesOf(modifiers: seq<nat>, code: nat)
    ensures Strokes(modifiers + [code], true) == Presses(modifiers) + [Press(code)]
    ensures Strokes(modifiers + [code], false) == [Release(code)] + Releases(Reverse(modifiers))
  {
    assert Presses(modifiers + [code]) == Presses(modifiers) + [Press(code)];
    ReverseAppend(modifiers, [code]);
    assert Reverse([code]) == [code];
    hide Reverse;
    assert Releases([code] + Reverse(modifiers)) == [Release(code)] + Releases(Reverse(modifiers));
  }

  /** An event that cannot be resolved fails the whole plan, whatever follows. */
  lemma {:induction false} PlanFails(m: Keymap, events: seq<(nat, bool)>, i: nat)
    requires i < |events| && Plan(m, events[..i]).Ok? && Physical(m, events[i].0).Err?
    ensures Plan(m, events) == Err(Physical(m, events[i].0).error)
    decreases |events|
  {
    hide Physical;
    if i == |events| - 1 {
      assert Front(events) == events[..i];
    } else {
      assert Front(events)[..i] == events[..i];
      PlanFails(m, Front(events), i);
    }
  }

  /** The physical keys of a key, by the level the keymap finds it on. */
  lemma PhysicalByLevel(m: Keymap, key: nat)
    ensures key !in m.table ==> Physical(m, key) == Err(UnknownKey(key))
    ensures key in m.table ==>
              var r, code, level := Physical(m, key), m.table[key].code, m.table[key].level;
              && (level == 0 ==> r == Ok([code]))
              && (level == 1 ==>
                    r == if m.shift.Some? then Ok([m.shift.value, code]) else Err(MissingModifier(Shift)))
              && (level == 2 ==>
                    r == if m.levelThree.Some? then Ok([m.levelThree.value, code])
                      else Err(MissingModifier(LevelThree)))
              && (level >= 3 && m.shift.Some? && m.levelThree.Some? ==>
                    r == Ok([m.shift.value, m.levelThree.value, code]))
              && (level >= 3 && m.shift.None? ==> r == Err(MissingModifier(Shift)))
              && (level >= 3 && m.shift.Some? && m.levelThree.None? ==> r == Err(MissingModifier(LevelThree)))
  {
    OneModifier(m, Shift);
    OneModifier(m, LevelThree);
    BothModifiers(m);
    NoModifier(m);
    hide Missing, Codes;
    if key in m.table {
      var code := m.table[key].code;
      assert [] + [code] == [code];
      assert forall a: nat :: [a] + [code] == [a, code];
      assert forall a: nat, b: nat :: [a, b] + [code] == [a, b, code];
    }
  }

  lemma NoModifier(m: Keymap)
    ensures Missing(m, []) == None && Codes(m, []) == []
  {
  }

  lemma OneModifier(m: Keymap, name: Modifier)
    ensures Missing(m, [name]) == if ModifierCode(m, name).None? then Some(name) else None
    ensures ModifierCode(m, name).Some? ==> Codes(m, [name]) == [ModifierCode(m, name).value]
  {
    var one := [name];
    assert one[1..] == [] && one[0] == name;
  }

  lemma BothModifiers(m: Keymap)
    ensures Missing(m, [Shift, LevelThree]) ==
            if m.shift.None? then Some(Shift) else if m.levelThree.None? then Some(LevelThree) else None
    ensures m.shift.Some? && m.levelThree.Some? ==>
              Codes(m, [Shift, LevelThree]) == [m.shift.value, m.levelThree.value]
  {
    var both := [Shift, LevelThree];
    assert both[1..] == [LevelThree] && both[0] == Shift;
    OneModifier(m, LevelThree);
  }

  /** What pressing or releasing one key sends. */
  lemma SingleStrokes(m: Keymap, key: nat, pressed: bool)
    requires Physical(m, key).Ok?
    ensures Sequence(Single(key), pressed) == Ok([(key, pressed)])
    ensures var codes := Physical(m, key).value;
            var plan := Plan(m, [(key, pressed)]);
            && plan.Ok? && |plan.value| == |codes|
            && forall i :: 0 <= i < |codes| ==>
                 plan.value[i] == if pressed then Press(codes[i]) else Release(codes[|codes| - 1 - i])
  {
    hide Physical, Plan, Reverse;
    PlanOfOne(m, key, pressed);
    StrokesAt(Physical(m, key).value, pressed);
  }

  lemma StrokesAt(codes: seq<nat>, pressed: bool)
    ensures |Strokes(codes, pressed)| == |codes|
    ensures forall i :: 0 <= i < |codes| ==>
              Strokes(codes, pressed)[i] == if pressed then Press(codes[i]) else Release(codes[|codes| - 1 - i])
  {
    hide Reverse;
  }

  /** A released chord and an empty chord are refused. */
  lemma ChordRefused(keys: seq<nat>, pressed: bool)
    ensures Sequence(Chord(keys), pressed).Err? <==> keys == [] || !pressed
    ensures keys == [] ==> Sequence(Chord(keys), pressed) == Err(EmptyChord)
    ensures keys != [] && !pressed ==> Sequence(Chord(keys), pressed) == Err(ReleasedChord)
  {
  }

  // ----- what a plan does -----

  /** Releases undo the presses, in reverse order. */
  function Tap(codes: seq<nat>): seq<Stroke> { Presses(codes) + Releases(Reverse(codes)) }

  lemma {:induction false} PlanAppend(m: Keymap, a: seq<(nat, bool)>, b: seq<(nat, bool)>)
    requires Plan(m, a).Ok? && Plan(m, b).Ok?
    ensures Plan(m, a + b) == Ok(Plan(m, a).value + Plan(m, b).value)
    decreases |b|
  {
    hide Physical, Strokes;
    if b == [] {
      assert a + b == a && Plan(m, a).value + [] == Plan(m, a).value;
    } else {
      assert Front(a + b) == a + Front(b) && Last(a + b) == Last(b);
      PlanAppend(m, a, Front(b));
      if Physical(m, Last(b).0).Ok? {
        var s := Strokes(Physical(m, Last(b).0).value, Last(b).1);
        assert (Plan(m, a).value + Plan(m, Front(b)).value) + s == Plan(m, a).value + (Plan(m, Front(b)).value + s);
      }
    }
  }

  function Events(keys: seq<nat>, pressed: bool): seq<(nat, bool)> {
    seq(|keys|, i requires 0 <= i < |keys| => (keys[i], pressed))
  }

  /** Pressing keys presses what is behind them, in order, or fails as the first bad key does. */
  lemma {:induction false} PlanOfPresses(m: Keymap, keys: seq<nat>)
    ensures var all := PhysicalAll(m, keys);
            Plan(m, Events(keys, true)) == if all.Ok? then Ok(Presses(all.value)) else Err(all.error)
  {
    hide Physical;
    if keys == [] {
      assert Events(keys, true) == [] && Presses([]) == [];
    } else {
      assert Front(Events(keys, true)) == Events(Front(keys), true);
      assert Last(Events(keys, true)) == (Last(keys), true);
      PlanOfPresses(m, Front(keys));
      if PhysicalAll(m, keys).Ok? {
        var a, b := PhysicalAll(m, Front(keys)).value, Physical(m, Last(keys)).value;
        assert Presses(a + b) == Presses(a) + Presses(b);
      }
    }
  }

  lemma ReverseAppend(a: seq<nat>, b: seq<nat>)
    ensures Reverse(a + b) == Reverse(b) + Reverse(a)
  {
  }

  lemma ReleasesAppend(a: seq<nat>, b: seq<nat>)
    ensures Releases(Reverse(a + b)) == Releases(Reverse(b)) + Releases(Reverse(a))
  {
    ReverseAppend(a, b);
  }

  lemma ReversedEvents(keys: seq<nat>)
    requires keys != []
    ensures Events(Reverse(keys), false) == [(Last(keys), false)] + Events(Reverse(Front(keys)), false)
  {
    assert Reverse(keys) == [Last(keys)] + Reverse(Front(keys));
  }

  /** Releasing keys in reverse order releases what is behind them in reverse order. */
  lemma {:induction false} PlanOfReleases(m: Keymap, keys: seq<nat>)
    requires PhysicalAll(m, keys).Ok?
    ensures Plan(m, Events(Reverse(keys), false)) == Ok(Releases(Reverse(PhysicalAll(m, keys).value)))
  {
    hide Physical, Events, Releases, Reverse, Plan;
    if keys == [] {
      PlanOfNothing(m);
    } else {
      var a, b := PhysicalAll(m, Front(keys)).value, Physical(m, Last(keys)).value;
      PlanOfReleases(m, Front(keys));
      PlanOfOne(m, Last(keys), false);
      PlanAppend(m, [(Last(keys), false)], Events(Reverse(Front(keys)), false));
      ReversedEvents(keys);
      ReleasesAppend(a, b);
    }
  }

  lemma PlanOfNothing(m: Keymap)
    ensures Plan(m, Events(Reverse([]), false)) == Ok(Releases(Reverse([])))
  {
    assert Events(Reverse([]), false) == [] && Releases(Reverse<nat>([])) == [];
  }

  lemma PlanOfOne(m: Keymap, key: nat, pressed: bool)
    ensures Plan(m, [(key, pressed)]) ==
            if Physical(m, key).Ok? then Ok(Strokes(Physical(m, key).value, pressed)) else Err(Physical(m, key).error)
  {
    hide Physical;
    assert Front([(key, pressed)]) == [] && Last([(key, pressed)]) == (key, pressed);
    if Physical(m, key).Ok? {
      assert [] + Strokes(Physical(m, key).value, pressed) == Strokes(Physical(m, key).value, pressed);
    }
  }

  /** A chord is a tap of all its physical keys. */
  lemma ChordIsTap(m: Keymap, keys: seq<nat>)
    requires keys != []
    ensures var all := PhysicalAll(m, keys);
            var events := Sequence(Chord(keys), true);
            && events.Ok?
            && Plan(m, events.value) == if all.Ok? then Ok(Tap(all.value)) else Err(all.error)
  {
    var down, up := Events(keys, true), Events(Reverse(keys), false);
    var events := Sequence(Chord(keys), true).value;
    assert events == down + up;
    PlanOfPresses(m, keys);
    hide Plan, PhysicalAll;
    if PhysicalAll(m, keys).Ok? {
      PlanOfReleases(m, keys);
      PlanAppend(m, down, up);
    } else {
      PlanErrKept(m, down, up);
    }
  }

  lemma {:induction false} PlanErrKept(m: Keymap, a: seq<(nat, bool)>, b: seq<(nat, bool)>)
    requires Plan(m, a).Err?
    ensures Plan(m, a + b) == Plan(m, a)
    decreases |b|
  {
    hide Physical, Strokes;
    if b == [] {
      assert a + b == a;
    } else {
      assert Front(a + b) == a + Front(b);
      PlanErrKept(m, a, Front(b));
    }
  }

  /** The keys held after some strokes, newest first; nothing when a release is out of turn. */
  function Held(strokes: seq<Stroke>, held: seq<nat>): Option<seq<nat>>
    decreases |strokes|
  {
    if strokes == [] then Some(held)
    else match strokes[0]
      case Press(c) => Held(strokes[1..], [c] + held)
      case Release(c) => if held != [] && held[0] == c then Held(strokes[1..], held[1..]) else None
  }

  lemma {:induction false} HeldAppend(a: seq<Stroke>, b: seq<Stroke>, held: seq<nat>)
    requires Held(a, held).Some?
    ensures Held(a + b, held) == Held(b, Held(a, held).value)
    decreases |a|
  {
    if a == [] {
      assert a + b == b;
    } else {
      assert (a + b)[1..] == a[1..] + b;
      HeldAppend(a[1..], b, match a[0] case Press(c) => [c] + held case Release(_) => held[1..]);
    }
  }

  lemma {:induction false} HeldPresses(codes: seq<nat>, held: seq<nat>)
    ensures Held(Presses(codes), held) == Some(Reverse(codes) + held)
  {
    if codes == [] {
      assert Presses(codes) == [] && Reverse(codes) + held == held;
    } else {
      assert Presses(codes)[0] == Press(codes[0]) && Presses(codes)[1..] == Presses(codes[1..]);
      HeldPresses(codes[1..], [codes[0]] + held);
      assert Reverse(codes) + held == Reverse(codes[1..]) + ([codes[0]] + held);
    }
  }

  lemma {:induction false} HeldReleases(codes: seq<nat>, held: seq<nat>)
    ensures Held(Releases(codes), codes + held) == Some(held)
  {
    if codes != [] {
      assert Releases(codes)[1..] == Releases(codes[1..]);
      assert (codes + held)[1..] == codes[1..] + held;
      HeldReleases(codes[1..], held);
    } else {
      assert codes + held == held;
    }
  }

  /** A tap is well nested and leaves the keyboard as it was. */
  lemma TapBalanced(codes: seq<nat>, held: seq<nat>)
    ensures Held(Tap(codes), held) == Some(held)
  {
    HeldPresses(codes, held);
    HeldAppend(Presses(codes), Releases(Reverse(codes)), held);
    HeldReleases(Reverse(codes), held);
  }

  /** Pressing a key and releasing it later, with other taps between, also leaves nothing held. */
  lemma PressReleaseBalanced(m: Keymap, key: nat, between: seq<Stroke>, held: seq<nat>)
    requires Physical(m, key).Ok?
    requires Held(between, Reverse(Physical(m, key).value) + held) == Some(Reverse(Physical(m, key).value) + held)
    ensures var down, up := Plan(m, [(key, true)]), Plan(m, [(key, false)]);
            down.Ok? && up.Ok? && Held(down.value + between + up.value, held) == Some(held)
  {
    var codes := Physical(m, key).value;
    hide Physical, Held;
    PlanOfOne(m, key, true);
    PlanOfOne(m, key, false);
    HeldPresses(codes, held);
    HeldAppend(Presses(codes), between, held);
    HeldAppend(Presses(codes) + between, Releases(Reverse(codes)), held);
    HeldReleases(Reverse(codes), held);
  }

  // ----- injection -----

  /** Where keys go: the focused window, or else the active one. */
  datatype Focus = Focus(keyboard: Option<nat>, active: Option<nat>, withSurface: set<nat>)

  function Target(f: Focus): Result<nat, Error> {
    var window := if f.keyboard.Some? then f.keyboard else f.active;
    if window.None? then Err(NoFocus)
    else if window.value !in f.withSurface then Err(UnknownWindow(window.value))
    else Ok(window.value)
  }

  class Seat {
    /** Strokes delivered so far. */
    var delivered: seq<Stroke>

    constructor ()
      ensures delivered == []
    {
      delivered := [];
    }

    /** A rejected request delivers nothing; an accepted one delivers its whole plan. */
    method InjectKey(m: Keymap, f: Focus, key: KeyCode, pressed: bool) returns (r: Result<(), Error>)
      modifies this
      ensures r.Ok? <==> Sequence(key, pressed).Ok? && Plan(m, Sequence(key, pressed).value).Ok? && Target(f).Ok?
      ensures r.Err? ==> delivered == old(delivered)
      ensures r.Ok? ==> delivered == old(delivered) + Plan(m, Sequence(key, pressed).value).value
      ensures Sequence(key, pressed).Err? ==> r == Err(Sequence(key, pressed).error)
      ensures Sequence(key, pressed).Ok? && Plan(m, Sequence(key, pressed).value).Err? ==>
                r == Err(Plan(m, Sequence(key, pressed).value).error)
      ensures Sequence(key, pressed).Ok? && Plan(m, Sequence(key, pressed).value).Ok? && Target(f).Err? ==>
                r == Err(Target(f).error)
      ensures r.Ok? && f.keyboard.Some? ==> f.keyboard.value in f.withSurface
      ensures r.Ok? && f.keyboard.None? ==> f.active.Some? && f.active.value in f.withSurface
      ensures Sequence(key, pressed).Ok? && Plan(m, Sequence(key, pressed).value).Ok? ==>
                && (f.keyboard.None? && f.active.None? ==> r == Err(NoFocus))
                && (f.keyboard.Some? && f.keyboard.value !in f.withSurface ==>
                      r == Err(UnknownWindow(f.keyboard.value)))
                && (f.keyboard.None? && f.active.Some? && f.active.value !in f.withSurface ==>
                      r == Err(UnknownWindow(f.active.value)))
    {
      hide Plan, Sequence;
      var events := Sequence(key, pressed);
      if events.Err? { return Err(events.error); }
      var plan := BuildPlan(m, events.value);
      if plan.Err? { return Err(plan.error); }
      var target := Target(f);
      if target.Err? { return Err(target.error); }
      for i := 0 to |plan.value|
        invariant delivered == old(delivered) + plan.value[..i]
      {
        delivered := delivered + [plan.value[i]];
      }
      return Ok(());
    }
  }
}

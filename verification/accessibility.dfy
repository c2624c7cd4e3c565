// The accessibility data a backend delivers, its role vocabulary, and the search over it.

module Accessibility {
  import opened Core
  import opened Trees
  import Geometry

  datatype State =
    | Enabled | Sensitive | Showing | Visible | Focusable | Focused | Checkable | Checked | Selected | Selectable
    | Expandable | Expanded | Collapsed | Editable | Multiline | ReadOnly | Pressed | Active | Busy | Modal
    | Defunct | Invalid

  datatype Source = Source(
    role: string, name: string, description: Option<string>, value: Option<string>, states: seq<State>,
    bounds: Option<Geometry.Rect>, actions: seq<string>, handle: string)

  type SourceNode = Tree<Source>

  // ----- roles -----

  predicate IsAsciiAlnum(c: char) { 'a' <= c <= 'z' || 'A' <= c <= 'Z' || '0' <= c <= '9' }

  /** The rest of a normalized role, after `started` output and with a separator `pending`. */
  function Normalized(raw: string, started: bool, pending: bool): string {
    if raw == "" then ""
    else if IsAsciiAlnum(raw[0]) then
      (if pending && started then "_" else "") + [LowerChar(raw[0])] + Normalized(raw[1..], true, false)
    else Normalized(raw[1..], started, true)
  }

  function NormalRole(raw: string): string { Normalized(raw, false, false) }

  method NormalizeRole(raw: string) returns (out: string)
    ensures out == NormalRole(raw)
  {
    out := "";
    var pendingSeparator := false;
    for i := 0 to |raw|
      invariant out + Normalized(raw[i..], out != "", pendingSeparator) == NormalRole(raw)
    {
      var ch := raw[i];
      if IsAsciiAlnum(ch) {
        if pendingSeparator && out != "" {
          out := out + "_";
        }
        pendingSeparator := false;
        out := out + [LowerChar(ch)];
      } else {
        pendingSeparator := true;
      }
    }
  }

  predicate IsRoleChar(c: char) { 'a' <= c <= 'z' || '0' <= c <= '9' || c == '_' }

  predicate IsRole(s: string) { forall c :: c in s ==> IsRoleChar(c) }

  /** Lower-case words joined by single underscores. */
  predicate IsNormal(s: string) {
    && IsRole(s)
    && (s != "" ==> s[0] != '_' && s[|s| - 1] != '_')
    && forall i :: 0 <= i < |s| - 1 ==> s[i] != '_' || s[i + 1] != '_'
  }

  /** The letters and digits of a text, in lower case. */
  function Letters(s: string): string {
    if s == "" then "" else (if IsAsciiAlnum(s[0]) then [LowerChar(s[0])] else "") + Letters(s[1..])
  }

  lemma {:induction false} NormalizedShape(raw: string, started: bool, pending: bool)
    ensures var n := Normalized(raw, started, pending);
            && IsRole(n) && (n != "" ==> n[|n| - 1] != '_')
            && (n != "" && n[0] == '_' ==> started && (pending || !IsAsciiAlnum(raw[0])))
            && forall i :: 0 <= i < |n| - 1 ==> n[i] != '_' || n[i + 1] != '_'
  {
    if raw != "" {
      if IsAsciiAlnum(raw[0]) {
        NormalizedShape(raw[1..], true, false);
        NormalizedHead(raw[1..]);
      } else {
        NormalizedShape(raw[1..], started, true);
      }
    }
  }

  lemma NormalizedHead(raw: string)
    ensures var n := Normalized(raw, true, false);
            n != "" && n[0] == '_' ==> raw != "" && !IsAsciiAlnum(raw[0])
  {
  }

  /** Normalizing yields a normal form with the same letters, and changes nothing else. */
  lemma NormalRoleIsNormal(raw: string)
    ensures IsNormal(NormalRole(raw)) && Letters(NormalRole(raw)) == Letters(raw)
    ensures NormalRole(raw) == raw <==> IsNormal(raw)
  {
    NormalizedShape(raw, false, false);
    NormalizedLetters(raw, false, false);
    if IsNormal(raw) { NormalUnchanged(raw, false, false); }
  }

  /** Words, each with the separators in front of it. */
  datatype Spaced = Spaced(gap: string, word: string)

  predicate SpacedOk(w: Spaced) {
    && w.word != "" && (forall c :: c in w.word ==> 'a' <= c <= 'z' || 'A' <= c <= 'Z' || '0' <= c <= '9')
    && forall c :: c in w.gap ==> !('a' <= c <= 'z' || 'A' <= c <= 'Z' || '0' <= c <= '9')
  }

  function RawRole(words: seq<Spaced>, trail: string): string {
    if words == [] then trail else words[0].gap + words[0].word + RawRole(words[1..], trail)
  }

  function LowerWord(word: string): string {
    seq(|word|, i requires 0 <= i < |word| =>
          if 'A' <= word[i] <= 'Z' then (word[i] as int - 'A' as int + 'a' as int) as char else word[i])
  }

  function Underscored(words: seq<Spaced>): string {
    if words == [] then ""
    else if |words| == 1 then LowerWord(words[0].word)
    else LowerWord(words[0].word) + "_" + Underscored(words[1..])
  }

  lemma {:induction false} NormalizedWord(word: string, rest: string)
    requires forall c :: c in word ==> IsAsciiAlnum(c)
    ensures Normalized(word + rest, true, false) == LowerWord(word) + Normalized(rest, true, false)
  {
    if word == "" {
      assert word + rest == rest;
    } else {
      assert word[0] in word && (word + rest)[0] == word[0] && (word + rest)[1..] == word[1..] + rest;
      NormalizedWord(word[1..], rest);
      assert LowerWord(word) == [LowerChar(word[0])] + LowerWord(word[1..]);
    }
  }

  lemma {:induction false} NormalizedGap(gap: string, rest: string, started: bool, pending: bool)
    requires forall c :: c in gap ==> !IsAsciiAlnum(c)
    ensures Normalized(gap + rest, started, pending) == Normalized(rest, started, pending || gap != "")
  {
    if gap == "" {
      assert gap + rest == rest;
    } else {
      assert gap[0] in gap && (gap + rest)[0] == gap[0] && (gap + rest)[1..] == gap[1..] + rest;
      NormalizedGap(gap[1..], rest, started, true);
    }
  }

  /** One word behind its separators, which become one underscore unless it is the first. */
  lemma NormalizedSpaced(w: Spaced, rest: string, started: bool)
    requires SpacedOk(w) && (started ==> w.gap != "")
    ensures Normalized(w.gap + w.word + rest, started, false) ==
            (if started then "_" else "") + LowerWord(w.word) + Normalized(rest, true, false)
  {
    assert w.gap + w.word + rest == w.gap + (w.word + rest);
    NormalizedGap(w.gap, w.word + rest, started, false);
    var more := w.word[1..];
    assert w.word[0] in w.word && (w.word + rest)[0] == w.word[0] && (w.word + rest)[1..] == more + rest;
    assert forall c :: c in more ==> c in w.word;
    NormalizedWord(more, rest);
    assert LowerWord(w.word) == [LowerChar(w.word[0])] + LowerWord(more);
    hide LowerWord;
    assert Normalized(w.word + rest, started, w.gap != "") ==
           (if started then "_" else "") + [LowerChar(w.word[0])] + Normalized(more + rest, true, false);
  }

  lemma {:induction false} NormalizedWords(words: seq<Spaced>, trail: string, started: bool)
    requires forall w :: w in words ==> SpacedOk(w)
    requires forall i :: 0 <= i < |words| && (i > 0 || started) ==> words[i].gap != ""
    requires forall c :: c in trail ==> !IsAsciiAlnum(c)
    ensures Normalized(RawRole(words, trail), started, false) ==
            (if started && words != [] then "_" else "") + Underscored(words)
    decreases |words|
  {
    hide LowerWord;
    if words == [] {
      NormalizedGap(trail, "", started, false);
      assert trail + "" == trail;
    } else {
      assert words[0] in words;
      NormalizedSpaced(words[0], RawRole(words[1..], trail), started);
      assert forall i :: 0 <= i < |words[1..]| ==> words[1..][i] == words[i + 1];
      NormalizedWords(words[1..], trail, true);
      hide SpacedOk, Normalized;
    }
  }

  /** Words in lower case, one underscore for every run of separators between them, none outside. */
  lemma NormalRoleOfWords(words: seq<Spaced>, trail: string)
    requires forall w :: w in words ==> SpacedOk(w)
    requires forall i :: 0 < i < |words| ==> words[i].gap != ""
    requires forall c :: c in trail ==> !IsAsciiAlnum(c)
    ensures NormalRole(RawRole(words, trail)) == Underscored(words)
  {
    NormalizedWords(words, trail, false);
  }

  lemma {:induction false} NormalizedLetters(raw: string, started: bool, pending: bool)
    ensures Letters(Normalized(raw, started, pending)) == Letters(raw)
  {
    if raw != "" {
      if IsAsciiAlnum(raw[0]) {
        NormalizedLetters(raw[1..], true, false);
        var n := Normalized(raw[1..], true, false);
        assert ([LowerChar(raw[0])] + n)[1..] == n;
        if pending && started {
          assert ("_" + [LowerChar(raw[0])] + n)[1..] == [LowerChar(raw[0])] + n;
        } else {
          assert "" + [LowerChar(raw[0])] + n == [LowerChar(raw[0])] + n;
        }
      } else {
        NormalizedLetters(raw[1..], started, true);
      }
    }
  }

  /** What remains of a normal form behind any of its characters. */
  predicate NormalSuffix(s: string) {
    && IsRole(s) && (s != "" ==> s[|s| - 1] != '_')
    && forall i :: 0 <= i < |s| - 1 ==> s[i] != '_' || s[i + 1] != '_'
  }

  lemma NormalSuffixTail(s: string)
    requires NormalSuffix(s) && s != ""
    ensures NormalSuffix(s[1..]) && (IsAsciiAlnum(s[0]) ==> LowerChar(s[0]) == s[0])
    ensures !IsAsciiAlnum(s[0]) ==> s[0] == '_' && |s| > 1 && s[1] != '_'
  {
    assert s[0] in s;
    var t := s[1..];
    assert forall c :: c in t ==> c in s;
    assert forall i :: 0 <= i < |t| ==> t[i] == s[i + 1];
  }

  lemma {:induction false} NormalUnchanged(s: string, started: bool, pending: bool)
    requires NormalSuffix(s)
    requires s != "" && s[0] == '_' ==> started && !pending
    requires pending ==> started && s != ""
    ensures Normalized(s, started, pending) == (if pending then "_" else "") + s
  {
    if s != "" {
      NormalSuffixTail(s);
      hide NormalSuffix, LowerChar;
      assert s == [s[0]] + s[1..];
      if IsAsciiAlnum(s[0]) {
        NormalUnchanged(s[1..], true, false);
      } else {
        NormalUnchanged(s[1..], started, true);
      }
    }
  }

  // ----- search -----

  datatype Query = Query(
    role: Option<string>, name: Option<string>, nameContains: Option<string>, valueContains: Option<string>)

  predicate ContainsFolded(haystack: string, needle: string, fold: Folding) {
    needle == "" || Contains(fold(haystack), fold(needle))
  }

  predicate Matches(node: Source, q: Query, fold: Folding) {
    && (q.role.Some? ==> node.role == q.role.value)
    && (q.name.Some? ==> node.name == q.name.value)
    && (q.nameContains.Some? ==> ContainsFolded(node.name, q.nameContains.value, fold))
    && (q.valueContains.Some? ==> node.value.Some? && ContainsFolded(node.value.value, q.valueContains.value, fold))
  }

  datatype Hit = Hit(node: SourceNode, path: seq<string>)

  /** Every matching node in pre-order, with the names of its ancestors below `path`. */
  function Hits(node: SourceNode, path: seq<string>, q: Query, fold: Folding): seq<Hit>
    decreases node, 1
  {
    (if Matches(node.data, q, fold) then [Hit(node, path)] else []) +
    HitsAll(node.children, path + [node.data.name], q, fold)
  }

  function HitsAll(nodes: seq<SourceNode>, path: seq<string>, q: Query, fold: Folding): seq<Hit>
    decreases nodes, 0
  {
    if nodes == [] then [] else Hits(nodes[0], path, q, fold) + HitsAll(nodes[1..], path, q, fold)
  }

  /** `path` names the nodes from `root` down to, but excluding, `node`. */
  predicate LeadsTo(root: SourceNode, path: seq<string>, node: SourceNode)
    decreases |path|
  {
    if path == [] then root == node
    else path[0] == root.data.name && exists c :: c in root.children && LeadsTo(c, path[1..], node)
  }

  /** The hits are exactly the matching nodes, each with a path that leads to it. */
  lemma {:induction false} HitsSound(node: SourceNode, path: seq<string>, q: Query, fold: Folding, h: Hit)
    requires h in Hits(node, path, q, fold)
    ensures Matches(h.node.data, q, fold) && path <= h.path && LeadsTo(node, h.path[|path|..], h.node)
    ensures Meets(q, h.node.data.role, h.node.data.name, h.node.data.value, fold)
    decreases node, 1
  {
    MatchesIffMeets(h.node.data, q, fold);
    hide Meets;
    if h in HitsAll(node.children, path + [node.data.name], q, fold) {
      var c := HitsAllSound(node.children, path + [node.data.name], q, fold, h);
      assert h.path[|path|..][1..] == h.path[|path| + 1..];
    }
  }

  lemma {:induction false} HitsAllSound(nodes: seq<SourceNode>, path: seq<string>, q: Query, fold: Folding, h: Hit)
    returns (c: SourceNode)
    requires h in HitsAll(nodes, path, q, fold)
    ensures Matches(h.node.data, q, fold) && path <= h.path
    ensures c in nodes && LeadsTo(c, h.path[|path|..], h.node)
    decreases nodes, 0
  {
    if h in Hits(nodes[0], path, q, fold) {
      HitsSound(nodes[0], path, q, fold, h);
      c := nodes[0];
    } else {
      c := HitsAllSound(nodes[1..], path, q, fold, h);
    }
  }

  lemma {:induction false} HitsComplete(root: SourceNode, path: seq<string>, below: seq<string>, node: SourceNode,
                                        q: Query, fold: Folding)
    requires LeadsTo(root, below, node) && Meets(q, node.data.role, node.data.name, node.data.value, fold)
    ensures Hit(node, path + below) in Hits(root, path, q, fold)
    decreases |below|
  {
    MatchesIffMeets(node.data, q, fold);
    hide Meets;
    if below == [] {
      assert path + below == path;
    } else {
      var c :| c in root.children && LeadsTo(c, below[1..], node);
      var path' := path + [root.data.name];
      HitsComplete(c, path', below[1..], node, q, fold);
      assert path' + below[1..] == path + below;
      HitsAllContain(root.children, c, path', q, fold, Hit(node, path + below));
    }
  }

  lemma {:induction false} HitsAllContain(nodes: seq<SourceNode>, c: SourceNode, path: seq<string>,
                                          q: Query, fold: Folding, h: Hit)
    requires c in nodes && h in Hits(c, path, q, fold)
    ensures h in HitsAll(nodes, path, q, fold)
  {
    if c != nodes[0] {
      assert c in nodes[1..];
      HitsAllContain(nodes[1..], c, path, q, fold, h);
    }
  }

  lemma {:induction false} HitsAllAppend(a: seq<SourceNode>, b: seq<SourceNode>, path: seq<string>,
                                         q: Query, fold: Folding)
    ensures HitsAll(a + b, path, q, fold) == HitsAll(a, path, q, fold) + HitsAll(b, path, q, fold)
  {
    if a == [] {
      assert a + b == b;
    } else {
      assert (a + b)[1..] == a[1..] + b;
      HitsAllAppend(a[1..], b, path, q, fold);
    }
  }

  /** What a bounded collector that held `before` holds after meeting `hits`. */
  ghost predicate Collected(before: seq<Hit>, hits: seq<Hit>, max: nat, after: seq<Hit>, truncated: bool) {
    && |before| <= max && after == before + Take(hits, max - |before|)
    && (truncated <==> |before| + |hits| > max)
  }

  /**
   * The early-stopping visit: it adds the next hits in pre-order while there is room, flags a
   * hit it could not add, and leaves the shared path as it found it.
   */
  method Walk(node: SourceNode, q: Query, fold: Folding, max: nat, path: seq<string>, matches: seq<Hit>,
              truncated: bool)
    returns (path': seq<string>, matches': seq<Hit>, truncated': bool)
    requires |matches| <= max
    ensures path' == path
    ensures truncated ==> truncated' && matches' == matches
    ensures !truncated ==> Collected(matches, Hits(node, path, q, fold), max, matches', truncated')
    decreases node
  {
    hide Matches, Collected, HitsAll, Take;
    path', matches', truncated' := path, matches, truncated;
    if truncated {
      return;
    }
    ghost var mine: seq<Hit> := [];
    if Matches(node.data, q, fold) {
      mine := [Hit(node, path)];
      CollectedOne(matches, mine[0], max);
      if |matches'| < max {
        matches' := matches' + [Hit(node, path')];
      } else {
        truncated' := true;
        CollectedFull(matches, mine, HitsAll(node.children, path + [node.data.name], q, fold), max, matches);
        return;
      }
    }
    ghost var start := matches';
    path' := path' + [node.data.name];
    ghost var inner := path';
    CollectedNothing(matches, max);
    NoHits(inner, q, fold);
    CollectedNothing(start, max);
    assert node.children[..0] == [];
    for i := 0 to |node.children|
      invariant path' == inner && !truncated' && |matches'| <= max
      invariant Collected(start, HitsAll(node.children[..i], inner, q, fold), max, matches', false)
    {
      ghost var earlier := matches';
      path', matches', truncated' := Walk(node.children[i], q, fold, max, path', matches', truncated');
      ghost var elder := node.children[..i];
      assert node.children[..i + 1] == elder + [node.children[i]];
      HitsAllAppend(elder, [node.children[i]], inner, q, fold);
      HitsAllOfOne(node.children[i], inner, q, fold);
      CollectedMore(start, HitsAll(elder, inner, q, fold), Hits(node.children[i], inner, q, fold), max, earlier,
                    matches', truncated');
      if truncated' {
        HitsAllAppend(node.children[..i + 1], node.children[i + 1..], inner, q, fold);
        assert node.children[..i + 1] + node.children[i + 1..] == node.children;
        CollectedFull(start, HitsAll(node.children[..i + 1], inner, q, fold),
                      HitsAll(node.children[i + 1..], inner, q, fold), max, matches');
        break;
      }
    }
    assert node.children[..|node.children|] == node.children;
    CollectedMore(matches, mine, HitsAll(node.children, inner, q, fold), max, start, matches', truncated');
    path' := path'[..|path'| - 1];
  }

  lemma NoHits(path: seq<string>, q: Query, fold: Folding)
    ensures HitsAll([], path, q, fold) == []
  {
  }

  lemma CollectedNothing(before: seq<Hit>, max: nat)
    requires |before| <= max
    ensures Collected(before, [], max, before, false)
  {
  }

  lemma CollectedOne(before: seq<Hit>, hit: Hit, max: nat)
    requires |before| <= max
    ensures if |before| < max then Collected(before, [hit], max, before + [hit], false)
            else Collected(before, [hit], max, before, true)
  {
  }

  /** Once full, further hits change nothing. */
  lemma CollectedFull(before: seq<Hit>, hits: seq<Hit>, more: seq<Hit>, max: nat, after: seq<Hit>)
    requires Collected(before, hits, max, after, true)
    ensures Collected(before, hits + more, max, after, true)
  {
  }

  lemma HitsAllOfOne(node: SourceNode, path: seq<string>, q: Query, fold: Folding)
    ensures HitsAll([node], path, q, fold) == Hits(node, path, q, fold)
  {
    assert [node][1..] == [];
  }

  lemma CollectedMore(before: seq<Hit>, hits: seq<Hit>, more: seq<Hit>, max: nat, mid: seq<Hit>,
                      after: seq<Hit>, truncated: bool)
    requires |before| <= max && Collected(before, hits, max, mid, false) && Collected(mid, more, max, after, truncated)
    ensures Collected(before, hits + more, max, after, truncated) && |after| <= max
  {
  }

  method CollectMatches(root: SourceNode, q: Query, fold: Folding, max: nat)
    returns (matches: seq<Hit>, truncated: bool)
    ensures matches == Take(Hits(root, [], q, fold), max)
    ensures truncated <==> |Hits(root, [], q, fold)| > max
  {
    var path: seq<string>;
    path, matches, truncated := Walk(root, q, fold, max, [], [], false);
  }

  // ----- what a query selects -----

  /** The folded needle stands somewhere in the folded text; an empty needle stands everywhere. */
  predicate Occurs(needle: string, text: string, fold: Folding) {
    needle == "" || exists i :: 0 <= i <= |fold(text)| && fold(needle) <= fold(text)[i..]
  }

  /** Every filter that is given holds: role and name exactly, the other two as folded parts. */
  predicate Meets(q: Query, role: string, name: string, value: Option<string>, fold: Folding) {
    && (q.role.None? || q.role.value == role)
    && (q.name.None? || q.name.value == name)
    && (q.nameContains.None? || Occurs(q.nameContains.value, name, fold))
    && (q.valueContains.None? || (value.Some? && Occurs(q.valueContains.value, value.value, fold)))
  }

  lemma MatchesIffMeets(s: Source, q: Query, fold: Folding)
    ensures Matches(s, q, fold) <==> Meets(q, s.role, s.name, s.value, fold)
  {
    if q.nameContains.Some? { ContainsFoldedIff(s.name, q.nameContains.value, fold); }
    if q.valueContains.Some? && s.value.Some? { ContainsFoldedIff(s.value.value, q.valueContains.value, fold); }
    hide ContainsFolded, Occurs;
  }

  lemma ContainsFoldedIff(text: string, needle: string, fold: Folding)
    ensures ContainsFolded(text, needle, fold) <==> Occurs(needle, text, fold)
  {
    ContainsIff(fold(text), fold(needle));
  }

  function DataOf(list: seq<Entry<Source>>): seq<Source> {
    seq(|list|, i requires 0 <= i < |list| => list[i].data)
  }

  function HitData(hits: seq<Hit>): seq<Source> {
    seq(|hits|, i requires 0 <= i < |hits| => hits[i].node.data)
  }

  /** The nodes of a listing that the query selects, in order. */
  function Chosen(nodes: seq<Source>, q: Query, fold: Folding): seq<Source> {
    if nodes == [] then []
    else
      (if Meets(q, nodes[0].role, nodes[0].name, nodes[0].value, fold) then [nodes[0]] else [])
      + Chosen(nodes[1..], q, fold)
  }

  lemma {:induction false} ChosenAppend(a: seq<Source>, b: seq<Source>, q: Query, fold: Folding)
    ensures Chosen(a + b, q, fold) == Chosen(a, q, fold) + Chosen(b, q, fold)
  {
    hide Meets;
    if a == [] {
      assert a + b == b;
    } else {
      assert (a + b)[0] == a[0] && (a + b)[1..] == a[1..] + b;
      ChosenAppend(a[1..], b, q, fold);
      var first := if Meets(q, a[0].role, a[0].name, a[0].value, fold) then [a[0]] else [];
      assert (first + Chosen(a[1..], q, fold)) + Chosen(b, q, fold) ==
             first + (Chosen(a[1..], q, fold) + Chosen(b, q, fold));
    }
  }

  lemma {:induction false} ChosenMembers(nodes: seq<Source>, q: Query, fold: Folding, i: nat)
    requires i < |nodes| && Meets(q, nodes[i].role, nodes[i].name, nodes[i].value, fold)
    ensures nodes[i] in Chosen(nodes, q, fold)
  {
    hide Meets;
    if i > 0 {
      assert nodes[1..][i - 1] == nodes[i];
      ChosenMembers(nodes[1..], q, fold, i - 1);
    }
  }

  lemma {:induction false} ChosenMeets(nodes: seq<Source>, q: Query, fold: Folding, s: Source)
    requires s in Chosen(nodes, q, fold)
    ensures s in nodes && Meets(q, s.role, s.name, s.value, fold)
  {
    hide Meets;
    if s in Chosen(nodes[1..], q, fold) { ChosenMeets(nodes[1..], q, fold, s); }
  }

  /** A query without filters selects every node. */
  lemma {:induction false} NoFilterChoosesAll(nodes: seq<Source>, fold: Folding)
    ensures Chosen(nodes, Query(None, None, None, None), fold) == nodes
  {
    if nodes != [] {
      NoFilterChoosesAll(nodes[1..], fold);
      assert nodes == [nodes[0]] + nodes[1..];
    }
  }

  /** The search finds the selected nodes of the pre-order listing, in that order. */
  lemma {:induction false} HitsAreChosen(nodes: seq<SourceNode>, path: seq<string>, depth: nat, q: Query, fold: Folding)
    ensures HitData(HitsAll(nodes, path, q, fold)) == Chosen(DataOf(FlatAll(nodes, depth)), q, fold)
    decreases nodes
  {
    if nodes == [] {
      assert FlatAll(nodes, depth) == [] && DataOf([]) == [];
    } else {
      hide *;
      var t := nodes[0];
      var below := path + [t.data.name];
      HitsAreChosen(t.children, below, depth + 1, q, fold);
      HitsAreChosen(nodes[1..], path, depth, q, fold);
      NodeHits(t, path, depth, q, fold);
      HitsCons(nodes, path, q, fold);
      DataCons(nodes, depth);
      ChosenAppend(DataOf(Flat(t, depth)), DataOf(FlatAll(nodes[1..], depth)), q, fold);
    }
  }

  lemma HitsCons(nodes: seq<SourceNode>, path: seq<string>, q: Query, fold: Folding)
    requires nodes != []
    ensures HitData(HitsAll(nodes, path, q, fold)) ==
            HitData(Hits(nodes[0], path, q, fold)) + HitData(HitsAll(nodes[1..], path, q, fold))
  {
    hide Hits;
  }

  lemma DataCons(nodes: seq<SourceNode>, depth: nat)
    requires nodes != []
    ensures DataOf(FlatAll(nodes, depth)) == DataOf(Flat(nodes[0], depth)) + DataOf(FlatAll(nodes[1..], depth))
  {
    hide Flat;
  }

  lemma NodeHits(t: SourceNode, path: seq<string>, depth: nat, q: Query, fold: Folding)
    requires HitData(HitsAll(t.children, path + [t.data.name], q, fold)) ==
             Chosen(DataOf(FlatAll(t.children, depth + 1)), q, fold)
    ensures HitData(Hits(t, path, q, fold)) == Chosen(DataOf(Flat(t, depth)), q, fold)
  {
    MatchesIffMeets(t.data, q, fold);
    hide Matches, Meets, HitsAll;
    var data := DataOf(Flat(t, depth));
    assert data[0] == t.data && data[1..] == DataOf(FlatAll(t.children, depth + 1));
  }
}

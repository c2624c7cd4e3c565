// `.desktop` files: the line parser of the `[Desktop Entry]` group with its stage-1
// escapes, and the file writer it inverts.

module DesktopFile {
  import opened Core

  /** Unicode `White_Space`, which `str::trim` strips. */
  predicate IsWhite(c: char) {
    var v := c as int;
    || 0x09 <= v <= 0x0d || v == 0x20 || v == 0x85 || v == 0xa0 || v == 0x1680 || 0x2000 <= v <= 0x200a
    || v == 0x2028 || v == 0x2029 || v == 0x202f || v == 0x205f || v == 0x3000
  }

  function StripStart(s: string, p: char -> bool): (r: string)
    ensures r == "" || !p(r[0])
  {
    if s != "" && p(s[0]) then StripStart(s[1..], p) else s
  }

  function StripEnd(s: string, p: char -> bool): (r: string)
    ensures r == "" || !p(r[|r| - 1])
  {
    if s != "" && p(s[|s| - 1]) then StripEnd(s[..|s| - 1], p) else s
  }

  function Strip(s: string, p: char -> bool): string { StripEnd(StripStart(s, p), p) }

  function Trim(s: string): string { Strip(s, IsWhite) }

  // ----- stage-1 escapes -----

  function Resolve(c: char): string {
    match c
    case 's' => " "
    case 'n' => "\n"
    case 't' => "\t"
    case 'r' => "\r"
    case '\\' => "\\"
    case other => ['\\', other]
  }

  function Unescaped(s: string): string {
    if s == "" then ""
    else if s[0] != '\\' then [s[0]] + Unescaped(s[1..])
    else if |s| == 1 then "\\"
    else Resolve(s[1]) + Unescaped(s[2..])
  }

  method Unescape(value: string) returns (out: string)
    ensures out == Unescaped(value)
  {
    out := "";
    var i := 0;
    hide Resolve;
    while i < |value|
      invariant 0 <= i <= |value|
      invariant out + Unescaped(value[i..]) == Unescaped(value)
    {
      var ch := value[i];
      i := i + 1;
      assert value[i - 1..][0] == ch && value[i - 1..][1..] == value[i..];
      if ch != '\\' {
        out := out + [ch];
        continue;
      }
      if i < |value| {
        assert value[i - 1..][1] == value[i] && value[i - 1..][2..] == value[i + 1..];
        assert (out + Resolve(value[i])) + Unescaped(value[i + 1..]) ==
               out + (Resolve(value[i]) + Unescaped(value[i + 1..]));
        out := out + Resolve(value[i]);
        i := i + 1;
      } else {
        out := out + "\\";
      }
    }
  }

  // ----- the parser -----

  type Entry = (string, string)

  datatype ParseError = MissingGroup

  const DESKTOP_ENTRY_GROUP := "Desktop Entry"
  const BOM: char := '\U{feff}'

  function StripCr(line: string): string {
    if line != "" && line[|line| - 1] == '\r' then line[..|line| - 1] else line
  }

  /** `str::lines`: split at `\n` or `\r\n`, without a last empty line. */
  function Lines(text: string): seq<string> {
    if text == "" then []
    else
      var n := Find(text, '\n');
      if n < |text| then [StripCr(text[..n])] + Lines(text[n + 1..]) else [text]
  }

  function GroupName(line: string): Option<string> {
    if |line| >= 2 && line[0] == '[' && line[|line| - 1] == ']' then Some(Trim(line[1..|line| - 1])) else None
  }

  /** What one line means to the parser. */
  datatype Meaning = Ignored | Header(ours: bool) | KeyValue(key: string, value: string)

  function Classify(raw: string): Meaning {
    var line := Trim(raw);
    if line == "" || line[0] == '#' then Ignored
    else if GroupName(line).Some? then Header(GroupName(line).value == DESKTOP_ENTRY_GROUP)
    else
      var n := Find(line, '=');
      if n == |line| || Trim(line[..n]) == "" then Ignored
      else KeyValue(Trim(line[..n]), Unescaped(Trim(line[n + 1..])))
  }

  /** The entries the lines contribute, and whether they open our group. */
  function Parsed(lines: seq<string>, inGroup: bool): (seq<Entry>, bool) {
    if lines == [] then ([], false)
    else
      match Classify(lines[0])
      case Ignored => Parsed(lines[1..], inGroup)
      case Header(ours) =>
        var (entries, saw) := Parsed(lines[1..], ours);
        (entries, saw || ours)
      case KeyValue(key, value) =>
        var (entries, saw) := Parsed(lines[1..], inGroup);
        (if inGroup then [(key, value)] + entries else entries, saw)
  }

  function WithoutBom(text: string): string {
    if text != "" && text[0] == BOM then text[1..] else text
  }

  function ParsedFile(text: string): Result<seq<Entry>, ParseError> {
    var (entries, saw) := Parsed(Lines(WithoutBom(text)), false);
    if saw then Ok(entries) else Err(MissingGroup)
  }

  method ParseStr(text: string) returns (r: Result<seq<Entry>, ParseError>)
    ensures r == ParsedFile(text)
  {
    var lines := Lines(WithoutBom(text));
    var values: seq<Entry> := [];
    var inEntryGroup, sawEntryGroup := false, false;
    ghost var all := Parsed(lines, false);
    hide Lines, Find, Unescaped, Strip;
    for i := 0 to |lines|
      invariant all.0 == values + Parsed(lines[i..], inEntryGroup).0
      invariant all.1 == (sawEntryGroup || Parsed(lines[i..], inEntryGroup).1)
    {
      ghost var rest := Parsed(lines[i + 1..], inEntryGroup);
      assert lines[i..][0] == lines[i] && lines[i..][1..] == lines[i + 1..];
      var line := Trim(lines[i]);
      if line == "" || line[0] == '#' {
        continue;
      }
      var group := GroupName(line);
      if group.Some? {
        inEntryGroup := group.value == DESKTOP_ENTRY_GROUP;
        sawEntryGroup := sawEntryGroup || inEntryGroup;
        continue;
      }
      if !inEntryGroup {
        continue;
      }
      var n := Find(line, '=');
      if n == |line| {
        continue;
      }
      var key := Trim(line[..n]);
      if key == "" {
        continue;
      }
      var value := Unescape(Trim(line[n + 1..]));
      assert values + ([(key, value)] + rest.0) == (values + [(key, value)]) + rest.0;
      values := values + [(key, value)];
    }
    assert all == (all.0, all.1) && all.0 == values;
    return if sawEntryGroup then Ok(values) else Err(MissingGroup);
  }

  /** Index of the last entry with this key. */
  function Get(entries: seq<Entry>, key: string): (r: Option<string>)
    ensures r.None? <==> forall i :: 0 <= i < |entries| ==> entries[i].0 != key
    ensures r.Some? ==> exists i :: 0 <= i < |entries| && entries[i] == (key, r.value) &&
                          forall j :: i < j < |entries| ==> entries[j].0 != key
  {
    if entries == [] then None
    else if entries[|entries| - 1].0 == key then Some(entries[|entries| - 1].1)
    else Get(entries[..|entries| - 1], key)
  }

  // ----- the writer -----

  /** White space without a stage-1 escape. */
  predicate IsBare(c: char) { IsWhite(c) && c != ' ' && c != '\n' && c != '\t' && c != '\r' }

  function EscapeChar(c: char): string {
    match c
    case ' ' => "\\s"
    case '\n' => "\\n"
    case '\t' => "\\t"
    case '\r' => "\\r"
    case '\\' => "\\\\"
    case other => [other]
  }

  function Escaped(s: string): string {
    if s == "" then "" else EscapeChar(s[0]) + Escaped(s[1..])
  }

  /** One item of a written file, each on its own lines. */
  datatype Item =
    | Pair(key: string, value: string)
    | Noise(line: string)
    | Foreign(group: string, body: seq<string>)

  const OUR_HEADER := "[Desktop Entry]"

  /** A foreign group reopens ours at its end. */
  function ItemLines(item: Item): seq<string> {
    match item
    case Pair(key, value) => [key + "=" + Escaped(value)]
    case Noise(line) => [line]
    case Foreign(group, body) => ["[" + group + "]"] + body + [OUR_HEADER]
  }

  function FileLines(items: seq<Item>): seq<string> {
    if items == [] then [] else ItemLines(items[0]) + FileLines(items[1..])
  }

  function JoinLines(lines: seq<string>, crlf: bool): string {
    if lines == [] then "" else lines[0] + (if crlf then "\r\n" else "\n") + JoinLines(lines[1..], crlf)
  }

  /** `head` are the lines before the first header of ours. */
  function FileText(head: seq<string>, items: seq<Item>, bom: bool, crlf: bool): string {
    (if bom then ['\U{feff}'] else "") + JoinLines(head + [OUR_HEADER] + FileLines(items), crlf)
  }

  predicate WellFormedHead(head: seq<string>) {
    && (forall l :: l in head ==> '\n' !in l && Classify(l) != Header(true))
    && (head != [] && head[0] != "" ==> head[0][0] != '\U{feff}')
  }

  predicate WellFormedKey(key: string) {
    && key != "" && key[0] != '#' && key[0] != '[' && key[0] != BOM
    && !IsWhite(key[0]) && !IsWhite(key[|key| - 1])
    && '=' !in key && '\n' !in key
  }

  /** Blank, a comment, or a line that is neither a header nor an assignment. */
  predicate IsNoise(line: string) {
    var l := Trim(line);
    '\n' !in line && (l == "" || l[0] == '#' || (l[0] != '[' && '=' !in l))
  }

  predicate WellFormed(item: Item) {
    match item
    case Pair(key, _) => WellFormedKey(key)
    case Noise(line) => IsNoise(line)
    case Foreign(group, body) =>
      && '\n' !in group && Trim(group) != DESKTOP_ENTRY_GROUP
      && forall l :: l in body ==> '\n' !in l && Classify(l) != Header(true)
  }

  /** What reading gives back for a written value. */
  function Kept(value: string): string { Strip(value, IsBare) }

  function PairsOf(items: seq<Item>): seq<Entry> {
    if items == [] then []
    else if items[0].Pair? then [(items[0].key, Kept(items[0].value))] + PairsOf(items[1..])
    else PairsOf(items[1..])
  }

  // ----- reading back -----

  lemma {:induction false} UnescapedInverse(s: string)
    ensures Unescaped(Escaped(s)) == s
  {
    if s != "" {
      UnescapedInverse(s[1..]);
      UnescapedChar(s[0], Escaped(s[1..]));
      assert [s[0]] + s[1..] == s;
    }
  }

  lemma UnescapedChar(c: char, rest: string)
    ensures Unescaped(EscapeChar(c) + rest) == [c] + Unescaped(rest)
  {
    var e := EscapeChar(c);
    assert (e + rest)[|e|..] == rest && (e + rest)[0] == e[0];
    assert |e| == 2 ==> (e + rest)[1] == e[1];
  }

  lemma {:induction false} EscapedAppend(a: string, b: string)
    ensures Escaped(a + b) == Escaped(a) + Escaped(b)
  {
    if a == "" {
      assert a + b == b;
    } else {
      assert (a + b)[1..] == a[1..] + b;
      EscapedAppend(a[1..], b);
    }
  }

  lemma {:induction false} EscapedStripStart(s: string)
    ensures StripStart(Escaped(s), IsWhite) == Escaped(StripStart(s, IsBare))
  {
    if s != "" && IsBare(s[0]) {
      EscapedStripStart(s[1..]);
      assert Escaped(s)[1..] == Escaped(s[1..]);
    }
  }

  lemma {:induction false} EscapedStripEnd(s: string)
    ensures StripEnd(Escaped(s), IsWhite) == Escaped(StripEnd(s, IsBare))
  {
    if s != "" {
      var init, last := s[..|s| - 1], s[|s| - 1];
      assert s == init + [last];
      EscapedAppend(init, [last]);
      assert Escaped([last]) == EscapeChar(last) by { assert [last][1..] == ""; }
      EscapedEnd(last);
      hide Escaped, EscapeChar, IsWhite;
      if IsBare(last) {
        EscapedStripEnd(init);
        assert Escaped(s)[..|Escaped(s)| - 1] == Escaped(init);
      }
    }
  }

  /** Only a bare blank is still blank when written. */
  lemma EscapedEnd(c: char)
    ensures var e := EscapeChar(c);
            e != "" && (if IsBare(c) then e == [c] && IsWhite(c) else !IsWhite(e[|e| - 1]))
  {
  }

  lemma EscapedTrim(s: string)
    ensures Trim(Escaped(s)) == Escaped(Kept(s))
  {
    EscapedStripStart(s);
    EscapedStripEnd(StripStart(s, IsBare));
  }

  lemma {:induction false} EscapedOneLine(s: string)
    ensures '\n' !in Escaped(s)
  {
    if s != "" { EscapedOneLine(s[1..]); }
  }

  /** Stripping the end stops at a character that stays. */
  lemma {:induction false} StripEndAppend(a: string, b: string, p: char -> bool)
    requires a != "" && !p(a[|a| - 1])
    ensures StripEnd(a + b, p) == a + StripEnd(b, p)
  {
    if b == "" {
      assert a + b == a;
    } else if p(b[|b| - 1]) {
      assert (a + b)[..|a + b| - 1] == a + b[..|b| - 1];
      StripEndAppend(a, b[..|b| - 1], p);
    }
  }

  lemma {:induction false} StripEndOfStripStart(s: string, p: char -> bool)
    ensures StripStart(StripEnd(s, p), p) == StripEnd(StripStart(s, p), p)
    decreases |s|
  {
    if s != "" {
      if p(s[0]) {
        StripEndOfStripStart(s[1..], p);
        StripEndCons(s, p);
      } else {
        assert s == [s[0]] + s[1..];
        StripEndAppend([s[0]], s[1..], p);
      }
    }
  }

  lemma {:induction false} StripEndCons(s: string, p: char -> bool)
    requires s != "" && p(s[0])
    ensures StripStart(StripEnd(s, p), p) == StripStart(StripEnd(s[1..], p), p)
    decreases |s|
  {
    if p(s[|s| - 1]) {
      if |s| > 1 {
        assert s[..|s| - 1][1..] == s[1..][..|s| - 2];
        StripEndCons(s[..|s| - 1], p);
      }
    }
  }

  /** Stripping twice is stripping once. */
  lemma {:induction false} StripEndTwice(s: string, p: char -> bool)
    ensures StripEnd(StripEnd(s, p), p) == StripEnd(s, p)
  {
    if s != "" && p(s[|s| - 1]) { StripEndTwice(s[..|s| - 1], p); }
  }

  lemma TrimOfStripEnd(s: string)
    ensures Trim(StripEnd(s, IsWhite)) == Trim(s)
  {
    StripEndOfStripStart(s, IsWhite);
    StripEndTwice(StripStart(s, IsWhite), IsWhite);
  }

  lemma ClassifyPair(key: string, value: string)
    requires WellFormedKey(key)
    ensures Classify(key + "=" + Escaped(value)) == KeyValue(key, Kept(value))
  {
    var e := Escaped(value);
    TrimOfSpaced(key, e);
    KeyIsTrimmed(key);
    hide Trim, StripEnd, Escaped, Unescaped, Kept, IsWhite, Classify;
    ClassifyAssignment(key + "=" + e, key, StripEnd(e, IsWhite));
    TrimOfStripEnd(e);
    EscapedTrim(value);
    UnescapedInverse(Kept(value));
  }

  lemma {:induction false} StripStartBehind(a: string, s: string, p: char -> bool)
    requires forall c :: c in a ==> p(c)
    ensures StripStart(a + s, p) == StripStart(s, p)
  {
    if a == "" {
      assert a + s == s;
    } else {
      assert a[0] in a && (a + s)[0] == a[0] && (a + s)[1..] == a[1..] + s;
      StripStartBehind(a[1..], s, p);
    }
  }

  lemma {:induction false} StripEndBefore(s: string, a: string, p: char -> bool)
    requires forall c :: c in a ==> p(c)
    ensures StripEnd(s + a, p) == StripEnd(s, p)
    decreases |a|
  {
    if a == "" {
      assert s + a == s;
    } else {
      var init := a[..|a| - 1];
      assert a[|a| - 1] in a && (s + a)[..|s + a| - 1] == s + init;
      StripEndBefore(s, init, p);
    }
  }

  /** White space around a text does not matter. */
  lemma TrimAround(a: string, s: string, b: string)
    requires forall c :: c in a + b ==> IsWhite(c)
    ensures Trim(a + s + b) == Trim(s)
  {
    assert forall c :: (c in a ==> c in a + b) && (c in b ==> c in a + b);
    assert a + s + b == a + (s + b);
    StripStartBehind(a, s + b, IsWhite);
    StripEndOfStripStart(s + b, IsWhite);
    StripEndBefore(s, b, IsWhite);
    StripEndOfStripStart(s, IsWhite);
  }

  /** White space around the key, the equals sign and the value does not matter either. */
  lemma ClassifySpaced(a: string, key: string, b: string, c: string, value: string, d: string)
    requires WellFormedKey(key) && forall x :: x in a + b + c + d ==> IsWhite(x)
    ensures Classify(a + (key + b + "=" + (c + Escaped(value))) + d) == KeyValue(key, Kept(value))
  {
    var e := Escaped(value);
    var left := key + b;
    SplitBlanks(a, b, c, d);
    TrimAround(a, left + "=" + (c + e), d);
    TrimOfSpaced(left, c + e);
    BlanksHoldNoSign(key, b);
    SpacedValue(c, value);
    KeyIsTrimmed(key);
    assert "" + key + b == left;
    TrimAround("", key, b);
    assert left[0] == key[0];
    hide Trim, Find, Escaped, Unescaped, Kept, IsWhite, StripEnd;
    ClassifyAssignment(a + (left + "=" + (c + e)) + d, left, StripEnd(c + e, IsWhite));
  }

  lemma SplitBlanks(a: string, b: string, c: string, d: string)
    requires forall x :: x in a + b + c + d ==> IsWhite(x)
    ensures (forall x :: x in a + d ==> IsWhite(x)) && (forall x :: x in b ==> IsWhite(x))
            && forall x :: x in c ==> IsWhite(x)
  {
    hide IsWhite;
    assert forall x :: (x in a + d ==> x in a + b + c + d) && (x in b ==> x in a + b + c + d)
                       && (x in c ==> x in a + b + c + d);
  }

  lemma BlanksHoldNoSign(key: string, b: string)
    requires WellFormedKey(key) && forall x :: x in b ==> IsWhite(x)
    ensures '=' !in key + b
  {
    assert !IsWhite('=');
  }

  lemma SpacedValue(c: string, value: string)
    requires forall x :: x in c ==> IsWhite(x)
    ensures Unescaped(Trim(StripEnd(c + Escaped(value), IsWhite))) == Kept(value)
  {
    hide Unescaped, Escaped, IsWhite;
    var e := Escaped(value);
    TrimOfStripEnd(c + e);
    assert c + e + "" == c + e && c + "" == c;
    TrimAround(c, e, "");
    EscapedTrim(value);
    UnescapedInverse(Kept(value));
  }

  /** A trimmed line with an equals sign behind a text that opens no comment and no group. */
  lemma ClassifyAssignment(raw: string, left: string, right: string)
    requires Trim(raw) == left + "=" + right && '=' !in left
    requires left != "" && left[0] != '#' && left[0] != '[' && Trim(left) != ""
    ensures Classify(raw) == KeyValue(Trim(left), Unescaped(Trim(right)))
  {
    hide Unescaped;
    var line := Trim(raw);
    FindAfter(left, '=', right);
    assert line == left + ['='] + right && line[..|left|] == left && line[|left| + 1..] == right && line[0] == left[0];
    hide Trim, Find;
  }

  lemma KeyIsTrimmed(key: string)
    requires WellFormedKey(key)
    ensures Trim(key) == key
  {
  }

  lemma TrimOfSpaced(left: string, right: string)
    requires left != "" && !IsWhite(left[0])
    ensures Trim(left + "=" + right) == left + "=" + StripEnd(right, IsWhite)
  {
    var s := left + "=" + right;
    assert s[0] == left[0] && StripStart(s, IsWhite) == s;
    StripEndAppend(left + "=", right, IsWhite);
  }

  /** A line opens our group exactly when it is, white space aside, the bracketed group name. */
  lemma HeaderExact(raw: string)
    ensures Classify(raw) == Header(true) <==>
              var line := Trim(raw);
              |line| >= 2 && line[0] == '[' && line[|line| - 1] == ']' && Trim(line[1..|line| - 1]) == "Desktop Entry"
  {
    hide Trim, Find, Unescaped;
  }

  lemma {:induction false} SawExact(lines: seq<string>, inGroup: bool)
    ensures Parsed(lines, inGroup).1 <==> exists i :: 0 <= i < |lines| && Classify(lines[i]) == Header(true)
  {
    hide Classify;
    if lines != [] {
      var m := Classify(lines[0]);
      var next := if m.Header? then m.ours else inGroup;
      SawExact(lines[1..], next);
      assert Parsed(lines, inGroup).1 <==> Parsed(lines[1..], next).1 || m == Header(true);
      hide Parsed;
      if i :| 0 <= i < |lines| && Classify(lines[i]) == Header(true) {
        assert i > 0 ==> lines[1..][i - 1] == lines[i];
      }
      if i :| 0 <= i < |lines[1..]| && Classify(lines[1..][i]) == Header(true) {
        assert lines[i + 1] == lines[1..][i];
      }
    }
  }

  /** A file is refused exactly when none of its lines opens the group. */
  lemma RefusedIffNoGroup(text: string)
    ensures ParsedFile(text).Err? <==>
              forall i :: 0 <= i < |Lines(WithoutBom(text))| ==> Classify(Lines(WithoutBom(text))[i]) != Header(true)
  {
    hide Classify, Lines, Parsed;
    var lines := Lines(WithoutBom(text));
    SawExact(lines, false);
    var saw := Parsed(lines, false).1;
    assert ParsedFile(text).Err? <==> !saw;
    if saw {
      var i :| 0 <= i < |lines| && Classify(lines[i]) == Header(true);
      assert !(Classify(Lines(WithoutBom(text))[i]) != Header(true));
    }
  }

  /** An assignment without a key says nothing. */
  lemma EmptyKeyIgnored(a: string, rest: string)
    requires forall c :: c in a ==> IsWhite(c)
    ensures Classify(a + "=" + rest) == Ignored
  {
    var tail := "=" + rest;
    assert a + "=" + rest == a + tail;
    StripStartBehind(a, tail, IsWhite);
    assert tail[0] == '=' && StripStart(tail, IsWhite) == tail;
    StripEndAppend("=", rest, IsWhite);
    var line := Trim(a + tail);
    assert line == "=" + StripEnd(rest, IsWhite);
    assert line == "" + ['='] + StripEnd(rest, IsWhite);
    FindAfter("", '=', StripEnd(rest, IsWhite));
    assert line[..0] == "" && Trim("") == "";
    hide Unescaped;
  }

  /** The five escapes, an unknown one kept as written, and a backslash at the very end. */
  lemma UnescapedExact(c: char, rest: string)
    ensures var r, tail := Unescaped(['\\', c] + rest), Unescaped(rest);
            && (c == 's' ==> r == " " + tail) && (c == 'n' ==> r == "\n" + tail) && (c == 't' ==> r == "\t" + tail)
            && (c == 'r' ==> r == "\r" + tail) && (c == '\\' ==> r == "\\" + tail)
            && (c !in ['s', 'n', 't', 'r', '\\'] ==> r == ['\\', c] + tail)
    ensures Unescaped("\\") == "\\"
    ensures c != '\\' ==> Unescaped([c] + rest) == [c] + Unescaped(rest)
  {
    var s := ['\\', c] + rest;
    assert s[0] == '\\' && s[1] == c && s[2..] == rest;
    assert ([c] + rest)[1..] == rest;
  }

  lemma ClassifyNoise(line: string)
    requires IsNoise(line)
    ensures Classify(line) == Ignored
  {
  }

  lemma TrimBracketed(group: string)
    ensures Trim("[" + group + "]") == "[" + group + "]"
  {
    var s := "[" + group + "]";
    assert s[0] == '[' && s[|s| - 1] == ']';
  }

  lemma ClassifyHeader(group: string)
    ensures Classify("[" + group + "]") == Header(Trim(group) == DESKTOP_ENTRY_GROUP)
  {
    var s := "[" + group + "]";
    TrimBracketed(group);
    assert s[1..|s| - 1] == group;
  }

  lemma OurHeader()
    ensures Classify(OUR_HEADER) == Header(true)
  {
    assert OUR_HEADER == "[" + DESKTOP_ENTRY_GROUP + "]";
    ClassifyHeader(DESKTOP_ENTRY_GROUP);
    assert DESKTOP_ENTRY_GROUP[0] == 'D' && DESKTOP_ENTRY_GROUP[|DESKTOP_ENTRY_GROUP| - 1] == 'y';
  }

  lemma {:induction false} ParsedForeign(body: seq<string>, rest: seq<string>)
    requires forall l :: l in body ==> Classify(l) != Header(true)
    ensures Parsed(body + [OUR_HEADER] + rest, false) == (Parsed(rest, true).0, true)
  {
    var lines := body + [OUR_HEADER] + rest;
    OurHeader();
    hide Classify;
    if body == [] {
      assert lines == [OUR_HEADER] + rest && lines[1..] == rest;
    } else {
      assert lines[0] == body[0] && lines[1..] == body[1..] + [OUR_HEADER] + rest;
      assert body[0] in body;
      ParsedForeign(body[1..], rest);
    }
  }

  lemma ParsedCons(line: string, rest: seq<string>, inGroup: bool)
    ensures var m := Classify(line);
            Parsed([line] + rest, inGroup).0 ==
            if m.Header? then Parsed(rest, m.ours).0
            else if m.KeyValue? && inGroup then [(m.key, m.value)] + Parsed(rest, inGroup).0
            else Parsed(rest, inGroup).0
  {
    hide Classify;
    assert ([line] + rest)[1..] == rest;
  }

  lemma ParsedItem(item: Item, rest: seq<string>)
    requires WellFormed(item)
    ensures Parsed(ItemLines(item) + rest, true).0 ==
            if item.Pair? then [(item.key, Kept(item.value))] + Parsed(rest, true).0 else Parsed(rest, true).0
  {
    hide Classify, Parsed, Escaped, Kept, WellFormedKey, IsNoise, Trim;
    match item
    case Pair(key, value) =>
      ClassifyPair(key, value);
      ParsedCons(key + "=" + Escaped(value), rest, true);
    case Noise(line) =>
      ClassifyNoise(line);
      ParsedCons(line, rest, true);
    case Foreign(group, body) =>
      ClassifyHeader(group);
      ParsedForeign(body, rest);
      ParsedCons("[" + group + "]", body + [OUR_HEADER] + rest, true);
      assert ItemLines(item) + rest == ["[" + group + "]"] + (body + [OUR_HEADER] + rest);
  }

  lemma {:induction false} ParsedItems(items: seq<Item>)
    requires forall i :: i in items ==> WellFormed(i)
    ensures Parsed(FileLines(items), true).0 == PairsOf(items)
  {
    hide Classify, WellFormed, ItemLines;
    if items != [] {
      assert items[0] in items;
      ParsedItem(items[0], FileLines(items[1..]));
      ParsedItems(items[1..]);
    }
  }

  // ----- from lines to text -----

  lemma LinesCons(line: string, rest: string)
    requires '\n' !in line
    ensures Lines(line + "\n" + rest) == [StripCr(line)] + Lines(rest)
  {
    var text := line + "\n" + rest;
    FindAfter(line, '\n', rest);
    assert text[..|line|] == line && text[|line| + 1..] == rest;
  }

  /** A last line needs no line end. */
  lemma {:induction false} LinesUnterminated(lines: seq<string>, last: string)
    requires last != "" && '\n' !in last && forall l :: l in lines ==> '\n' !in l
    ensures Lines(JoinLines(lines, false) + last) == Lines(JoinLines(lines, false)) + [last]
  {
    if lines == [] {
      assert JoinLines(lines, false) + last == last;
      LastLine(last);
    } else {
      var rest := JoinLines(lines[1..], false);
      assert lines[0] in lines;
      assert JoinLines(lines, false) == lines[0] + "\n" + rest;
      assert JoinLines(lines, false) + last == lines[0] + "\n" + (rest + last);
      hide Lines, JoinLines;
      LinesCons(lines[0], rest + last);
      LinesCons(lines[0], rest);
      LinesUnterminated(lines[1..], last);
      assert [StripCr(lines[0])] + (Lines(rest) + [last]) == ([StripCr(lines[0])] + Lines(rest)) + [last];
    }
  }

  lemma LastLine(last: string)
    requires last != "" && '\n' !in last
    ensures Lines(last) == [last] && Lines("") == []
  {
    var n := Find(last, '\n');
    assert forall i :: 0 <= i < |last| ==> last[i] in last;
    hide Find;
  }

  lemma ClassifyStripCr(line: string)
    ensures Classify(StripCr(line)) == Classify(line)
  {
    if StripCr(line) != line {
      var core := line[..|line| - 1];
      hide Classify;
      assert StripEnd(line, IsWhite) == StripEnd(core, IsWhite);
      TrimOfStripEnd(line);
      TrimOfStripEnd(core);
      ClassifyTrimmed(line, core);
    }
  }

  lemma ClassifyTrimmed(a: string, b: string)
    requires Trim(a) == Trim(b)
    ensures Classify(a) == Classify(b)
  {
    hide Trim;
  }

  /** Line ends do not matter: `\n` and `\r\n` files parse alike. */
  lemma {:induction false} ParsedText(lines: seq<string>, crlf: bool, inGroup: bool)
    requires forall l :: l in lines ==> '\n' !in l
    ensures Parsed(Lines(JoinLines(lines, crlf)), inGroup) == Parsed(lines, inGroup)
  {
    if lines != [] {
      var rest := JoinLines(lines[1..], crlf);
      assert lines[0] in lines;
      var first := if crlf then lines[0] + "\r" else lines[0];
      assert JoinLines(lines, crlf) == first + "\n" + rest;
      LinesCons(first, rest);
      ClassifyStripCr(lines[0]);
      assert crlf ==> StripCr(first) == lines[0];
      var k := StripCr(first);
      assert Classify(k) == Classify(lines[0]);
      hide Classify, Lines, JoinLines, StripCr;
      assert ([k] + Lines(rest))[1..] == Lines(rest);
      match Classify(k)
      case Header(ours) => ParsedText(lines[1..], crlf, ours);
      case _ => ParsedText(lines[1..], crlf, inGroup);
    }
  }

  lemma {:induction false} FileLinesOneLine(items: seq<Item>)
    requires forall i :: i in items ==> WellFormed(i)
    ensures forall l :: l in FileLines(items) ==> '\n' !in l
  {
    if items != [] {
      assert items[0] in items;
      FileLinesOneLine(items[1..]);
      match items[0]
      case Pair(key, value) => EscapedOneLine(value);
      case Noise(_) =>
      case Foreign(_, _) =>
    }
  }

  /**
   * Reading a written file gives back its pairs in order, whatever comes before the first header
   * and whatever comments, blank lines, stray lines and foreign groups stand between them, with or
   * without a byte order mark, and with either line end.
   */
  lemma ReadsBackFile(head: seq<string>, items: seq<Item>, bom: bool, crlf: bool)
    requires WellFormedHead(head) && forall i :: i in items ==> WellFormed(i)
    ensures ParsedFile(FileText(head, items, bom, crlf)) == Ok(PairsOf(items))
  {
    hide Classify, WellFormed, Lines, JoinLines, FileText, FileLines, WithoutBom, Parsed, PairsOf;
    var lines := head + [OUR_HEADER] + FileLines(items);
    FileLinesOneLine(items);
    WithoutItsBom(head, items, bom, crlf);
    assert '\n' !in OUR_HEADER;
    ParsedText(lines, crlf, false);
    ParsedForeign(head, FileLines(items));
    ParsedItems(items);
  }

  lemma WithoutItsBom(head: seq<string>, items: seq<Item>, bom: bool, crlf: bool)
    requires WellFormedHead(head)
    ensures WithoutBom(FileText(head, items, bom, crlf)) == JoinLines(head + [OUR_HEADER] + FileLines(items), crlf)
  {
    hide WellFormedHead, FileLines, JoinLines;
    var body := JoinLines(head + [OUR_HEADER] + FileLines(items), crlf);
    StartsBare(head, items, crlf);
    if bom { assert ([BOM] + body)[1..] == body; } else { assert "" + body == body; }
  }

  /** Only a byte order mark that was written is taken for one. */
  lemma StartsBare(head: seq<string>, items: seq<Item>, crlf: bool)
    requires WellFormedHead(head)
    ensures var body := JoinLines(head + [OUR_HEADER] + FileLines(items), crlf);
            body != "" && body[0] != BOM
  {
    hide Classify, FileLines;
    assert OUR_HEADER[0] == '[';
    if head == [] {
      assert head + [OUR_HEADER] + FileLines(items) == [OUR_HEADER] + FileLines(items);
    } else {
      assert (head + [OUR_HEADER] + FileLines(items))[0] == head[0];
    }
  }

  /** A value survives exactly when it has no unescapable white space at either end. */
  lemma ValueSurvivesIff(key: string, value: string)
    requires WellFormedKey(key)
    ensures ParsedFile(FileText([], [Pair(key, value)], false, false)) == Ok([(key, value)]) <==>
              value == "" || (!IsBare(value[0]) && !IsBare(value[|value| - 1]))
  {
    var items := [Pair(key, value)];
    ReadsBackFile([], items, false, false);
    assert items[1..] == [];
    assert PairsOf(items) == [(key, Kept(value))];
    StripShortens(value, IsBare);
  }

  lemma {:induction false} StripShortens(s: string, p: char -> bool)
    ensures Strip(s, p) == s <==> s == "" || (!p(s[0]) && !p(s[|s| - 1]))
    ensures |StripStart(s, p)| <= |s| && |StripEnd(s, p)| <= |s|
    decreases |s|
  {
    if s != "" {
      StripShortens(s[1..], p);
      StripShortens(s[..|s| - 1], p);
      if p(s[0]) {
        StripEndShort(StripStart(s, p), p);
      }
    }
  }

  lemma {:induction false} StripEndShort(s: string, p: char -> bool)
    ensures |StripEnd(s, p)| <= |s|
  {
    if s != "" { StripEndShort(s[..|s| - 1], p); }
  }
}

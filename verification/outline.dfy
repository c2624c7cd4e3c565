// The one-line-per-node outline of an accessibility tree, and the reader that recovers
// the tree's shape, roles, names and values from it.

module Outline {
  import opened Core
  import opened Trees
  import opened Accessibility
  import opened ElementIds
  import Geometry
  import opened Service

  datatype TextOptions = TextOptions(indent: nat, includeIds: bool, includeBounds: bool, includeStates: bool,
                                     includeActions: bool)

  // ----- rendering -----

  function EscapedChar(c: char): string {
    match c
    case '\\' => "\\\\"
    case '"' => "\\\""
    case '\n' => "\\n"
    case '\t' => "\\t"
    case other => [other]
  }

  function Escaped(raw: string): string {
    if raw == "" then "" else EscapedChar(raw[0]) + Escaped(raw[1..])
  }

  method Escape(raw: string) returns (out: string)
    ensures out == Escaped(raw)
  {
    out := "";
    hide *;
    assert raw[0..] == raw && "" + Escaped(raw) == Escaped(raw);
    for i := 0 to |raw|
      invariant out + Escaped(raw[i..]) == Escaped(raw)
    {
      EscapedStep(raw[i..]);
      assert raw[i..][1..] == raw[i + 1..];
      assert (out + EscapedChar(raw[i])) + Escaped(raw[i + 1..]) == out + (EscapedChar(raw[i]) + Escaped(raw[i + 1..]));
      out := out + EscapedChar(raw[i]);
    }
    EscapedEmpty();
    assert raw[|raw|..] == "" && out + "" == out;
  }

  lemma EscapedStep(raw: string)
    requires raw != ""
    ensures Escaped(raw) == EscapedChar(raw[0]) + Escaped(raw[1..])
  {
  }

  lemma EscapedEmpty()
    ensures Escaped("") == ""
  {
  }

  function StateName(s: State): string {
    match s
    case Enabled => "enabled"
    case Sensitive => "sensitive"
    case Showing => "showing"
    case Visible => "visible"
    case Focusable => "focusable"
    case Focused => "focused"
    case Checkable => "checkable"
    case Checked => "checked"
    case Selected => "selected"
    case Selectable => "selectable"
    case Expandable => "expandable"
    case Expanded => "expanded"
    case Collapsed => "collapsed"
    case Editable => "editable"
    case Multiline => "multiline"
    case ReadOnly => "read_only"
    case Pressed => "pressed"
    case Active => "active"
    case Busy => "busy"
    case Modal => "modal"
    case Defunct => "defunct"
    case Invalid => "invalid"
  }

  function Signed(v: int): string { if v < 0 then "-" + Decimal(-v) else Decimal(v) }

  function Spaces(n: nat): string { seq(n, i => ' ') }

  function Joined(parts: seq<string>): string {
    if parts == [] then "" else if |parts| == 1 then parts[0] else parts[0] + "," + Joined(parts[1..])
  }

  function StateNames(states: seq<State>): seq<string> {
    seq(|states|, i requires 0 <= i < |states| => StateName(states[i]))
  }

  function ValuePart(value: Option<string>): string {
    match value case Some(v) => " value=\"" + Escaped(v) + "\"" case None => ""
  }

  function StatesPart(n: Wire, o: TextOptions): string {
    if o.includeStates && n.states != [] then " states=[" + Joined(StateNames(n.states)) + "]" else ""
  }

  function ActionsPart(n: Wire, o: TextOptions): string {
    if o.includeActions && n.actions != [] then " actions=[" + Joined(n.actions) + "]" else ""
  }

  function BoundsPart(n: Wire, o: TextOptions): string {
    if o.includeBounds && n.bounds.Some?
    then var b := n.bounds.value;
         " bounds=" + Signed(b.x) + "," + Signed(b.y) + "," + Signed(b.w) + "," + Signed(b.h)
    else ""
  }

  function IdPart(n: Wire, o: TextOptions): string { if o.includeIds then " id=" + Decimal(n.id) else "" }

  /** The parts behind name and value. */
  function Details(n: Wire, o: TextOptions): string {
    StatesPart(n, o) + ActionsPart(n, o) + BoundsPart(n, o) + IdPart(n, o)
  }

  function Line(n: Wire, depth: nat, o: TextOptions): string {
    Spaces(depth * o.indent) + n.role + " \"" + Escaped(n.name) + "\"" + ValuePart(n.value)
    + StatesPart(n, o) + ActionsPart(n, o) + BoundsPart(n, o) + IdPart(n, o)
  }

  method RenderLine(n: Wire, depth: nat, o: TextOptions) returns (line: string)
    ensures line == Line(n, depth, o)
  {
    line := "";
    for i := 0 to depth * o.indent
      invariant line == Spaces(i)
    {
      line := line + " ";
    }
    hide Spaces, Escaped, StatesPart, ActionsPart, BoundsPart, IdPart;
    line := line + n.role;
    line := line + " \"";
    var name := Escape(n.name);
    line := line + name;
    line := line + "\"";
    if n.value.Some? {
      var value := Escape(n.value.value);
      line := line + (" value=\"" + value + "\"");
    } else {
      line := line + "";
    }
    var states := RenderStates(n, o);
    line := line + states;
    line := line + ActionsPart(n, o);
    line := line + BoundsPart(n, o);
    line := line + IdPart(n, o);
  }

  method RenderStates(n: Wire, o: TextOptions) returns (part: string)
    ensures part == StatesPart(n, o)
  {
    part := "";
    if o.includeStates && n.states != [] {
      hide StateNames, Joined;
      part := PushStates(" states=[", n.states);
      part := part + "]";
    }
  }

  /** Appends the names, separated by commas. */
  method PushStates(prefix: string, states: seq<State>) returns (part: string)
    ensures part == prefix + Joined(StateNames(states))
  {
    hide StateName, StateNames, Joined;
    NothingJoined();
    part := prefix;
    assert states[..0] == [] && prefix + "" == prefix;
    for i := 0 to |states|
      invariant part == prefix + Joined(StateNames(states[..i]))
    {
      MoreStates(prefix, states[..i], states[i]);
      assert states[..i + 1] == states[..i] + [states[i]];
      if i > 0 {
        part := part + ",";
      }
      part := part + StateName(states[i]);
    }
    assert states[..|states|] == states;
  }

  lemma NothingJoined()
    ensures Joined(StateNames([])) == ""
  {
  }

  lemma MoreStates(prefix: string, states: seq<State>, last: State)
    ensures states == [] ==>
              (prefix + Joined(StateNames(states))) + StateName(last) == prefix + Joined(StateNames(states + [last]))
    ensures states != [] ==>
              ((prefix + Joined(StateNames(states))) + ",") + StateName(last) ==
              prefix + Joined(StateNames(states + [last]))
  {
    JoinedStates(states, last);
    hide Joined, StateNames, StateName;
  }

  lemma JoinedStates(states: seq<State>, last: State)
    ensures Joined(StateNames(states + [last])) ==
            Joined(StateNames(states)) + (if states == [] then "" else ",") + StateName(last)
  {
    hide StateName, Joined;
    JoinedSnoc(StateNames(states), StateName(last));
    assert StateNames(states + [last]) == StateNames(states) + [StateName(last)];
  }

  lemma {:induction false} JoinedSnoc(parts: seq<string>, last: string)
    ensures Joined(parts + [last]) == Joined(parts) + (if parts == [] then "" else ",") + last
  {
    if |parts| > 1 {
      assert (parts + [last])[1..] == parts[1..] + [last];
      JoinedSnoc(parts[1..], last);
    } else if |parts| == 1 {
      assert (parts + [last])[1..] == [last];
    }
  }

  function LinesOf(list: seq<Entry<Wire>>, o: TextOptions): seq<string> {
    seq(|list|, i requires 0 <= i < |list| => Line(list[i].data, list[i].depth, o))
  }

  method PushLines(node: Tree<Wire>, depth: nat, o: TextOptions, lines: seq<string>) returns (lines': seq<string>)
    ensures lines' == lines + LinesOf(Flat(node, depth), o)
    decreases node
  {
    var line := RenderLine(node.data, depth, o);
    lines' := lines + [line];
    hide Line;
    for i := 0 to |node.children|
      invariant lines' == lines + [line] + LinesOf(FlatAll(node.children[..i], depth + 1), o)
    {
      lines' := PushLines(node.children[i], depth + 1, o, lines');
      ghost var elder := node.children[..i];
      assert node.children[..i + 1] == elder + [node.children[i]];
      FlatAllAppend(elder, [node.children[i]], depth + 1);
      FlatOfOne(node.children[i], depth + 1);
      LinesOfAppend(FlatAll(elder, depth + 1), Flat(node.children[i], depth + 1), o);
    }
    assert node.children[..|node.children|] == node.children;
    LinesOfAppend([Entry(depth, node.data)], FlatAll(node.children, depth + 1), o);
  }

  lemma LinesOfAppend(a: seq<Entry<Wire>>, b: seq<Entry<Wire>>, o: TextOptions)
    ensures LinesOf(a + b, o) == LinesOf(a, o) + LinesOf(b, o)
  {
    hide Line;
  }

  function JoinedLines(lines: seq<string>): string {
    if lines == [] then "" else if |lines| == 1 then lines[0] else lines[0] + "\n" + JoinedLines(lines[1..])
  }

  method RenderText(root: Tree<Wire>, o: TextOptions) returns (text: string)
    ensures text == JoinedLines(LinesOf(Flat(root, 0), o))
  {
    var lines := PushLines(root, 0, o, []);
    assert lines == LinesOf(Flat(root, 0), o);
    text := JoinedLines(lines);
  }

  // ----- reading an outline -----

  /** What the outline shows of a node without doubt. */
  datatype Label = Label(role: string, name: string, value: Option<string>)

  function LabelOf(n: Wire): Label { Label(n.role, n.name, n.value) }

  function SplitLines(text: string): seq<string>
    decreases |text|
  {
    var n := Find(text, '\n');
    if n == |text| then [text] else [text[..n]] + SplitLines(text[n + 1..])
  }

  function LeadingSpaces(s: string): (n: nat)
    ensures n <= |s|
  {
    if s != "" && s[0] == ' ' then 1 + LeadingSpaces(s[1..]) else 0
  }

  function UnescapedChar(c: char): char {
    if c == 'n' then '\n' else if c == 't' then '\t' else c
  }

  /** The text up to the closing quote, unescaped, and what follows the quote. */
  function ReadQuoted(s: string): (string, string)
    decreases |s|
  {
    if s == "" then ("", "")
    else if s[0] == '"' then ("", s[1..])
    else if s[0] == '\\' && |s| > 1 then
      var (text, rest) := ReadQuoted(s[2..]);
      ([UnescapedChar(s[1])] + text, rest)
    else
      var (text, rest) := ReadQuoted(s[1..]);
      ([s[0]] + text, rest)
  }

  const VALUE_PREFIX := " value=\""

  /** Name and value, from behind the opening quote of the name. */
  function ReadFields(role: string, s: string): Label {
    var (name, rest) := ReadQuoted(s);
    if VALUE_PREFIX <= rest then Label(role, name, Some(ReadQuoted(rest[|VALUE_PREFIX|..]).0))
    else Label(role, name, None)
  }

  /** How often the indent fits. */
  function Levels(spaces: nat, indent: nat): nat
    requires indent > 0
  {
    if spaces < indent then 0 else 1 + Levels(spaces - indent, indent)
  }

  /** A line whose first mark behind the indent is the quote has an empty role. */
  function ReadLine(line: string, indent: nat): Entry<Label>
    requires indent > 0
  {
    var n := LeadingSpaces(line);
    var body := line[n..];
    if n > 0 && body != "" && body[0] == '"' then Entry(Levels(n - 1, indent), ReadFields("", body[1..]))
    else
      var end := Find(body, ' ');
      Entry(Levels(n, indent), ReadFields(body[..end], if end + 2 <= |body| then body[end + 2..] else ""))
  }

  function ReadLines(lines: seq<string>, indent: nat): (r: seq<Entry<Label>>)
    requires indent > 0
    ensures |r| == |lines|
  {
    seq(|lines|, i requires 0 <= i < |lines| => ReadLine(lines[i], indent))
  }

  /** The trees an outline describes. */
  function ReadOutline(text: string, indent: nat): seq<Tree<Label>>
    requires indent > 0
  {
    Build(ReadLines(SplitLines(text), indent), 0).0
  }

  function LabelTree(t: Tree<Wire>): Tree<Label>
    decreases t, 1
  {
    Tree(LabelOf(t.data), LabelTrees(t.children))
  }

  function LabelTrees(ts: seq<Tree<Wire>>): seq<Tree<Label>>
    decreases ts, 0
  {
    if ts == [] then [] else [LabelTree(ts[0])] + LabelTrees(ts[1..])
  }

  // ----- what the grammar promises -----

  lemma {:induction false} ReadQuotedEscaped(raw: string, rest: string)
    ensures ReadQuoted(Escaped(raw) + "\"" + rest) == (raw, rest)
  {
    var s := Escaped(raw) + "\"" + rest;
    if raw == "" {
      assert s[1..] == rest;
    } else {
      var tail := Escaped(raw[1..]) + "\"" + rest;
      assert s == EscapedChar(raw[0]) + tail;
      ReadOneEscaped(raw[0], tail);
      assert raw == [raw[0]] + raw[1..];
      hide Escaped, EscapedChar, ReadQuoted;
      ReadQuotedEscaped(raw[1..], rest);
    }
  }

  lemma ReadOneEscaped(c: char, tail: string)
    ensures var (text, rest) := ReadQuoted(tail);
            ReadQuoted(EscapedChar(c) + tail) == ([c] + text, rest)
  {
    var e := EscapedChar(c);
    var s := e + tail;
    assert s[|e|..] == tail && s[0] == e[0] && (|e| == 2 ==> s[1] == e[1]);
  }

  lemma {:induction false} LeadingSpacesOf(n: nat, rest: string)
    requires rest == "" || rest[0] != ' '
    ensures LeadingSpaces(Spaces(n) + rest) == n
  {
    if n == 0 {
      assert Spaces(n) + rest == rest;
    } else {
      assert (Spaces(n) + rest)[1..] == Spaces(n - 1) + rest;
      LeadingSpacesOf(n - 1, rest);
    }
  }

  /** No detail part can be taken for a value. */
  lemma DetailsNoValue(n: Wire, o: TextOptions)
    ensures !(VALUE_PREFIX <= Details(n, o))
  {
    hide Joined, Decimal, Signed;
    var d := Details(n, o);
    assert VALUE_PREFIX[1] == 'v';
    assert d == "" || d[1] == 's' || d[1] == 'a' || d[1] == 'b' || d[1] == 'i';
  }

  /** A name, and a value or anything that does not look like one, read back as they were. */
  lemma ReadFieldsOf(role: string, name: string, value: Option<string>, details: string)
    requires !(VALUE_PREFIX <= details)
    ensures ReadFields(role, Escaped(name) + "\"" + (ValuePart(value) + details)) == Label(role, name, value)
  {
    hide Escaped, ReadQuoted;
    var rest := ValuePart(value) + details;
    ReadQuotedEscaped(name, rest);
    match value
    case None =>
      assert rest == details;
    case Some(v) =>
      var tail := Escaped(v) + "\"" + details;
      assert rest == VALUE_PREFIX + tail;
      assert rest[|VALUE_PREFIX|..] == tail;
      ReadQuotedEscaped(v, details);
  }

  lemma LineShape(n: Wire, depth: nat, o: TextOptions)
    ensures Line(n, depth, o) ==
            Spaces(depth * o.indent) +
            (n.role + (" \"" + (Escaped(n.name) + "\"" + (ValuePart(n.value) + Details(n, o)))))
  {
    hide Spaces, Escaped, ValuePart, StatesPart, ActionsPart, BoundsPart, IdPart;
  }

  /** Behind the indent: role, a blank, a quote, the fields. */
  lemma ReadRoleLine(depth: nat, indent: nat, role: string, fields: string)
    requires indent > 0 && IsRole(role)
    ensures ReadLine(Spaces(depth * indent) + (role + (" \"" + fields)), indent) ==
            Entry(depth, ReadFields(role, fields))
  {
    LevelsExact(depth, indent);
    if role == "" {
      ReadEmptyRole(depth * indent, indent, fields);
      assert "" + (" \"" + fields) == " \"" + fields;
    } else {
      ReadSomeRole(depth * indent, indent, role, fields);
    }
  }

  lemma ReadEmptyRole(n: nat, indent: nat, fields: string)
    requires indent > 0
    ensures ReadLine(Spaces(n) + (" \"" + fields), indent) == Entry(Levels(n, indent), ReadFields("", fields))
  {
    hide ReadFields, Levels, LeadingSpaces;
    var line := Spaces(n) + (" \"" + fields);
    var quoted := "\"" + fields;
    assert line == Spaces(n + 1) + quoted;
    LeadingSpacesOf(n + 1, quoted);
    assert line[n + 1..] == quoted && quoted[1..] == fields;
  }

  lemma ReadSomeRole(n: nat, indent: nat, role: string, fields: string)
    requires indent > 0 && IsRole(role) && role != ""
    ensures ReadLine(Spaces(n) + (role + (" \"" + fields)), indent) ==
            Entry(Levels(n, indent), ReadFields(role, fields))
  {
    hide ReadFields, Levels, LeadingSpaces, Find;
    var body := role + (" \"" + fields);
    assert role[0] in role && body[0] == role[0];
    LeadingSpacesOf(n, body);
    assert (Spaces(n) + body)[n..] == body;
    assert body == role + [' '] + ("\"" + fields);
    FindAfter(role, ' ', "\"" + fields);
    assert body[..|role|] == role && body[|role| + 2..] == fields;
  }

  /** One line gives back its depth, role, name and value. */
  lemma ReadLineOf(n: Wire, depth: nat, o: TextOptions)
    requires o.indent > 0 && IsRole(n.role)
    ensures ReadLine(Line(n, depth, o), o.indent) == Entry(depth, LabelOf(n))
  {
    LineShape(n, depth, o);
    DetailsNoValue(n, o);
    ReadFieldsOf(n.role, n.name, n.value, Details(n, o));
    ReadRoleLine(depth, o.indent, n.role, Escaped(n.name) + "\"" + (ValuePart(n.value) + Details(n, o)));
  }

  lemma {:induction false} LevelsExact(d: nat, k: nat)
    requires k > 0
    ensures Levels(d * k, k) == d
  {
    if d > 0 {
      assert d * k - k == (d - 1) * k;
      LevelsExact(d - 1, k);
    }
  }

  // ----- line breaks -----

  predicate OneLine(s: string) { '\n' !in s }

  lemma {:induction false} EscapedOneLine(raw: string)
    ensures OneLine(Escaped(raw)) && '\t' !in Escaped(raw)
  {
    if raw != "" { EscapedOneLine(raw[1..]); }
  }

  /** The four escapes, spelled out; everything else stays. */
  lemma EscapedExact(c: char, rest: string)
    ensures var r, tail := Escaped([c] + rest), Escaped(rest);
            && (c == '\\' ==> r == ['\\', '\\'] + tail) && (c == '"' ==> r == ['\\', '"'] + tail)
            && (c == '\n' ==> r == ['\\', 'n'] + tail) && (c == '\t' ==> r == ['\\', 't'] + tail)
            && (c !in ['\\', '"', '\n', '\t'] ==> r == [c] + tail)
  {
    assert ([c] + rest)[1..] == rest;
  }

  lemma {:induction false} DecimalOneLine(n: nat)
    ensures OneLine(Decimal(n))
  {
    if n >= 10 { DecimalOneLine(n / 10); }
  }

  lemma SignedOneLine(v: int)
    ensures OneLine(Signed(v))
  {
    DecimalOneLine(if v < 0 then -v else v);
  }

  lemma {:induction false} JoinedOneLine(parts: seq<string>)
    ensures OneLine(Joined(parts)) <==> forall p :: p in parts ==> OneLine(p)
  {
    if |parts| > 1 {
      JoinedOneLine(parts[1..]);
      assert forall p :: p in parts <==> p == parts[0] || p in parts[1..];
      assert OneLine(Joined(parts)) <==> OneLine(parts[0]) && OneLine(Joined(parts[1..]));
    }
  }

  lemma StateNamesOneLine(states: seq<State>)
    ensures OneLine(Joined(StateNames(states)))
  {
    JoinedOneLine(StateNames(states));
  }

  predicate CleanActions(n: Wire, o: TextOptions) {
    o.includeActions ==> forall a :: a in n.actions ==> OneLine(a)
  }

  lemma DetailsOneLineIff(n: Wire, o: TextOptions)
    ensures OneLine(Details(n, o)) <==> CleanActions(n, o)
  {
    StateNamesOneLine(n.states);
    JoinedOneLine(n.actions);
    DecimalOneLine(n.id);
    if n.bounds.Some? {
      var b := n.bounds.value;
      SignedOneLine(b.x);
      SignedOneLine(b.y);
      SignedOneLine(b.w);
      SignedOneLine(b.h);
    }
    hide Joined, Decimal, Signed, StateNames;
    assert OneLine(StatesPart(n, o)) && OneLine(BoundsPart(n, o)) && OneLine(IdPart(n, o));
  }

  /** A node renders as one line exactly when no action name it shows holds a line break. */
  lemma LineOneLineIff(n: Wire, depth: nat, o: TextOptions)
    requires IsRole(n.role)
    ensures OneLine(Line(n, depth, o)) <==> CleanActions(n, o)
  {
    hide Line, Escaped, Details, CleanActions, ValuePart, OneLine;
    var tail := ValuePart(n.value) + Details(n, o);
    DetailsOneLineIff(n, o);
    ValuePartOneLine(n.value);
    OneLineConcat(ValuePart(n.value), Details(n, o));
    OneLineConcat("\"", tail);
    EscapedOneLine(n.name);
    OneLineConcat(Escaped(n.name), "\"" + tail);
    OneLineConcat(" \"", Escaped(n.name) + ("\"" + tail));
    RoleOneLine(n.role);
    OneLineConcat(n.role, " \"" + (Escaped(n.name) + ("\"" + tail)));
    OneLineConcat(Spaces(depth * o.indent), n.role + (" \"" + (Escaped(n.name) + ("\"" + tail))));
    LineShape(n, depth, o);
    QuotesOneLine(depth * o.indent);
    assert Escaped(n.name) + "\"" + tail == Escaped(n.name) + ("\"" + tail);
  }

  lemma OneLineConcat(a: string, b: string)
    ensures OneLine(a + b) <==> OneLine(a) && OneLine(b)
  {
  }

  lemma QuotesOneLine(n: nat)
    ensures OneLine("\"") && OneLine(" \"") && OneLine(Spaces(n))
  {
  }

  lemma RoleOneLine(role: string)
    requires IsRole(role)
    ensures OneLine(role)
  {
  }

  lemma ValuePartOneLine(value: Option<string>)
    ensures OneLine(ValuePart(value))
  {
    if value.Some? {
      hide Escaped;
      EscapedOneLine(value.value);
    }
  }

  lemma {:induction false} SplitJoined(lines: seq<string>)
    requires lines != [] && forall l :: l in lines ==> OneLine(l)
    ensures SplitLines(JoinedLines(lines)) == lines
  {
    var text := JoinedLines(lines);
    assert lines[0] in lines;
    if |lines| == 1 {
      FindNone(text);
    } else {
      var rest := JoinedLines(lines[1..]);
      FindAfter(lines[0], '\n', rest);
      assert text == lines[0] + ['\n'] + rest;
      assert text[..|lines[0]|] == lines[0] && text[|lines[0]| + 1..] == rest;
      SplitJoined(lines[1..]);
    }
  }

  lemma FindNone(s: string)
    requires OneLine(s)
    ensures Find(s, '\n') == |s|
  {
  }

  predicate Readable(t: Tree<Wire>, o: TextOptions) {
    forall i :: 0 <= i < |Flat(t, 0)| ==> IsRole(Flat(t, 0)[i].data.role) && CleanActions(Flat(t, 0)[i].data, o)
  }

  lemma {:induction false} FlatOfLabels(ts: seq<Tree<Wire>>, depth: nat)
    ensures |FlatAll(LabelTrees(ts), depth)| == |FlatAll(ts, depth)|
    ensures forall i :: 0 <= i < |FlatAll(ts, depth)| ==>
              FlatAll(LabelTrees(ts), depth)[i] ==
              Entry(FlatAll(ts, depth)[i].depth, LabelOf(FlatAll(ts, depth)[i].data))
    decreases ts
  {
    hide LabelOf;
    if ts != [] {
      FlatOfLabels(ts[0].children, depth + 1);
      FlatOfLabels(ts[1..], depth);
      assert LabelTrees(ts)[1..] == LabelTrees(ts[1..]);
    }
  }

  /**
   * The outline is unambiguous: with any positive indent, and whatever names and values hold,
   * reading the text gives back the tree's shape with every role, name and value; each node
   * takes exactly one line.
   */
  lemma OutlineDecodes(t: Tree<Wire>, o: TextOptions)
    requires o.indent > 0 && Readable(t, o)
    ensures var text := JoinedLines(LinesOf(Flat(t, 0), o));
            ReadOutline(text, o.indent) == [LabelTree(t)] && |SplitLines(text)| == Size(t)
  {
    hide LinesOf, ReadLines, JoinedLines, SplitLines, Readable;
    var lines := LinesOf(Flat(t, 0), o);
    EachNodeOneLine(t, o);
    SplitJoined(lines);
    ReadLinesOf(t, o);
    BuildFlat([LabelTree(t)], 0, []);
    assert FlatAll([LabelTree(t)], 0) + [] == FlatAll([LabelTree(t)], 0);
  }

  lemma EachNodeOneLine(t: Tree<Wire>, o: TextOptions)
    requires Readable(t, o)
    ensures |LinesOf(Flat(t, 0), o)| == Size(t) >= 1
    ensures forall l :: l in LinesOf(Flat(t, 0), o) ==> OneLine(l)
  {
    hide Line, OneLine, IsRole, CleanActions;
    var flat := Flat(t, 0);
    forall i | 0 <= i < |flat| ensures OneLine(LinesOf(flat, o)[i]) {
      LineOneLineIff(flat[i].data, flat[i].depth, o);
    }
  }

  lemma ReadLinesOf(t: Tree<Wire>, o: TextOptions)
    requires o.indent > 0 && Readable(t, o)
    ensures ReadLines(LinesOf(Flat(t, 0), o), o.indent) == FlatAll([LabelTree(t)], 0)
  {
    hide Line, ReadLine, IsRole, CleanActions, LabelOf;
    var flat := Flat(t, 0);
    FlatOfOne(t, 0);
    FlatOfLabels([t], 0);
    assert LabelTrees([t]) == [LabelTree(t)] by { assert [t][1..] == []; }
    forall i | 0 <= i < |flat| ensures ReadLine(LinesOf(flat, o)[i], o.indent) == FlatAll([LabelTree(t)], 0)[i] {
      ReadLineOf(flat[i].data, flat[i].depth, o);
    }
  }

  /** Every role of an answered tree is a role the outline can show. */
  lemma AnsweredRoles(before: Reg, list: seq<Entry<Source>>, o: TreeOptions, after: Reg, t: Tree<Wire>, i: nat)
    requires ProjectsTo(before, NormalEntries(list), o, after, Flat(t, 0)) && i < |Flat(t, 0)|
    ensures |Flat(t, 0)| == |list| && Flat(t, 0)[i].data.role == NormalRole(list[i].data.role)
    ensures IsRole(Flat(t, 0)[i].data.role)
  {
    hide NormalRole, Normalized, IsRole, AssignedAll, Flat;
    NormalRoleIsNormal(list[i].data.role);
    assert IsRole(NormalRole(list[i].data.role)) by { NormalIsRole(NormalRole(list[i].data.role)); }
  }

  lemma NormalIsRole(s: string)
    requires IsNormal(s)
    ensures IsRole(s)
  {
  }

  /**
   * End to end: the outline of whatever a tree request answers decodes to that very tree,
   * provided no shown action name holds a newline.
   */
  lemma AnsweredOutlineDecodes(before: Reg, list: seq<Entry<Source>>, p: TreeOptions, after: Reg, t: Tree<Wire>,
                               o: TextOptions)
    requires ProjectsTo(before, NormalEntries(list), p, after, Flat(t, 0))
    requires o.indent > 0 && forall i :: 0 <= i < |Flat(t, 0)| ==> CleanActions(Flat(t, 0)[i].data, o)
    ensures var text := JoinedLines(LinesOf(Flat(t, 0), o));
            ReadOutline(text, o.indent) == [LabelTree(t)] && |SplitLines(text)| == Size(t)
  {
    forall i | 0 <= i < |Flat(t, 0)| ensures IsRole(Flat(t, 0)[i].data.role) {
      AnsweredRoles(before, list, p, after, t, i);
    }
    hide IsRole, CleanActions, Flat;
    OutlineDecodes(t, o);
  }

  /** Without indent the shape is lost: a child and a grandchild look like two children. */
  lemma ZeroIndentLosesShape(n: Wire, o: TextOptions)
    requires o.indent == 0
    ensures var deep := Tree(n, [Tree(n, [Tree(n, [])])]);
            var flat := Tree(n, [Tree(n, []), Tree(n, [])]);
            && deep != flat
            && JoinedLines(LinesOf(Flat(deep, 0), o)) == JoinedLines(LinesOf(Flat(flat, 0), o))
  {
    var leaf := Tree(n, []);
    var deep, flat := Tree(n, [Tree(n, [leaf])]), Tree(n, [leaf, leaf]);
    FlatOfOne(leaf, 2);
    FlatOfOne(Tree(n, [leaf]), 1);
    FlatOfOne(leaf, 1);
    FlatAllAppend([leaf], [leaf], 1);
    assert [leaf] + [leaf] == [leaf, leaf];
    assert Flat(deep, 0) == [Entry(0, n), Entry(1, n), Entry(2, n)];
    assert Flat(flat, 0) == [Entry(0, n), Entry(1, n), Entry(1, n)];
    assert Line(n, 2, o) == Line(n, 1, o);
    hide Line;
    assert LinesOf(Flat(deep, 0), o) == LinesOf(Flat(flat, 0), o);
    assert |deep.children| != |flat.children|;
  }

  // ----- the details -----

  function SplitCommas(text: string): seq<string>
    decreases |text|
  {
    var n := Find(text, ',');
    if n == |text| then [text] else [text[..n]] + SplitCommas(text[n + 1..])
  }

  lemma {:induction false} CommasJoined(parts: seq<string>)
    requires parts != [] && forall p :: p in parts ==> ',' !in p
    ensures SplitCommas(Joined(parts)) == parts
  {
    assert parts[0] in parts;
    hide SplitCommas, Find;
    if |parts| == 1 {
      SplitLast(parts[0]);
    } else {
      var rest := Joined(parts[1..]);
      assert Joined(parts) == parts[0] + [','] + rest;
      hide *;
      SplitFirst(parts[0], rest);
      CommasJoined(parts[1..]);
    }
  }

  lemma SplitLast(part: string)
    requires ',' !in part
    ensures SplitCommas(part) == [part]
  {
    hide Find;
  }

  lemma SplitFirst(part: string, rest: string)
    requires ',' !in part
    ensures SplitCommas(part + [','] + rest) == [part] + SplitCommas(rest)
  {
    var text := part + [','] + rest;
    FindAfter(part, ',', rest);
    assert text[..|part|] == part && text[|part| + 1..] == rest;
    hide Find;
  }

  /** The states can be read back, in order. */
  lemma StatesReadable(n: Wire, o: TextOptions)
    requires o.includeStates && n.states != []
    ensures exists list ::
              && StatesPart(n, o) == " states=[" + list + "]" && |SplitCommas(list)| == |n.states|
              && forall i :: 0 <= i < |n.states| ==>
                   SplitCommas(list)[i] != "" && StateOf(SplitCommas(list)[i]) == n.states[i]
  {
    var names := StateNames(n.states);
    forall p | p in names ensures ',' !in p {
      var i :| 0 <= i < |names| && names[i] == p;
      StateNamePlain(n.states[i]);
    }
    forall i | 0 <= i < |names| ensures names[i] != "" && StateOf(names[i]) == n.states[i] { StateReads(n.states[i]); }
    hide StateName, Joined, SplitCommas, StateOf;
    CommasJoined(names);
    var list := Joined(names);
    assert StatesPart(n, o) == " states=[" + list + "]";
  }

  lemma StateNamePlain(s: State)
    ensures forall c :: c in StateName(s) ==> 'a' <= c <= 'z' || c == '_'
  {
  }

  /** The state an outline names. */
  function StateOf(name: string): State
    requires name != ""
  {
    match name[0]
    case 'e' => if name == "enabled" then Enabled else if name == "editable" then Editable
                else if name == "expandable" then Expandable else Expanded
    case 's' => if name == "sensitive" then Sensitive else if name == "showing" then Showing
                else if name == "selectable" then Selectable else Selected
    case 'v' => Visible
    case 'f' => if name == "focusable" then Focusable else Focused
    case 'c' => if name == "checkable" then Checkable else if name == "checked" then Checked else Collapsed
    case 'm' => if name == "multiline" then Multiline else Modal
    case 'r' => ReadOnly
    case 'p' => Pressed
    case 'a' => Active
    case 'b' => Busy
    case 'd' => Defunct
    case _ => Invalid
  }

  /** The names are the ones the protocol uses, and tell the states apart. */
  lemma StateReads(s: State)
    ensures StateName(s) != "" && StateOf(StateName(s)) == s
  {
  }

  /** So can the actions, unless one of them holds a comma. */
  lemma ActionsReadable(n: Wire, o: TextOptions)
    requires o.includeActions && n.actions != [] && forall a :: a in n.actions ==> ',' !in a
    ensures exists list :: ActionsPart(n, o) == " actions=[" + list + "]" && SplitCommas(list) == n.actions
  {
    CommasJoined(n.actions);
    var list := Joined(n.actions);
    hide Joined, SplitCommas;
    assert ActionsPart(n, o) == " actions=[" + list + "]";
  }

  /** The number a text spells, with a minus sign for the negative ones. */
  function SpelledSigned(text: string): int {
    if text != "" && text[0] == '-' then -Spelled(text[1..]) else Spelled(text)
  }

  lemma SignedSpells(v: int)
    ensures SpelledSigned(Signed(v)) == v && ',' !in Signed(v)
  {
    DecimalSpells(if v < 0 then -v else v);
    if v < 0 {
      assert ("-" + Decimal(-v))[1..] == Decimal(-v);
    } else {
      assert Decimal(v)[0] in Decimal(v);
    }
    hide Decimal, Spelled;
  }

  /** The bounds read left, top, width, height; the id reads as itself. */
  lemma BoundsAndIdReadable(n: Wire, o: TextOptions)
    ensures o.includeIds ==> IdPart(n, o)[..4] == " id=" && Spelled(IdPart(n, o)[4..]) == n.id
    ensures o.includeBounds && n.bounds.Some? ==>
              BoundsPart(n, o)[..8] == " bounds=" && |SplitCommas(BoundsPart(n, o)[8..])| == 4
    ensures o.includeBounds && n.bounds.Some? ==>
              var numbers, b := SplitCommas(BoundsPart(n, o)[8..]), n.bounds.value;
              && SpelledSigned(numbers[0]) == b.x && SpelledSigned(numbers[1]) == b.y
              && SpelledSigned(numbers[2]) == b.w && SpelledSigned(numbers[3]) == b.h
  {
    DecimalSpells(n.id);
    hide Decimal, Spelled, Signed, SpelledSigned, SplitCommas, Joined;
    if o.includeIds { assert IdPart(n, o)[4..] == Decimal(n.id); }
    if o.includeBounds && n.bounds.Some? {
      var b := n.bounds.value;
      SignedSpells(b.x);
      SignedSpells(b.y);
      SignedSpells(b.w);
      SignedSpells(b.h);
      FourNumbers(Signed(b.x), Signed(b.y), Signed(b.w), Signed(b.h));
      assert BoundsPart(n, o)[8..] ==
             Signed(b.x) + "," + Signed(b.y) + "," + Signed(b.w) + "," + Signed(b.h);
    }
  }

  lemma FourNumbers(a: string, b: string, c: string, d: string)
    requires ',' !in a && ',' !in b && ',' !in c && ',' !in d
    ensures SplitCommas(a + "," + b + "," + c + "," + d) == [a, b, c, d]
  {
    hide *;
    SplitLast(d);
    SplitFirst(c, d);
    SplitFirst(b, c + "," + d);
    SplitFirst(a, b + "," + (c + "," + d));
    assert a + "," + b + "," + c + "," + d == a + "," + (b + "," + (c + "," + d));
  }

  const SAMPLE := Wire(4, "entry", "", None, Some("report.txt"), [Focused],
                       Some(Geometry.Rect(88, 0, 400, 24)), ["set_value"])

  const SAMPLE_OPTIONS := TextOptions(2, true, true, true, true)

  /** The documented sample line: the parts and their order, spelled out. */
  lemma SampleLine()
    ensures Line(SAMPLE, 2, SAMPLE_OPTIONS) ==
            "    " + "entry" + " \"" + "" + "\"" + " value=\"report.txt\"" + " states=[focused]" +
            " actions=[set_value]" + " bounds=88,0,400,24" + " id=4"
  {
    SampleParts();
    SampleValue();
    assert Spaces(4) == "    ";
    hide Spaces, Escaped, ValuePart, StatesPart, ActionsPart, BoundsPart, IdPart;
  }

  lemma SampleParts()
    ensures ValuePart(SAMPLE.value) == " value=\"report.txt\""
    ensures StatesPart(SAMPLE, SAMPLE_OPTIONS) == " states=[focused]"
    ensures ActionsPart(SAMPLE, SAMPLE_OPTIONS) == " actions=[set_value]"
    ensures BoundsPart(SAMPLE, SAMPLE_OPTIONS) == " bounds=88,0,400,24"
    ensures IdPart(SAMPLE, SAMPLE_OPTIONS) == " id=4"
  {
    SampleValue();
    SampleLists();
    SampleBounds();
    SampleNumbers();
    hide Decimal, Escaped, StateNames, StateName, StatesPart, ActionsPart, BoundsPart;
  }

  lemma SampleLists()
    ensures StatesPart(SAMPLE, SAMPLE_OPTIONS) == " states=[focused]"
    ensures ActionsPart(SAMPLE, SAMPLE_OPTIONS) == " actions=[set_value]"
  {
    var names := StateNames([Focused]);
    assert names == ["focused"];
    hide StateNames, StateName;
  }

  lemma SampleBounds()
    ensures BoundsPart(SAMPLE, SAMPLE_OPTIONS) == " bounds=88,0,400,24"
  {
    SampleNumbers();
    hide Decimal;
    assert Signed(88) == "88" && Signed(0) == "0" && Signed(400) == "400" && Signed(24) == "24";
    hide Signed;
  }

  lemma SampleNumbers()
    ensures Decimal(88) == "88" && Decimal(0) == "0" && Decimal(400) == "400" && Decimal(24) == "24"
            && Decimal(4) == "4"
  {
    assert Decimal(8) == "8" && Decimal(2) == "2" && Decimal(40) == "40";
  }

  lemma SampleValue()
    ensures Escaped("") == "" && Escaped("report.txt") == "report.txt"
  {
    EscapedEmpty();
    hide Escaped;
    EscapedPlain("report.txt");
  }

  lemma {:induction false} EscapedPlain(s: string)
    requires forall c :: c in s ==> c != '\\' && c != '"' && c != '\n' && c != '\t'
    ensures Escaped(s) == s
  {
    if s != "" {
      assert s[0] in s && forall c :: c in s[1..] ==> c in s;
      EscapedPlain(s[1..]);
    }
  }
}

// The `Exec` value: splitting it into arguments (stage 2) and expanding field codes, and
// the quoting that both undo together with the file parser.

module ExecLine {
  import opened Core
  import opened DesktopFile

  datatype ExecError = UnterminatedQuote(offset: nat)

  predicate IsAsciiWhite(c: char) { c == ' ' || c == '\t' || c == '\n' || c == '\r' || c as int == 0x0c }

  predicate IsQuotable(c: char) { c == '"' || c == '`' || c == '$' || c == '\\' }

  // ----- tokenizer -----

  /** Tokens so far, the one being built, and the byte offset of an open quote. */
  datatype Scan = Scan(tokens: seq<string>, current: string, started: bool, quote: Option<nat>)

  /** One step of the scan: the new state, the characters it took, and their bytes. */
  function ScanStep(st: Scan, s: string, offset: nat): (Scan, nat, nat)
    requires s != ""
    ensures 1 <= ScanStep(st, s, offset).1 <= |s|
  {
    var bytes := Utf8Len(s[0]);
    if s[0] == '"' then
      (st.(quote := if st.quote.Some? then None else Some(offset), started := true), 1, bytes)
    else if s[0] == '\\' then
      if |s| > 1 && IsQuotable(s[1])
      then (st.(current := st.current + [s[1]], started := true), 2, bytes + Utf8Len(s[1]))
      else (st.(current := st.current + "\\", started := true), 1, bytes)
    else if st.quote.None? && IsAsciiWhite(s[0]) then
      (if st.started then Scan(st.tokens + [st.current], "", false, None) else st, 1, bytes)
    else
      (st.(current := st.current + [s[0]], started := true), 1, bytes)
  }

  function ScanAll(st: Scan, s: string, offset: nat): Scan
    decreases |s|
  {
    if s == "" then st
    else
      var (st', n, bytes) := ScanStep(st, s, offset);
      ScanAll(st', s[n..], offset + bytes)
  }

  const START := Scan([], "", false, None)

  function Close(st: Scan): Result<seq<string>, ExecError> {
    if st.quote.Some? then Err(UnterminatedQuote(st.quote.value))
    else Ok(if st.started then st.tokens + [st.current] else st.tokens)
  }

  function Tokens(exec: string): Result<seq<string>, ExecError> {
    Close(ScanAll(START, exec, 0))
  }

  method Tokenize(exec: string) returns (r: Result<seq<string>, ExecError>)
    ensures r == Tokens(exec)
  {
    hide ScanAll, ScanStep;
    var st := START;
    var i: nat, index: nat := 0, 0;
    assert exec[0..] == exec;
    while i < |exec|
      invariant i <= |exec| && ScanAll(st, exec[i..], index) == ScanAll(START, exec, 0)
    {
      ScanAllStep(st, exec[i..], index);
      ghost var from := i;
      st, i, index := ScanChar(exec, st, i, index);
      Behind(exec, from, i);
    }
    assert exec[i..] == "";
    ScanAllDone(st, index);
    return Close(st);
  }

  /** One round of the scan: takes a character, or a backslash and what it quotes. */
  method ScanChar(exec: string, before: Scan, i: nat, index: nat) returns (st: Scan, i': nat, index': nat)
    requires i < |exec|
    ensures i < i' <= |exec| && index <= index'
    ensures (st, i' - i, index' - index) == ScanStep(before, exec[i..], index)
  {
    hide Utf8Len, IsAsciiWhite, IsQuotable;
    st := before;
    var ch := exec[i];
    i', index' := i + 1, index + Utf8Len(ch);
    if ch == '"' {
      st := st.(quote := if st.quote.Some? then None else Some(index), started := true);
    } else if ch == '\\' {
      if i' < |exec| && IsQuotable(exec[i']) {
        st := st.(current := st.current + [exec[i']]);
        i', index' := i' + 1, index' + Utf8Len(exec[i']);
      } else {
        st := st.(current := st.current + "\\");
      }
      st := st.(started := true);
    } else if st.quote.None? && IsAsciiWhite(ch) {
      if st.started {
        st := st.(tokens := st.tokens + [st.current], current := "", started := false);
      }
    } else {
      st := st.(current := st.current + [ch], started := true);
    }
  }

  lemma Behind(s: string, from: nat, to: nat)
    requires from <= to <= |s|
    ensures s[from..][to - from..] == s[to..]
  {
  }

  lemma ScanAllStep(st: Scan, s: string, offset: nat)
    requires s != ""
    ensures var (st', n, bytes) := ScanStep(st, s, offset);
            ScanAll(st, s, offset) == ScanAll(st', s[n..], offset + bytes)
  {
  }

  lemma ScanAllDone(st: Scan, offset: nat)
    ensures ScanAll(st, "", offset) == st && ActiveQuotes("") == 0
  {
  }

  /** Quotes that open or close a section: those not resolved by a backslash. */
  function ActiveQuotes(s: string): nat
    decreases |s|
  {
    if s == "" then 0
    else if s[0] == '\\' && |s| > 1 && IsQuotable(s[1]) then ActiveQuotes(s[2..])
    else (if s[0] == '"' then 1 else 0) + ActiveQuotes(s[1..])
  }

  /** An `Exec` value is refused exactly when its active quotes do not pair up. */
  lemma RefusedIffUnpaired(exec: string)
    ensures Tokens(exec).Err? <==> ActiveQuotes(exec) % 2 == 1
  {
    QuoteParity(START, exec, 0);
  }

  /** A step flips the open state exactly when it takes an active quote. */
  lemma QuoteStep(st: Scan, s: string, offset: nat)
    requires s != ""
    ensures var (st', n, bytes) := ScanStep(st, s, offset);
            && 0 < n <= |s|
            && ActiveQuotes(s) == ActiveQuotes(s[n..]) + if st'.quote.Some? != st.quote.Some? then 1 else 0
  {
    hide IsQuotable, IsAsciiWhite, Utf8Len;
  }

  lemma {:induction false} QuoteParity(st: Scan, s: string, offset: nat)
    ensures ScanAll(st, s, offset).quote.Some? <==>
              (ActiveQuotes(s) + if st.quote.Some? then 1 else 0) % 2 == 1
    decreases |s|
  {
    if s != "" {
      QuoteStep(st, s, offset);
      var (st', n, bytes) := ScanStep(st, s, offset);
      hide ScanStep, ActiveQuotes;
      QuoteParity(st', s[n..], offset + bytes);
    }
  }

  /** An unterminated quote is reported at its byte offset: nothing behind it is an active quote. */
  lemma OffsetIsOpenQuote(exec: string)
    requires Tokens(exec).Err?
    ensures exists i :: 0 <= i < |exec| && exec[i] == '"' && ActiveQuotes(exec[i + 1..]) == 0
              && Tokens(exec) == Err(UnterminatedQuote(ByteLen(exec[..i])))
  {
    var i := OpenQuoteAt(START, exec, 0);
    hide ScanAll, ActiveQuotes, ByteLen;
  }

  /** The quote left open is one that was open before, or the last active one. */
  lemma {:induction false} OpenQuoteAt(st: Scan, s: string, offset: nat) returns (i: nat)
    requires ScanAll(st, s, offset).quote.Some?
    ensures var o := ScanAll(st, s, offset).quote.value;
            (st.quote == Some(o) && ActiveQuotes(s) == 0) || OpenedAt(s, offset, o, i)
    decreases |s|
  {
    hide *;
    i := 0;
    if s == "" {
      ScanAllDone(st, offset);
    } else {
      var st', n := QuoteStepAt(st, s, offset);
      var o := ScanAll(st, s, offset).quote.value;
      var j := OpenQuoteAt(st', s[n..], offset + ByteLen(s[..n]));
      if OpenedAt(s[n..], offset + ByteLen(s[..n]), o, j) {
        i := n + j;
        Shifted(s, n, j, offset, o);
      }
    }
  }

  lemma QuoteStepAt(st: Scan, s: string, offset: nat) returns (st': Scan, n: nat)
    requires s != ""
    ensures 1 <= n <= |s| && ScanAll(st, s, offset) == ScanAll(st', s[n..], offset + ByteLen(s[..n]))
    ensures st'.quote.Some? && ActiveQuotes(s[n..]) == 0 ==>
              (st'.quote == st.quote && ActiveQuotes(s) == 0) || OpenedAt(s, offset, st'.quote.value, 0)
  {
    hide *;
    st', n := ScanStep(st, s, offset).0, ScanStep(st, s, offset).1;
    QuoteStep(st, s, offset);
    StepBytes(st, s, offset);
    ScanAllStep(st, s, offset);
    if st'.quote.Some? && st'.quote != st.quote && ActiveQuotes(s[n..]) == 0 { OpenedHere(st, s, offset); }
  }

  /** Behind the quote at `i` there is no active one, and it stands at byte `o`. */
  predicate OpenedAt(s: string, offset: nat, o: nat, i: nat) {
    i < |s| && s[i] == '"' && ActiveQuotes(s[i + 1..]) == 0 && o == offset + ByteLen(s[..i])
  }

  lemma OpenedHere(st: Scan, s: string, offset: nat)
    requires s != ""
    requires var (st', n, bytes) := ScanStep(st, s, offset);
             st'.quote.Some? && st'.quote != st.quote && ActiveQuotes(s[n..]) == 0
    ensures OpenedAt(s, offset, ScanStep(st, s, offset).0.quote.value, 0)
  {
    OpeningStep(st, s, offset);
    hide ScanStep, ActiveQuotes, ByteLen;
  }

  lemma Shifted(s: string, n: nat, j: nat, offset: nat, o: nat)
    requires n <= |s| && OpenedAt(s[n..], offset + ByteLen(s[..n]), o, j)
    ensures OpenedAt(s, offset, o, n + j)
  {
    hide ByteLen, ActiveQuotes;
    Slices(s, n, j);
    ByteLenAppend(s[..n], s[n..][..j]);
  }

  lemma Slices(s: string, n: nat, j: nat)
    requires n + j < |s|
    ensures s[n..][j] == s[n + j] && s[n..][j + 1..] == s[n + j + 1..]
    ensures s[..n + j] == s[..n] + s[n..][..j]
  {
  }

  lemma StepBytes(st: Scan, s: string, offset: nat)
    requires s != ""
    ensures var (st', n, bytes) := ScanStep(st, s, offset); bytes == ByteLen(s[..n])
  {
    hide Utf8Len;
    ByteLenOne(s[0]);
    assert s[..1] == [s[0]];
    if |s| > 1 {
      ByteLenOne(s[1]);
      ByteLenAppend([s[0]], [s[1]]);
      assert s[..2] == [s[0]] + [s[1]];
    }
    hide ByteLen;
  }

  lemma ByteLenOne(c: char)
    ensures ByteLen([c]) == Utf8Len(c)
  {
    hide Utf8Len;
    assert Front([c]) == "" && Last([c]) == c;
    assert ByteLen("") == 0;
  }

  /** Only a quote opens a section, and it opens it where it stands. */
  lemma OpeningStep(st: Scan, s: string, offset: nat)
    requires s != "" && ScanStep(st, s, offset).0.quote.Some? && ScanStep(st, s, offset).0.quote != st.quote
    ensures s[0] == '"' && ScanStep(st, s, offset).0.quote == Some(offset) && ScanStep(st, s, offset).1 == 1
    ensures ByteLen(s[..0]) == 0
  {
  }

  // ----- field codes -----

  datatype Context = Context(name: string, icon: Option<string>, desktopFile: Option<string>, files: seq<string>)

  predicate IsDeprecated(c: char) { c == 'd' || c == 'D' || c == 'n' || c == 'N' || c == 'v' || c == 'm' }

  function Code(c: char, ctx: Context): string {
    if c == 'c' then ctx.name
    else if c == 'k' then (match ctx.desktopFile case Some(path) => path case None => "")
    else if c == '%' then "%"
    else if IsDeprecated(c) then ""
    else ['%', c]
  }

  function Substituted(token: string, ctx: Context): string {
    if token == "" then ""
    else if token[0] != '%' then [token[0]] + Substituted(token[1..], ctx)
    else if |token| == 1 then "%"
    else Code(token[1], ctx) + Substituted(token[2..], ctx)
  }

  function ExpandedToken(token: string, ctx: Context): seq<string> {
    if token == "" then [""]
    else if token == "%f" || token == "%u" then (if ctx.files == [] then [] else [ctx.files[0]])
    else if token == "%F" || token == "%U" then ctx.files
    else if token == "%i" then (match ctx.icon case Some(icon) => ["--icon", icon] case None => [])
    else
      var expanded := Substituted(token, ctx);
      if expanded == "" then [] else [expanded]
  }

  function Expanded(tokens: seq<string>, ctx: Context): seq<string> {
    if tokens == [] then [] else ExpandedToken(tokens[0], ctx) + Expanded(tokens[1..], ctx)
  }

  method Substitute(token: string, ctx: Context) returns (out: string)
    ensures out == Substituted(token, ctx)
  {
    hide *;
    out := "";
    var i := 0;
    assert token[0..] == token && "" + Substituted(token, ctx) == Substituted(token, ctx);
    while i < |token|
      invariant 0 <= i <= |token|
      invariant out + Substituted(token[i..], ctx) == Substituted(token, ctx)
    {
      SubstitutedStep(out, token[i..], ctx);
      var ch := token[i];
      i := i + 1;
      assert token[i - 1..][1..] == token[i..];
      if ch != '%' {
        out := out + [ch];
      } else if i == |token| {
        out := out + "%";
        assert token[i..] == "";
      } else {
        assert token[i - 1..][1] == token[i] && token[i - 1..][2..] == token[i + 1..];
        out := out + Code(token[i], ctx);
        i := i + 1;
      }
    }
    assert token[i..] == "";
    SubstitutedNothing(out, ctx);
  }

  /** One character, or one field code, moves from what is left to the result. */
  lemma SubstitutedStep(done: string, left: string, ctx: Context)
    requires left != ""
    ensures left[0] != '%' ==> (done + [left[0]]) + Substituted(left[1..], ctx) == done + Substituted(left, ctx)
    ensures left == "%" ==> (done + "%") + Substituted("", ctx) == done + Substituted(left, ctx)
    ensures left[0] == '%' && |left| > 1 ==>
              (done + Code(left[1], ctx)) + Substituted(left[2..], ctx) == done + Substituted(left, ctx)
  {
    hide Code;
  }

  lemma SubstitutedNothing(done: string, ctx: Context)
    ensures done + Substituted("", ctx) == done
  {
  }

  /** The arguments one token turns into. */
  method ExpandToken(token: string, ctx: Context) returns (out: seq<string>)
    ensures out == ExpandedToken(token, ctx)
  {
    if token == "" {
      return [""];
    }
    if token == "%f" || token == "%u" {
      return if ctx.files != [] then [ctx.files[0]] else [];
    }
    if token == "%F" || token == "%U" {
      return ctx.files;
    }
    if token == "%i" {
      return match ctx.icon case Some(icon) => ["--icon", icon] case None => [];
    }
    var expanded := Substitute(token, ctx);
    return if expanded != "" then [expanded] else [];
  }

  method ExpandTokens(tokens: seq<string>, ctx: Context) returns (out: seq<string>)
    ensures out == Expanded(tokens, ctx)
  {
    hide ExpandedToken;
    out := [];
    for k := 0 to |tokens|
      invariant out + Expanded(tokens[k..], ctx) == Expanded(tokens, ctx)
    {
      var args := ExpandToken(tokens[k], ctx);
      assert tokens[k..][1..] == tokens[k + 1..];
      assert out + (args + Expanded(tokens[k + 1..], ctx)) == (out + args) + Expanded(tokens[k + 1..], ctx);
      out := out + args;
    }
  }

  method Expand(exec: string, ctx: Context) returns (r: Result<seq<string>, ExecError>)
    ensures Tokens(exec).Ok? ==> r == Ok(Expanded(Tokens(exec).value, ctx))
    ensures Tokens(exec).Err? ==> r == Err(Tokens(exec).error)
  {
    var tokens := Tokenize(exec);
    match tokens
    case Ok(ts) =>
      var out := ExpandTokens(ts, ctx);
      return Ok(out);
    case Err(e) =>
      return Err(e);
  }

  // ----- what each code becomes -----

  lemma {:induction false} SubstitutedBehind(text: string, rest: string, ctx: Context)
    requires '%' !in text
    ensures Substituted(text + rest, ctx) == text + Substituted(rest, ctx)
  {
    hide Code;
    if text == "" {
      assert text + rest == rest;
    } else {
      assert text[0] in text && (text + rest)[0] == text[0] && (text + rest)[1..] == text[1..] + rest;
      SubstitutedBehind(text[1..], rest, ctx);
      assert [text[0]] + (text[1..] + Substituted(rest, ctx)) == text + Substituted(rest, ctx);
    }
  }

  /** A text in front of a field code stays, and the code becomes what stands for it. */
  lemma SubstitutedCode(text: string, code: char, rest: string, ctx: Context)
    requires '%' !in text
    ensures var r := Substituted(text + (['%', code] + rest), ctx);
            var tail := Substituted(rest, ctx);
            && (code == '%' ==> r == text + ("%" + tail))
            && (code == 'c' ==> r == text + (ctx.name + tail))
            && (code == 'k' && ctx.desktopFile.Some? ==> r == text + (ctx.desktopFile.value + tail))
            && (code == 'k' && ctx.desktopFile.None? ==> r == text + tail)
            && (code in ['d', 'D', 'n', 'N', 'v', 'm'] ==> r == text + tail)
            && (code !in ['%', 'c', 'k', 'd', 'D', 'n', 'N', 'v', 'm'] ==> r == text + (['%', code] + tail))
  {
    SubstitutedBehind(text, ['%', code] + rest, ctx);
    OneCode(code, rest, ctx);
    CodeCases(code, ctx);
    hide Code, Substituted;
    assert "" + Substituted(rest, ctx) == Substituted(rest, ctx);
  }

  lemma OneCode(code: char, rest: string, ctx: Context)
    ensures Substituted(['%', code] + rest, ctx) == Code(code, ctx) + Substituted(rest, ctx)
  {
    hide Code;
    var all := ['%', code] + rest;
    assert all[0] == '%' && all[1] == code && all[2..] == rest;
  }

  lemma CodeCases(code: char, ctx: Context)
    ensures code == '%' ==> Code(code, ctx) == "%"
    ensures code == 'c' ==> Code(code, ctx) == ctx.name
    ensures code == 'k' ==> Code(code, ctx) == if ctx.desktopFile.Some? then ctx.desktopFile.value else ""
    ensures code in ['d', 'D', 'n', 'N', 'v', 'm'] ==> Code(code, ctx) == ""
    ensures code !in ['%', 'c', 'k', 'd', 'D', 'n', 'N', 'v', 'm'] ==> Code(code, ctx) == ['%', code]
  {
  }

  /** Text without a percent sign is kept; a percent sign at the very end stands for itself. */
  lemma {:induction false} SubstitutedText(text: string, ctx: Context)
    requires '%' !in text
    ensures Substituted(text, ctx) == text && Substituted(text + "%", ctx) == text + "%"
  {
    if text != "" {
      assert text[0] in text && '%' !in text[1..];
      assert (text + "%")[1..] == text[1..] + "%";
      SubstitutedText(text[1..], ctx);
    }
  }

  lemma ExpandedSingle(token: string, ctx: Context)
    ensures Expanded([token], ctx) == ExpandedToken(token, ctx)
  {
    hide ExpandedToken;
    var one := [token];
    assert one[1..] == [] && ExpandedToken(token, ctx) + [] == ExpandedToken(token, ctx);
  }

  /** A code that is the whole argument. */
  lemma ExpandedOwn(code: char, ctx: Context)
    ensures var r := Expanded([['%', code]], ctx);
            && (code in ['f', 'u'] ==> r == if ctx.files == [] then [] else [ctx.files[0]])
            && (code in ['F', 'U'] ==> r == ctx.files)
            && (code == 'i' && ctx.icon.Some? ==> r == ["--icon", ctx.icon.value])
            && (code == 'i' && ctx.icon.None? ==> r == [])
            && (code == 'c' ==> r == if ctx.name == "" then [] else [ctx.name])
            && (code == 'k' ==> r == if ctx.desktopFile in [None, Some("")] then [] else [ctx.desktopFile.value])
            && (code in ['d', 'D', 'n', 'N', 'v', 'm'] ==> r == [])
  {
    var token := ['%', code];
    ExpandedSingle(token, ctx);
    SubstitutedAlone(code, ctx);
    assert token[1] == code;
    hide Substituted, Expanded;
  }

  lemma SubstitutedAlone(code: char, ctx: Context)
    ensures Substituted(['%', code], ctx) == Code(code, ctx)
  {
    hide Code;
    assert ['%', code][2..] == "";
  }

  /** A code with text around it is replaced in place; the codes that own an argument stay. */
  lemma ExpandedInner(a: string, code: char, b: string, ctx: Context)
    requires '%' !in a && '%' !in b && (a != "" || b != "")
    ensures var r := Expanded([a + (['%', code] + b)], ctx);
            && (code in ['f', 'u', 'F', 'U', 'i'] ==> r == [a + (['%', code] + b)])
            && (code == 'c' ==> r == [a + (ctx.name + b)])
            && (code == 'k' && ctx.desktopFile.Some? ==> r == [a + (ctx.desktopFile.value + b)])
            && (code == 'k' && ctx.desktopFile.None? ==> r == [a + b])
            && (code in ['d', 'D', 'n', 'N', 'v', 'm'] ==> r == [a + b])
            && (code == '%' ==> r == [a + ("%" + b)])
  {
    var token := a + (['%', code] + b);
    ExpandedSingle(token, ctx);
    SubstitutedCode(a, code, b, ctx);
    SubstitutedText(b, ctx);
    assert |token| > 2;
    hide Substituted, Expanded;
  }

  /** Codes do not reach into their neighbours: a list expands argument by argument. */
  lemma {:induction false} ExpandedAppend(a: seq<string>, b: seq<string>, ctx: Context)
    ensures Expanded(a + b, ctx) == Expanded(a, ctx) + Expanded(b, ctx)
    ensures Expanded([""], ctx) == [""]
  {
    hide ExpandedToken;
    assert Expanded([""], ctx) == [""] by { EmptyKept(ctx); }
    if a == [] {
      assert a + b == b;
    } else {
      assert (a + b)[0] == a[0] && (a + b)[1..] == a[1..] + b;
      ExpandedAppend(a[1..], b, ctx);
    }
  }

  lemma EmptyKept(ctx: Context)
    ensures Expanded([""], ctx) == [""]
  {
    var one: seq<string> := [""];
    assert one[1..] == [];
  }

  // ----- the inverse -----

  function DoublePercent(s: string): string {
    if s == "" then "" else (if s[0] == '%' then "%%" else [s[0]]) + DoublePercent(s[1..])
  }

  function Backslashed(s: string): string {
    if s == "" then "" else (if IsQuotable(s[0]) then ['\\', s[0]] else [s[0]]) + Backslashed(s[1..])
  }

  function Quoted(arg: string): string { "\"" + Backslashed(DoublePercent(arg)) + "\"" }

  /** Quoted arguments, separated by blanks. */
  function ExecValue(args: seq<string>): string {
    if args == [] then ""
    else if |args| == 1 then Quoted(args[0])
    else Quoted(args[0]) + " " + ExecValue(args[1..])
  }

  /** Inside quotes, a backslashed text adds exactly itself to the token. */
  lemma {:induction false} ScanBackslashed(st: Scan, s: string, rest: string, offset: nat) returns (o: nat)
    requires st.quote.Some? && st.started
    ensures ScanAll(st, Backslashed(s) + "\"" + rest, offset) ==
            ScanAll(st.(current := st.current + s, quote := None), rest, o)
    decreases |s|
  {
    hide ScanAll, ScanStep, Utf8Len;
    var text := Backslashed(s) + "\"" + rest;
    if s == "" {
      assert text == ['"'] + rest;
      ScanOneQuote(st, rest, offset);
      assert st.current + s == st.current;
      o := offset + Utf8Len('"');
    } else {
      var e := if IsQuotable(s[0]) then ['\\', s[0]] else [s[0]];
      var tail := Backslashed(s[1..]) + "\"" + rest;
      assert text == e + tail;
      hide Backslashed;
      var bytes := ScanOneWritten(st, s[0], tail, offset);
      var st' := st.(current := st.current + [s[0]]);
      o := ScanBackslashed(st', s[1..], rest, offset + bytes);
      assert st'.current + s[1..] == st.current + s;
    }
  }

  lemma ScanOneQuote(st: Scan, rest: string, offset: nat)
    requires st.quote.Some? && st.started
    ensures ScanAll(st, ['"'] + rest, offset) == ScanAll(st.(quote := None), rest, offset + Utf8Len('"'))
  {
    hide Utf8Len;
    assert (['"'] + rest)[1..] == rest;
  }

  /** Inside quotes one step takes one written character. */
  lemma ScanOneWritten(st: Scan, c: char, tail: string, offset: nat) returns (bytes: nat)
    requires st.quote.Some? && st.started
    ensures var e := if IsQuotable(c) then ['\\', c] else [c];
            ScanAll(st, e + tail, offset) == ScanAll(st.(current := st.current + [c]), tail, offset + bytes)
  {
    hide Utf8Len, IsAsciiWhite;
    var e := if IsQuotable(c) then ['\\', c] else [c];
    var text := e + tail;
    assert text[|e|..] == tail && text[0] == e[0] && (|e| == 2 ==> text[1] == c);
    bytes := ScanStep(st, text, offset).2;
  }

  lemma OpenQuote(st: Scan, text: string, offset: nat)
    requires st.quote.None?
    ensures ScanAll(st, "\"" + text, offset) ==
            ScanAll(st.(quote := Some(offset), started := true), text, offset + Utf8Len('"'))
  {
    assert ("\"" + text)[1..] == text;
  }

  /** A quoted argument in front of `rest` becomes the current token. */
  lemma ScanQuoted(st: Scan, arg: string, rest: string, offset: nat) returns (o: nat)
    requires st.quote.None? && !st.started && st.current == ""
    ensures ScanAll(st, Quoted(arg) + rest, offset) ==
            ScanAll(Scan(st.tokens, DoublePercent(arg), true, None), rest, o)
  {
    var d := DoublePercent(arg);
    var text := Backslashed(d) + "\"" + rest;
    assert Quoted(arg) + rest == "\"" + text;
    var open := st.(quote := Some(offset), started := true);
    OpenQuote(st, text, offset);
    hide ScanAll, ScanStep, Backslashed, DoublePercent;
    assert open.current + d == d;
    o := ScanBackslashed(open, d, rest, offset + Utf8Len('"'));
  }

  /** A blank behind it closes the current token. */
  lemma ScanBlank(tokens: seq<string>, token: string, rest: string, offset: nat) returns (o: nat)
    ensures ScanAll(Scan(tokens, token, true, None), " " + rest, offset) ==
            ScanAll(Scan(tokens + [token], "", false, None), rest, o)
  {
    assert (" " + rest)[1..] == rest;
    o := offset + Utf8Len(' ');
  }

  lemma {:induction false} ScanExecValue(st: Scan, args: seq<string>, offset: nat)
    requires st.quote.None? && !st.started && st.current == ""
    ensures Close(ScanAll(st, ExecValue(args), offset)) == Ok(st.tokens + Doubled(args))
    decreases |args|
  {
    hide Quoted, DoublePercent, ScanStep;
    if args == [] {
      assert st.tokens + Doubled(args) == st.tokens;
    } else {
      var d := DoublePercent(args[0]);
      assert st.tokens + Doubled(args) == (st.tokens + [d]) + Doubled(args[1..]);
      if |args| == 1 {
        assert ExecValue(args) == Quoted(args[0]) + "";
        var o := ScanQuoted(st, args[0], "", offset);
        assert (st.tokens + [d]) + Doubled(args[1..]) == st.tokens + [d];
      } else {
        hide ScanAll;
        var rest := ExecValue(args[1..]);
        assert ExecValue(args) == Quoted(args[0]) + (" " + rest);
        var o := ScanQuoted(st, args[0], " " + rest, offset);
        var o2 := ScanBlank(st.tokens, d, rest, o);
        ScanExecValue(Scan(st.tokens + [d], "", false, None), args[1..], o2);
      }
    }
  }

  // ----- arguments as anyone may write them -----

  /** One character of an argument: itself, one with a quoting backslash, or behind a literal one. */
  datatype Atom = Char(c: char) | Escaping(c: char) | Literally(c: char)

  datatype Stretch = Bare(atoms: seq<Atom>) | InQuotes(atoms: seq<Atom>)

  /** An argument with the white space in front of it. */
  datatype Gapped = Gapped(gap: string, stretches: seq<Stretch>)

  predicate AtomOk(a: Atom, quoted: bool) {
    match a
    case Char(c) => c != '"' && c != '\\' && (quoted || c !in [' ', '\t', '\n', '\r', 12 as char])
    case Escaping(c) => c in ['"', '`', '$', '\\']
    case Literally(c) => c !in ['"', '`', '$', '\\'] && (quoted || c !in [' ', '\t', '\n', '\r', 12 as char])
  }

  predicate StretchOk(s: Stretch) { forall a :: a in s.atoms ==> AtomOk(a, s.InQuotes?) }

  function AtomWritten(a: Atom): string { if a.Char? then [a.c] else ['\\', a.c] }

  function AtomText(a: Atom): string { if a.Literally? then ['\\', a.c] else [a.c] }

  function AtomsWritten(atoms: seq<Atom>): string {
    if atoms == [] then "" else AtomWritten(atoms[0]) + AtomsWritten(atoms[1..])
  }

  function AtomsText(atoms: seq<Atom>): string {
    if atoms == [] then "" else AtomText(atoms[0]) + AtomsText(atoms[1..])
  }

  function StretchWritten(s: Stretch): string {
    if s.InQuotes? then "\"" + AtomsWritten(s.atoms) + "\"" else AtomsWritten(s.atoms)
  }

  function ArgWritten(stretches: seq<Stretch>): string {
    if stretches == [] then "" else StretchWritten(stretches[0]) + ArgWritten(stretches[1..])
  }

  function ArgText(stretches: seq<Stretch>): string {
    if stretches == [] then "" else AtomsText(stretches[0].atoms) + ArgText(stretches[1..])
  }

  /** There is an argument at all: a pair of quotes, or at least one character. */
  predicate Exists(stretches: seq<Stretch>) {
    exists s :: s in stretches && (s.InQuotes? || s.atoms != [])
  }

  predicate IsGap(gap: string) { forall c :: c in gap ==> c in [' ', '\t', '\n', '\r', 12 as char] }

  predicate GappedOk(g: Gapped) {
    IsGap(g.gap) && Exists(g.stretches) && forall s :: s in g.stretches ==> StretchOk(s)
  }

  function LineWritten(args: seq<Gapped>, trail: string): string {
    if args == [] then trail else args[0].gap + ArgWritten(args[0].stretches) + LineWritten(args[1..], trail)
  }

  function Texts(args: seq<Gapped>): seq<string> {
    if args == [] then [] else [ArgText(args[0].stretches)] + Texts(args[1..])
  }

  lemma ScanOneChar(st: Scan, c: char, rest: string, offset: nat) returns (o: nat)
    requires AtomOk(Char(c), st.quote.Some?)
    ensures ScanAll(st, [c] + rest, offset) == ScanAll(st.(current := st.current + [c], started := true), rest, o)
  {
    hide Utf8Len;
    assert ([c] + rest)[1..] == rest;
    o := offset + Utf8Len(c);
  }

  lemma ScanOneEscape(st: Scan, c: char, rest: string, offset: nat) returns (o: nat)
    requires AtomOk(Escaping(c), st.quote.Some?)
    ensures ScanAll(st, ['\\', c] + rest, offset) ==
            ScanAll(st.(current := st.current + [c], started := true), rest, o)
  {
    hide Utf8Len;
    var text := ['\\', c] + rest;
    assert text[2..] == rest && text[0] == '\\' && text[1] == c;
    o := offset + (Utf8Len('\\') + Utf8Len(c));
  }

  lemma ScanLoneBackslash(st: Scan, c: char, rest: string, offset: nat) returns (o: nat)
    requires AtomOk(Literally(c), st.quote.Some?)
    ensures ScanAll(st, ['\\', c] + rest, offset) ==
            ScanAll(st.(current := st.current + "\\", started := true), [c] + rest, o)
  {
    hide Utf8Len;
    var text := ['\\', c] + rest;
    assert text[1..] == [c] + rest && text[0] == '\\' && text[1] == c;
    o := offset + Utf8Len('\\');
  }

  lemma ScanAtom(st: Scan, a: Atom, rest: string, offset: nat) returns (o: nat)
    requires AtomOk(a, st.quote.Some?)
    ensures ScanAll(st, AtomWritten(a) + rest, offset) ==
            ScanAll(st.(current := st.current + AtomText(a), started := true), rest, o)
  {
    hide ScanAll;
    match a
    case Char(c) => o := ScanOneChar(st, c, rest, offset);
    case Escaping(c) => o := ScanOneEscape(st, c, rest, offset);
    case Literally(c) =>
      var o1 := ScanLoneBackslash(st, c, rest, offset);
      var st1 := st.(current := st.current + "\\", started := true);
      o := ScanOneChar(st1, c, rest, o1);
      assert st1.current + [c] == st.current + ['\\', c];
  }

  lemma {:induction false} ScanAtoms(st: Scan, atoms: seq<Atom>, rest: string, offset: nat) returns (o: nat)
    requires forall a :: a in atoms ==> AtomOk(a, st.quote.Some?)
    ensures ScanAll(st, AtomsWritten(atoms) + rest, offset) ==
            ScanAll(st.(current := st.current + AtomsText(atoms), started := st.started || atoms != []), rest, o)
    decreases |atoms|
  {
    hide ScanAll, AtomOk, AtomWritten, AtomText;
    if atoms == [] {
      assert AtomsWritten(atoms) + rest == rest && st.current + "" == st.current;
      o := offset;
    } else {
      var a, more := atoms[0], atoms[1..];
      assert AtomsWritten(atoms) + rest == AtomWritten(a) + (AtomsWritten(more) + rest);
      assert st.current + AtomText(a) + AtomsText(more) == st.current + AtomsText(atoms);
      hide AtomsWritten, AtomsText;
      var o1 := ScanAtom(st, a, AtomsWritten(more) + rest, offset);
      var st1 := st.(current := st.current + AtomText(a), started := true);
      o := ScanAtoms(st1, more, rest, o1);
    }
  }

  lemma ScanClosingQuote(st: Scan, rest: string, offset: nat) returns (o: nat)
    requires st.quote.Some?
    ensures ScanAll(st, "\"" + rest, offset) == ScanAll(st.(quote := None, started := true), rest, o)
  {
    assert ("\"" + rest)[1..] == rest;
    o := offset + Utf8Len('"');
  }

  lemma ScanStretch(st: Scan, s: Stretch, rest: string, offset: nat) returns (o: nat)
    requires st.quote.None? && StretchOk(s)
    ensures ScanAll(st, StretchWritten(s) + rest, offset) ==
            ScanAll(st.(current := st.current + AtomsText(s.atoms),
                        started := st.started || s.InQuotes? || s.atoms != []), rest, o)
  {
    hide ScanAll, AtomsWritten, AtomsText, AtomOk;
    if s.InQuotes? {
      var body := AtomsWritten(s.atoms) + ("\"" + rest);
      assert StretchWritten(s) + rest == "\"" + body;
      OpenQuote(st, body, offset);
      var open := st.(quote := Some(offset), started := true);
      var o1 := ScanAtoms(open, s.atoms, "\"" + rest, offset + Utf8Len('"'));
      o := ScanClosingQuote(open.(current := st.current + AtomsText(s.atoms)), rest, o1);
    } else {
      o := ScanAtoms(st, s.atoms, rest, offset);
    }
  }

  lemma {:induction false} ScanArg(st: Scan, stretches: seq<Stretch>, rest: string, offset: nat) returns (o: nat)
    requires st.quote.None? && forall s :: s in stretches ==> StretchOk(s)
    ensures ScanAll(st, ArgWritten(stretches) + rest, offset) ==
            ScanAll(
              st.(current := st.current + ArgText(stretches), started := st.started || Exists(stretches)), rest, o)
    decreases |stretches|
  {
    hide ScanAll, StretchOk, StretchWritten, AtomsText;
    if stretches == [] {
      assert ArgWritten(stretches) + rest == rest && st.current + "" == st.current;
      o := offset;
    } else {
      hide ArgWritten, ArgText, Exists;
      var s, more := stretches[0], stretches[1..];
      ArgCons(stretches, rest, st.current);
      var o1 := ScanStretch(st, s, ArgWritten(more) + rest, offset);
      var st1 := st.(current := st.current + AtomsText(s.atoms), started := st.started || s.InQuotes? || s.atoms != []);
      o := ScanArg(st1, more, rest, o1);
    }
  }

  lemma ArgCons(stretches: seq<Stretch>, rest: string, start: string)
    requires stretches != []
    ensures var s, more := stretches[0], stretches[1..];
            && ArgWritten(stretches) + rest == StretchWritten(s) + (ArgWritten(more) + rest)
            && start + ArgText(stretches) == (start + AtomsText(s.atoms)) + ArgText(more)
            && (Exists(stretches) <==> s.InQuotes? || s.atoms != [] || Exists(more))
  {
    hide *;
    var s, more := stretches[0], stretches[1..];
    ArgUnfolded(stretches);
    ExistsCons(stretches);
    Regrouped(StretchWritten(s), ArgWritten(more), rest);
    Regrouped(start, AtomsText(s.atoms), ArgText(more));
  }

  lemma ArgUnfolded(stretches: seq<Stretch>)
    requires stretches != []
    ensures ArgWritten(stretches) == StretchWritten(stretches[0]) + ArgWritten(stretches[1..])
    ensures ArgText(stretches) == AtomsText(stretches[0].atoms) + ArgText(stretches[1..])
  {
  }

  lemma Regrouped(a: string, b: string, c: string)
    ensures (a + b) + c == a + (b + c)
  {
  }

  lemma ExistsCons(stretches: seq<Stretch>)
    requires stretches != []
    ensures Exists(stretches) <==> stretches[0].InQuotes? || stretches[0].atoms != [] || Exists(stretches[1..])
  {
    assert stretches == [stretches[0]] + stretches[1..];
    assert forall x :: x in stretches <==> x == stretches[0] || x in stretches[1..];
  }

  /** What the tokens are if the input ends here, outside quotes. */
  function Done(st: Scan): seq<string> { if st.started then st.tokens + [st.current] else st.tokens }

  lemma {:induction false} ScanGap(st: Scan, gap: string, rest: string, offset: nat) returns (o: nat)
    requires st.quote.None? && IsGap(gap) && (!st.started ==> st.current == "")
    ensures ScanAll(st, gap + rest, offset) ==
            ScanAll(if gap == "" then st else Scan(Done(st), "", false, None), rest, o)
    decreases |gap|
  {
    if gap == "" {
      assert gap + rest == rest;
      o := offset;
    } else {
      var st1 := Scan(Done(st), "", false, None);
      assert gap[0] in gap && forall c :: c in gap[1..] ==> c in gap;
      assert gap + rest == [gap[0]] + (gap[1..] + rest);
      var o1 := ScanOneGap(st, gap[0], gap[1..] + rest, offset);
      hide ScanAll;
      o := ScanGap(st1, gap[1..], rest, o1);
    }
  }

  lemma ScanOneGap(st: Scan, c: char, rest: string, offset: nat) returns (o: nat)
    requires st.quote.None? && IsGap([c]) && (!st.started ==> st.current == "")
    ensures ScanAll(st, [c] + rest, offset) == ScanAll(Scan(Done(st), "", false, None), rest, o)
  {
    hide Utf8Len;
    assert c in [c] && ([c] + rest)[1..] == rest;
    o := offset + Utf8Len(c);
  }

  lemma {:induction false} ScanLine(st: Scan, args: seq<Gapped>, trail: string, offset: nat)
    requires st.quote.None? && (!st.started ==> st.current == "") && IsGap(trail)
    requires forall g :: g in args ==> GappedOk(g)
    requires forall i :: 0 <= i < |args| && (i > 0 || st.started) ==> args[i].gap != ""
    ensures Close(ScanAll(st, LineWritten(args, trail), offset)) == Ok(Done(st) + Texts(args))
    decreases |args|
  {
    hide IsGap, StretchOk, Exists, ScanStep;
    if args == [] {
      var o := ScanGap(st, trail, "", offset);
      assert trail + "" == trail && Done(st) + Texts(args) == Done(st);
    } else {
      var g, more := args[0], args[1..];
      assert g in args;
      var rest := LineWritten(more, trail);
      assert LineWritten(args, trail) == g.gap + (ArgWritten(g.stretches) + rest);
      var st1 := Scan(Done(st), "", false, None);
      var st2 := Scan(Done(st), ArgText(g.stretches), true, None);
      assert Done(st2) + Texts(more) == Done(st) + Texts(args);
      assert forall i :: 0 <= i < |more| ==> more[i] == args[i + 1];
      var o2 := ScanGapped(st, g, rest, offset);
      hide ScanAll, LineWritten, Texts, Done, ArgWritten, ArgText, GappedOk;
      ScanLine(st2, more, trail, o2);
    }
  }

  /** White space closes what was before, and the argument behind it becomes the current token. */
  lemma ScanGapped(st: Scan, g: Gapped, rest: string, offset: nat) returns (o: nat)
    requires st.quote.None? && (!st.started ==> st.current == "") && GappedOk(g) && (st.started ==> g.gap != "")
    ensures ScanAll(st, g.gap + (ArgWritten(g.stretches) + rest), offset) ==
            ScanAll(Scan(Done(st), ArgText(g.stretches), true, None), rest, o)
  {
    hide ScanAll, ArgWritten, ArgText, StretchOk, Exists, IsGap;
    var o1 := ScanGap(st, g.gap, ArgWritten(g.stretches) + rest, offset);
    var st1 := if g.gap == "" then st else Scan(Done(st), "", false, None);
    assert st1 == Scan(Done(st), "", false, None);
    o := ScanArg(st1, g.stretches, rest, o1);
    assert "" + ArgText(g.stretches) == ArgText(g.stretches);
  }

  /**
   * Any `Exec` value of arguments apart by white space splits into exactly their texts: bare and
   * quoted stretches may alternate, a backslash takes the character behind it when that is one of
   * the quotable ones and stands for itself otherwise, and a pair of quotes is an argument.
   */
  lemma TokensOfLine(args: seq<Gapped>, trail: string)
    requires IsGap(trail) && forall g :: g in args ==> GappedOk(g)
    requires forall i :: 0 < i < |args| ==> args[i].gap != ""
    ensures Tokens(LineWritten(args, trail)) == Ok(Texts(args))
  {
    ScanLine(START, args, trail, 0);
    assert Done(START) + Texts(args) == Texts(args);
  }

  function Doubled(args: seq<string>): seq<string> {
    if args == [] then [] else [DoublePercent(args[0])] + Doubled(args[1..])
  }

  /** A doubled percent sign is a literal one in every context. */
  lemma {:induction false} SubstitutedDoubled(s: string, ctx: Context)
    ensures Substituted(DoublePercent(s), ctx) == s
  {
    if s != "" {
      var d := DoublePercent(s);
      SubstitutedDoubled(s[1..], ctx);
      if s[0] == '%' {
        assert d[2..] == DoublePercent(s[1..]);
      } else {
        assert d[1..] == DoublePercent(s[1..]);
      }
    }
  }

  lemma ExpandedDoubledToken(arg: string, ctx: Context)
    ensures ExpandedToken(DoublePercent(arg), ctx) == [arg]
  {
    SubstitutedDoubled(arg, ctx);
    var d := DoublePercent(arg);
    if arg != "" {
      assert arg[0] == '%' ==> d[0] == '%' && d[1] == '%';
      assert arg[0] != '%' ==> d[0] != '%';
    }
  }

  lemma {:induction false} ExpandedDoubled(args: seq<string>, ctx: Context)
    ensures Expanded(Doubled(args), ctx) == args
  {
    if args != [] {
      ExpandedDoubledToken(args[0], ctx);
      assert Doubled(args)[1..] == Doubled(args[1..]);
      ExpandedDoubled(args[1..], ctx);
    }
  }

  /** Splitting and expanding undo the quoting, for every argument list and context. */
  lemma ExecValueRoundTrip(args: seq<string>, ctx: Context)
    ensures Tokens(ExecValue(args)) == Ok(Doubled(args))
    ensures Expanded(Doubled(args), ctx) == args
  {
    ScanExecValue(START, args, 0);
    assert START.tokens + Doubled(args) == Doubled(args);
    ExpandedDoubled(args, ctx);
  }

  /**
   * From an argument list to a `.desktop` file and back: the file parses, its `Exec` value
   * tokenizes, and expanding it yields the list again.
   */
  lemma ExecFileRoundTrip(args: seq<string>, ctx: Context, head: seq<string>, before: seq<Item>, after: seq<Item>,
                          bom: bool, crlf: bool)
    requires WellFormedHead(head)
    requires forall i :: i in before + after ==> WellFormed(i)
    requires forall i :: i in after && i.Pair? ==> i.key != "Exec"
    ensures var r := ParsedFile(FileText(head, before + [Pair("Exec", ExecValue(args))] + after, bom, crlf));
            && r.Ok?
            && Get(r.value, "Exec") == Some(ExecValue(args))
            && Tokens(ExecValue(args)) == Ok(Doubled(args))
            && Expanded(Doubled(args), ctx) == args
  {
    ExecValueRoundTrip(args, ctx);
    hide WellFormed, WellFormedHead, FileText, ParsedFile, ExecValue, Kept, Get, Expanded, Tokens, PairsOf, Doubled;
    var exec := Pair("Exec", ExecValue(args));
    assert WellFormed(exec) by { ExecIsWellFormed(ExecValue(args)); }
    forall i | i in before + [exec] + after ensures WellFormed(i) { assert i in before + after || i == exec; }
    ReadsBackFile(head, before + [exec] + after, bom, crlf);
    ExecValueKept(args);
    PairsAround(before, ExecValue(args), after);
    GetSkips(PairsOf(before) + [("Exec", ExecValue(args))], after);
    GetLast(PairsOf(before), "Exec", ExecValue(args));
  }

  lemma GetLast(entries: seq<Entry>, key: string, value: string)
    ensures Get(entries + [(key, value)], key) == Some(value)
  {
  }

  lemma ExecIsWellFormed(value: string)
    ensures WellFormed(Pair("Exec", value))
  {
  }

  lemma PairsAround(before: seq<Item>, value: string, after: seq<Item>)
    requires Kept(value) == value
    ensures PairsOf(before + [Pair("Exec", value)] + after) == PairsOf(before) + [("Exec", value)] + PairsOf(after)
  {
    var exec := Pair("Exec", value);
    assert PairsOf([exec]) == [("Exec", value)] by { assert [exec][1..] == []; }
    hide PairsOf;
    PairsOfAppend(before + [exec], after);
    PairsOfAppend(before, [exec]);
  }

  lemma {:induction false} PairsOfAppend(a: seq<Item>, b: seq<Item>)
    ensures PairsOf(a + b) == PairsOf(a) + PairsOf(b)
  {
    if a == [] {
      assert a + b == b;
    } else {
      assert (a + b)[1..] == a[1..] + b;
      PairsOfAppend(a[1..], b);
    }
  }

  lemma {:induction false} GetSkips(entries: seq<Entry>, after: seq<Item>)
    requires forall i :: i in after && i.Pair? ==> i.key != "Exec"
    ensures Get(entries + PairsOf(after), "Exec") == Get(entries, "Exec")
    decreases |after|
  {
    if after == [] {
      assert entries + PairsOf(after) == entries;
    } else {
      var init, last := after[..|after| - 1], after[|after| - 1];
      assert after == init + [last] && last in after;
      PairsOfAppend(init, [last]);
      GetSkips(entries, init);
      assert [last][1..] == [];
      if last.Pair? {
        var all := entries + PairsOf(after);
        assert PairsOf([last]) == [(last.key, Kept(last.value))];
        assert all == (entries + PairsOf(init)) + [(last.key, Kept(last.value))];
        assert all[..|all| - 1] == entries + PairsOf(init);
      } else {
        assert PairsOf([last]) == [];
        assert PairsOf(after) == PairsOf(init);
      }
    }
  }

  /** An `Exec` value starts and ends with a quote, so reading the file keeps all of it. */
  lemma ExecValueKept(args: seq<string>)
    ensures Kept(ExecValue(args)) == ExecValue(args)
  {
    var v := ExecValue(args);
    ExecValueEnds(args);
    StripShortens(v, IsBare);
  }

  lemma {:induction false} ExecValueEnds(args: seq<string>)
    ensures var v := ExecValue(args); v == "" || (v[0] == '"' && v[|v| - 1] == '"')
  {
    if |args| > 1 {
      ExecValueEnds(args[1..]);
      assert Quoted(args[1])[0] == '"';
    }
  }
}

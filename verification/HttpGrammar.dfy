/**
  The language of HTTP requests as a grammar, after sections 5.1, 4.2 and 2.2 of RFC 1945, and what a
  message of the language means. The parser is shown to accept exactly this language and to compute
  exactly this meaning.
  */
module HttpGrammar {
  import opened HttpParser

  /** A line of the header block: a field, or the continuation of the field before it. */
  datatype Line = Field(name: string, value: string) | Fold(blanks: string, text: string)

  datatype Message = Message(methodName: string, uri: string, major: string, minor: string, lines: seq<Line>)

  // ----- the language -----

  predicate AllToken(s: string) { forall i :: 0 <= i < |s| ==> IsToken(s[i]) }

  predicate AllDigits(s: string) { forall i :: 0 <= i < |s| ==> IsDigit(s[i]) }

  predicate AllBlank(s: string) { forall i :: 0 <= i < |s| ==> IsBlank(s[i]) }

  predicate NoCtl(s: string) { forall i :: 0 <= i < |s| ==> !IsCtl(s[i]) }

  predicate UriText(s: string) { forall i :: 0 <= i < |s| ==> !IsCtl(s[i]) && s[i] != ' ' }

  predicate ValidLine(l: Line) {
    match l
    case Field(name, value) => name != "" && AllToken(name) && NoCtl(value)
    case Fold(blanks, text) => blanks != "" && AllBlank(blanks) && NoCtl(text) && (text != "" ==> text[0] != ' ')
  }

  ghost predicate ValidMessage(m: Message) {
    && m.methodName != "" && AllToken(m.methodName)
    && UriText(m.uri)
    && m.major != "" && AllDigits(m.major)
    && m.minor != "" && AllDigits(m.minor)
    && (forall i :: 0 <= i < |m.lines| ==> ValidLine(m.lines[i]))
    && (m.lines != [] ==> m.lines[0].Field?)
  }

  function LineText(l: Line): string {
    match l
    case Field(name, value) => name + ": " + value
    case Fold(blanks, text) => blanks + text
  }

  function LinesText(ls: seq<Line>): string {
    if ls == [] then "" else LinesText(ls[..|ls| - 1]) + LineText(ls[|ls| - 1]) + "\r\n"
  }

  function StartLine(m: Message): string {
    m.methodName + " " + m.uri + " HTTP/" + m.major + "." + m.minor + "\r\n"
  }

  function Text(m: Message): string { StartLine(m) + LinesText(m.lines) + "\r\n" }

  // ----- the meaning -----

  function Decimal(s: string): int {
    if s == "" then 0 else Decimal(s[..|s| - 1]) * 10 + DigitValue(s[|s| - 1])
  }

  /** A continuation is joined to the value of the last field, without its leading blanks. */
  function AddLine(hs: seq<Header>, l: Line): seq<Header> {
    if l.Field? then hs + [Header(l.name, l.value)]
    else if hs == [] then []
    else hs[|hs| - 1 := Header(hs[|hs| - 1].name, hs[|hs| - 1].value + l.text)]
  }

  function HeadersOf(ls: seq<Line>): seq<Header> {
    if ls == [] then [] else AddLine(HeadersOf(ls[..|ls| - 1]), ls[|ls| - 1])
  }

  function Meaning(m: Message): RequestValue {
    RequestValue(m.methodName, m.uri, Decimal(m.major), Decimal(m.minor), HeadersOf(m.lines))
  }

  /** The state of a new request; the version numbers are not initialised. */
  predicate Fresh(r: RequestValue) { r.methodName == "" && r.uri == "" && r.headers == [] }

  // ----- what has been read so far -----

  /** The part of a message that has been read, with the header line that is being read. */
  datatype Partial = Partial(m: Message, line: Line)

  /** The characters read when the automaton is in state s. */
  function Written(s: State, g: Partial): string {
    var m := g.m;
    match s
    case MethodStart => ""
    case Method => m.methodName
    case Uri => m.methodName + " " + m.uri
    case VersionH => m.methodName + " " + m.uri + " "
    case VersionT1 => m.methodName + " " + m.uri + " H"
    case VersionT2 => m.methodName + " " + m.uri + " HT"
    case VersionP => m.methodName + " " + m.uri + " HTT"
    case VersionSlash => m.methodName + " " + m.uri + " HTTP"
    case MajorStart => m.methodName + " " + m.uri + " HTTP/"
    case Major => m.methodName + " " + m.uri + " HTTP/" + m.major
    case MinorStart => m.methodName + " " + m.uri + " HTTP/" + m.major + "."
    case Minor => m.methodName + " " + m.uri + " HTTP/" + m.major + "." + m.minor
    case Newline1 => m.methodName + " " + m.uri + " HTTP/" + m.major + "." + m.minor + "\r"
    case HeaderLineStart => StartLine(m) + LinesText(m.lines)
    case HeaderLws => StartLine(m) + LinesText(m.lines) + LineText(g.line)
    case HeaderName => StartLine(m) + LinesText(m.lines) + (if g.line.Field? then g.line.name else "")
    case SpaceBeforeValue => StartLine(m) + LinesText(m.lines) + (if g.line.Field? then g.line.name + ":" else "")
    case HeaderValue => StartLine(m) + LinesText(m.lines) + LineText(g.line)
    case Newline2 => StartLine(m) + LinesText(m.lines) + LineText(g.line) + "\r"
    case Newline3 => StartLine(m) + LinesText(m.lines) + "\r"
  }

  predicate InLine(s: State) { s in {HeaderLws, HeaderName, SpaceBeforeValue, HeaderValue, Newline2} }

  predicate PastSlash(s: State) {
    s !in {MethodStart, Method, Uri, VersionH, VersionT1, VersionT2, VersionP, VersionSlash}
  }

  predicate PastStartLine(s: State) { InLine(s) || s == HeaderLineStart || s == Newline3 }

  /** What the parts read so far satisfy in state s. */
  ghost predicate WellRead(s: State, g: Partial) {
    var m := g.m;
    && AllToken(m.methodName) && (m.methodName == "" <==> s == MethodStart)
    && UriText(m.uri) && (s in {MethodStart, Method} ==> m.uri == "")
    && AllDigits(m.major) && (m.major != "" <==> PastSlash(s) && s != MajorStart)
    && AllDigits(m.minor) && (m.minor != "" <==> s in {Minor, Newline1} || PastStartLine(s))
    && (!PastStartLine(s) ==> m.lines == [])
    && (forall i :: 0 <= i < |m.lines| ==> ValidLine(m.lines[i]))
    && (m.lines != [] ==> m.lines[0].Field?)
    && (InLine(s) ==> ValidLine(g.line) && (m.lines == [] ==> g.line.Field?))
    && (s == HeaderLws ==> g.line.Fold? && g.line.text == "")
    && (s in {HeaderName, SpaceBeforeValue} ==> g.line.Field? && g.line.value == "")
    && (s == HeaderValue ==> g.line.Fold? ==> g.line.text != "")
  }

  function LinesRead(s: State, g: Partial): seq<Line> {
    if InLine(s) then g.m.lines + [g.line] else g.m.lines
  }

  /** The request holds the meaning of what has been read; its version counts from the slash on. */
  ghost predicate Filled(s: State, g: Partial, r: RequestValue) {
    && r.methodName == g.m.methodName && r.uri == g.m.uri
    && (PastSlash(s) ==> r.major == Decimal(g.m.major) && r.minor == Decimal(g.m.minor))
    && r.headers == HeadersOf(LinesRead(s, g))
  }

  /** How the part read grows with the next character. */
  function Grow(s: State, g: Partial, c: char): Partial {
    var m := g.m;
    match s
    case MethodStart => g.(m := m.(methodName := m.methodName + [c]))
    case Method => if c == ' ' then g else g.(m := m.(methodName := m.methodName + [c]))
    case Uri => if c == ' ' then g else g.(m := m.(uri := m.uri + [c]))
    case MajorStart => g.(m := m.(major := m.major + [c]))
    case Major => if c == '.' then g else g.(m := m.(major := m.major + [c]))
    case MinorStart => g.(m := m.(minor := m.minor + [c]))
    case Minor => if c == '\r' then g else g.(m := m.(minor := m.minor + [c]))
    case HeaderLineStart =>
      if c == '\r' then g else if IsBlank(c) then g.(line := Fold([c], "")) else g.(line := Field([c], ""))
    case HeaderLws =>
      if c == '\r' || g.line.Field? then g
      else if IsBlank(c) then g.(line := Fold(g.line.blanks + [c], "")) else g.(line := Fold(g.line.blanks, [c]))
    case HeaderName => if c == ':' || g.line.Fold? then g else g.(line := Field(g.line.name + [c], ""))
    case HeaderValue =>
      if c == '\r' then g
      else if g.line.Field? then g.(line := Field(g.line.name, g.line.value + [c]))
      else g.(line := Fold(g.line.blanks, g.line.text + [c]))
    case Newline2 => g.(m := m.(lines := m.lines + [g.line]))
    case _ => g
  }

  lemma SnocHeaders(ls: seq<Line>, l: Line)
    ensures HeadersOf(ls + [l]) == AddLine(HeadersOf(ls), l)
  {
    assert (ls + [l])[..|ls|] == ls;
  }

  lemma SnocLines(ls: seq<Line>, l: Line)
    ensures LinesText(ls + [l]) == LinesText(ls) + LineText(l) + "\r\n"
  {
    assert (ls + [l])[..|ls|] == ls;
  }

  lemma SnocDecimal(s: string, c: char)
    ensures Decimal(s + [c]) == Decimal(s) * 10 + DigitValue(c)
    ensures Decimal("") == 0
  {
    assert (s + [c])[..|s|] == s;
  }

  // ----- every accepted character extends what has been read -----

  /** Blanks cannot start a header name. */
  lemma BlankIsNoToken(c: char)
    ensures IsBlank(c) ==> !IsToken(c)
  {
    assert ' ' in "()<>@,;:\\\"/[]?={} \t" && '\t' in "()<>@,;:\\\"/[]?={} \t";
  }

  lemma Append(a: string, b: string, c: char)
    ensures a + (b + [c]) == a + b + [c]
  {}

  lemma StartWritten(s: State, g: Partial, r: RequestValue, c: char)
    requires WellRead(s, g) && !PastStartLine(s) && Consistent(s, r)
    requires Step(s, r, c).result == Indeterminate
    ensures Written(Step(s, r, c).state, Grow(s, g, c)) == Written(s, g) + [c]
  {
    hide IsTspecial, IsCtl, IsDigit, DigitValue, HeadersOf, Decimal;
    var m := g.m;
    var name_uri := m.methodName + " " + m.uri;
    if s == Uri {
      Append(m.methodName + " ", m.uri, c);
    } else if s == MajorStart || s == Major {
      Append(name_uri + " HTTP/", m.major, c);
    } else if s == MinorStart || s == Minor {
      Append(name_uri + " HTTP/" + m.major + ".", m.minor, c);
    } else if s == Newline1 {
      assert StartLine(m) == Written(Newline1, g) + "\n";
      assert LinesText([]) == "";
    }
  }

  lemma LineWritten(s: State, g: Partial, r: RequestValue, c: char)
    requires WellRead(s, g) && InLine(s) && s != Newline2 && Consistent(s, r)
    requires Step(s, r, c).result == Indeterminate
    ensures Written(Step(s, r, c).state, Grow(s, g, c)) == Written(s, g) + [c]
  {
    hide IsTspecial, IsCtl, StartLine, LinesText, HeadersOf, AddToName, AddToValue, ValidLine;
    var front := StartLine(g.m) + LinesText(g.m.lines);
    if s == HeaderLws || s == HeaderValue {
      if c != '\r' {
        assert LineText(Grow(s, g, c).line) == LineText(g.line) + [c];
        Append(front, LineText(g.line), c);
      }
    } else {
      Append(front, g.line.name, c);
      Append(front, g.line.name + ":", c);
      assert g.line.name + ": " + "" == g.line.name + ":" + " ";
    }
  }

  lemma BetweenLinesWritten(s: State, g: Partial, r: RequestValue, c: char)
    requires WellRead(s, g) && PastStartLine(s) && (s == Newline2 || !InLine(s)) && Consistent(s, r)
    requires Step(s, r, c).result == Indeterminate
    ensures Written(Step(s, r, c).state, Grow(s, g, c)) == Written(s, g) + [c]
  {
    hide IsTspecial, IsCtl, StartLine, LinesText, HeadersOf, AddToName, AddToValue, ValidLine;
    if s == Newline2 {
      var front := StartLine(g.m) + LinesText(g.m.lines);
      SnocLines(g.m.lines, g.line);
      assert StartLine(g.m) + (LinesText(g.m.lines) + LineText(g.line) + "\r\n")
          == front + LineText(g.line) + "\r" + "\n";
      StartLineOf(g.m, Grow(s, g, c).m);
    } else {
      BlankIsNoToken(c);
      assert [c] + "" == [c];
    }
  }

  lemma StartLineOf(m: Message, m': Message)
    requires m' == m.(lines := m'.lines)
    ensures StartLine(m') == StartLine(m)
  {}

  lemma StartWellRead(s: State, g: Partial, r: RequestValue, c: char)
    requires WellRead(s, g) && !PastStartLine(s) && Consistent(s, r)
    requires Step(s, r, c).result == Indeterminate
    ensures WellRead(Step(s, r, c).state, Grow(s, g, c))
  {
    hide IsTspecial, DigitValue;
  }

  lemma LineWellRead(s: State, g: Partial, r: RequestValue, c: char)
    requires WellRead(s, g) && InLine(s) && s != Newline2 && Consistent(s, r)
    requires Step(s, r, c).result == Indeterminate
    ensures WellRead(Step(s, r, c).state, Grow(s, g, c))
  {
    hide IsTspecial, IsCtl, AddToName, AddToValue, AllToken, AllDigits, UriText, ValidLine;
    assert Grow(s, g, c).m == g.m;
    GrownLineValid(s, g, r, c);
  }

  lemma GrownLineValid(s: State, g: Partial, r: RequestValue, c: char)
    requires InLine(s) && ValidLine(g.line) && s != Newline2 && Consistent(s, r)
    requires s == HeaderLws ==> g.line.Fold? && g.line.text == ""
    requires s == HeaderName ==> g.line.Field? && g.line.value == ""
    requires s == HeaderValue ==> g.line.Fold? ==> g.line.text != ""
    requires Step(s, r, c).result == Indeterminate
    ensures ValidLine(Grow(s, g, c).line)
  {
    hide IsTspecial, AddToName, AddToValue;
  }

  lemma LineEndWellRead(s: State, g: Partial, r: RequestValue, c: char)
    requires s == Newline2 && WellRead(s, g) && Consistent(s, r)
    requires Step(s, r, c).result == Indeterminate
    ensures WellRead(Step(s, r, c).state, Grow(s, g, c))
  {
    hide IsTspecial, IsCtl, AddToName, AddToValue, AllToken, AllDigits, UriText, ValidLine;
  }

  lemma BetweenLinesWellRead(s: State, g: Partial, r: RequestValue, c: char)
    requires s == HeaderLineStart && WellRead(s, g) && Filled(s, g, r) && Consistent(s, r)
    requires Step(s, r, c).result == Indeterminate
    ensures WellRead(Step(s, r, c).state, Grow(s, g, c))
  {
    hide IsTspecial, AddToName, AddToValue;
    BlankIsNoToken(c);
    if s == HeaderLineStart && g.m.lines == [] { assert HeadersOf([]) == []; }
  }

  lemma StartFilled(s: State, g: Partial, r: RequestValue, c: char)
    requires WellRead(s, g) && !PastStartLine(s) && Filled(s, g, r) && Consistent(s, r)
    requires Step(s, r, c).result == Indeterminate
    ensures Filled(Step(s, r, c).state, Grow(s, g, c), Step(s, r, c).req)
  {
    hide IsTspecial, HeadersOf, Decimal;
    SnocDecimal(g.m.major, c);
    SnocDecimal(g.m.minor, c);
  }

  /** A continuation without text adds nothing. */
  lemma EmptyFold(hs: seq<Header>, blanks: string)
    ensures AddLine(hs, Fold(blanks, "")) == hs
  {
    if hs != [] {
      var h := hs[|hs| - 1];
      assert h.value + "" == h.value;
    }
  }

  lemma GrowName(r: RequestValue, hs: seq<Header>, name: string, c: char)
    requires r.headers == AddLine(hs, Field(name, ""))
    ensures AddToName(r, c) == r.(headers := AddLine(hs, Field(name + [c], "")))
  {}

  lemma GrowField(r: RequestValue, hs: seq<Header>, name: string, value: string, c: char)
    requires r.headers == AddLine(hs, Field(name, value))
    ensures AddToValue(r, c) == r.(headers := AddLine(hs, Field(name, value + [c])))
  {}

  lemma GrowFold(r: RequestValue, hs: seq<Header>, blanks: string, text: string, c: char)
    requires hs != [] && r.headers == AddLine(hs, Fold(blanks, text))
    ensures AddToValue(r, c) == r.(headers := AddLine(hs, Fold(blanks, text + [c])))
  {
    var h := hs[|hs| - 1];
    assert h.value + (text + [c]) == h.value + text + [c];
  }

  lemma HeaderFilled(s: State, g: Partial, r: RequestValue, c: char)
    requires WellRead(s, g) && PastStartLine(s) && Filled(s, g, r) && Consistent(s, r)
    requires Step(s, r, c).result == Indeterminate
    ensures Filled(Step(s, r, c).state, Grow(s, g, c), Step(s, r, c).req)
  {
    hide IsTspecial, IsCtl, HeadersOf, Decimal, AddLine, AddToName, AddToValue;
    var g' := Grow(s, g, c);
    var hs := HeadersOf(g.m.lines);
    SnocHeaders(g.m.lines, g.line);
    SnocHeaders(g.m.lines, g'.line);
    if s == HeaderLineStart {
      BlankIsNoToken(c);
      EmptyFold(hs, [c]);
      NewField(hs, [c]);
    } else if s == HeaderLws {
      EmptyFold(hs, g.line.blanks);
      EmptyFold(hs, g.line.blanks + [c]);
      if hs != [] {
        GrowFold(r, hs, g.line.blanks, "", c);
        assert "" + [c] == [c];
      }
    } else if s == HeaderName {
      GrowName(r, hs, g.line.name, c);
    } else if s == HeaderValue {
      if g.line.Field? {
        GrowField(r, hs, g.line.name, g.line.value, c);
      } else {
        if hs == [] { NoFold(g.line.blanks, g.line.text); }
        GrowFold(r, hs, g.line.blanks, g.line.text, c);
      }
    }
  }

  lemma NewField(hs: seq<Header>, name: string)
    ensures AddLine(hs, Field(name, "")) == hs + [Header(name, "")]
  {}

  lemma NoFold(blanks: string, text: string)
    ensures AddLine([], Fold(blanks, text)) == []
  {}

  /** Every character that is not rejected extends what has been read, and the request follows its meaning. */
  lemma StepReads(s: State, g: Partial, r: RequestValue, c: char)
    requires WellRead(s, g) && Filled(s, g, r) && Consistent(s, r)
    requires Step(s, r, c).result == Indeterminate
    ensures var o, g' := Step(s, r, c), Grow(s, g, c);
            WellRead(o.state, g') && Filled(o.state, g', o.req) && Written(o.state, g') == Written(s, g) + [c]
  {
    hide Step, Grow, WellRead, Filled, Written;
    if !PastStartLine(s) {
      StartWritten(s, g, r, c);
      StartWellRead(s, g, r, c);
      StartFilled(s, g, r, c);
    } else {
      HeaderFilled(s, g, r, c);
      if InLine(s) && s != Newline2 {
        LineWritten(s, g, r, c);
        LineWellRead(s, g, r, c);
      } else {
        BetweenLinesWritten(s, g, r, c);
        LastNewline(s, r, c);
        if s == Newline2 { LineEndWellRead(s, g, r, c); } else { BetweenLinesWellRead(s, g, r, c); }
      }
    }
  }

  lemma LastNewline(s: State, r: RequestValue, c: char)
    requires Consistent(s, r)
    ensures s == Newline3 ==> Step(s, r, c).result != Indeterminate
  {}

  // ----- the language is accepted only with its meaning -----

  /** A message whose text is a given string. */
  ghost predicate Reads(m: Message, text: string) { ValidMessage(m) && Text(m) == text }

  lemma GoodReads(s: State, g: Partial, r: RequestValue, c: char)
    requires WellRead(s, g) && Filled(s, g, r) && Consistent(s, r)
    requires Step(s, r, c).result == Good
    ensures Step(s, r, c).req == Meaning(g.m) && Reads(g.m, Written(s, g) + [c])
  {
    hide IsTspecial, AddToName, AddToValue, StartLine, LinesText, HeadersOf, Decimal;
    assert s == Newline3 && c == '\n';
    assert StartLine(g.m) + LinesText(g.m.lines) + "\r\n" == StartLine(g.m) + LinesText(g.m.lines) + "\r" + "\n";
  }

  lemma {:induction false} RunReads(s: State, g: Partial, r: RequestValue, text: string)
    returns (m: Message, g': Partial)
    requires WellRead(s, g) && Filled(s, g, r) && Consistent(s, r)
    ensures var p := Run(s, r, text);
            && (p.outcome.result == Good ==>
                  p.outcome.req == Meaning(m) && Reads(m, Written(s, g) + text[..p.used]))
            && (p.outcome.result == Indeterminate ==>
                  WellRead(p.outcome.state, g') && Filled(p.outcome.state, g', p.outcome.req)
                  && Written(p.outcome.state, g') == Written(s, g) + text)
    decreases |text|
  {
    hide Step, Grow, WellRead, Filled, Written, Reads, Meaning;
    m, g' := g.m, g;
    if text == "" {
      assert Written(s, g) + "" == Written(s, g);
    } else {
      var c, o := text[0], Step(s, r, text[0]);
      if o.result == Good {
        GoodReads(s, g, r, c);
        assert text[..1] == [c];
      } else if o.result == Indeterminate {
        StepReads(s, g, r, c);
        m, g' := RunReads(o.state, Grow(s, g, c), o.req, text[1..]);
        var p := Run(o.state, o.req, text[1..]);
        assert Written(s, g) + [c] + text[1..][..p.used] == Written(s, g) + text[..p.used + 1];
        assert Written(s, g) + [c] + text[1..] == Written(s, g) + text;
      }
    }
  }

  const NOTHING := Partial(Message("", "", "", "", []), Field("", ""))

  /** Whatever a new parser accepts is a message, and the request is what that message means. */
  lemma Sound(r: RequestValue, text: string) returns (m: Message)
    requires Fresh(r)
    requires Run(MethodStart, r, text).outcome.result == Good
    ensures var p := Run(MethodStart, r, text);
            Reads(m, text[..p.used]) && p.outcome.req == Meaning(m)
  {
    var g;
    m, g := RunReads(MethodStart, NOTHING, r, text);
    assert "" + text[..Run(MethodStart, r, text).used] == text[..Run(MethodStart, r, text).used];
  }
}
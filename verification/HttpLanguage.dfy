/**
  The parser against the grammar: exactly the messages are accepted, every prefix of a message is taken
  as unfinished, anything else is rejected at its first impossible character.
  */
module HttpLanguage {
  import opened HttpParser
  import opened HttpGrammar

  // ----- runs that lead from one state to another -----

  ghost predicate Leads(s: State, r: RequestValue, text: string, s': State, r': RequestValue) {
    Consistent(s, r) && Run(s, r, text) == Progress(Outcome(Indeterminate, s', r'), |text|)
  }

  lemma LeadsConcat(s: State, r: RequestValue, a: string, s1: State, r1: RequestValue, b: string,
                    s2: State, r2: RequestValue)
    requires Leads(s, r, a, s1, r1) && Leads(s1, r1, b, s2, r2)
    ensures Leads(s, r, a + b, s2, r2)
  {
    RunConcat(s, r, a, b);
  }

  lemma LeadsStep(s: State, r: RequestValue, c: char)
    requires Consistent(s, r) && Step(s, r, c).result == Indeterminate
    ensures Leads(s, r, [c], Step(s, r, c).state, Step(s, r, c).req)
  {
    RunOne(s, r, c);
  }

  /** A run followed by one more character. */
  lemma LeadsThen(s: State, r: RequestValue, a: string, s1: State, r1: RequestValue, c: char)
    requires Leads(s, r, a, s1, r1) && Consistent(s1, r1) && Step(s1, r1, c).result == Indeterminate
    ensures Leads(s, r, a + [c], Step(s1, r1, c).state, Step(s1, r1, c).req)
  {
    hide Step, Run;
    LeadsStep(s1, r1, c);
    LeadsConcat(s, r, a, s1, r1, [c], Step(s1, r1, c).state, Step(s1, r1, c).req);
  }

  // ----- states that repeat -----

  /** The characters that keep the automaton in s. */
  predicate Stays(s: State, c: char) {
    match s
    case Method => IsToken(c)
    case Uri => !IsCtl(c) && c != ' '
    case Major => IsDigit(c)
    case Minor => IsDigit(c)
    case HeaderName => IsToken(c)
    case HeaderValue => !IsCtl(c)
    case HeaderLws => IsBlank(c)
    case _ => false
  }

  function DecimalFrom(n: int, s: string): int
    decreases |s|
  {
    if s == "" then n else DecimalFrom(n * 10 + DigitValue(s[0]), s[1..])
  }

  lemma {:induction false} DecimalFromIs(pre: string, s: string)
    ensures DecimalFrom(Decimal(pre), s) == Decimal(pre + s)
    decreases |s|
  {
    if s == "" {
      assert pre + s == pre;
    } else {
      SnocDecimal(pre, s[0]);
      DecimalFromIs(pre + [s[0]], s[1..]);
      assert pre + [s[0]] + s[1..] == pre + s;
    }
  }

  /** The request after the characters w have been read in s. */
  function Absorb(s: State, r: RequestValue, w: string): RequestValue
    requires Consistent(s, r)
  {
    match s
    case Method => r.(methodName := r.methodName + w)
    case Uri => r.(uri := r.uri + w)
    case Major => r.(major := DecimalFrom(r.major, w))
    case Minor => r.(minor := DecimalFrom(r.minor, w))
    case HeaderName =>
      var n := |r.headers| - 1;
      r.(headers := r.headers[n := Header(r.headers[n].name + w, r.headers[n].value)])
    case HeaderValue =>
      var n := |r.headers| - 1;
      r.(headers := r.headers[n := Header(r.headers[n].name, r.headers[n].value + w)])
    case _ => r
  }

  lemma StaysStep(s: State, r: RequestValue, c: char)
    requires Consistent(s, r) && Stays(s, c)
    ensures Step(s, r, c) == Outcome(Indeterminate, s, Absorb(s, r, [c]))
  {
    assert ' ' in "()<>@,;:\\\"/[]?={} \t" && ':' in "()<>@,;:\\\"/[]?={} \t";
    assert [c][1..] == "";
    OneDigit(r.major, c);
    OneDigit(r.minor, c);
  }

  lemma OneDigit(n: int, c: char)
    ensures DecimalFrom(n, [c]) == n * 10 + DigitValue(c)
  {
    assert [c][1..] == "";
  }

  lemma AbsorbSplits(s: State, r: RequestValue, w: string)
    requires Consistent(s, r) && w != ""
    ensures Consistent(s, Absorb(s, r, [w[0]]))
    ensures Absorb(s, Absorb(s, r, [w[0]]), w[1..]) == Absorb(s, r, w)
  {
    OneDigit(r.major, w[0]);
    OneDigit(r.minor, w[0]);
    if s == HeaderName || s == HeaderValue {
      var h := r.headers[|r.headers| - 1];
      assert h.name + [w[0]] + w[1..] == h.name + w;
      assert h.value + [w[0]] + w[1..] == h.value + w;
    } else if s == Method {
      assert r.methodName + [w[0]] + w[1..] == r.methodName + w;
    } else if s == Uri {
      assert r.uri + [w[0]] + w[1..] == r.uri + w;
    }
  }

  lemma AbsorbNothing(s: State, r: RequestValue)
    requires Consistent(s, r)
    ensures Absorb(s, r, "") == r
  {
    if s == HeaderName || s == HeaderValue {
      var h := r.headers[|r.headers| - 1];
      assert h.name + "" == h.name && h.value + "" == h.value;
    }
  }

  lemma {:induction false} LeadsLoop(s: State, r: RequestValue, w: string)
    requires Consistent(s, r) && forall i :: 0 <= i < |w| ==> Stays(s, w[i])
    ensures Leads(s, r, w, s, Absorb(s, r, w))
    decreases |w|
  {
    hide Step, Absorb, Stays;
    AbsorbNothing(s, r);
    if w != "" {
      StaysStep(s, r, w[0]);
      AbsorbSplits(s, r, w);
      LeadsLoop(s, Absorb(s, r, [w[0]]), w[1..]);
    }
  }

  // ----- every message is accepted with its meaning -----

  lemma LeadsWord(s: State, r: RequestValue, a: string, s1: State, r1: RequestValue, w: string)
    requires Leads(s, r, a, s1, r1) && Consistent(s1, r1)
    requires forall i :: 0 <= i < |w| ==> Stays(s1, w[i])
    ensures Leads(s, r, a + w, s1, Absorb(s1, r1, w))
  {
    hide Run, Absorb, Stays;
    LeadsLoop(s1, r1, w);
    LeadsConcat(s, r, a, s1, r1, w, s1, Absorb(s1, r1, w));
  }

  /** A first character and the rest of a word. */
  lemma Uncons(a: string, w: string)
    requires w != ""
    ensures a + [w[0]] + w[1..] == a + w
  {}

  lemma MethodUriLeads(m: Message, r: RequestValue)
    requires ValidMessage(m) && Fresh(r)
    ensures Leads(MethodStart, r, m.methodName + " " + m.uri + " ", VersionH,
                  r.(methodName := m.methodName, uri := m.uri))
  {
    hide Run, IsTspecial, IsCtl;
    var w := m.methodName;
    LeadsStep(MethodStart, r, w[0]);
    var r1 := r.(methodName := [w[0]]);
    assert r.methodName + [w[0]] == [w[0]];
    LeadsWord(MethodStart, r, [w[0]], Method, r1, w[1..]);
    assert [w[0]] + w[1..] == w;
    var r2 := r.(methodName := w);
    LeadsThen(MethodStart, r, w, Method, r2, ' ');
    LeadsWord(MethodStart, r, w + " ", Uri, r2, m.uri);
    assert r2.uri + m.uri == m.uri;
    LeadsThen(MethodStart, r, w + " " + m.uri, Uri, r2.(uri := m.uri), ' ');
  }

  lemma VersionLeads(s: State, r: RequestValue, a: string, r1: RequestValue)
    requires Leads(s, r, a, VersionH, r1)
    ensures Leads(s, r, a + "HTTP/", MajorStart, r1.(major := 0, minor := 0))
  {
    hide Run;
    LeadsThen(s, r, a, VersionH, r1, 'H');
    LeadsThen(s, r, a + "H", VersionT1, r1, 'T');
    LeadsThen(s, r, a + "H" + "T", VersionT2, r1, 'T');
    LeadsThen(s, r, a + "H" + "T" + "T", VersionP, r1, 'P');
    LeadsThen(s, r, a + "H" + "T" + "T" + "P", VersionSlash, r1, '/');
    assert a + "HTTP/" == a + "H" + "T" + "T" + "P" + "/";
  }

  lemma MajorLeads(s: State, r: RequestValue, a: string, r1: RequestValue, digits: string)
    requires Leads(s, r, a, MajorStart, r1) && r1.major == 0 && digits != "" && AllDigits(digits)
    ensures Leads(s, r, a + digits + ".", MinorStart, r1.(major := Decimal(digits)))
  {
    hide Run, DecimalFrom;
    SnocDecimal("", digits[0]);
    assert "" + [digits[0]] == [digits[0]] && [digits[0]] + digits[1..] == digits;
    LeadsThen(s, r, a, MajorStart, r1, digits[0]);
    var r2 := r1.(major := Decimal([digits[0]]));
    LeadsWord(s, r, a + [digits[0]], Major, r2, digits[1..]);
    DecimalFromIs([digits[0]], digits[1..]);
    Uncons(a, digits);
    LeadsThen(s, r, a + digits, Major, r2.(major := Decimal(digits)), '.');
  }

  lemma MinorLeads(s: State, r: RequestValue, a: string, r1: RequestValue, digits: string)
    requires Leads(s, r, a, MinorStart, r1) && r1.minor == 0 && digits != "" && AllDigits(digits)
    ensures Leads(s, r, a + digits + "\r\n", HeaderLineStart, r1.(minor := Decimal(digits)))
  {
    hide Run, DecimalFrom;
    SnocDecimal("", digits[0]);
    assert "" + [digits[0]] == [digits[0]] && [digits[0]] + digits[1..] == digits;
    LeadsThen(s, r, a, MinorStart, r1, digits[0]);
    var r2 := r1.(minor := Decimal([digits[0]]));
    LeadsWord(s, r, a + [digits[0]], Minor, r2, digits[1..]);
    DecimalFromIs([digits[0]], digits[1..]);
    Uncons(a, digits);
    var r3 := r2.(minor := Decimal(digits));
    LeadsThen(s, r, a + digits, Minor, r3, '\r');
    LeadsThen(s, r, a + digits + "\r", Newline1, r3, '\n');
    assert a + digits + "\r\n" == a + digits + "\r" + "\n";
  }

  lemma StartLineLeads(m: Message, r: RequestValue)
    requires ValidMessage(m) && Fresh(r)
    ensures Leads(MethodStart, r, StartLine(m), HeaderLineStart,
                  RequestValue(m.methodName, m.uri, Decimal(m.major), Decimal(m.minor), []))
  {
    hide Run, Decimal;
    var a := m.methodName + " " + m.uri + " ";
    MethodUriLeads(m, r);
    var r1 := r.(methodName := m.methodName, uri := m.uri);
    VersionLeads(MethodStart, r, a, r1);
    var r2 := r1.(major := 0, minor := 0);
    MajorLeads(MethodStart, r, a + "HTTP/", r2, m.major);
    MinorLeads(MethodStart, r, a + "HTTP/" + m.major + ".", r2.(major := Decimal(m.major)), m.minor);
    assert a + "HTTP/" == m.methodName + " " + m.uri + " HTTP/";
  }

  lemma NameLeads(r: RequestValue, name: string)
    requires name != "" && AllToken(name)
    ensures Leads(HeaderLineStart, r, name + ": ", HeaderValue, r.(headers := r.headers + [Header(name, "")]))
  {
    hide Run, IsTspecial;
    BlankIsNoToken(name[0]);
    var hs := r.headers;
    LeadsStep(HeaderLineStart, r, name[0]);
    var r1 := r.(headers := hs + [Header([name[0]], "")]);
    LeadsWord(HeaderLineStart, r, [name[0]], HeaderName, r1, name[1..]);
    assert [name[0]] + name[1..] == name;
    var r2 := r.(headers := hs + [Header(name, "")]);
    LeadsThen(HeaderLineStart, r, name, HeaderName, r2, ':');
    LeadsThen(HeaderLineStart, r, name + ":", SpaceBeforeValue, r2, ' ');
    assert name + ": " == name + ":" + " ";
  }

  /** The end of a line. */
  lemma LineEndLeads(s: State, r: RequestValue, text: string, s1: State, r1: RequestValue)
    requires Leads(s, r, text, s1, r1) && (s1 == HeaderValue || s1 == HeaderLws) && Consistent(s1, r1)
    ensures Leads(s, r, text + "\r\n", HeaderLineStart, r1)
  {
    hide Run, IsTspecial;
    LeadsThen(s, r, text, s1, r1, '\r');
    LeadsThen(s, r, text + "\r", Newline2, r1, '\n');
    assert text + "\r\n" == text + "\r" + "\n";
  }

  lemma FieldLeads(r: RequestValue, name: string, value: string)
    requires ValidLine(Field(name, value))
    ensures Leads(HeaderLineStart, r, LineText(Field(name, value)) + "\r\n", HeaderLineStart,
                  r.(headers := AddLine(r.headers, Field(name, value))))
  {
    hide Run, Step, IsTspecial;
    NameLeads(r, name);
    var r2 := r.(headers := r.headers + [Header(name, "")]);
    LeadsWord(HeaderLineStart, r, name + ": ", HeaderValue, r2, value);
    assert "" + value == value;
    LineEndLeads(HeaderLineStart, r, name + ": " + value, HeaderValue, Absorb(HeaderValue, r2, value));
  }

  lemma FoldLeads(r: RequestValue, blanks: string, text: string)
    requires ValidLine(Fold(blanks, text)) && r.headers != []
    ensures Leads(HeaderLineStart, r, LineText(Fold(blanks, text)) + "\r\n", HeaderLineStart,
                  r.(headers := AddLine(r.headers, Fold(blanks, text))))
  {
    hide Run, IsTspecial;
    LeadsStep(HeaderLineStart, r, blanks[0]);
    LeadsWord(HeaderLineStart, r, [blanks[0]], HeaderLws, r, blanks[1..]);
    assert [blanks[0]] + blanks[1..] == blanks;
    var r3 := r.(headers := AddLine(r.headers, Fold(blanks, text)));
    if text == "" {
      EmptyFold(r.headers, blanks);
      assert blanks + text == blanks;
      LineEndLeads(HeaderLineStart, r, blanks + text, HeaderLws, r3);
    } else {
      LeadsThen(HeaderLineStart, r, blanks, HeaderLws, r, text[0]);
      var r2 := AddToValue(r, text[0]);
      LeadsWord(HeaderLineStart, r, blanks + [text[0]], HeaderValue, r2, text[1..]);
      Uncons(blanks, text);
      Uncons(r.headers[|r.headers| - 1].value, text);
      assert Absorb(HeaderValue, r2, text[1..]) == r3;
      LineEndLeads(HeaderLineStart, r, blanks + text, HeaderValue, r3);
    }
  }

  lemma {:induction false} LinesLead(r: RequestValue, ls: seq<Line>)
    requires forall i :: 0 <= i < |ls| ==> ValidLine(ls[i])
    requires ls != [] ==> ls[0].Field?
    ensures Leads(HeaderLineStart, r.(headers := []), LinesText(ls), HeaderLineStart, r.(headers := HeadersOf(ls)))
    ensures ls != [] ==> HeadersOf(ls) != []
  {
    hide ValidLine, LineText;
    if ls != [] {
      var n := |ls| - 1;
      LinesLead(r, ls[..n]);
      var r1 := r.(headers := HeadersOf(ls[..n]));
      if ls[n].Field? {
        FieldLeads(r1, ls[n].name, ls[n].value);
      } else {
        FoldLeads(r1, ls[n].blanks, ls[n].text);
      }
      LeadsConcat(HeaderLineStart, r.(headers := []), LinesText(ls[..n]), HeaderLineStart, r1,
                  LineText(ls[n]) + "\r\n", HeaderLineStart, r1.(headers := AddLine(r1.headers, ls[n])));
      assert LinesText(ls) == LinesText(ls[..n]) + (LineText(ls[n]) + "\r\n");
    }
  }

  /** A new parser accepts every message, at its last character, and fills in its meaning. */
  lemma Complete(m: Message, r: RequestValue)
    requires ValidMessage(m) && Fresh(r)
    ensures Run(MethodStart, r, Text(m)) == Progress(Outcome(Good, Newline3, Meaning(m)), |Text(m)|)
  {
    hide Run, StartLine, LinesText, HeadersOf, Decimal, ValidLine;
    var r1 := RequestValue(m.methodName, m.uri, Decimal(m.major), Decimal(m.minor), []);
    StartLineLeads(m, r);
    LinesLead(r1, m.lines);
    var a := StartLine(m) + LinesText(m.lines);
    LeadsConcat(MethodStart, r, StartLine(m), HeaderLineStart, r1, LinesText(m.lines), HeaderLineStart, Meaning(m));
    LeadsThen(MethodStart, r, a, HeaderLineStart, Meaning(m), '\r');
    assert Text(m) == a + "\r" + "\n";
    RunConcat(MethodStart, r, a + "\r", "\n");
    RunOne(Newline3, Meaning(m), '\n');
  }

  // ----- the language -----

  /** Grammar equivalence: the parser accepts, using all of it, exactly the text of a message. */
  lemma AcceptsExactly(r: RequestValue, text: string)
    requires Fresh(r)
    ensures var p := Run(MethodStart, r, text);
            p.outcome.result == Good && p.used == |text| <==> exists m :: Reads(m, text)
    ensures forall m :: Reads(m, text) ==> Run(MethodStart, r, text).outcome.req == Meaning(m)
  {
    var p := Run(MethodStart, r, text);
    if p.outcome.result == Good && p.used == |text| {
      var m := Sound(r, text);
      assert text[..p.used] == text;
      assert Reads(m, text);
    }
    forall m | Reads(m, text) ensures p == Progress(Outcome(Good, Newline3, Meaning(m)), |text|) {
      Complete(m, r);
    }
  }

  // ----- unfinished and impossible texts -----

  /** How far a state is from the end of the shortest message that goes through it. */
  function Distance(s: State): nat {
    match s
    case MethodStart => 15
    case Method => 14
    case Uri => 13
    case VersionH => 12
    case VersionT1 => 11
    case VersionT2 => 10
    case VersionP => 9
    case VersionSlash => 8
    case MajorStart => 7
    case Major => 6
    case MinorStart => 5
    case Minor => 4
    case Newline1 => 3
    case HeaderName => 6
    case SpaceBeforeValue => 5
    case HeaderLws => 4
    case HeaderValue => 4
    case Newline2 => 3
    case HeaderLineStart => 2
    case Newline3 => 1
  }

  /** The next character of that message. */
  function NextChar(s: State): char {
    match s
    case MethodStart => 'G'
    case Method => ' '
    case Uri => ' '
    case VersionH => 'H'
    case VersionT1 => 'T'
    case VersionT2 => 'T'
    case VersionP => 'P'
    case VersionSlash => '/'
    case MajorStart => '1'
    case Major => '.'
    case MinorStart => '0'
    case Minor => '\r'
    case HeaderName => ':'
    case SpaceBeforeValue => ' '
    case HeaderLws => '\r'
    case HeaderValue => '\r'
    case HeaderLineStart => '\r'
    case _ => '\n'
  }

  lemma NextCharStep(s: State, r: RequestValue)
    requires Consistent(s, r)
    ensures var o := Step(s, r, NextChar(s));
            if s == Newline3 then o.result == Good
            else o.result == Indeterminate && Distance(o.state) < Distance(s)
  {
    if s == MethodStart { assert forall i :: 0 <= i < 19 ==> "()<>@,;:\\\"/[]?={} \t"[i] != 'G'; }
  }

  /** Every state can still be completed. */
  lemma {:induction false} Completion(s: State, r: RequestValue) returns (w: string)
    requires Consistent(s, r)
    ensures w != "" && Run(s, r, w).outcome.result == Good && Run(s, r, w).used == |w|
    decreases Distance(s)
  {
    hide Step;
    NextCharStep(s, r);
    var c := NextChar(s);
    if s == Newline3 {
      w := [c];
      RunOne(s, r, c);
    } else {
      var o := Step(s, r, c);
      var rest := Completion(o.state, o.req);
      w := [c] + rest;
      assert w[1..] == rest;
    }
  }

  ghost predicate IsMessage(text: string) { exists m :: Reads(m, text) }

  /** A text is taken as unfinished exactly when more characters can make it a message. */
  lemma UnfinishedExactly(r: RequestValue, text: string)
    requires Fresh(r)
    ensures Run(MethodStart, r, text).outcome.result == Indeterminate <==> exists w :: w != "" && IsMessage(text + w)
  {
    var p := Run(MethodStart, r, text);
    if p.outcome.result == Indeterminate {
      var w := Completion(p.outcome.state, p.outcome.req);
      RunConcat(MethodStart, r, text, w);
      AcceptsExactly(r, text + w);
      assert IsMessage(text + w);
    }
    forall w | w != "" && IsMessage(text + w) ensures p.outcome.result == Indeterminate {
      AcceptsExactly(r, text + w);
      RunConcat(MethodStart, r, text, w);
    }
  }

  /** A text that begins with a message is accepted at the end of that message. */
  lemma BeginsWithMessage(r: RequestValue, text: string, k: nat)
    requires Fresh(r) && k <= |text| && IsMessage(text[..k])
    ensures Run(MethodStart, r, text).outcome.result == Good && Run(MethodStart, r, text).used == k
  {
    hide Run, Reads;
    AcceptsExactly(r, text[..k]);
    RunConcat(MethodStart, r, text[..k], text[k..]);
    assert text[..k] + text[k..] == text;
  }

  /** A text is rejected exactly when it neither begins with a message nor is the beginning of one. */
  lemma RejectsExactly(r: RequestValue, text: string)
    requires Fresh(r)
    ensures Run(MethodStart, r, text).outcome.result == Bad
       <==> (forall k :: 0 <= k <= |text| ==> !IsMessage(text[..k])) && (forall w :: !IsMessage(text + w))
  {
    hide Run, Reads, IsMessage, Fresh;
    var p := Run(MethodStart, r, text);
    UnfinishedExactly(r, text);
    forall k | 0 <= k <= |text| && IsMessage(text[..k]) ensures p.outcome.result == Good {
      BeginsWithMessage(r, text, k);
    }
    assert text + "" == text == text[..|text|];
    if p.outcome.result == Good {
      var m := Sound(r, text);
      assert IsMessage(text[..p.used]) by { Witness(m, text[..p.used]); }
    }
  }

  lemma Witness(m: Message, text: string)
    requires Reads(m, text)
    ensures IsMessage(text)
  {}

  // ----- printing and reading back -----

  ghost predicate ValidRequest(v: RequestValue) {
    && v.methodName != "" && AllToken(v.methodName) && UriText(v.uri) && v.major >= 0 && v.minor >= 0
    && forall i :: 0 <= i < |v.headers| ==>
         v.headers[i].name != "" && AllToken(v.headers[i].name) && NoCtl(v.headers[i].value)
  }

  function DigitChar(d: int): (c: char)
    requires 0 <= d < 10
    ensures IsDigit(c) && DigitValue(c) == d
  {
    ('0' as int + d) as char
  }

  function Digits(n: nat): (s: string)
    ensures s != "" && AllDigits(s)
  {
    if n < 10 then [DigitChar(n)] else Digits(n / 10) + [DigitChar(n % 10)]
  }

  lemma {:induction false} DecimalDigits(n: nat)
    ensures Decimal(Digits(n)) == n
  {
    if n < 10 {
      SnocDecimal("", DigitChar(n));
      assert "" + [DigitChar(n)] == [DigitChar(n)];
    } else {
      SnocDecimal(Digits(n / 10), DigitChar(n % 10));
      DecimalDigits(n / 10);
    }
  }

  function FieldLines(hs: seq<Header>): (ls: seq<Line>)
    ensures |ls| == |hs|
    ensures forall i {:trigger ls[i]} :: 0 <= i < |ls| ==> ls[i] == Field(hs[i].name, hs[i].value)
  {
    seq(|hs|, i requires 0 <= i < |hs| => Field(hs[i].name, hs[i].value))
  }

  lemma {:induction false} HeadersOfFields(hs: seq<Header>)
    ensures HeadersOf(FieldLines(hs)) == hs
  {
    if hs != [] {
      var n := |hs| - 1;
      HeadersOfFields(hs[..n]);
      assert FieldLines(hs)[..n] == FieldLines(hs[..n]);
    }
  }

  function MessageOf(v: RequestValue): Message
    requires v.major >= 0 && v.minor >= 0
  {
    Message(v.methodName, v.uri, Digits(v.major), Digits(v.minor), FieldLines(v.headers))
  }

  /** A printed request is read back unchanged, however it is split over reads. */
  lemma RoundTrip(v: RequestValue, r: RequestValue, chunks: seq<string>)
    requires ValidRequest(v) && Fresh(r)
    requires Join(chunks) == Text(MessageOf(v))
    ensures RunChunks(MethodStart, r, chunks) == Outcome(Good, Newline3, v)
  {
    hide Run, RunChunks, Text, Decimal, HeadersOf;
    DecimalDigits(v.major);
    DecimalDigits(v.minor);
    HeadersOfFields(v.headers);
    Complete(MessageOf(v), r);
    RunChunksIsRun(MethodStart, r, chunks);
  }

  ghost predicate ValidHeaders(hs: seq<Header>) {
    forall i :: 0 <= i < |hs| ==> hs[i].name != "" && AllToken(hs[i].name) && NoCtl(hs[i].value)
  }

  lemma {:induction false} HeadersValid(ls: seq<Line>)
    requires forall i :: 0 <= i < |ls| ==> ValidLine(ls[i])
    ensures ValidHeaders(HeadersOf(ls))
  {
    hide AllToken;
    if ls != [] { HeadersValid(ls[..|ls| - 1]); }
  }

  lemma {:induction false} DecimalNotNegative(s: string)
    requires AllDigits(s)
    ensures Decimal(s) >= 0
  {
    if s != "" { DecimalNotNegative(s[..|s| - 1]); }
  }

  /** Conversely, every request that the parser accepts is valid, and so is read back unchanged when it is printed. */
  lemma PrintedAgain(r: RequestValue, text: string, r': RequestValue, chunks: seq<string>)
    requires Fresh(r) && Fresh(r') && Run(MethodStart, r, text).outcome.result == Good
    ensures ValidRequest(Run(MethodStart, r, text).outcome.req)
    ensures var v := Run(MethodStart, r, text).outcome.req;
            Join(chunks) == Text(MessageOf(v)) ==> RunChunks(MethodStart, r', chunks) == Outcome(Good, Newline3, v)
  {
    hide Run, RunChunks, Text, HeadersOf, Decimal, AllToken, Join;
    var m := Sound(r, text);
    HeadersValid(m.lines);
    DecimalNotNegative(m.major);
    DecimalNotNegative(m.minor);
    var v := Run(MethodStart, r, text).outcome.req;
    if Join(chunks) == Text(MessageOf(v)) { RoundTrip(v, r', chunks); }
  }

  // ----- folding -----

  ghost predicate SameVerdict(p: Progress, q: Progress) {
    p.outcome.result == q.outcome.result && p.outcome.req == q.outcome.req
  }

  lemma FoldLeadsToLws(r: RequestValue, blanks: string)
    requires Consistent(HeaderValue, r) && blanks != "" && AllBlank(blanks)
    ensures Leads(HeaderValue, r, "\r\n" + blanks, HeaderLws, r)
  {
    hide Run;
    LeadsStep(HeaderValue, r, '\r');
    LeadsThen(HeaderValue, r, "\r", Newline2, r, '\n');
    assert "\r" + "\n" == "\r\n";
    LeadsThen(HeaderValue, r, "\r\n", HeaderLineStart, r, blanks[0]);
    LeadsWord(HeaderValue, r, "\r\n" + [blanks[0]], HeaderLws, r, blanks[1..]);
    Uncons("\r\n", blanks);
  }

  /** Away from blanks the automaton does the same after a fold as inside the value. */
  lemma LwsAsValue(r: RequestValue, y: string)
    requires Consistent(HeaderValue, r) && (y != "" ==> !IsBlank(y[0]))
    ensures SameVerdict(Run(HeaderLws, r, y), Run(HeaderValue, r, y))
  {
    hide AddToValue;
  }

  /** Inside a value a line may be folded before any character that is not a blank. */
  lemma FoldingTransparent(s: State, r0: RequestValue, x: string, r: RequestValue, blanks: string, y: string)
    requires Leads(s, r0, x, HeaderValue, r)
    requires blanks != "" && AllBlank(blanks) && (y != "" ==> !IsBlank(y[0]))
    ensures SameVerdict(Run(s, r0, x + "\r\n" + blanks + y), Run(s, r0, x + y))
  {
    hide Run;
    FoldLeadsToLws(r, blanks);
    LwsAsValue(r, y);
    LeadsConcat(s, r0, x, HeaderValue, r, "\r\n" + blanks, HeaderLws, r);
    assert x + ("\r\n" + blanks) == x + "\r\n" + blanks;
    RunConcat(s, r0, x + "\r\n" + blanks, y);
    RunConcat(s, r0, x, y);
  }

  /** A fold before a character goes unnoticed, whatever comes after it, exactly when the character is not a blank. */
  lemma FoldingTransparentIff(r: RequestValue, blanks: string, c: char)
    requires Consistent(HeaderValue, r) && blanks != "" && AllBlank(blanks)
    ensures (forall rest :: SameVerdict(Run(HeaderValue, r, "\r\n" + blanks + [c] + rest),
                                        Run(HeaderValue, r, [c] + rest)))
       <==> !IsBlank(c)
  {
    if IsBlank(c) {
      FoldShows(r, blanks, c);
      assert "\r\n" + blanks + [c] + "" == "\r\n" + blanks + [c] && [c] + "" == [c];
    } else {
      forall rest ensures SameVerdict(Run(HeaderValue, r, "\r\n" + blanks + [c] + rest), Run(HeaderValue, r, [c] + rest)) {
        assert "\r\n" + blanks + [c] + rest == "" + "\r\n" + blanks + ([c] + rest);
        assert "" + ([c] + rest) == [c] + rest;
        FoldingTransparent(HeaderValue, r, "", r, blanks, [c] + rest);
      }
    }
  }

  lemma FoldShows(r: RequestValue, blanks: string, c: char)
    requires Consistent(HeaderValue, r) && blanks != "" && AllBlank(blanks) && IsBlank(c)
    ensures !SameVerdict(Run(HeaderValue, r, "\r\n" + blanks + [c]), Run(HeaderValue, r, [c]))
  {
    FoldLeadsToLws(r, blanks);
    RunConcat(HeaderValue, r, "\r\n" + blanks, [c]);
    RunOne(HeaderValue, r, c);
    RunOne(HeaderLws, r, c);
    var n := |r.headers| - 1;
    assert |AddToValue(r, c).headers[n].value| == |r.headers[n].value| + 1;
  }
}

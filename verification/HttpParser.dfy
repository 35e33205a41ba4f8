/**
  The HTTP request parser: an automaton that consumes one character at a time and fills in a request.
  A character with a code above 127 stands for an octet that is negative as a signed char.
  */
module HttpParser {

  datatype Header = Header(name: string, value: string)

  datatype RequestValue = RequestValue(methodName: string, uri: string, major: int, minor: int, headers: seq<Header>)

  datatype State =
    | MethodStart | Method | Uri
    | VersionH | VersionT1 | VersionT2 | VersionP | VersionSlash
    | MajorStart | Major | MinorStart | Minor
    | Newline1 | HeaderLineStart | HeaderLws | HeaderName | SpaceBeforeValue | HeaderValue
    | Newline2 | Newline3

  datatype Result = Good | Bad | Indeterminate

  // ----- character classes -----

  predicate IsChar(c: char) { c as int <= 127 }

  predicate IsCtl(c: char) { c as int <= 31 || c as int == 127 }

  predicate IsTspecial(c: char) {
    c in "()<>@,;:\\\"/[]?={} \t"
  }

  predicate IsDigit(c: char) { '0' <= c <= '9' }

  predicate IsToken(c: char) { IsChar(c) && !IsCtl(c) && !IsTspecial(c) }

  predicate IsBlank(c: char) { c == ' ' || c == '\t' }

  function DigitValue(c: char): int { c as int - '0' as int }

  /** The characters of a token are the letters, the digits and fifteen others. */
  lemma TokenIff(c: char)
    ensures IsToken(c) <==> 'a' <= c <= 'z' || 'A' <= c <= 'Z' || '0' <= c <= '9' || c in "!#$%&'*+-.^_`|~"
  {
    TspecialIff(c);
    PlainIff(c);
  }

  lemma TspecialIff(c: char)
    ensures IsTspecial(c) <==>
            || c == '(' || c == ')' || c == '<' || c == '>' || c == '@' || c == ',' || c == ';' || c == ':'
            || c == '\\' || c == '\"' || c == '/' || c == '[' || c == ']' || c == '?' || c == '=' || c == '{' || c == '}'
            || c == ' ' || c == '\t'
  {}

  lemma PlainIff(c: char)
    ensures c in "!#$%&'*+-.^_`|~" <==>
            || c == '!' || c == '#' || c == '$' || c == '%' || c == '&' || c == '\'' || c == '*' || c == '+'
            || c == '-' || c == '.' || c == '^' || c == '_' || c == '`' || c == '|' || c == '~'
  {}

  /** Everything but the visible characters, the space and what is above 127 is a control character. */
  lemma CtlIff(c: char)
    ensures !IsCtl(c) <==> ' ' <= c <= '~' || c as int > 127
  {}

  lemma DigitIff(c: char)
    ensures IsDigit(c) <==> c in "0123456789"
    ensures forall i :: 0 <= i < 10 ==> DigitValue("0123456789"[i]) == i
  {}

  // ----- one character -----

  datatype Outcome = Outcome(result: Result, state: State, req: RequestValue)

  /** Inside a header line there is a header to add to. */
  predicate Consistent(s: State, r: RequestValue) {
    s in {HeaderLws, HeaderName, SpaceBeforeValue, HeaderValue} ==> r.headers != []
  }

  function AddToName(r: RequestValue, c: char): RequestValue
    requires r.headers != []
  {
    var n := |r.headers| - 1;
    r.(headers := r.headers[n := r.headers[n].(name := r.headers[n].name + [c])])
  }

  function AddToValue(r: RequestValue, c: char): RequestValue
    requires r.headers != []
  {
    var n := |r.headers| - 1;
    r.(headers := r.headers[n := r.headers[n].(value := r.headers[n].value + [c])])
  }

  function Expect(c: char, wanted: char, s: State, next: State, r: RequestValue): Outcome {
    if c == wanted then Outcome(Indeterminate, next, r) else Outcome(Bad, s, r)
  }

  function Step(s: State, r: RequestValue, c: char): (o: Outcome)
    requires Consistent(s, r)
    ensures Consistent(o.state, o.req)
  {
    var bad := Outcome(Bad, s, r);
    match s
    case MethodStart =>
      if !IsToken(c) then bad else Outcome(Indeterminate, Method, r.(methodName := r.methodName + [c]))
    case Method =>
      if c == ' ' then Outcome(Indeterminate, Uri, r)
      else if !IsToken(c) then bad
      else Outcome(Indeterminate, s, r.(methodName := r.methodName + [c]))
    case Uri =>
      if c == ' ' then Outcome(Indeterminate, VersionH, r)
      else if IsCtl(c) then bad
      else Outcome(Indeterminate, s, r.(uri := r.uri + [c]))
    case VersionH => Expect(c, 'H', s, VersionT1, r)
    case VersionT1 => Expect(c, 'T', s, VersionT2, r)
    case VersionT2 => Expect(c, 'T', s, VersionP, r)
    case VersionP => Expect(c, 'P', s, VersionSlash, r)
    case VersionSlash =>
      if c == '/' then Outcome(Indeterminate, MajorStart, r.(major := 0, minor := 0)) else bad
    case MajorStart =>
      if IsDigit(c) then Outcome(Indeterminate, Major, r.(major := r.major * 10 + DigitValue(c))) else bad
    case Major =>
      if c == '.' then Outcome(Indeterminate, MinorStart, r)
      else if IsDigit(c) then Outcome(Indeterminate, s, r.(major := r.major * 10 + DigitValue(c)))
      else bad
    case MinorStart =>
      if IsDigit(c) then Outcome(Indeterminate, Minor, r.(minor := r.minor * 10 + DigitValue(c))) else bad
    case Minor =>
      if c == '\r' then Outcome(Indeterminate, Newline1, r)
      else if IsDigit(c) then Outcome(Indeterminate, s, r.(minor := r.minor * 10 + DigitValue(c)))
      else bad
    case Newline1 => Expect(c, '\n', s, HeaderLineStart, r)
    case HeaderLineStart =>
      if c == '\r' then Outcome(Indeterminate, Newline3, r)
      else if r.headers != [] && IsBlank(c) then Outcome(Indeterminate, HeaderLws, r)
      else if !IsToken(c) then bad
      else Outcome(Indeterminate, HeaderName, r.(headers := r.headers + [Header([c], "")]))
    case HeaderLws =>
      if c == '\r' then Outcome(Indeterminate, Newline2, r)
      else if IsBlank(c) then Outcome(Indeterminate, s, r)
      else if IsCtl(c) then bad
      else Outcome(Indeterminate, HeaderValue, AddToValue(r, c))
    case HeaderName =>
      if c == ':' then Outcome(Indeterminate, SpaceBeforeValue, r)
      else if !IsToken(c) then bad
      else Outcome(Indeterminate, s, AddToName(r, c))
    case SpaceBeforeValue => Expect(c, ' ', s, HeaderValue, r)
    case HeaderValue =>
      if c == '\r' then Outcome(Indeterminate, Newline2, r)
      else if IsCtl(c) then bad
      else Outcome(Indeterminate, s, AddToValue(r, c))
    case Newline2 => Expect(c, '\n', s, HeaderLineStart, r)
    case Newline3 => if c == '\n' then Outcome(Good, s, r) else bad
  }

  // ----- a run -----

  /** The outcome of a run and the number of characters it used; it stops at the first decision. */
  datatype Progress = Progress(outcome: Outcome, used: nat)

  function Run(s: State, r: RequestValue, text: string): (p: Progress)
    requires Consistent(s, r)
    ensures Consistent(p.outcome.state, p.outcome.req)
    ensures p.used <= |text|
    ensures p.outcome.result == Indeterminate ==> p.used == |text|
    decreases |text|
  {
    if text == "" then Progress(Outcome(Indeterminate, s, r), 0)
    else
      var o := Step(s, r, text[0]);
      if o.result != Indeterminate then Progress(o, 1)
      else
        var p := Run(o.state, o.req, text[1..]);
        p.(used := p.used + 1)
  }

  /** A run that continues, unless it has decided. */
  function Resume(p: Progress, b: string): Progress
    requires Consistent(p.outcome.state, p.outcome.req)
  {
    if p.outcome.result != Indeterminate then p
    else
      var q := Run(p.outcome.state, p.outcome.req, b);
      q.(used := p.used + q.used)
  }

  lemma {:induction false} RunConcat(s: State, r: RequestValue, a: string, b: string)
    requires Consistent(s, r)
    ensures Run(s, r, a + b) == Resume(Run(s, r, a), b)
    decreases |a|
  {
    hide Step;
    if a == "" {
      assert a + b == b;
    } else {
      assert (a + b)[1..] == a[1..] + b;
      var o := Step(s, r, a[0]);
      if o.result == Indeterminate { RunConcat(o.state, o.req, a[1..], b); }
    }
  }

  lemma RunOne(s: State, r: RequestValue, c: char)
    requires Consistent(s, r)
    ensures Run(s, r, [c]) == Progress(Step(s, r, c), 1)
  {
    hide Step;
    assert [c][1..] == "";
  }

  /** Parsing chunk by chunk, as the connection does until there is a decision. */
  function RunChunks(s: State, r: RequestValue, chunks: seq<string>): Outcome
    requires Consistent(s, r)
    decreases |chunks|
  {
    if chunks == [] then Outcome(Indeterminate, s, r)
    else
      var p := Run(s, r, chunks[0]);
      if p.outcome.result != Indeterminate then p.outcome
      else RunChunks(p.outcome.state, p.outcome.req, chunks[1..])
  }

  function Join(chunks: seq<string>): string {
    if chunks == [] then "" else chunks[0] + Join(chunks[1..])
  }

  /** The outcome does not depend on how the text arrives. */
  lemma {:induction false} RunChunksIsRun(s: State, r: RequestValue, chunks: seq<string>)
    requires Consistent(s, r)
    ensures RunChunks(s, r, chunks) == Run(s, r, Join(chunks)).outcome
    decreases |chunks|
  {
    hide Step;
    if chunks != [] {
      RunConcat(s, r, chunks[0], Join(chunks[1..]));
      var p := Run(s, r, chunks[0]);
      if p.outcome.result == Indeterminate {
        RunChunksIsRun(p.outcome.state, p.outcome.req, chunks[1..]);
      }
    }
  }

  // ----- the objects -----

  class Request {
    var methodName: string
    var uri: string
    var major: int
    var minor: int
    var headers: seq<Header>

    /** A new request; its version is whatever the memory held. */
    constructor (major: int, minor: int)
      ensures Value() == RequestValue("", "", major, minor, [])
    {
      methodName, uri, headers := "", "", [];
      this.major, this.minor := major, minor;
    }

    function Value(): RequestValue
      reads this
    {
      RequestValue(methodName, uri, major, minor, headers)
    }
  }

  class RequestParser {
    var state: State

    constructor ()
      ensures state == MethodStart
    {
      state := MethodStart;
    }

    method Reset()
      modifies this
      ensures state == MethodStart
    {
      state := MethodStart;
    }

    method PushName(req: Request, c: char)
      requires req.headers != []
      modifies req`headers
      ensures req.Value() == AddToName(old(req.Value()), c)
    {
      var n := |req.headers| - 1;
      req.headers := req.headers[n := req.headers[n].(name := req.headers[n].name + [c])];
    }

    method PushValue(req: Request, c: char)
      requires req.headers != []
      modifies req`headers
      ensures req.Value() == AddToValue(old(req.Value()), c)
    {
      var n := |req.headers| - 1;
      req.headers := req.headers[n := req.headers[n].(value := req.headers[n].value + [c])];
    }

    method Consume(req: Request, input: char) returns (result: Result)
      requires Consistent(state, req.Value())
      modifies this, req
      ensures Outcome(result, state, req.Value()) == Step(old(state), old(req.Value()), input)
    {
      hide AddToName, AddToValue, IsTspecial;
      result := Indeterminate;
      match state {
        case MethodStart =>
          if !IsChar(input) || IsCtl(input) || IsTspecial(input) {
            result := Bad;
          } else {
            state := Method;
            req.methodName := req.methodName + [input];
          }
        case Method =>
          if input == ' ' {
            state := Uri;
          } else if !IsChar(input) || IsCtl(input) || IsTspecial(input) {
            result := Bad;
          } else {
            req.methodName := req.methodName + [input];
          }
        case Uri =>
          if input == ' ' {
            state := VersionH;
          } else if IsCtl(input) {
            result := Bad;
          } else {
            req.uri := req.uri + [input];
          }
        case VersionH =>
          if input == 'H' { state := VersionT1; } else { result := Bad; }
        case VersionT1 =>
          if input == 'T' { state := VersionT2; } else { result := Bad; }
        case VersionT2 =>
          if input == 'T' { state := VersionP; } else { result := Bad; }
        case VersionP =>
          if input == 'P' { state := VersionSlash; } else { result := Bad; }
        case VersionSlash =>
          if input == '/' {
            req.major, req.minor := 0, 0;
            state := MajorStart;
          } else {
            result := Bad;
          }
        case MajorStart =>
          if IsDigit(input) {
            req.major := req.major * 10 + DigitValue(input);
            state := Major;
          } else {
            result := Bad;
          }
        case Major =>
          if input == '.' {
            state := MinorStart;
          } else if IsDigit(input) {
            req.major := req.major * 10 + DigitValue(input);
          } else {
            result := Bad;
          }
        case MinorStart =>
          if IsDigit(input) {
            req.minor := req.minor * 10 + DigitValue(input);
            state := Minor;
          } else {
            result := Bad;
          }
        case Minor =>
          if input == '\r' {
            state := Newline1;
          } else if IsDigit(input) {
            req.minor := req.minor * 10 + DigitValue(input);
          } else {
            result := Bad;
          }
        case Newline1 =>
          if input == '\n' { state := HeaderLineStart; } else { result := Bad; }
        case HeaderLineStart =>
          if input == '\r' {
            state := Newline3;
          } else if req.headers != [] && (input == ' ' || input == '\t') {
            state := HeaderLws;
          } else if !IsChar(input) || IsCtl(input) || IsTspecial(input) {
            result := Bad;
          } else {
            req.headers := req.headers + [Header([input], "")];
            state := HeaderName;
          }
        case HeaderLws =>
          if input == '\r' {
            state := Newline2;
          } else if input == ' ' || input == '\t' {
          } else if IsCtl(input) {
            result := Bad;
          } else {
            state := HeaderValue;
            PushValue(req, input);
          }
        case HeaderName =>
          if input == ':' {
            state := SpaceBeforeValue;
          } else if !IsChar(input) || IsCtl(input) || IsTspecial(input) {
            result := Bad;
          } else {
            PushName(req, input);
          }
        case SpaceBeforeValue =>
          if input == ' ' { state := HeaderValue; } else { result := Bad; }
        case HeaderValue =>
          if input == '\r' {
            state := Newline2;
          } else if IsCtl(input) {
            result := Bad;
          } else {
            PushValue(req, input);
          }
        case Newline2 =>
          if input == '\n' { state := HeaderLineStart; } else { result := Bad; }
        case Newline3 =>
          result := if input == '\n' then Good else Bad;
      }
    }

    /** Consumes characters until there is a decision; end is where it stopped. */
    method Parse(req: Request, input: string) returns (result: Result, end: nat)
      requires Consistent(state, req.Value())
      modifies this, req
      ensures Progress(Outcome(result, state, req.Value()), end) == Run(old(state), old(req.Value()), input)
    {
      hide Step;
      end := 0;
      while end != |input|
        invariant end <= |input| && Consistent(state, req.Value())
        invariant var p := Run(state, req.Value(), input[end..]);
                  Run(old(state), old(req.Value()), input) == p.(used := end + p.used)
      {
        assert input[end..][1..] == input[end + 1..];
        result := Consume(req, input[end]);
        end := end + 1;
        if result == Good || result == Bad {
          return;
        }
      }
      result := Indeterminate;
    }
  }
}

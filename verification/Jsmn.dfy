/** The jsmn JSON tokenizer in its default configuration: no strict mode, no parent links. */
module Jsmn {
  datatype Kind = Object | Array | String | Primitive

  /** A span of the text; an open container has end -1. */
  datatype Token = Token(kind: Kind, start: int, end: int, size: nat) {
    predicate Open() {
      start != -1 && end == -1
    }

    predicate Container() {
      kind.Object? || kind.Array?
    }
  }

  datatype Error = NoMem | Inval | Part
  datatype Result = Ok(count: nat) | Fail(error: Error)
  datatype Scan = Stop(at: nat) | Bad(error: Error)

  // ------------------------------------------------------------- lexemes

  /** The text ends at its length or at a NUL. */
  predicate Ended(js: string, p: nat)
  {
    p >= |js| || js[p] == '\0'
  }

  predicate White(c: char)
  {
    c == '\t' || c == '\r' || c == '\n' || c == ' '
  }

  predicate Delimiter(c: char)
  {
    White(c) || c == ':' || c == ',' || c == ']' || c == '}'
  }

  predicate Printable(c: char)
  {
    ' ' <= c < '\U{7F}'
  }

  predicate HexDigit(c: char)
  {
    '0' <= c <= '9' || 'A' <= c <= 'F' || 'a' <= c <= 'f'
  }

  predicate SimpleEscape(c: char)
  {
    c == '"' || c == '/' || c == '\\' || c == 'b' || c == 'f' || c == 'r' || c == 'n' || c == 't'
  }

  /** Where an unquoted value that reaches p ends: at a delimiter or at the end of the text. */
  function PrimitiveEnd(js: string, p: nat): (s: Scan)
    requires p <= |js|
    ensures s.Stop? ==> p <= s.at <= |js| && (p < s.at <==> !Ended(js, p) && !Delimiter(js[p]))
    ensures s.Bad? ==> s.error.Inval?
    decreases |js| - p
  {
    if Ended(js, p) || Delimiter(js[p]) then Stop(p)
    else if !Printable(js[p]) then Bad(Inval)
    else PrimitiveEnd(js, p + 1)
  }

  /** Skips at most n hexadecimal digits. */
  function HexEnd(js: string, p: nat, n: nat): (s: Scan)
    requires p <= |js|
    ensures s.Stop? ==> p <= s.at <= |js| && s.at <= p + n
    ensures s.Bad? ==> s.error.Inval?
    decreases n
  {
    if n == 0 || Ended(js, p) then Stop(p)
    else if !HexDigit(js[p]) then Bad(Inval)
    else HexEnd(js, p + 1, n - 1)
  }

  /** The closing quote of a string whose text continues at p. */
  function StringEnd(js: string, p: nat): (s: Scan)
    requires p <= |js|
    ensures s.Stop? ==> p <= s.at < |js| && js[s.at] == '"'
    ensures s.Bad? ==> s.error.Inval? || s.error.Part?
    decreases |js| - p
  {
    if Ended(js, p) then Bad(Part)
    else if js[p] == '"' then Stop(p)
    else if js[p] == '\\' && p + 1 < |js| then
      if SimpleEscape(js[p + 1]) then StringEnd(js, p + 2)
      else if js[p + 1] == 'u' then
        var h := HexEnd(js, p + 2, 4);
        if h.Bad? then h else StringEnd(js, h.at)
      else Bad(Inval)
    else StringEnd(js, p + 1)
  }

  /** The lexeme at p, whatever it is, ends before the position returned. */
  function LexemeEnd(js: string, p: nat): (s: Scan)
    requires p <= |js| && !Ended(js, p)
    ensures s.Stop? ==> p < s.at <= |js|
    ensures s.Bad? ==> s.error.Inval? || s.error.Part?
  {
    var c := js[p];
    if c == '"' then
      var q := StringEnd(js, p + 1);
      if q.Bad? then q else Stop(q.at + 1)
    else if c == '{' || c == '[' || Delimiter(c) then Stop(p + 1)
    else PrimitiveEnd(js, p)
  }

  /** Characters that start a token. */
  predicate Starts(c: char)
  {
    !Delimiter(c)
  }

  // ------------------------------------------------------- parser states

  /** The parser's state together with the tokens allocated so far. */
  datatype State = State(pos: nat, toks: seq<Token>, super: int) {
    ghost predicate Valid(js: string) {
      pos <= |js| && WellFormed(toks) && -1 <= super < |toks|
    }
  }

  const INIT := State(0, [], -1)

  /** Only containers are ever open. */
  ghost predicate WellFormed(toks: seq<Token>)
  {
    forall i :: 0 <= i < |toks| ==> toks[i].start >= 0 && (toks[i].Open() ==> toks[i].Container())
  }

  /** The innermost container that is open among the first i tokens, or -1. */
  function Enclosing(toks: seq<Token>, i: nat): (k: int)
    requires i <= |toks|
    ensures -1 <= k < i && (k >= 0 ==> toks[k].Open())
    ensures forall j :: k < j < i ==> !toks[j].Open()
  {
    if i == 0 then -1 else if toks[i - 1].Open() then i - 1 else Enclosing(toks, i - 1)
  }

  /** One more child for the superior token. */
  function Adopt(toks: seq<Token>, super: int): (r: seq<Token>)
    requires -1 <= super < |toks|
    ensures |r| == |toks|
    ensures forall i :: 0 <= i < |toks| ==> r[i] == if i == super then toks[i].(size := toks[i].size + 1) else toks[i]
  {
    if super == -1 then toks else toks[super := toks[super].(size := toks[super].size + 1)]
  }

  function Opens(c: char): Kind
  {
    if c == '{' then Object else Array
  }

  function Closes(c: char): Kind
  {
    if c == '}' then Object else Array
  }

  /** The superior token after a comma: a key or scalar gives way to its container. */
  function AfterComma(toks: seq<Token>, super: int): (k: int)
    requires -1 <= super < |toks|
    ensures -1 <= k < |toks|
  {
    if super != -1 && !toks[super].Container() && Enclosing(toks, |toks|) != -1 then Enclosing(toks, |toks|) else super
  }

  datatype Step = Next(state: State) | Stuck(error: Error)

  /** Adds a scalar token that ends the lexeme before position next. */
  function AddScalar(st: State, n: nat, kind: Kind, start: nat, end: nat, next: nat): Step
    requires -1 <= st.super < |st.toks|
  {
    if |st.toks| >= n then Stuck(NoMem)
    else Next(State(next, Adopt(st.toks, st.super) + [Token(kind, start, end, 0)], st.super))
  }

  /** What the parser does at one lexeme, with room for n tokens. When it is stuck its state stays as it was. */
  function Advance(js: string, st: State, n: nat): (r: Step)
    requires st.Valid(js) && !Ended(js, st.pos)
    ensures r.Next? ==> r.state.Valid(js) && LexemeEnd(js, st.pos) == Stop(r.state.pos)
  {
    var c := js[st.pos];
    if c == '{' || c == '[' then
      if |st.toks| >= n then Stuck(NoMem)
      else Next(State(st.pos + 1, Adopt(st.toks, st.super) + [Token(Opens(c), st.pos, -1, 0)], |st.toks|))
    else if c == '}' || c == ']' then
      var i := Enclosing(st.toks, |st.toks|);
      if i == -1 || st.toks[i].kind != Closes(c) then Stuck(Inval)
      else Next(State(st.pos + 1, st.toks[i := st.toks[i].(end := st.pos + 1)], Enclosing(st.toks, i)))
    else if c == '"' then
      var q := StringEnd(js, st.pos + 1);
      if q.Bad? then Stuck(q.error) else AddScalar(st, n, String, st.pos + 1, q.at, q.at + 1)
    else if White(c) then Next(st.(pos := st.pos + 1))
    else if c == ':' then Next(st.(pos := st.pos + 1, super := |st.toks| - 1))
    else if c == ',' then Next(st.(pos := st.pos + 1, super := AfterComma(st.toks, st.super)))
    else
      var q := PrimitiveEnd(js, st.pos);
      if q.Bad? then Stuck(q.error) else AddScalar(st, n, Primitive, st.pos, q.at, q.at)
  }

  datatype Outcome = Outcome(state: State, result: Result)

  /** A whole call with an array of n tokens. */
  function Run(js: string, st: State, n: nat): (o: Outcome)
    requires st.Valid(js)
    ensures o.state.Valid(js) && o.state.pos >= st.pos && |o.state.toks| >= |st.toks|
    ensures o.result.Ok? ==> o.result.count == |o.state.toks| && Ended(js, o.state.pos)
    decreases |js| - st.pos
  {
    if Ended(js, st.pos) then
      Outcome(st, if Enclosing(st.toks, |st.toks|) != -1 then Fail(Part) else Ok(|st.toks|))
    else
      var s := Advance(js, st, n);
      if s.Stuck? then Outcome(st, Fail(s.error)) else Run(js, s.state, n)
  }

  /** A call without a token array: only lexemes are read, and those that would be tokens are counted. */
  function Count(js: string, p: nat): (r: Result)
    requires p <= |js|
    decreases |js| - p
  {
    if Ended(js, p) then Ok(0)
    else
      var q := LexemeEnd(js, p);
      if q.Bad? then Fail(q.error)
      else
        var rest := Count(js, q.at);
        if rest.Ok? && Starts(js[p]) then Ok(rest.count + 1) else rest
  }
}

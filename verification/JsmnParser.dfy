/** The tokenizer as it runs: a parser object filling a token array in place. */
module JsmnParser {
  import opened Jsmn
  import opened Options

  class Parser {
    var pos: nat
    var toknext: nat
    var toksuper: int

    constructor Init()
      ensures pos == 0 && toknext == 0 && toksuper == -1
    {
      pos, toknext, toksuper := 0, 0, -1;
    }

    /** The parser together with the tokens it has allocated. */
    ghost function Abstract(tokens: array<Token>): State
      reads this, tokens
      requires toknext <= tokens.Length
    {
      State(pos, tokens[..toknext], toksuper)
    }

    ghost predicate Valid(js: string, tokens: array<Token>)
      reads this, tokens
    {
      toknext <= tokens.Length && Abstract(tokens).Valid(js)
    }

    /** Takes the next token of the pool, or None when the pool is exhausted. */
    method AllocToken(tokens: array<Token>, numTokens: nat) returns (index: Option<nat>)
      requires toknext <= tokens.Length && numTokens <= tokens.Length
      modifies this`toknext, tokens
      ensures toknext <= tokens.Length
      ensures index == if old(toknext) < numTokens then Some(old(toknext)) else None
      ensures index.None? ==> toknext == old(toknext) && tokens[..] == old(tokens[..])
      ensures index.Some? ==> toknext == old(toknext) + 1
      ensures index.Some? ==> tokens[..toknext] == old(tokens[..toknext]) + [old(tokens[toknext]).(start := -1, end := -1, size := 0)]
    {
      if toknext >= numTokens {
        return None;
      }
      tokens[toknext] := tokens[toknext].(start := -1, end := -1, size := 0);
      index := Some(toknext);
      toknext := toknext + 1;
    }

    /** Adds a scalar token, or restores the position when there is no room. */
    method AddToken(tokens: array<Token>, numTokens: nat, kind: Kind, start: nat, end: nat, lexeme: nat) returns (ok: bool)
      requires toknext <= tokens.Length && numTokens <= tokens.Length
      modifies this`toknext, this`pos, tokens
      ensures ok == (old(toknext) < numTokens)
      ensures !ok ==> toknext == old(toknext) && pos == lexeme && tokens[..] == old(tokens[..])
      ensures ok ==> toknext == old(toknext) + 1 <= tokens.Length && pos == old(pos)
      ensures ok ==> tokens[..toknext] == old(tokens[..toknext]) + [Token(kind, start, end, 0)]
    {
      var t := AllocToken(tokens, numTokens);
      if t.None? {
        pos := lexeme;
        return false;
      }
      tokens[t.value] := Token(kind, start, end, 0);
      ok := true;
    }

    /** Reads an unquoted value; on success the position is its last character. */
    method ParsePrimitive(js: string, tokens: array?<Token>, numTokens: nat) returns (error: Option<Error>)
      requires pos < |js| && !Ended(js, pos) && !Delimiter(js[pos])
      requires tokens != null ==> toknext <= tokens.Length && numTokens <= tokens.Length
      modifies this`pos, this`toknext
      modifies if tokens == null then {} else {tokens}
      ensures tokens != null ==> toknext <= tokens.Length
      ensures var q := PrimitiveEnd(js, old(pos));
        error == (if q.Bad? then Some(q.error) else if tokens != null && old(toknext) >= numTokens then Some(NoMem) else None)
        && (error.Some? ==> pos == old(pos) && toknext == old(toknext) && (tokens != null ==> tokens[..] == old(tokens[..])))
        && (error.None? ==> pos + 1 == q.at)
        && (error.None? && tokens == null ==> toknext == old(toknext))
        && (error.None? && tokens != null ==> (toknext == old(toknext) + 1
          && tokens[..toknext] == old(tokens[..toknext]) + [Token(Primitive, old(pos), q.at, 0)]))
    {
      var start := pos;
      while pos < |js| && js[pos] != '\0' && !Delimiter(js[pos])
        invariant start <= pos <= |js|
        invariant PrimitiveEnd(js, pos) == PrimitiveEnd(js, start)
        decreases |js| - pos
        modifies this`pos
      {
        if !Printable(js[pos]) {
          pos := start;
          return Some(Inval);
        }
        pos := pos + 1;
      }
      if tokens != null {
        var ok := AddToken(tokens, numTokens, Primitive, start, pos, start);
        if !ok {
          return Some(NoMem);
        }
      }
      pos := pos - 1;
      error := None;
    }

    /** Skips the four digits of a \u escape whose u is at the position; false at a character that is no digit. */
    method SkipHex(js: string) returns (ok: bool)
      requires pos < |js|
      modifies this`pos
      ensures var h := HexEnd(js, old(pos) + 1, 4);
        ok == h.Stop? && (ok ==> pos + 1 == h.at)
    {
      pos := pos + 1;
      ghost var first := pos;
      var i := 0;
      while i < 4 && pos < |js| && js[pos] != '\0'
        invariant first <= pos <= |js| && i <= 4
        invariant HexEnd(js, pos, 4 - i) == HexEnd(js, first, 4)
        decreases 4 - i
      {
        if !HexDigit(js[pos]) {
          return false;
        }
        pos := pos + 1;
        i := i + 1;
      }
      pos := pos - 1;
      ok := true;
    }

    /** Reads a string; on success the position is its closing quote. */
    method ParseString(js: string, tokens: array?<Token>, numTokens: nat) returns (error: Option<Error>)
      requires pos < |js| && js[pos] == '"'
      requires tokens != null ==> toknext <= tokens.Length && numTokens <= tokens.Length
      modifies this`pos, this`toknext
      modifies if tokens == null then {} else {tokens}
      ensures tokens != null ==> toknext <= tokens.Length
      ensures var q := StringEnd(js, old(pos) + 1);
        error == (if q.Bad? then Some(q.error) else if tokens != null && old(toknext) >= numTokens then Some(NoMem) else None)
        && (error.Some? ==> pos == old(pos) && toknext == old(toknext) && (tokens != null ==> tokens[..] == old(tokens[..])))
        && (error.None? ==> pos == q.at)
        && (error.None? && tokens == null ==> toknext == old(toknext))
        && (error.None? && tokens != null ==> (toknext == old(toknext) + 1
          && tokens[..toknext] == old(tokens[..toknext]) + [Token(String, old(pos) + 1, q.at, 0)]))
    {
      var start := pos;
      pos := pos + 1;
      while pos < |js| && js[pos] != '\0'
        invariant start < pos <= |js| && toknext == old(toknext)
        invariant tokens != null ==> tokens[..] == old(tokens[..])
        invariant StringEnd(js, pos) == StringEnd(js, start + 1)
        decreases |js| - pos
      {
        var c := js[pos];
        if c == '"' {
          if tokens != null {
            var ok := AddToken(tokens, numTokens, String, start + 1, pos, start);
            if !ok {
              return Some(NoMem);
            }
          }
          return None;
        }
        if c == '\\' && pos + 1 < |js| {
          pos := pos + 1;
          if js[pos] == 'u' {
            var ok := SkipHex(js);
            if !ok {
              pos := start;
              return Some(Inval);
            }
          } else if !SimpleEscape(js[pos]) {
            pos := start;
            return Some(Inval);
          }
        }
        pos := pos + 1;
      }
      pos := start;
      error := Some(Part);
    }

    /** Searches backwards for an open container. */
    method FindOpen(tokens: array<Token>, from: nat) returns (i: int)
      requires from <= tokens.Length
      ensures i == Enclosing(tokens[..from], from)
    {
      i := from - 1;
      while i >= 0 && !tokens[i].Open()
        invariant -1 <= i < from
        invariant Enclosing(tokens[..from], i + 1) == Enclosing(tokens[..from], from)
      {
        i := i - 1;
      }
    }

    method OpenContainer(js: string, tokens: array<Token>, numTokens: nat) returns (error: Option<Error>)
      requires Valid(js, tokens) && numTokens <= tokens.Length && !Ended(js, pos) && (js[pos] == '{' || js[pos] == '[')
      modifies this`toknext, this`toksuper, tokens
      ensures toknext <= tokens.Length
      ensures var s := Advance(js, old(Abstract(tokens)), numTokens);
        (error == if s.Stuck? then Some(s.error) else None)
        && Abstract(tokens) == if s.Stuck? then old(Abstract(tokens)) else s.state.(pos := pos)
    {
      var t := AllocToken(tokens, numTokens);
      if t.None? {
        return Some(NoMem);
      }
      if toksuper != -1 {
        tokens[toksuper] := tokens[toksuper].(size := tokens[toksuper].size + 1);
      }
      tokens[t.value] := tokens[t.value].(kind := if js[pos] == '{' then Object else Array, start := pos);
      toksuper := toknext - 1;
      error := None;
    }

    method CloseContainer(js: string, tokens: array<Token>, ghost numTokens: nat) returns (error: Option<Error>)
      requires Valid(js, tokens) && !Ended(js, pos) && (js[pos] == '}' || js[pos] == ']')
      modifies this`toksuper, tokens
      ensures var s := Advance(js, old(Abstract(tokens)), numTokens);
        (error == if s.Stuck? then Some(s.error) else None)
        && Abstract(tokens) == if s.Stuck? then old(Abstract(tokens)) else s.state.(pos := pos)
    {
      var kind := if js[pos] == '}' then Object else Array;
      var i := FindOpen(tokens, toknext);
      if i >= 0 && tokens[i].kind != kind {
        return Some(Inval);
      }
      if i == -1 {
        return Some(Inval);
      }
      ghost var before := tokens[..toknext];
      tokens[i] := tokens[i].(end := pos + 1);
      toksuper := FindOpen(tokens, i + 1);
      EnclosingBelow(before, tokens[..i + 1], i);
      error := None;
    }

    lemma EnclosingBelow(a: seq<Token>, b: seq<Token>, i: nat)
      requires i < |b| <= |a| && !b[i].Open() && forall j :: 0 <= j < i ==> b[j] == a[j]
      ensures Enclosing(b, i + 1) == Enclosing(a, i)
    {
    }

    method Comma(js: string, tokens: array<Token>)
      requires Valid(js, tokens)
      modifies this`toksuper
      ensures toksuper == AfterComma(tokens[..toknext], old(toksuper))
    {
      if toksuper != -1 && tokens[toksuper].kind != Array && tokens[toksuper].kind != Object {
        var i: int := toknext - 1;
        while i >= 0
          invariant -1 <= i < toknext && toksuper == old(toksuper)
          invariant Enclosing(tokens[..toknext], i + 1) == Enclosing(tokens[..toknext], toknext)
        {
          if tokens[i].kind == Array || tokens[i].kind == Object {
            if tokens[i].Open() {
              toksuper := i;
              break;
            }
          }
          i := i - 1;
        }
      }
    }

    /** One lexeme, with a token array; the position is left on its last character. */
    method ParseLexeme(js: string, tokens: array<Token>, numTokens: nat) returns (error: Option<Error>, count: nat)
      requires Valid(js, tokens) && numTokens <= tokens.Length && !Ended(js, pos)
      modifies this, tokens
      ensures toknext <= tokens.Length && (error.None? ==> toknext == old(toknext) + count)
      ensures var s := Advance(js, old(Abstract(tokens)), numTokens);
        (error == if s.Stuck? then Some(s.error) else None)
        && Abstract(tokens) == if s.Stuck? then old(Abstract(tokens)) else s.state.(pos := s.state.pos - 1)
    {
      var c := js[pos];
      error, count := None, 0;
      if c == '{' || c == '[' {
        count := 1;
        error := OpenContainer(js, tokens, numTokens);
      } else if c == '}' || c == ']' {
        error := CloseContainer(js, tokens, numTokens);
      } else if c == '"' {
        error := ParseString(js, tokens, numTokens);
        if error.None? {
          count := 1;
          if toksuper != -1 {
            tokens[toksuper] := tokens[toksuper].(size := tokens[toksuper].size + 1);
          }
        }
      } else if White(c) {
      } else if c == ':' {
        toksuper := toknext - 1;
      } else if c == ',' {
        Comma(js, tokens);
      } else {
        error := ParsePrimitive(js, tokens, numTokens);
        if error.None? {
          count := 1;
          if toksuper != -1 {
            tokens[toksuper] := tokens[toksuper].(size := tokens[toksuper].size + 1);
          }
        }
      }
    }

    /** jsmn_parse with a token array. */
    method Parse(js: string, tokens: array<Token>, numTokens: nat) returns (r: Result)
      requires Valid(js, tokens) && numTokens <= tokens.Length
      modifies this, tokens
      ensures Valid(js, tokens)
      ensures Outcome(Abstract(tokens), r) == Run(js, old(Abstract(tokens)), numTokens)
    {
      hide Advance, Enclosing;
      ghost var start := Abstract(tokens);
      var count := toknext;
      while pos < |js| && js[pos] != '\0'
        invariant Valid(js, tokens) && count == toknext
        invariant Run(js, Abstract(tokens), numTokens) == Run(js, start, numTokens)
        decreases |js| - pos
      {
        ghost var st := Abstract(tokens);
        var error, n := ParseLexeme(js, tokens, numTokens);
        if error.Some? {
          return Fail(error.value);
        }
        count := count + n;
        pos := pos + 1;
        assert Abstract(tokens) == Advance(js, st, numTokens).state;
      }
      var i := FindOpen(tokens, toknext);
      r := if i >= 0 then Fail(Part) else Ok(count);
    }

    /** jsmn_parse without a token array. */
    method ParseCounting(js: string) returns (r: Result)
      requires pos <= |js|
      modifies this
      ensures toknext == old(toknext)
      ensures var c := Count(js, old(pos));
        r == if c.Ok? then Ok(old(toknext) + c.count) else c
    {
      hide PrimitiveEnd, StringEnd;
      var count := toknext;
      ghost var start := pos;
      while pos < |js| && js[pos] != '\0'
        invariant start <= pos <= |js| && toknext == old(toknext) <= count
        invariant Count(js, start) == var c := Count(js, pos); if c.Ok? then Ok(count - toknext + c.count) else c
        decreases |js| - pos
      {
        var c := js[pos];
        var error: Option<Error> := None;
        if c == '{' || c == '[' {
          count := count + 1;
        } else if c == '"' {
          error := ParseString(js, null, 0);
          if error.Some? {
            return Fail(error.value);
          }
          count := count + 1;
        } else if c == ':' {
          toksuper := toknext - 1;
        } else if !Delimiter(c) {
          error := ParsePrimitive(js, null, 0);
          if error.Some? {
            return Fail(error.value);
          }
          count := count + 1;
        }
        pos := pos + 1;
      }
      r := Ok(count);
    }
  }
}

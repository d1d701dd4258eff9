/** The lexemes of JSON texts, by the characters that RFC 8259 names. */
module Rfc8259 {
  /** Insignificant whitespace (section 2). */
  predicate Space(c: char)
  {
    c == ' ' || c == '\t' || c == '\n' || c == '\r'
  }

  /** Structural characters (section 2). */
  predicate Structural(c: char)
  {
    c == '[' || c == '{' || c == ']' || c == '}' || c == ':' || c == ','
  }

  /** Structural characters that may follow a value. */
  predicate Follower(c: char)
  {
    c == ']' || c == '}' || c == ':' || c == ','
  }

  /** Characters of literal names and numbers (sections 3 and 6). */
  predicate WordChar(c: char)
  {
    '0' <= c <= '9' || 'a' <= c <= 'z' || 'A' <= c <= 'Z' || c == '-' || c == '+' || c == '.'
  }

  predicate WordText(s: string)
  {
    s != [] && forall i :: 0 <= i < |s| ==> WordChar(s[i])
  }

  // ----------------------------------------------------- strings (section 7)

  predicate HexChar(c: char)
  {
    '0' <= c <= '9' || 'A' <= c <= 'F' || 'a' <= c <= 'f'
  }

  /** What may follow a backslash, besides u. */
  predicate Escapable(c: char)
  {
    c == '"' || c == '\\' || c == '/' || c == 'b' || c == 'f' || c == 'n' || c == 'r' || c == 't'
  }

  /** The length of the escape sequence at the start of a text, or 0. */
  function EscapeLength(s: string): (n: nat)
    ensures n <= |s|
  {
    if |s| < 2 || s[0] != '\\' then 0
    else if Escapable(s[1]) then 2
    else if s[1] == 'u' && |s| >= 6 && HexChar(s[2]) && HexChar(s[3]) && HexChar(s[4]) && HexChar(s[5]) then 6
    else 0
  }

  /** Characters a JSON string may hold unescaped. */
  predicate Unescaped(c: char)
  {
    c >= ' ' && c != '"' && c != '\\'
  }

  /** The text between the quotes of a JSON string. */
  predicate StringBody(s: string)
    decreases |s|
  {
    s == [] || (if s[0] == '\\' then EscapeLength(s) > 0 && StringBody(s[EscapeLength(s)..]) else Unescaped(s[0]) && StringBody(s[1..]))
  }

  /** The same with control characters let through, except NUL. */
  predicate LaxBody(s: string)
    decreases |s|
  {
    s == [] ||
    (if s[0] == '\\' then EscapeLength(s) > 0 && LaxBody(s[EscapeLength(s)..])
     else s[0] != '"' && s[0] != '\0' && LaxBody(s[1..]))
  }

  lemma {:induction false} BodyIsLax(s: string)
    ensures StringBody(s) <==> LaxBody(s) && forall i :: 0 <= i < |s| ==> s[i] >= ' '
    decreases |s|
  {
    if s != [] {
      var n := if s[0] == '\\' then EscapeLength(s) else 1;
      if n > 0 {
        BodyIsLax(s[n..]);
        assert forall i :: 0 <= i < |s| ==> if i < n then s[i] == s[..n][i] else s[i] == s[n..][i - n];
      }
    }
  }

  // ---------------------------------------------------------------- texts

  datatype Lexeme = Mark(c: char) | Quoted(body: string) | Word(text: string) {
    predicate Valid() {
      match this
      case Mark(c) => Structural(c)
      case Quoted(body) => LaxBody(body)
      case Word(text) => WordText(text)
    }

    function Spelling(): (s: string)
      ensures s != [] || (Word? && text == [])
    {
      match this
      case Mark(c) => [c]
      case Quoted(body) => "\"" + body + "\""
      case Word(text) => text
    }
  }

  predicate Spaces(w: string)
  {
    forall i :: 0 <= i < |w| ==> Space(w[i])
  }

  /** A text: whitespace before every lexeme and at the end. */
  function Layout(ws: seq<string>, ls: seq<Lexeme>): string
    requires |ws| == |ls| + 1
  {
    if ls == [] then ws[0] else ws[0] + (ls[0].Spelling() + Layout(ws[1..], ls[1..]))
  }

  /** All lexemes are valid, and something ends each word. */
  predicate Separated(ws: seq<string>, ls: seq<Lexeme>)
    requires |ws| == |ls| + 1
  {
    && Spaces(ws[0])
    && (ls != [] ==>
      ls[0].Valid() && Separated(ws[1..], ls[1..])
      && (ls[0].Word? ==> ws[1] != [] || |ls| == 1 || (ls[1].Mark? && Follower(ls[1].c))))
  }
}

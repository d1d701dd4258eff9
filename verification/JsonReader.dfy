/** Rebuilding a document from a text and its tokens, and the round trip from a tree to its document. */
module JsonReader {
  import opened Jsmn
  import opened JsmnProperties
  import opened JsonDoc
  import opened JsonMeaning
  import opened JsonRoundTrip
  import opened MtoJson
  import opened Options
  import opened Rfc8259

  // --------------------------------------------------------------- reading

  /** The text a string token stands for; None at an escape sequence the generator does not write. */
  function Unescape(s: string): Option<string>
  {
    if s == [] then Some([])
    else if s[0] == '\\' then
      if |s| > 1 && NeedsEscape(s[1]) then
        var rest := Unescape(s[2..]);
        if rest.None? then None else Some([s[1]] + rest.value)
      else None
    else
      var rest := Unescape(s[1..]);
      if rest.None? then None else Some([s[0]] + rest.value)
  }

  /** The text of a token. */
  function Span(js: string, t: Token): Option<string>
  {
    if 0 <= t.start <= t.end <= |js| then Some(js[t.start..t.end]) else None
  }

  function StringOf(js: string, t: Token): Option<string>
  {
    var s := Span(js, t);
    if t.kind.String? && s.Some? then Unescape(s.value) else None
  }

  datatype Reading<T> = Reading(value: T, next: nat)

  /** The document whose first token is token i, and the index after its last token: a consumer
      that follows the sizes of the tokens. */
  function ReadDoc(js: string, toks: seq<Token>, i: nat): (r: Option<Reading<Doc>>)
    ensures r.Some? ==> i < r.value.next <= |toks|
    decreases |toks| - i, 1, 0
  {
    if i >= |toks| then None
    else
      match toks[i].kind
      case Primitive =>
        var s := Span(js, toks[i]);
        if s.None? then None else Some(Reading(Prim(s.value), i + 1))
      case String =>
        var s := StringOf(js, toks[i]);
        if s.None? then None else Some(Reading(Str(s.value), i + 1))
      case Array =>
        var items := ReadItems(js, toks, i + 1, toks[i].size);
        if items.None? then None else Some(Reading(Arr(items.value.value), items.value.next))
      case Object =>
        var fields := ReadFields(js, toks, i + 1, toks[i].size);
        if fields.None? then None else Some(Reading(Obj(fields.value.value), fields.value.next))
  }

  function ReadItems(js: string, toks: seq<Token>, i: nat, k: nat): (r: Option<Reading<seq<Doc>>>)
    requires i <= |toks|
    ensures r.Some? ==> i <= r.value.next <= |toks|
    decreases |toks| - i, 2, k
  {
    if k == 0 then Some(Reading([], i))
    else
      var d := ReadDoc(js, toks, i);
      if d.None? then None
      else
        var rest := ReadItems(js, toks, d.value.next, k - 1);
        if rest.None? then None else Some(Reading([d.value.value] + rest.value.value, rest.value.next))
  }

  function ReadFields(js: string, toks: seq<Token>, i: nat, k: nat): (r: Option<Reading<seq<Field>>>)
    requires i <= |toks|
    ensures r.Some? ==> i <= r.value.next <= |toks|
    decreases |toks| - i, 2, k
  {
    if k == 0 then Some(Reading([], i))
    else
      var f := ReadField(js, toks, i);
      if f.None? then None
      else
        var rest := ReadFields(js, toks, f.value.next, k - 1);
        if rest.None? then None else Some(Reading([f.value.value] + rest.value.value, rest.value.next))
  }

  /** A name with one child, and its value. */
  function ReadField(js: string, toks: seq<Token>, i: nat): (r: Option<Reading<Field>>)
    requires i <= |toks|
    ensures r.Some? ==> i < r.value.next <= |toks|
    decreases |toks| - i, 1, 0
  {
    if i >= |toks| || toks[i].size != 1 then None
    else
      var name := StringOf(js, toks[i]);
      var d := ReadDoc(js, toks, i + 1);
      if name.None? || d.None? then None else Some(Reading(Field(name.value, d.value.value), d.value.next))
  }

  // --------------------------------------------------- reading back tokens

  /** Escaping is undone. */
  lemma {:induction false} UnescapeEscape(s: string)
    ensures Unescape(Escape(s)) == Some(s)
  {
    if s != [] {
      var c := if NeedsEscape(s[0]) then ['\\', s[0]] else [s[0]];
      assert (c + Escape(s[1..]))[|c|..] == Escape(s[1..]);
      UnescapeEscape(s[1..]);
      assert [s[0]] + s[1..] == s;
    }
  }

  /** The tokens more stand at index i. */
  predicate TokensAt(toks: seq<Token>, i: nat, more: seq<Token>)
  {
    i + |more| <= |toks| && toks[i..i + |more|] == more
  }

  lemma TokensParts(toks: seq<Token>, i: nat, a: seq<Token>, b: seq<Token>)
    requires TokensAt(toks, i, a + b)
    ensures TokensAt(toks, i, a) && TokensAt(toks, i + |a|, b)
  {
    assert (a + b)[..|a|] == a && (a + b)[|a|..] == b;
  }

  lemma TokensRoom(toks: seq<Token>, i: nat, more: seq<Token>)
    requires TokensAt(toks, i, more)
    ensures i <= |toks|
  {
  }

  lemma TokensFirst(toks: seq<Token>, i: nat, more: seq<Token>)
    requires TokensAt(toks, i, more) && more != []
    ensures i < |toks| && toks[i] == more[0]
  {
    assert toks[i..i + |more|][0] == more[0];
  }

  lemma QuotedSpan(js: string, p: nat, s: string, size: nat)
    requires At(js, p, "\"" + Escape(s) + "\"")
    ensures StringOf(js, Token(String, p + 1, p + 1 + |Escape(s)|, size)) == Some(s)
  {
    hide Escape, Unescape;
    assert "\"" + Escape(s) + "\"" == "\"" + (Escape(s) + "\"");
    AtParts(js, p, "\"", Escape(s) + "\"");
    AtParts(js, p + 1, Escape(s), "\"");
    UnescapeEscape(s);
  }

  /** The tokens of a printed document read back as the document. */
  lemma {:induction false} ReadTokens(js: string, p: nat, toks: seq<Token>, i: nat, d: Doc)
    requires At(js, p, Print(d)) && TokensAt(toks, i, Tokens(d, p)) && PlainNames(d)
    ensures ReadDoc(js, toks, i) == Some(Reading(d, i + |Tokens(d, p)|))
    decreases d, 1, 0
  {
    hide ReadItems, ReadFields, PrintItems, PrintFields, ItemTokens, FieldTokens, Escape, Unescape, StringOf;
    TokensFirst(toks, i, Tokens(d, p));
    match d
    case Prim(t) =>
    case Str(t) => QuotedSpan(js, p, t, 0);
    case Arr(items) =>
      var t := Token(Kind.Array, p, p + |Print(d)|, |items|);
      TokensParts(toks, i, [t], ItemTokens(items, p + 1));
      assert Print(d) == "[" + (PrintItems(items) + "]");
      AtParts(js, p, "[", PrintItems(items) + "]");
      ReadItemTokens(js, p + 1, toks, i + 1, items);
    case Obj(fields) =>
      var t := Token(Kind.Object, p, p + |Print(d)|, |fields|);
      TokensParts(toks, i, [t], FieldTokens(fields, p + 1));
      assert Print(d) == "{" + (PrintFields(fields) + "}");
      AtParts(js, p, "{", PrintFields(fields) + "}");
      ReadFieldTokens(js, p + 1, toks, i + 1, fields);
  }

  /** Where the texts of the first item and of the others are. */
  lemma ItemsText(js: string, p: nat, items: seq<Doc>)
    requires items != [] && At(js, p, PrintItems(items) + "]")
    ensures At(js, p, Print(items[0]))
    ensures At(js, p + |Print(items[0])| + (if |items| > 1 then 1 else 0), PrintItems(items[1..]) + "]")
  {
    hide Print, At;
    var d := items[0];
    var others := PrintItems(items[1..]) + "]";
    var rest := if |items| > 1 then "," + others else others;
    assert PrintItems(items) + "]" == Print(d) + rest;
    AtParts(js, p, Print(d), rest);
    if |items| > 1 {
      AtParts(js, p + |Print(d)|, ",", others);
    }
  }

  /** The first item and the others, read one after the other. */
  lemma ItemsMore(js: string, toks: seq<Token>, i: nat, m: nat, items: seq<Doc>, n: nat)
    requires i <= |toks| && m <= |toks| && items != [] && ReadDoc(js, toks, i) == Some(Reading(items[0], m))
    requires ReadItems(js, toks, m, |items[1..]|) == Some(Reading(items[1..], n))
    ensures ReadItems(js, toks, i, |items|) == Some(Reading(items, n))
  {
    hide ReadDoc;
    assert [items[0]] + items[1..] == items;
  }

  lemma {:induction false} ReadItemTokens(js: string, p: nat, toks: seq<Token>, i: nat, items: seq<Doc>)
    requires At(js, p, PrintItems(items) + "]") && TokensAt(toks, i, ItemTokens(items, p))
    requires forall k :: 0 <= k < |items| ==> PlainNames(items[k])
    ensures i <= |toks| && ReadItems(js, toks, i, |items|) == Some(Reading(items, i + |ItemTokens(items, p)|))
    decreases items, 0, 0
  {
    hide ReadDoc, ReadItems, Print, PrintItems, Tokens, PlainNames, ItemTokens, At, TokensAt;
    if items == [] {
      ItemTokensNone(p);
      TokensRoom(toks, i, ItemTokens(items, p));
      ReadItemsNone(js, toks, i);
    } else {
      var d, rest := items[0], items[1..];
      var q, m := p + |Print(d)|, i + |Tokens(d, p)|;
      ItemsText(js, p, items);
      ItemTokensRoom(items, p);
      TokensParts(toks, i, Tokens(d, p), ItemTokens(rest, q + 1));
      ReadTokens(js, p, toks, i, d);
      if |items| > 1 {
        ReadItemTokens(js, q + 1, toks, m, rest);
      } else {
        ReadItemsNone(js, toks, m);
      }
      ItemsMore(js, toks, i, m, items, m + |ItemTokens(rest, q + 1)|);
    }
  }

  lemma ReadItemsNone(js: string, toks: seq<Token>, i: nat)
    ensures i <= |toks| ==> ReadItems(js, toks, i, 0) == Some(Reading([], i))
  {
  }

  lemma {:induction false} ReadFieldTokens(js: string, p: nat, toks: seq<Token>, i: nat, fields: seq<Field>)
    requires At(js, p, PrintFields(fields) + "}") && TokensAt(toks, i, FieldTokens(fields, p))
    requires forall k :: 0 <= k < |fields| ==> PlainName(fields[k].name) && PlainNames(fields[k].value)
    ensures i <= |toks| && ReadFields(js, toks, i, |fields|) == Some(Reading(fields, i + |FieldTokens(fields, p)|))
    decreases fields, 0, 0
  {
    hide ReadField, PrintField, OneField, PlainNames, PlainName, FieldTokens;
    if fields == [] {
      FieldTokensNone(p);
    } else {
      var f := fields[0];
      var q := p + |PrintField(f)|;
      FieldsText(js, p, fields);
      FieldTokensRoom(fields, p);
      TokensParts(toks, i, OneField(f, p), FieldTokens(fields[1..], q + 1));
      ReadFieldToken(js, p, toks, i, f);
      if |fields| > 1 {
        ReadFieldTokens(js, q + 1, toks, i + |OneField(f, p)|, fields[1..]);
      } else {
        ReadFieldTokens(js, q, toks, i + |OneField(f, p)|, fields[1..]);
      }
      assert fields == [f] + fields[1..];
    }
  }

  lemma {:induction false} ReadFieldToken(js: string, p: nat, toks: seq<Token>, i: nat, f: Field)
    requires At(js, p, PrintField(f)) && TokensAt(toks, i, OneField(f, p)) && PlainName(f.name) && PlainNames(f.value)
    ensures i <= |toks| && ReadField(js, toks, i) == Some(Reading(f, i + |OneField(f, p)|))
    decreases f, 2, 0
  {
    hide ReadDoc, Print, Tokens, PlainNames, StringOf;
    var t := Token(String, p + 1, p + 1 + |f.name|, 1);
    AtParts(js, p, Key(f.name), Print(f.value));
    EscapeNothing(f.name);
    assert Key(f.name) == ("\"" + Escape(f.name) + "\"") + ":";
    AtParts(js, p, "\"" + Escape(f.name) + "\"", ":");
    QuotedSpan(js, p, f.name, 1);
    TokensFirst(toks, i, OneField(f, p));
    TokensParts(toks, i, [t], Tokens(f.value, p + |Key(f.name)|));
    ReadTokens(js, p + |Key(f.name)|, toks, i + 1, f.value);
  }

  // ------------------------------------------------------------ round trip

  /** The outcome a consumer of the printed document expects. */
  function Expected(d: Doc): Outcome
  {
    Outcome(State(|Print(d)|, Tokens(d, 0), -1), Ok(|Tokens(d, 0)|))
  }

  /** Parsing a printed document gives exactly its tokens. */
  lemma ParsePrinted(d: Doc, n: nat)
    requires Proper(d) && PlainNames(d) && |Tokens(d, 0)| <= n
    ensures Run(Print(d), INIT, n) == Expected(d)
  {
    hide Tokens, Print, Proper, PlainNames;
    var js := Print(d);
    assert At(js, 0, js);
    ParseDoc(js, INIT, d, n);
    var end := After(INIT, d);
    assert Adopt([], -1) + Tokens(d, 0) == Tokens(d, 0);
    assert end == State(|js|, Tokens(d, 0), -1);
    TokensClosed(d, 0);
  }

  /** From a tree of structures to the tokenizer and back: every tree without raw text whose names need no
      escaping is recovered as its document, from any token array that is large enough; the counting call
      tells how large. The document tells every value of the tree. */
  lemma TreeRoundTrip(v: Value, n: nat)
    requires Valid(v) && Structured(v) && PlainNames(ToDoc(v)) && |Tokens(ToDoc(v), 0)| <= n
    ensures var o := Run(Render(v), INIT, n);
      o == Expected(ToDoc(v)) && Count(Render(v), 0) == o.result
      && ReadDoc(Render(v), o.state.toks, 0) == Some(Reading(ToDoc(v), |o.state.toks|))
      && Tells(ReadDoc(Render(v), o.state.toks, 0).value.value, v)
  {
    hide Tells, Tokens, Print, Proper, PlainNames, Run, Render, ToDoc, ReadDoc, Count, Valid, Structured;
    var d := ToDoc(v);
    var text := Render(v);
    RenderPrints(v);
    DocProper(v);
    DocTells(v);
    ParsePrinted(d, n);
    CountingAgrees(text, INIT, n);
    assert At(text, 0, text) && TokensAt(Tokens(d, 0), 0, Tokens(d, 0));
    ReadTokens(text, 0, Tokens(d, 0), 0, d);
  }

  // -------------------------------------------------- section 7 of RFC 8259

  /** Control characters are passed through, so the text is a JSON string exactly when there are none. */
  lemma {:induction false} EscapedIsJson(s: string)
    ensures StringBody(Escape(s)) <==> forall i :: 0 <= i < |s| ==> s[i] >= ' '
  {
    if s != [] {
      EscapedIsJson(s[1..]);
      assert s == [s[0]] + s[1..];
      var c := if NeedsEscape(s[0]) then ['\\', s[0]] else [s[0]];
      assert (c + Escape(s[1..]))[|c|..] == Escape(s[1..]);
    }
  }
}

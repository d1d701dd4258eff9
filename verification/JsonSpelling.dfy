/** JSON documents in any layout and spelling: their tokens, and what they are read back as. */
module JsonSpelling {
  import opened Jsmn
  import opened JsmnProperties
  import opened JsonDoc
  import opened JsonLayout
  import opened JsonReader
  import opened JsonRoundTrip
  import opened MtoJson
  import opened Options
  import opened Rfc8259

  // ---------------------------------------------------- lexemes of documents

  /** The lexemes of a document, its strings and names as they stand between the quotes (RFC 8259, sections 3 to 5). */
  function Lexemes(d: Doc): seq<Lexeme>
    decreases d, 1
  {
    match d
    case Prim(t) => [Word(t)]
    case Str(t) => [Quoted(t)]
    case Arr(items) => [Mark('[')] + (ItemLexemes(items) + [Mark(']')])
    case Obj(fields) => [Mark('{')] + (FieldLexemes(fields) + [Mark('}')])
  }

  function ItemLexemes(items: seq<Doc>): seq<Lexeme>
    decreases items, 0
  {
    if items == [] then []
    else Lexemes(items[0]) + if |items| > 1 then [Mark(',')] + ItemLexemes(items[1..]) else []
  }

  function FieldLexemes(fields: seq<Field>): seq<Lexeme>
    decreases fields, 0
  {
    if fields == [] then []
    else OneLexemes(fields[0]) + if |fields| > 1 then [Mark(',')] + FieldLexemes(fields[1..]) else []
  }

  function OneLexemes(f: Field): seq<Lexeme>
    decreases f, 2
  {
    [Quoted(f.name), Mark(':')] + Lexemes(f.value)
  }

  /** Words and strings spelled as JSON allows, control characters in strings let through. */
  predicate Spelled(d: Doc)
  {
    match d
    case Prim(t) => WordText(t)
    case Str(t) => LaxBody(t)
    case Arr(items) => forall i :: 0 <= i < |items| ==> Spelled(items[i])
    case Obj(fields) => forall i :: 0 <= i < |fields| ==> LaxBody(fields[i].name) && Spelled(fields[i].value)
  }

  /** Valid lexemes, each word followed by a closing bracket, a colon or a comma, if by anything. */
  predicate WordsEnd(ls: seq<Lexeme>)
  {
    forall i :: 0 <= i < |ls| ==>
      ls[i].Valid() && (ls[i].Word? && i + 1 < |ls| ==> ls[i + 1].Mark? && Follower(ls[i + 1].c))
  }

  lemma WordsEndBoth(a: seq<Lexeme>, b: seq<Lexeme>)
    requires WordsEnd(a) && WordsEnd(b)
    requires a != [] && b != [] && a[|a| - 1].Word? ==> b[0].Mark? && Follower(b[0].c)
    ensures WordsEnd(a + b)
  {
    var ls := a + b;
    forall i | 0 <= i < |ls|
      ensures ls[i].Valid() && (ls[i].Word? && i + 1 < |ls| ==> ls[i + 1].Mark? && Follower(ls[i + 1].c))
    {
      if i < |a| {
        assert ls[i] == a[i];
      } else {
        assert ls[i] == b[i - |a|];
      }
    }
  }

  lemma {:induction false} LexemesEnd(d: Doc)
    requires Spelled(d)
    ensures WordsEnd(Lexemes(d)) && Lexemes(d) != []
    decreases d, 1
  {
    hide ItemLexemes, FieldLexemes, LaxBody, WordText, WordsEnd;
    match d
    case Prim(t) => OneEnds(Word(t));
    case Str(t) => OneEnds(Quoted(t));
    case Arr(items) =>
      ItemsEnd(items, ']');
      OneEnds(Mark('['));
      WordsEndBoth([Mark('[')], ItemLexemes(items) + [Mark(']')]);
    case Obj(fields) =>
      FieldsEnd(fields, '}');
      OneEnds(Mark('{'));
      WordsEndBoth([Mark('{')], FieldLexemes(fields) + [Mark('}')]);
  }

  lemma OneEnds(l: Lexeme)
    requires l.Valid()
    ensures WordsEnd([l])
  {
  }

  lemma {:induction false} ItemsEnd(items: seq<Doc>, close: char)
    requires (forall i :: 0 <= i < |items| ==> Spelled(items[i])) && Follower(close)
    ensures WordsEnd(ItemLexemes(items) + [Mark(close)])
    decreases items, 0
  {
    hide Lexemes, Spelled, WordsEnd;
    OneEnds(Mark(close));
    if items == [] {
      assert ItemLexemes(items) + [Mark(close)] == [Mark(close)];
    } else {
      LexemesEnd(items[0]);
      if |items| > 1 {
        ItemsEnd(items[1..], close);
        var rest := ItemLexemes(items[1..]) + [Mark(close)];
        OneEnds(Mark(','));
        WordsEndBoth([Mark(',')], rest);
        WordsEndBoth(Lexemes(items[0]), [Mark(',')] + rest);
        assert ItemLexemes(items) + [Mark(close)] == Lexemes(items[0]) + ([Mark(',')] + rest);
      } else {
        WordsEndBoth(Lexemes(items[0]), [Mark(close)]);
        assert ItemLexemes(items) + [Mark(close)] == Lexemes(items[0]) + [Mark(close)];
      }
    }
  }

  lemma {:induction false} FieldsEnd(fields: seq<Field>, close: char)
    requires (forall i :: 0 <= i < |fields| ==> LaxBody(fields[i].name) && Spelled(fields[i].value)) && Follower(close)
    ensures WordsEnd(FieldLexemes(fields) + [Mark(close)])
    decreases fields, 0
  {
    hide OneLexemes, Spelled, WordsEnd, LaxBody;
    OneEnds(Mark(close));
    if fields == [] {
      assert FieldLexemes(fields) + [Mark(close)] == [Mark(close)];
    } else {
      FieldEnds(fields[0]);
      if |fields| > 1 {
        FieldsEnd(fields[1..], close);
        var rest := FieldLexemes(fields[1..]) + [Mark(close)];
        OneEnds(Mark(','));
        WordsEndBoth([Mark(',')], rest);
        WordsEndBoth(OneLexemes(fields[0]), [Mark(',')] + rest);
        assert FieldLexemes(fields) + [Mark(close)] == OneLexemes(fields[0]) + ([Mark(',')] + rest);
      } else {
        WordsEndBoth(OneLexemes(fields[0]), [Mark(close)]);
        assert FieldLexemes(fields) + [Mark(close)] == OneLexemes(fields[0]) + [Mark(close)];
      }
    }
  }

  lemma {:induction false} FieldEnds(f: Field)
    requires LaxBody(f.name) && Spelled(f.value)
    ensures WordsEnd(OneLexemes(f)) && OneLexemes(f) != []
    decreases f, 2
  {
    hide Lexemes, Spelled, WordsEnd, LaxBody;
    LexemesEnd(f.value);
    OneEnds(Quoted(f.name));
    OneEnds(Mark(':'));
    WordsEndBoth([Quoted(f.name)], [Mark(':')]);
    WordsEndBoth([Quoted(f.name), Mark(':')], Lexemes(f.value));
    assert [Quoted(f.name)] + [Mark(':')] == [Quoted(f.name), Mark(':')];
  }

  /** Any whitespace separates such lexemes. */
  lemma {:induction false} AnySpaces(ws: seq<string>, ls: seq<Lexeme>)
    requires |ws| == |ls| + 1 && WordsEnd(ls) && forall i :: 0 <= i < |ws| ==> Spaces(ws[i])
    ensures Separated(ws, ls)
    decreases |ls|
  {
    hide Spaces, Lexeme.Valid;
    if ls != [] {
      assert ls[0].Valid();
      assert |ls| > 1 && ls[0].Word? ==> ls[1].Mark? && Follower(ls[1].c);
      forall i | 0 <= i < |ls[1..]|
        ensures ls[1..][i].Valid() && (ls[1..][i].Word? && i + 1 < |ls[1..]| ==> ls[1..][i + 1].Mark? && Follower(ls[1..][i + 1].c))
      {
        assert ls[1..][i] == ls[i + 1];
      }
      AnySpaces(ws[1..], ls[1..]);
    }
  }

  // ------------------------------------------------------ the compact layout

  function Flat(ls: seq<Lexeme>): string
  {
    if ls == [] then "" else ls[0].Spelling() + Flat(ls[1..])
  }

  lemma {:induction false} FlatBoth(a: seq<Lexeme>, b: seq<Lexeme>)
    ensures Flat(a + b) == Flat(a) + Flat(b)
  {
    if a == [] {
      assert a + b == b;
    } else {
      assert (a + b)[1..] == a[1..] + b;
      FlatBoth(a[1..], b);
    }
  }

  function NoSpaces(n: nat): (r: seq<string>)
    ensures |r| == n && forall i :: 0 <= i < n ==> r[i] == ""
  {
    seq(n, _ => "")
  }

  lemma {:induction false} CompactLayout(ls: seq<Lexeme>)
    ensures Layout(NoSpaces(|ls| + 1), ls) == Flat(ls)
  {
    if ls != [] {
      assert NoSpaces(|ls| + 1)[1..] == NoSpaces(|ls[1..]| + 1);
      CompactLayout(ls[1..]);
      assert "" + (ls[0].Spelling() + Flat(ls[1..])) == Flat(ls);
    }
  }

  /** Strings as the generator spells them. */
  function Encoded(d: Doc): Doc
  {
    match d
    case Prim(t) => d
    case Str(t) => Str(Escape(t))
    case Arr(items) => Arr(seq(|items|, i requires 0 <= i < |items| => Encoded(items[i])))
    case Obj(fields) => Obj(seq(|fields|, i requires 0 <= i < |fields| => Field(fields[i].name, Encoded(fields[i].value))))
  }

  function EncodedItems(items: seq<Doc>): (r: seq<Doc>)
    ensures |r| == |items|
  {
    seq(|items|, i requires 0 <= i < |items| => Encoded(items[i]))
  }

  function EncodedFields(fields: seq<Field>): (r: seq<Field>)
    ensures |r| == |fields|
  {
    seq(|fields|, i requires 0 <= i < |fields| => Field(fields[i].name, Encoded(fields[i].value)))
  }

  lemma FlatOne(l: Lexeme)
    ensures Flat([l]) == l.Spelling()
  {
    assert [l][1..] == [] && Flat([]) == "";
    assert l.Spelling() + "" == l.Spelling();
  }

  lemma {:induction false} PrintIsFlat(d: Doc)
    ensures Flat(Lexemes(Encoded(d))) == Print(d)
    decreases d, 1
  {
    hide ItemLexemes, FieldLexemes, PrintItems, PrintFields, Escape, Flat;
    match d
    case Prim(t) => FlatOne(Word(t));
    case Str(t) => FlatOne(Quoted(Escape(t)));
    case Arr(items) =>
      assert Encoded(d) == Arr(EncodedItems(items));
      ItemsFlat(items);
      Enclosed('[', ItemLexemes(EncodedItems(items)), ']');
    case Obj(fields) =>
      assert Encoded(d) == Obj(EncodedFields(fields));
      FieldsFlat(fields);
      Enclosed('{', FieldLexemes(EncodedFields(fields)), '}');
  }

  lemma Enclosed(open: char, ls: seq<Lexeme>, close: char)
    ensures Flat([Mark(open)] + (ls + [Mark(close)])) == [open] + Flat(ls) + [close]
  {
    hide Flat;
    FlatBoth([Mark(open)], ls + [Mark(close)]);
    FlatBoth(ls, [Mark(close)]);
    FlatOne(Mark(open));
    FlatOne(Mark(close));
    assert [open] + (Flat(ls) + [close]) == [open] + Flat(ls) + [close];
  }

  lemma {:induction false} ItemsFlat(items: seq<Doc>)
    ensures Flat(ItemLexemes(EncodedItems(items))) == PrintItems(items)
    decreases items, 0
  {
    hide Lexemes, Encoded, Print;
    if items != [] {
      var e := EncodedItems(items);
      PrintIsFlat(items[0]);
      assert e[0] == Encoded(items[0]) && e[1..] == EncodedItems(items[1..]);
      ItemsFlat(items[1..]);
      FlatMore(Lexemes(e[0]), ItemLexemes(e[1..]));
      assert Lexemes(e[0]) + [] == Lexemes(e[0]) && Print(items[0]) + "" == Print(items[0]);
    }
  }

  lemma FlatMore(first: seq<Lexeme>, rest: seq<Lexeme>)
    ensures Flat(first + ([Mark(',')] + rest)) == Flat(first) + ("," + Flat(rest))
  {
    hide Flat;
    FlatBoth(first, [Mark(',')] + rest);
    FlatBoth([Mark(',')], rest);
    FlatOne(Mark(','));
  }

  lemma {:induction false} FieldsFlat(fields: seq<Field>)
    ensures Flat(FieldLexemes(EncodedFields(fields))) == PrintFields(fields)
    decreases fields, 0
  {
    hide OneLexemes, Encoded, PrintField;
    if fields != [] {
      var e := EncodedFields(fields);
      FieldFlat(fields[0]);
      assert e[0] == Field(fields[0].name, Encoded(fields[0].value)) && e[1..] == EncodedFields(fields[1..]);
      FieldsFlat(fields[1..]);
      FlatMore(OneLexemes(e[0]), FieldLexemes(e[1..]));
      assert OneLexemes(e[0]) + [] == OneLexemes(e[0]) && PrintField(fields[0]) + "" == PrintField(fields[0]);
    }
  }

  lemma {:induction false} FieldFlat(f: Field)
    ensures Flat(OneLexemes(Field(f.name, Encoded(f.value)))) == PrintField(f)
    decreases f, 2
  {
    hide Lexemes, Encoded, Print, Flat;
    PrintIsFlat(f.value);
    var value := Lexemes(Encoded(f.value));
    FlatBoth([Quoted(f.name), Mark(':')], value);
    assert [Quoted(f.name), Mark(':')] == [Quoted(f.name)] + [Mark(':')];
    FlatBoth([Quoted(f.name)], [Mark(':')]);
    FlatOne(Quoted(f.name));
    FlatOne(Mark(':'));
    assert "\"" + f.name + "\"" + ":" == Key(f.name);
  }

  // ------------------------------------------------------ reading the same

  /** Tokens of two texts that stand for the same: kinds, sizes, and the texts of scalars. */
  ghost predicate Equivalent(js: string, a: seq<Token>, js': string, b: seq<Token>)
  {
    |a| == |b| && forall i :: 0 <= i < |a| ==> SameReading(js, a[i], js', b[i])
  }

  predicate SameReading(js: string, a: Token, js': string, b: Token)
  {
    a.kind == b.kind && a.size == b.size && (!a.Container() ==> Span(js, a) == Span(js', b))
  }

  /** Such tokens are read as the same document. */
  lemma {:induction false} ReadSame(js: string, a: seq<Token>, js': string, b: seq<Token>, i: nat)
    requires Equivalent(js, a, js', b)
    ensures ReadDoc(js, a, i) == ReadDoc(js', b, i)
    decreases |a| - i, 1, 0
  {
    hide ReadItems, ReadFields, Span, Unescape;
    if i < |a| {
      assert SameReading(js, a[i], js', b[i]);
      match a[i].kind
      case Primitive =>
      case String =>
      case Array => ReadItemsSame(js, a, js', b, i + 1, a[i].size);
      case Object => ReadFieldsSame(js, a, js', b, i + 1, a[i].size);
    }
  }

  lemma {:induction false} ReadItemsSame(js: string, a: seq<Token>, js': string, b: seq<Token>, i: nat, k: nat)
    requires Equivalent(js, a, js', b) && i <= |a|
    ensures ReadItems(js, a, i, k) == ReadItems(js', b, i, k)
    decreases |a| - i, 2, k
  {
    hide ReadDoc, Equivalent;
    SameCount(js, a, js', b);
    if k > 0 {
      ReadSame(js, a, js', b, i);
      var d := ReadDoc(js, a, i);
      if d.Some? {
        ReadItemsSame(js, a, js', b, d.value.next, k - 1);
      }
    }
  }

  lemma SameCount(js: string, a: seq<Token>, js': string, b: seq<Token>)
    requires Equivalent(js, a, js', b)
    ensures |a| == |b|
  {
  }

  lemma {:induction false} ReadFieldsSame(js: string, a: seq<Token>, js': string, b: seq<Token>, i: nat, k: nat)
    requires Equivalent(js, a, js', b) && i <= |a|
    ensures ReadFields(js, a, i, k) == ReadFields(js', b, i, k)
    decreases |a| - i, 2, k
  {
    hide ReadField, Equivalent;
    SameCount(js, a, js', b);
    if k > 0 {
      ReadFieldSame(js, a, js', b, i);
      var f := ReadField(js, a, i);
      if f.Some? {
        ReadFieldsSame(js, a, js', b, f.value.next, k - 1);
      }
    }
  }

  lemma {:induction false} ReadFieldSame(js: string, a: seq<Token>, js': string, b: seq<Token>, i: nat)
    requires Equivalent(js, a, js', b) && i <= |a|
    ensures ReadField(js, a, i) == ReadField(js', b, i)
    decreases |a| - i, 1, 0
  {
    hide ReadDoc, Span, Unescape;
    if i < |a| {
      assert SameReading(js, a[i], js', b[i]);
      ReadSame(js, a, js', b, i + 1);
    }
  }

  lemma ShowingSame(js: string, a: seq<Token>, js': string, b: seq<Token>, texts: seq<string>)
    requires Alike(a, b) && Showing(js, a, texts) && Showing(js', b, texts)
    ensures Equivalent(js, a, js', b)
  {
    hide Span;
    forall i | 0 <= i < |a| ensures SameReading(js, a[i], js', b[i]) {
      assert SameToken(a[i], b[i]) && Shows(js, a[i], texts[i]) && Shows(js', b[i], texts[i]);
    }
  }

  // ---------------------------------------------------------- any layout

  lemma {:induction false} EscapeIsLax(s: string)
    requires CString(s)
    ensures LaxBody(Escape(s))
  {
    if s != [] {
      assert s[0] in s && forall c :: c in s[1..] ==> c in s;
      EscapeIsLax(s[1..]);
      var c := if NeedsEscape(s[0]) then ['\\', s[0]] else [s[0]];
      assert (c + Escape(s[1..]))[|c|..] == Escape(s[1..]);
    }
  }

  lemma {:induction false} EncodedSpelled(d: Doc)
    requires Proper(d) && PlainNames(d)
    ensures Spelled(Encoded(d))
  {
    hide LaxBody, CString, PlainName, PrimText, WordText, Escape;
    match d
    case Prim(t) => PrimIsWord(t);
    case Str(t) => EscapeIsLax(t);
    case Arr(items) =>
      forall i | 0 <= i < |items| ensures Spelled(Encoded(items[i])) {
        EncodedSpelled(items[i]);
      }
    case Obj(fields) =>
      forall i | 0 <= i < |fields| ensures LaxBody(fields[i].name) && Spelled(Encoded(fields[i].value)) {
        NameIsLax(fields[i].name);
        EncodedSpelled(fields[i].value);
      }
  }

  lemma PrimIsWord(t: string)
    requires PrimText(t)
    ensures WordText(t)
  {
    forall i | 0 <= i < |t| ensures WordChar(t[i]) {
      assert t[i] in t;
    }
  }

  lemma NameIsLax(s: string)
    requires CString(s) && PlainName(s)
    ensures LaxBody(s)
  {
    hide LaxBody, Escape;
    EscapeNothing(s);
    EscapeIsLax(s);
  }

  /** From a fresh parser, a text that is laid out like this. */
  lemma RestOfAll(ws: seq<string>, ls: seq<Lexeme>)
    requires |ws| == |ls| + 1 && Separated(ws, ls)
    ensures Rest(Layout(ws, ls), 0, ws, ls)
  {
  }

  lemma NothingYet(js: string, js': string)
    ensures Alike([], []) && Showing(js, [], []) && INIT.Valid(js)
  {
  }

  /** A document of the generator's kind with any whitespace between its lexemes: parsing succeeds, the tokens have
      the kinds, sizes and texts of those of the compact text, and are read back as the document. */
  lemma AnyLayout(d: Doc, ws: seq<string>, n: nat)
    requires Proper(d) && PlainNames(d) && |Tokens(d, 0)| <= n
    requires |ws| == |Lexemes(Encoded(d))| + 1 && forall i :: 0 <= i < |ws| ==> Spaces(ws[i])
    ensures var js := Layout(ws, Lexemes(Encoded(d))); var o := Run(js, INIT, n);
      o.result == Ok(|Tokens(d, 0)|) && Equivalent(Print(d), Tokens(d, 0), js, o.state.toks)
      && ReadDoc(js, o.state.toks, 0) == Some(Reading(d, |o.state.toks|))
  {
    hide Print, Tokens, Proper, PlainNames, Lexemes, Encoded, Layout, Run, ReadDoc, Separated, Rest, Flat, WordsEnd, Spaces, Equivalent, Alike, Showing, Contents, NoSpaces;
    var ls := Lexemes(Encoded(d));
    var js, js', none := Print(d), Layout(ws, ls), NoSpaces(|ls| + 1);
    EncodedSpelled(d);
    LexemesEnd(Encoded(d));
    AnySpaces(ws, ls);
    CompactSeparated(ls);
    PrintIsFlat(d);
    CompactLayout(ls);
    RestOfAll(ws, ls);
    RestOfAll(none, ls);
    NothingYet(js, js');
    NothingYet(js', js);
    LayoutsAgree(js, INIT, none, ls, js', INIT, ws, ls, n) by {
      SameItself(ls);
    }
    ParsePrinted(d, n);
    TextsShown(js, INIT, none, ls, n, []);
    TextsShown(js', INIT, ws, ls, n, []);
    assert [] + Contents(ls) == Contents(ls);
    ShowingSame(js, Tokens(d, 0), js', Run(js', INIT, n).state.toks, Contents(ls));
    SameCount(js, Tokens(d, 0), js', Run(js', INIT, n).state.toks);
    ReadSame(js, Tokens(d, 0), js', Run(js', INIT, n).state.toks, 0);
    WholeRead(d);
  }

  lemma WholeRead(d: Doc)
    requires PlainNames(d)
    ensures ReadDoc(Print(d), Tokens(d, 0), 0) == Some(Reading(d, |Tokens(d, 0)|))
  {
    hide Print, Tokens, PlainNames, ReadDoc;
    assert At(Print(d), 0, Print(d)) && TokensAt(Tokens(d, 0), 0, Tokens(d, 0));
    ReadTokens(Print(d), 0, Tokens(d, 0), 0, d);
  }

  lemma SameItself(ls: seq<Lexeme>)
    ensures SameShapes(ls, ls)
  {
  }

  lemma CompactSeparated(ls: seq<Lexeme>)
    requires WordsEnd(ls)
    ensures Separated(NoSpaces(|ls| + 1), ls)
  {
    hide WordsEnd, Separated;
    AnySpaces(NoSpaces(|ls| + 1), ls);
  }

  // -------------------------------------------------------- any spelling

  /** The document with every word and string replaced by the simplest one. */
  function Shape(d: Doc): Doc
  {
    match d
    case Prim(_) => Prim("0")
    case Str(_) => Str("")
    case Arr(items) => Arr(ShapeItems(items))
    case Obj(fields) => Obj(ShapeFields(fields))
  }

  function ShapeItems(items: seq<Doc>): (r: seq<Doc>)
    ensures |r| == |items|
  {
    seq(|items|, i requires 0 <= i < |items| => Shape(items[i]))
  }

  function ShapeFields(fields: seq<Field>): (r: seq<Field>)
    ensures |r| == |fields|
  {
    seq(|fields|, i requires 0 <= i < |fields| => Field("", Shape(fields[i].value)))
  }

  lemma {:induction false} ShapeSimple(d: Doc)
    ensures Proper(Shape(d)) && PlainNames(Shape(d)) && Encoded(Shape(d)) == Shape(d)
  {
    match d
    case Prim(_) =>
    case Str(_) =>
    case Arr(items) =>
      forall i | 0 <= i < |items| ensures Proper(Shape(items[i])) && PlainNames(Shape(items[i])) && Encoded(Shape(items[i])) == Shape(items[i]) {
        ShapeSimple(items[i]);
      }
    case Obj(fields) =>
      forall i | 0 <= i < |fields|
        ensures Proper(Shape(fields[i].value)) && PlainNames(Shape(fields[i].value)) && Encoded(Shape(fields[i].value)) == Shape(fields[i].value)
      {
        ShapeSimple(fields[i].value);
      }
  }

  lemma ShapesBoth(a: seq<Lexeme>, b: seq<Lexeme>, a': seq<Lexeme>, b': seq<Lexeme>)
    requires SameShapes(a, a') && SameShapes(b, b')
    ensures SameShapes(a + b, a' + b')
  {
  }

  lemma {:induction false} ShapeLexemes(d: Doc)
    ensures SameShapes(Lexemes(Shape(d)), Lexemes(d))
    decreases d, 1
  {
    hide ItemLexemes, FieldLexemes, SameShapes;
    match d
    case Prim(t) => SameOne(Word("0"), Word(t));
    case Str(t) => SameOne(Quoted(""), Quoted(t));
    case Arr(items) =>
      ItemShapes(items);
      InBrackets('[', ItemLexemes(ShapeItems(items)), ItemLexemes(items), ']');
    case Obj(fields) =>
      FieldShapes(fields);
      InBrackets('{', FieldLexemes(ShapeFields(fields)), FieldLexemes(fields), '}');
  }

  lemma SameOne(a: Lexeme, b: Lexeme)
    requires SameShape(a, b)
    ensures SameShapes([a], [b])
  {
  }

  lemma InBrackets(open: char, a: seq<Lexeme>, b: seq<Lexeme>, close: char)
    requires SameShapes(a, b)
    ensures SameShapes([Mark(open)] + (a + [Mark(close)]), [Mark(open)] + (b + [Mark(close)]))
  {
    hide SameShapes;
    SameItself([Mark(open)]);
    SameItself([Mark(close)]);
    ShapesBoth(a, [Mark(close)], b, [Mark(close)]);
    ShapesBoth([Mark(open)], a + [Mark(close)], [Mark(open)], b + [Mark(close)]);
  }

  lemma {:induction false} ItemShapes(items: seq<Doc>)
    ensures SameShapes(ItemLexemes(ShapeItems(items)), ItemLexemes(items))
    decreases items, 0
  {
    hide Lexemes, Shape, SameShapes;
    if items == [] {
      SameItself([]);
    } else {
      var e := ShapeItems(items);
      assert e[0] == Shape(items[0]) && e[1..] == ShapeItems(items[1..]);
      ShapeLexemes(items[0]);
      if |items| > 1 {
        ItemShapes(items[1..]);
        Listed(Lexemes(e[0]), Lexemes(items[0]), ItemLexemes(e[1..]), ItemLexemes(items[1..]));
      } else {
        assert Lexemes(e[0]) + [] == Lexemes(e[0]) && Lexemes(items[0]) + [] == Lexemes(items[0]);
      }
    }
  }

  lemma Listed(a: seq<Lexeme>, b: seq<Lexeme>, a': seq<Lexeme>, b': seq<Lexeme>)
    requires SameShapes(a, b) && SameShapes(a', b')
    ensures SameShapes(a + ([Mark(',')] + a'), b + ([Mark(',')] + b'))
  {
    hide SameShapes;
    SameItself([Mark(',')]);
    ShapesBoth([Mark(',')], a', [Mark(',')], b');
    ShapesBoth(a, [Mark(',')] + a', b, [Mark(',')] + b');
  }

  lemma {:induction false} FieldShapes(fields: seq<Field>)
    ensures SameShapes(FieldLexemes(ShapeFields(fields)), FieldLexemes(fields))
    decreases fields, 0
  {
    hide OneLexemes, Shape, SameShapes;
    if fields == [] {
      SameItself([]);
    } else {
      var e := ShapeFields(fields);
      assert e[0] == Field("", Shape(fields[0].value)) && e[1..] == ShapeFields(fields[1..]);
      OneShape(fields[0]);
      if |fields| > 1 {
        FieldShapes(fields[1..]);
        Listed(OneLexemes(e[0]), OneLexemes(fields[0]), FieldLexemes(e[1..]), FieldLexemes(fields[1..]));
      } else {
        assert OneLexemes(e[0]) + [] == OneLexemes(e[0]) && OneLexemes(fields[0]) + [] == OneLexemes(fields[0]);
      }
    }
  }

  lemma {:induction false} OneShape(f: Field)
    ensures SameShapes(OneLexemes(Field("", Shape(f.value))), OneLexemes(f))
    decreases f, 2
  {
    hide Lexemes, Shape;
    ShapeLexemes(f.value);
    assert SameShapes([Quoted(""), Mark(':')], [Quoted(f.name), Mark(':')]);
    hide SameShapes;
    ShapesBoth([Quoted(""), Mark(':')], Lexemes(Shape(f.value)), [Quoted(f.name), Mark(':')], Lexemes(f.value));
  }

  // the tokens of a shape

  lemma {:induction false} ShapeTokens(d: Doc, p: nat, q: nat)
    ensures Alike(Tokens(Shape(d), p), Tokens(d, q))
    decreases d, 1
  {
    hide ItemTokens, FieldTokens, PrintItems, PrintFields, Escape;
    match d
    case Prim(_) =>
    case Str(_) =>
    case Arr(items) => ShapeItemTokens(items, p + 1, q + 1);
    case Obj(fields) => ShapeFieldTokens(fields, p + 1, q + 1);
  }

  lemma AlikeBoth(a: seq<Token>, b: seq<Token>, a': seq<Token>, b': seq<Token>)
    requires Alike(a, a') && Alike(b, b')
    ensures Alike(a + b, a' + b')
  {
  }

  lemma {:induction false} ShapeItemTokens(items: seq<Doc>, p: nat, q: nat)
    ensures Alike(ItemTokens(ShapeItems(items), p), ItemTokens(items, q))
    decreases items, 0
  {
    hide Tokens, Shape, Print, Alike;
    if items == [] {
      NothingYet("", "");
    } else {
      var e := ShapeItems(items);
      assert e[0] == Shape(items[0]) && e[1..] == ShapeItems(items[1..]);
      ShapeTokens(items[0], p, q);
      ShapeItemTokens(items[1..], p + |Print(e[0])| + 1, q + |Print(items[0])| + 1);
      AlikeBoth(Tokens(e[0], p), ItemTokens(e[1..], p + |Print(e[0])| + 1),
        Tokens(items[0], q), ItemTokens(items[1..], q + |Print(items[0])| + 1));
    }
  }

  lemma {:induction false} ShapeFieldTokens(fields: seq<Field>, p: nat, q: nat)
    ensures Alike(FieldTokens(ShapeFields(fields), p), FieldTokens(fields, q))
    decreases fields, 0
  {
    hide OneField, Shape, PrintField, Alike;
    if fields == [] {
      NothingYet("", "");
    } else {
      var e := ShapeFields(fields);
      assert e[0] == Field("", Shape(fields[0].value)) && e[1..] == ShapeFields(fields[1..]);
      ShapeField(fields[0], p, q);
      ShapeFieldTokens(fields[1..], p + |PrintField(e[0])| + 1, q + |PrintField(fields[0])| + 1);
      AlikeBoth(OneField(e[0], p), FieldTokens(e[1..], p + |PrintField(e[0])| + 1),
        OneField(fields[0], q), FieldTokens(fields[1..], q + |PrintField(fields[0])| + 1));
    }
  }

  lemma {:induction false} ShapeField(f: Field, p: nat, q: nat)
    ensures Alike(OneField(Field("", Shape(f.value)), p), OneField(f, q))
    decreases f, 2
  {
    hide Tokens, Shape;
    ShapeTokens(f.value, p + |Key("")|, q + |Key(f.name)|);
    var a, b := Token(String, p + 1, p + 1, 1), Token(String, q + 1, q + 1 + |f.name|, 1);
    assert Alike([a], [b]);
    hide Alike;
    AlikeBoth([a], Tokens(Shape(f.value), p + |Key("")|), [b], Tokens(f.value, q + |Key(f.name)|));
  }

  /** Every document in any JSON spelling and layout: with room, parsing succeeds, with one token per node and name in
      document order, of the document's kinds and child counts, each scalar token showing what stands in the text. */
  lemma AnySpelling(d: Doc, ws: seq<string>, n: nat)
    requires Spelled(d) && |Tokens(d, 0)| <= n
    requires |ws| == |Lexemes(d)| + 1 && forall i :: 0 <= i < |ws| ==> Spaces(ws[i])
    ensures var js := Layout(ws, Lexemes(d)); var o := Run(js, INIT, n);
      o.result == Ok(|Tokens(d, 0)|) && Alike(Tokens(d, 0), o.state.toks) && Showing(js, o.state.toks, Contents(Lexemes(d)))
  {
    hide Print, Tokens, Proper, PlainNames, Lexemes, Encoded, Layout, Run, Separated, Rest, Flat, WordsEnd, Spaces, Alike, Showing, Contents, NoSpaces, Shape;
    var simple, ls := Shape(d), Lexemes(d);
    var ls0 := Lexemes(simple);
    ShapeSimple(d);
    ShapeLexemes(d);
    ShapeTokens(d, 0, 0);
    AlikeCount(Tokens(simple, 0), Tokens(d, 0));
    LexemesEnd(d);
    AnySpaces(ws, ls);
    EncodedSpelled(simple);
    LexemesEnd(simple);
    CompactSeparated(ls0);
    PrintIsFlat(simple);
    CompactLayout(ls0);
    var js, js', none := Print(simple), Layout(ws, ls), NoSpaces(|ls0| + 1);
    RestOfAll(ws, ls);
    RestOfAll(none, ls0);
    NothingYet(js, js');
    NothingYet(js', js);
    LayoutsAgree(js, INIT, none, ls0, js', INIT, ws, ls, n);
    ParsePrinted(simple, n);
    TextsShown(js', INIT, ws, ls, n, []);
    assert [] + Contents(ls) == Contents(ls);
    AlikeTurned(Tokens(simple, 0), Tokens(d, 0), Run(js', INIT, n).state.toks);
  }

  lemma AlikeTurned(a: seq<Token>, b: seq<Token>, c: seq<Token>)
    requires Alike(a, b) && Alike(a, c)
    ensures Alike(b, c)
  {
    forall i | 0 <= i < |b| ensures SameToken(b[i], c[i]) {
      assert SameToken(a[i], b[i]) && SameToken(a[i], c[i]);
    }
  }
}

/** Names are printed without escaping: which documents their tokens give back. */
module JsonNames {
  import opened Jsmn
  import opened JsmnProperties
  import opened JsonDoc
  import opened JsonReader
  import opened JsonRoundTrip
  import opened MtoJson
  import opened Options

  // ------------------------------------------------------------ one name

  lemma {:induction false} UnescapeShortens(s: string)
    requires Unescape(s).Some?
    ensures |Unescape(s).value| <= |s|
    ensures '\\' in s ==> |Unescape(s).value| < |s|
  {
    if s != [] {
      if s[0] == '\\' {
        UnescapeShortens(s[2..]);
      } else {
        UnescapeShortens(s[1..]);
        assert s == [s[0]] + s[1..];
      }
    }
  }

  /** Text without a backslash scans to its first quote. */
  lemma {:induction false} ScanStopsAtQuote(js: string, p: nat, k: nat)
    requires p <= k < |js| && js[k] == '"' && forall i :: p <= i < k ==> js[i] != '\\'
    ensures StringEnd(js, p).Stop? ==> StringEnd(js, p).at <= k
    decreases k - p
  {
    if p < k && js[p] != '"' && !Ended(js, p) {
      ScanStopsAtQuote(js, p + 1, k);
    }
  }

  /** A name that unescapes to itself and is scanned as one string needs no escaping. */
  lemma NamePlain(js: string, p: nat, name: string)
    requires At(js, p, Key(name)) && Unescape(name) == Some(name) && StringEnd(js, p + 1) == Stop(p + 1 + |name|)
    ensures PlainName(name)
  {
    hide Unescape, StringEnd;
    UnescapeShortens(name);
    assert Key(name) == "\"" + (name + "\":");
    AtParts(js, p, "\"", name + "\":");
    AtParts(js, p + 1, name, "\":");
    forall i | 0 <= i < |name| ensures js[p + 1 + i] == name[i] {
      assert js[p + 1..p + 1 + |name|][i] == name[i];
    }
    forall i | 0 <= i < |name| ensures !NeedsEscape(name[i]) {
      assert name[i] in name;
      if name[i] == '"' {
        assert forall j :: p + 1 <= j < p + 1 + i ==> js[j] == name[j - p - 1] && name[j - p - 1] in name;
        ScanStopsAtQuote(js, p + 1, p + 1 + i);
      }
    }
  }

  /** Once unescaping lags behind, the text ahead must go on with backslashes, so it never meets the quote. */
  lemma {:induction false} NeverCatchesUp(x: string, name: string, a: nat, b: nat)
    requires |name| < |x| && x[..|name|] == name && x[|name|] == '"'
    requires b < a <= |x| && b <= |name| && (forall i :: b <= i < a ==> x[i] == '\\') && Unescape(x[a..]) == Some(name[b..])
    ensures false
    decreases |x| - a
  {
    if b < |name| {
      assert name[b] == x[..|name|][b] == x[b];
      assert name[b..][0] == name[b] && name[b..][1..] == name[b + 1..];
      assert x[a..] != [];
      assert x[a..][0] == x[a];
      if x[a] == '\\' {
        assert x[a..][1] == x[a + 1] && x[a..][2..] == x[a + 2..];
        NeverCatchesUp(x, name, a + 2, b + 1);
      }
    }
  }

  lemma UnescapeNotEmpty(s: string)
    requires s != [] && Unescape(s).Some?
    ensures Unescape(s).value != []
  {
  }

  /** A text that starts with a name and a quote does not unescape to the name. */
  lemma {:induction false} LongerReadsOther(x: string, name: string, b: nat)
    requires |name| < |x| && x[..|name|] == name && x[|name|] == '"' && b <= |name|
    ensures Unescape(x[b..]) != Some(name[b..])
    decreases |name| - b
  {
    if Unescape(x[b..]) == Some(name[b..]) {
      UnescapeNotEmpty(x[b..]);
      assert x[b..][0] == x[b] && x[b..][1..] == x[b + 1..];
      if b < |name| {
        assert name[b] == x[..|name|][b] == x[b];
        assert name[b..][0] == name[b] && name[b..][1..] == name[b + 1..];
        if x[b] == '\\' {
          assert x[b..][1] == x[b + 1] && x[b..][2..] == x[b + 2..];
          NeverCatchesUp(x, name, b + 2, b + 1);
        } else {
          LongerReadsOther(x, name, b + 1);
        }
      }
    }
  }

  /** A printed name that is read back as itself needs no escaping. */
  lemma NameRead(js: string, p: nat, name: string, e: nat)
    requires At(js, p, Key(name)) && p < |js| && StringEnd(js, p + 1) == Stop(e) && Unescape(js[p + 1..e]) == Some(name)
    ensures PlainName(name)
  {
    hide StringEnd;
    var x := js[p + 1..e];
    UnescapeShortens(x);
    assert Key(name) == "\"" + (name + "\":");
    AtParts(js, p, "\"", name + "\":");
    AtParts(js, p + 1, name, "\":");
    hide Unescape;
    assert x[..|name|] == js[p + 1..p + 1 + |name|] == name;
    if |x| > |name| {
      AtChar(js, p + 1 + |name|, "\":");
      assert x[|name|] == '"';
      assert x[0..] == x && name[0..] == name;
      LongerReadsOther(x, name, 0);
    } else {
      assert x[..|name|] == x;
      NamePlain(js, p, name);
    }
  }

  // ------------------------------------------------- what a parse settles

  lemma AdvanceKeeps(js: string, st: State, n: nat, j: nat)
    requires st.Valid(js) && !Ended(js, st.pos) && j < |st.toks| && !st.toks[j].Open() && Advance(js, st, n).Next?
    ensures j < |Advance(js, st, n).state.toks| && SameSpan(Advance(js, st, n).state.toks[j], st.toks[j])
  {
    hide StringEnd, PrimitiveEnd, AfterComma;
  }

  /** Tokens that are closed stay as they are, but for their sizes. */
  lemma {:induction false} RunKeeps(js: string, st: State, n: nat, j: nat)
    requires st.Valid(js) && j < |st.toks| && !st.toks[j].Open()
    ensures SameSpan(Run(js, st, n).state.toks[j], st.toks[j])
    decreases |js| - st.pos
  {
    hide Advance;
    if !Ended(js, st.pos) {
      var s := Advance(js, st, n);
      if s.Next? {
        AdvanceKeeps(js, st, n, j);
        assert SameSpan(s.state.toks[j], st.toks[j]);
        RunKeeps(js, s.state, n, j);
      }
    }
  }

  /** A field is read as itself only if its name needs no escaping. */
  lemma KeyRead(js: string, st: State, f: Field, n: nat)
    requires st.Valid(js) && At(js, st.pos, Key(f.name)) && Run(js, st, n).result.Ok?
    requires var r := ReadField(js, Run(js, st, n).state.toks, |st.toks|); r.Some? && r.value.value.name == f.name
    ensures PlainName(f.name)
  {
    hide StringEnd, PrimitiveEnd, Unescape, ReadDoc;
    AtChar(js, st.pos, Key(f.name));
    var s := Advance(js, st, n);
    assert s.Next?;
    var i := |st.toks|;
    RunKeeps(js, s.state, n, i);
    hide Run;
    assert SameSpan(s.state.toks[i], Run(js, st, n).state.toks[i]);
    NameRead(js, st.pos, f.name, s.state.toks[i].end);
  }

  // --------------------------------------------------- how much is read

  /** Reading a document takes as many tokens as it has. */
  lemma {:induction false} ReadCounts(js: string, toks: seq<Token>, i: nat, d: Doc, p: nat)
    requires ReadDoc(js, toks, i).Some? && ReadDoc(js, toks, i).value.value == d
    ensures ReadDoc(js, toks, i).value.next == i + |Tokens(d, p)|
    decreases d, 1, 0
  {
    hide Unescape, StringOf, Print, PrintItems, PrintFields, ReadItems, ReadFields, ItemTokens, FieldTokens;
    match d
    case Prim(_) =>
    case Str(_) =>
    case Arr(items) =>
      ItemsRead(js, toks, i + 1, toks[i].size);
      ItemsCount(js, toks, i + 1, items, p + 1);
    case Obj(fields) =>
      FieldsRead(js, toks, i + 1, toks[i].size);
      FieldsCount(js, toks, i + 1, fields, p + 1);
  }

  lemma {:induction false} ItemsRead(js: string, toks: seq<Token>, i: nat, k: nat)
    requires i <= |toks| && ReadItems(js, toks, i, k).Some?
    ensures |ReadItems(js, toks, i, k).value.value| == k
    decreases k
  {
    hide ReadDoc;
    if k > 0 {
      ItemsRead(js, toks, ReadDoc(js, toks, i).value.next, k - 1);
    }
  }

  lemma {:induction false} FieldsRead(js: string, toks: seq<Token>, i: nat, k: nat)
    requires i <= |toks| && ReadFields(js, toks, i, k).Some?
    ensures |ReadFields(js, toks, i, k).value.value| == k
    decreases k
  {
    hide ReadField;
    if k > 0 {
      FieldsRead(js, toks, ReadField(js, toks, i).value.next, k - 1);
    }
  }

  /** What reading the items means for the first and the others. */
  lemma ItemsParts(js: string, toks: seq<Token>, i: nat, items: seq<Doc>)
    requires items != [] && i <= |toks| && ReadItems(js, toks, i, |items|).Some? && ReadItems(js, toks, i, |items|).value.value == items
    ensures var d := ReadDoc(js, toks, i);
      d.Some? && d.value.value == items[0] &&
      var rest := ReadItems(js, toks, d.value.next, |items[1..]|);
      rest.Some? && rest.value.value == items[1..] && rest.value.next == ReadItems(js, toks, i, |items|).value.next
  {
    hide ReadDoc;
    var d := ReadDoc(js, toks, i);
    var rest := ReadItems(js, toks, d.value.next, |items| - 1);
    assert ([d.value.value] + rest.value.value)[0] == d.value.value && ([d.value.value] + rest.value.value)[1..] == rest.value.value;
  }

  lemma FieldsParts(js: string, toks: seq<Token>, i: nat, fields: seq<Field>)
    requires fields != [] && i <= |toks| && ReadFields(js, toks, i, |fields|).Some? && ReadFields(js, toks, i, |fields|).value.value == fields
    ensures var f := ReadField(js, toks, i);
      f.Some? && f.value.value == fields[0] &&
      var rest := ReadFields(js, toks, f.value.next, |fields[1..]|);
      rest.Some? && rest.value.value == fields[1..] && rest.value.next == ReadFields(js, toks, i, |fields|).value.next
  {
    hide ReadField;
    var f := ReadField(js, toks, i);
    var rest := ReadFields(js, toks, f.value.next, |fields| - 1);
    assert ([f.value.value] + rest.value.value)[0] == f.value.value && ([f.value.value] + rest.value.value)[1..] == rest.value.value;
  }

  lemma {:induction false} ItemsCount(js: string, toks: seq<Token>, i: nat, items: seq<Doc>, p: nat)
    requires i <= |toks| && ReadItems(js, toks, i, |items|).Some? && ReadItems(js, toks, i, |items|).value.value == items
    ensures ReadItems(js, toks, i, |items|).value.next == i + |ItemTokens(items, p)|
    decreases items, 0, 0
  {
    hide ReadDoc, Print, Tokens;
    if items != [] {
      ItemsParts(js, toks, i, items);
      ReadCounts(js, toks, i, items[0], p);
      ItemsCount(js, toks, ReadDoc(js, toks, i).value.next, items[1..], p + |Print(items[0])| + 1);
    }
  }

  lemma {:induction false} FieldsCount(js: string, toks: seq<Token>, i: nat, fields: seq<Field>, p: nat)
    requires i <= |toks| && ReadFields(js, toks, i, |fields|).Some? && ReadFields(js, toks, i, |fields|).value.value == fields
    ensures ReadFields(js, toks, i, |fields|).value.next == i + |FieldTokens(fields, p)|
    decreases fields, 0, 0
  {
    hide ReadField, PrintField, OneField;
    if fields != [] {
      FieldsParts(js, toks, i, fields);
      FieldCounts(js, toks, i, fields[0], p);
      FieldsCount(js, toks, ReadField(js, toks, i).value.next, fields[1..], p + |PrintField(fields[0])| + 1);
    }
  }

  lemma {:induction false} FieldCounts(js: string, toks: seq<Token>, i: nat, f: Field, p: nat)
    requires i <= |toks| && ReadField(js, toks, i).Some? && ReadField(js, toks, i).value.value == f
    ensures ReadField(js, toks, i).value.next == i + |OneField(f, p)|
    decreases f, 2, 0
  {
    hide ReadDoc, Tokens, StringOf;
    ReadCounts(js, toks, i + 1, f.value, p + |Key(f.name)|);
  }

  // ------------------------------------------------------ documents read

  /** The tokens of the whole parse give the document d from index i on. */
  ghost predicate Gives(js: string, o: Outcome, i: nat, d: Doc)
  {
    o.result.Ok? && ReadDoc(js, o.state.toks, i).Some? && ReadDoc(js, o.state.toks, i).value.value == d
  }

  ghost predicate GivesItems(js: string, o: Outcome, i: nat, items: seq<Doc>)
  {
    o.result.Ok? && i <= |o.state.toks| &&
    ReadItems(js, o.state.toks, i, |items|).Some? && ReadItems(js, o.state.toks, i, |items|).value.value == items
  }

  ghost predicate GivesFields(js: string, o: Outcome, i: nat, fields: seq<Field>)
  {
    o.result.Ok? && i <= |o.state.toks| &&
    ReadFields(js, o.state.toks, i, |fields|).Some? && ReadFields(js, o.state.toks, i, |fields|).value.value == fields
  }

  lemma GivesArray(js: string, o: Outcome, i: nat, items: seq<Doc>)
    requires Gives(js, o, i, Arr(items))
    ensures GivesItems(js, o, i + 1, items)
  {
    hide ReadItems, ReadFields;
    ItemsRead(js, o.state.toks, i + 1, o.state.toks[i].size);
  }

  lemma GivesObject(js: string, o: Outcome, i: nat, fields: seq<Field>)
    requires Gives(js, o, i, Obj(fields))
    ensures GivesFields(js, o, i + 1, fields)
  {
    hide ReadItems, ReadFields;
    FieldsRead(js, o.state.toks, i + 1, o.state.toks[i].size);
  }

  lemma GivesFirst(js: string, o: Outcome, i: nat, items: seq<Doc>, p: nat)
    requires GivesItems(js, o, i, items) && items != []
    ensures Gives(js, o, i, items[0]) && GivesItems(js, o, i + |Tokens(items[0], p)|, items[1..])
  {
    hide ReadDoc, ReadItems, Tokens;
    ItemsParts(js, o.state.toks, i, items);
    ReadCounts(js, o.state.toks, i, items[0], p);
  }

  lemma GivesFirstField(js: string, o: Outcome, i: nat, fields: seq<Field>, p: nat)
    requires GivesFields(js, o, i, fields) && fields != []
    ensures o.result.Ok? && i <= |o.state.toks| && ReadField(js, o.state.toks, i).Some? && ReadField(js, o.state.toks, i).value.value == fields[0]
    ensures Gives(js, o, i + 1, fields[0].value) && GivesFields(js, o, i + |OneField(fields[0], p)|, fields[1..])
  {
    hide ReadDoc, ReadFields, Tokens, OneField, StringOf;
    FieldsParts(js, o.state.toks, i, fields);
    FieldCounts(js, o.state.toks, i, fields[0], p);
  }

  /** A printed document that its tokens give back has only names that need no escaping. */
  lemma {:induction false} DocPlain(js: string, st: State, d: Doc, n: nat)
    requires st.Valid(js) && Proper(d) && At(js, st.pos, Print(d)) && EndsAt(js, st.pos + |Print(d)|)
    requires |st.toks| + |Tokens(d, st.pos)| <= n && Gives(js, Run(js, st, n), |st.toks|, d)
    ensures PlainNames(d)
    decreases d, 1, 0
  {
    hide Run, Advance, EndsAt, PrintItems, PrintFields, ItemTokens, FieldTokens, Gives, Enclosing, Adopt, Opened;
    match d
    case Prim(_) =>
    case Str(_) =>
    case Arr(items) =>
      var base := Adopt(st.toks, st.super);
      assert Print(d) == "[" + (PrintItems(items) + "]");
      AtChar(js, st.pos, Print(d));
      AtParts(js, st.pos, "[", PrintItems(items) + "]");
      OpenLexeme(js, st, n);
      RunStep(js, st, n, State(st.pos + 1, Opened(base, Kind.Array, st.pos, 0, []), |st.toks|));
      GivesArray(js, Run(js, st, n), |st.toks|, items);
      ItemsPlain(js, st.pos + 1, base, st.pos, 0, [], items, n);
    case Obj(fields) =>
      var base := Adopt(st.toks, st.super);
      assert Print(d) == "{" + (PrintFields(fields) + "}");
      AtChar(js, st.pos, Print(d));
      AtParts(js, st.pos, "{", PrintFields(fields) + "}");
      OpenLexeme(js, st, n);
      RunStep(js, st, n, State(st.pos + 1, Opened(base, Kind.Object, st.pos, 0, []), |st.toks|));
      GivesObject(js, Run(js, st, n), |st.toks|, fields);
      FieldsPlain(js, st.pos + 1, base, st.pos, 0, [], fields, n);
  }

  lemma {:induction false} ItemsPlain(js: string, pos: nat, base: seq<Token>, p: nat, k: nat, inner: seq<Token>, items: seq<Doc>, n: nat)
    requires State(pos, Opened(base, Kind.Array, p, k, inner), |base|).Valid(js) && WellFormed(base) && AllClosed(inner)
    requires At(js, pos, PrintItems(items) + "]") && forall i :: 0 <= i < |items| ==> Proper(items[i])
    requires |base| + 1 + |inner| + |ItemTokens(items, pos)| <= n
    requires GivesItems(js, Run(js, State(pos, Opened(base, Kind.Array, p, k, inner), |base|), n), |base| + 1 + |inner|, items)
    ensures forall i :: 0 <= i < |items| ==> PlainNames(items[i])
    decreases items, 0, 0
  {
    hide Run, Advance, Enclosing, Adopt, Opened, Print, PrintItems, Tokens, Proper, PlainNames, WellFormed, AllClosed, Ended;
    hide State.Valid, ItemTokens, Gives, GivesItems, At, EndsAt;
    if items != [] {
      var d := items[0];
      var q := pos + |Print(d)|;
      ItemEnds(js, pos, items);
      ItemTokensRoom(items, pos);
      var st := State(pos, Opened(base, Kind.Array, p, k, inner), |base|);
      GivesFirst(js, Run(js, st, n), |base| + 1 + |inner|, items, pos);
      DocPlain(js, st, d, n);
      ParseItem(js, pos, base, p, k, inner, d, n);
      if |items| > 1 {
        PassComma(js, q, |base|, base, Kind.Array, p, k + 1, inner + Tokens(d, pos), n);
        ItemsPlain(js, q + 1, base, p, k + 1, inner + Tokens(d, pos), items[1..], n);
      }
      forall i | 0 <= i < |items| ensures PlainNames(items[i]) {
        assert i > 0 ==> items[i] == items[1..][i - 1];
      }
    }
  }

  /** What stands where the first item ends. */
  lemma ItemEnds(js: string, pos: nat, items: seq<Doc>)
    requires items != [] && At(js, pos, PrintItems(items) + "]")
    ensures var q := pos + |Print(items[0])|;
      At(js, pos, Print(items[0])) && EndsAt(js, q) && q < |js|
      && (|items| > 1 ==> js[q] == ',' && At(js, q + 1, PrintItems(items[1..]) + "]"))
  {
    hide Print, At;
    var d := items[0];
    var rest := if |items| > 1 then "," + (PrintItems(items[1..]) + "]") else "]";
    assert PrintItems(items) + "]" == Print(d) + rest;
    AtParts(js, pos, Print(d), rest);
    AtChar(js, pos + |Print(d)|, rest);
    if |items| > 1 {
      AtParts(js, pos + |Print(d)|, ",", PrintItems(items[1..]) + "]");
    }
  }

  lemma {:induction false} FieldsPlain(js: string, pos: nat, base: seq<Token>, p: nat, k: nat, inner: seq<Token>, fields: seq<Field>, n: nat)
    requires State(pos, Opened(base, Kind.Object, p, k, inner), |base|).Valid(js) && WellFormed(base) && AllClosed(inner)
    requires At(js, pos, PrintFields(fields) + "}")
    requires forall i :: 0 <= i < |fields| ==> CString(fields[i].name) && Proper(fields[i].value)
    requires |base| + 1 + |inner| + |FieldTokens(fields, pos)| <= n
    requires GivesFields(js, Run(js, State(pos, Opened(base, Kind.Object, p, k, inner), |base|), n), |base| + 1 + |inner|, fields)
    ensures forall i :: 0 <= i < |fields| ==> PlainName(fields[i].name) && PlainNames(fields[i].value)
    decreases fields, 0, 0
  {
    hide Run, Advance, Enclosing, Adopt, Opened, PrintField, OneField, Proper, PlainNames, PlainName, CString, WellFormed, AllClosed, Ended;
    hide State.Valid, FieldTokens, Token.Container, At, EndsAt, Gives, GivesFields;
    if fields != [] {
      var f := fields[0];
      var q := pos + |PrintField(f)|;
      FieldsText(js, pos, fields);
      FieldTokensRoom(fields, pos);
      var o := Run(js, State(pos, Opened(base, Kind.Object, p, k, inner), |base|), n);
      GivesFirstField(js, o, |base| + 1 + |inner|, fields, pos);
      FieldPlain(js, pos, base, p, k, inner, f, n);
      var more := inner + OneField(f, pos);
      assert more[|inner|] == OneField(f, pos)[0];
      var after := ParseField(js, pos, base, p, k, inner, f, n);
      if |fields| > 1 {
        PassComma(js, q, after, base, Kind.Object, p, k + 1, more, n);
        FieldsPlain(js, q + 1, base, p, k + 1, more, fields[1..], n);
      }
      assert fields == [f] + fields[1..];
    }
  }

  lemma {:induction false} FieldPlain(js: string, pos: nat, base: seq<Token>, p: nat, k: nat, inner: seq<Token>, f: Field, n: nat)
    requires State(pos, Opened(base, Kind.Object, p, k, inner), |base|).Valid(js) && AllClosed(inner)
    requires At(js, pos, PrintField(f)) && EndsAt(js, pos + |PrintField(f)|) && CString(f.name) && Proper(f.value)
    requires |base| + 1 + |inner| + |OneField(f, pos)| <= n
    requires var o := Run(js, State(pos, Opened(base, Kind.Object, p, k, inner), |base|), n); var i := |base| + 1 + |inner|;
      o.result.Ok? && i <= |o.state.toks| && ReadField(js, o.state.toks, i).Some? && ReadField(js, o.state.toks, i).value.value == f
      && Gives(js, o, i + 1, f.value)
    ensures PlainName(f.name) && PlainNames(f.value)
    decreases f, 2, 0
  {
    hide Run, Advance, Enclosing, Adopt, Opened, Print, Tokens, Proper, PlainNames, PlainName, CString, WellFormed, AllClosed, Ended;
    hide Gives, ReadField, EndsAt;
    var st := State(pos, Opened(base, Kind.Object, p, k, inner), |base|);
    var t := Token(String, pos + 1, pos + 1 + |f.name|, 0);
    var q := pos + |Key(f.name)|;
    AtParts(js, pos, Key(f.name), Print(f.value));
    KeyRead(js, st, f, n);
    ParseName(js, pos, base, p, k, inner, f.name, n);
    DocPlain(js, State(q, Opened(base, Kind.Object, p, k + 1, inner + [t]), |base| + 1 + |inner|), f.value, n);
  }

  /** The tokens of a printed document give it back if and only if no name has a quote or a backslash. */
  lemma TokenizedIffPlain(d: Doc, n: nat)
    requires Proper(d) && |Tokens(d, 0)| <= n
    ensures var o := Run(Print(d), INIT, n);
      o.result.Ok? && ReadDoc(Print(d), o.state.toks, 0) == Some(Reading(d, |o.state.toks|)) <==> PlainNames(d)
  {
    hide Tokens, Print, Proper, PlainNames, Run, ReadDoc;
    var js := Print(d);
    var o := Run(js, INIT, n);
    assert At(js, 0, js);
    if PlainNames(d) {
      ParsePrinted(d, n);
      assert TokensAt(Tokens(d, 0), 0, Tokens(d, 0));
      ReadTokens(js, 0, Tokens(d, 0), 0, d);
    } else if o.result.Ok? && ReadDoc(js, o.state.toks, 0) == Some(Reading(d, |o.state.toks|)) {
      DocPlain(js, INIT, d, n);
    }
  }

  /** A name with a backslash at its end: the colon and the value become part of the string, which never ends. */
  lemma BackslashName()
    ensures var d := Obj([Field("\\", Prim("1"))]);
      Print(d) == "{\"\\\":1}" && Proper(d) && Run(Print(d), INIT, 3).result == Fail(Part)
  {
    var d := Obj([Field("\\", Prim("1"))]);
    var js := "{\"\\\":1}";
    assert PrintFields([Field("\\", Prim("1"))]) == "\"\\\":1";
    assert StringEnd(js, 7) == StringEnd(js, 6) == StringEnd(js, 5) == StringEnd(js, 4) == Bad(Part);
    assert StringEnd(js, 2) == Bad(Part);
    var st := State(1, [Token(Kind.Object, 0, -1, 0)], 0);
    assert Adopt([], -1) + [Token(Kind.Object, 0, -1, 0)] == st.toks;
    assert Advance(js, INIT, 3) == Next(st);
    assert Advance(js, st, 3) == Stuck(Part);
  }
}

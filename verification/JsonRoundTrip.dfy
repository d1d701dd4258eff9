/** The tokenizer reads back what the generator writes. */
module JsonRoundTrip {
  import opened Jsmn
  import opened JsmnProperties
  import opened JsonDoc
  import opened MtoJson
  import opened Options

  // ------------------------------------------------------ expected tokens

  /** The tokens of a document printed at position p: one per node and one per name, children
      counted in their parent, spans as printed. */
  function Tokens(d: Doc, p: nat): (r: seq<Token>)
    ensures |r| >= 1
    decreases d, 1, 0
  {
    var e := p + |Print(d)|;
    match d
    case Prim(t) => [Token(Kind.Primitive, p, e, 0)]
    case Str(t) => [Token(String, p + 1, e - 1, 0)]
    case Arr(items) => [Token(Kind.Array, p, e, |items|)] + ItemTokens(items, p + 1)
    case Obj(fields) => [Token(Kind.Object, p, e, |fields|)] + FieldTokens(fields, p + 1)
  }

  function ItemTokens(items: seq<Doc>, p: nat): seq<Token>
    decreases items, 0, 0
  {
    if items == [] then [] else Tokens(items[0], p) + ItemTokens(items[1..], p + |Print(items[0])| + 1)
  }

  function FieldTokens(fields: seq<Field>, p: nat): seq<Token>
    decreases fields, 0, 0
  {
    if fields == [] then []
    else OneField(fields[0], p) + FieldTokens(fields[1..], p + |PrintField(fields[0])| + 1)
  }

  /** The token of a name, superior to its value, and those of the value. */
  function OneField(f: Field, p: nat): (r: seq<Token>)
    ensures |r| >= 1 && !r[0].Container()
    decreases f, 2, 0
  {
    [Token(String, p + 1, p + 1 + |f.name|, 1)] + Tokens(f.value, p + |Key(f.name)|)
  }

  /** Names that need no escaping. */
  predicate PlainNames(d: Doc)
  {
    match d
    case Prim(_) => true
    case Str(_) => true
    case Arr(items) => forall i :: 0 <= i < |items| ==> PlainNames(items[i])
    case Obj(fields) => forall i :: 0 <= i < |fields| ==> PlainName(fields[i].name) && PlainNames(fields[i].value)
  }

  predicate PlainName(s: string)
  {
    forall i :: 0 <= i < |s| ==> !NeedsEscape(s[i])
  }

  // ------------------------------------------------------------- positions

  /** The text s stands at position p. */
  predicate At(js: string, p: nat, s: string)
  {
    p + |s| <= |js| && js[p..p + |s|] == s
  }

  lemma AtParts(js: string, p: nat, a: string, b: string)
    requires At(js, p, a + b)
    ensures At(js, p, a) && At(js, p + |a|, b)
  {
    assert (a + b)[..|a|] == a && (a + b)[|a|..] == b;
  }

  lemma AtChar(js: string, p: nat, s: string)
    requires At(js, p, s) && s != []
    ensures p < |js| && js[p] == s[0]
  {
    assert js[p..p + |s|][0] == s[0];
  }

  /** What may follow a value. */
  predicate EndsAt(js: string, p: nat)
  {
    Ended(js, p) || Delimiter(js[p])
  }

  // ---------------------------------------------------------------- lexemes

  /** An escaped text scans to its closing quote. */
  lemma {:induction false} ScanEscaped(js: string, p: nat, s: string)
    requires CString(s) && At(js, p, Escape(s) + "\"")
    ensures StringEnd(js, p) == Stop(p + |Escape(s)|)
    decreases |s|
  {
    AtChar(js, p, Escape(s) + "\"");
    if s != [] {
      assert s[0] in s;
      var c := if NeedsEscape(s[0]) then ['\\', s[0]] else [s[0]];
      assert Escape(s) + "\"" == c + (Escape(s[1..]) + "\"");
      AtParts(js, p, c, Escape(s[1..]) + "\"");
      assert forall x :: x in s[1..] ==> x in s;
      AtChar(js, p + |c| - 1, [s[0]]) by {
        if |c| == 2 {
          AtParts(js, p, ['\\'], [s[0]]);
        }
      }
      ScanEscaped(js, p + |c|, s[1..]);
    }
  }

  lemma {:induction false} ScanPrimitive(js: string, p: nat, s: string)
    requires (forall c :: c in s ==> !Delimiter(c) && Printable(c) && c != '\0') && At(js, p, s) && EndsAt(js, p + |s|)
    ensures PrimitiveEnd(js, p) == Stop(p + |s|)
    decreases |s|
  {
    if s != [] {
      AtChar(js, p, s);
      assert s[0] in s;
      assert s == [s[0]] + s[1..];
      AtParts(js, p, [s[0]], s[1..]);
      ScanPrimitive(js, p + 1, s[1..]);
    }
  }

  /** A quoted text adds one string token. */
  lemma StringLexeme(js: string, st: State, s: string, n: nat)
    requires st.Valid(js) && CString(s) && At(js, st.pos, "\"" + Escape(s) + "\"") && |st.toks| < n
    ensures !Ended(js, st.pos)
    ensures var e := st.pos + 1 + |Escape(s)|;
      Advance(js, st, n) == Next(State(e + 1, Adopt(st.toks, st.super) + [Token(String, st.pos + 1, e, 0)], st.super))
  {
    hide StringEnd, PrimitiveEnd, Escape, Enclosing;
    assert "\"" + Escape(s) + "\"" == "\"" + (Escape(s) + "\"");
    AtChar(js, st.pos, "\"" + Escape(s) + "\"");
    AtParts(js, st.pos, "\"", Escape(s) + "\"");
    ScanEscaped(js, st.pos + 1, s);
  }

  lemma PrimLexeme(js: string, st: State, s: string, n: nat)
    requires st.Valid(js) && PrimText(s) && At(js, st.pos, s) && EndsAt(js, st.pos + |s|) && |st.toks| < n
    ensures !Ended(js, st.pos)
    ensures var e := st.pos + |s|;
      Advance(js, st, n) == Next(State(e, Adopt(st.toks, st.super) + [Token(Kind.Primitive, st.pos, e, 0)], st.super))
  {
    hide StringEnd, PrimitiveEnd, Enclosing;
    AtChar(js, st.pos, s);
    assert s[0] in s;
    ScanPrimitive(js, st.pos, s);
  }

  // ------------------------------------------------------- open containers

  /** A container token at index |base| and what is inside it. */
  function Sealed(base: seq<Token>, t: Token, inner: seq<Token>): (r: seq<Token>)
    ensures |r| == |base| + 1 + |inner|
    ensures r[|base|] == t
  {
    base + [t] + inner
  }

  /** The container is open and has k children so far. */
  function Opened(base: seq<Token>, kind: Kind, p: nat, k: nat, inner: seq<Token>): (r: seq<Token>)
    ensures |r| == |base| + 1 + |inner|
    ensures r[|base|] == Token(kind, p, -1, k)
  {
    Sealed(base, Token(kind, p, -1, k), inner)
  }

  ghost predicate AllClosed(toks: seq<Token>)
  {
    forall i :: 0 <= i < |toks| ==> toks[i].start >= 0 && !toks[i].Open()
  }

  lemma {:induction false} EnclosingClosed(a: seq<Token>, b: seq<Token>, i: nat)
    requires AllClosed(b) && i <= |b|
    ensures Enclosing(a + b, |a| + i) == Enclosing(a, |a|)
  {
    if i > 0 {
      EnclosingClosed(a, b, i - 1);
    } else {
      EnclosingPrefix(a, b, |a|);
    }
  }

  lemma {:induction false} EnclosingPrefix(a: seq<Token>, b: seq<Token>, i: nat)
    requires i <= |a|
    ensures Enclosing(a + b, i) == Enclosing(a, i)
  {
    if i > 0 {
      EnclosingPrefix(a, b, i - 1);
    }
  }

  lemma EnclosingOpened(base: seq<Token>, kind: Kind, p: nat, k: nat, inner: seq<Token>)
    requires AllClosed(inner)
    ensures Enclosing(Opened(base, kind, p, k, inner), |base| + 1 + |inner|) == |base|
    ensures Enclosing(Opened(base, kind, p, k, inner), |base|) == Enclosing(base, |base|)
  {
    var t := [Token(kind, p, -1, k)];
    EnclosingTop(base, t[0]);
    hide Enclosing;
    EnclosingClosed(base + t, inner, |inner|);
    Associative(base, t, inner);
    EnclosingPrefix(base, t + inner, |base|);
  }

  lemma EnclosingTop(base: seq<Token>, t: Token)
    requires t.Open()
    ensures Enclosing(base + [t], |base| + 1) == |base|
  {
  }

  lemma Associative(a: seq<Token>, b: seq<Token>, c: seq<Token>)
    ensures a + b + c == a + (b + c)
  {
  }

  lemma OpenedClose(base: seq<Token>, kind: Kind, p: nat, k: nat, inner: seq<Token>, end: int)
    ensures var toks := Opened(base, kind, p, k, inner);
      toks[|base| := toks[|base|].(end := end)] == Sealed(base, Token(kind, p, end, k), inner)
  {
  }

  lemma AdoptOpened(base: seq<Token>, kind: Kind, p: nat, k: nat, inner: seq<Token>)
    ensures Adopt(Opened(base, kind, p, k, inner), |base|) == Opened(base, kind, p, k + 1, inner)
  {
  }

  lemma AdoptLast(toks: seq<Token>, t: Token)
    ensures Adopt(toks + [t], |toks|) == toks + [t.(size := t.size + 1)]
  {
  }

  lemma OpenedMore(base: seq<Token>, kind: Kind, p: nat, k: nat, inner: seq<Token>, more: seq<Token>)
    ensures Opened(base, kind, p, k, inner) + more == Opened(base, kind, p, k, inner + more)
  {
  }

  lemma OpenedValid(base: seq<Token>, kind: Kind, p: nat, k: nat, inner: seq<Token>)
    requires WellFormed(base) && AllClosed(inner) && (kind.Object? || kind.Array?)
    ensures WellFormed(Opened(base, kind, p, k, inner))
  {
  }

  lemma AdvanceClose(js: string, st: State, n: nat)
    requires st.Valid(js) && st.pos < |js| && (js[st.pos] == '}' || js[st.pos] == ']')
    requires Enclosing(st.toks, |st.toks|) != -1 && st.toks[Enclosing(st.toks, |st.toks|)].kind == Closes(js[st.pos])
    ensures !Ended(js, st.pos)
    ensures var i := Enclosing(st.toks, |st.toks|);
      Advance(js, st, n) == Next(State(st.pos + 1, st.toks[i := st.toks[i].(end := st.pos + 1)], Enclosing(st.toks, i)))
  {
    hide StringEnd, PrimitiveEnd, Enclosing, Adopt, AfterComma, AddScalar, WellFormed;
  }

  /** The closing bracket of the innermost open container. */
  lemma CloseLexeme(js: string, pos: nat, super: int, base: seq<Token>, kind: Kind, p: nat, k: nat, inner: seq<Token>, n: nat)
    requires pos < |js| && WellFormed(base) && AllClosed(inner) && -1 <= super < |base| + 1 + |inner|
    requires (kind.Object? && js[pos] == '}') || (kind.Array? && js[pos] == ']')
    ensures State(pos, Opened(base, kind, p, k, inner), super).Valid(js) && !Ended(js, pos)
    ensures Advance(js, State(pos, Opened(base, kind, p, k, inner), super), n)
         == Next(State(pos + 1, Sealed(base, Token(kind, p, pos + 1, k), inner), Enclosing(base, |base|)))
  {
    hide Advance, Ended, Enclosing, Opened, Sealed, AllClosed, WellFormed;
    OpenedValid(base, kind, p, k, inner);
    EnclosingOpened(base, kind, p, k, inner);
    AdvanceClose(js, State(pos, Opened(base, kind, p, k, inner), super), n);
    OpenedClose(base, kind, p, k, inner, pos + 1);
  }

  /** A comma brings the superior token back to the container, after a scalar and after a nested container. */
  lemma CommaLexeme(js: string, pos: nat, super: int, base: seq<Token>, kind: Kind, p: nat, k: nat, inner: seq<Token>, n: nat)
    requires pos < |js| && js[pos] == ',' && WellFormed(base) && AllClosed(inner) && (kind.Object? || kind.Array?)
    requires super == |base| || (|base| < super < |base| + 1 + |inner| && !inner[super - |base| - 1].Container())
    ensures State(pos, Opened(base, kind, p, k, inner), super).Valid(js) && !Ended(js, pos)
    ensures Advance(js, State(pos, Opened(base, kind, p, k, inner), super), n)
         == Next(State(pos + 1, Opened(base, kind, p, k, inner), |base|))
  {
    hide StringEnd, PrimitiveEnd, Enclosing;
    OpenedValid(base, kind, p, k, inner);
    EnclosingOpened(base, kind, p, k, inner);
    assert super > |base| ==> Opened(base, kind, p, k, inner)[super] == inner[super - |base| - 1];
  }

  lemma OpenLexeme(js: string, st: State, n: nat)
    requires st.Valid(js) && st.pos < |js| && (js[st.pos] == '{' || js[st.pos] == '[') && |st.toks| < n
    ensures !Ended(js, st.pos) && WellFormed(Adopt(st.toks, st.super))
    ensures Advance(js, st, n)
         == Next(State(st.pos + 1, Opened(Adopt(st.toks, st.super), Opens(js[st.pos]), st.pos, 0, []), |st.toks|))
  {
    hide StringEnd, PrimitiveEnd, Enclosing, AfterComma;
  }

  /** A colon makes the latest token, the name, the superior one. */
  lemma ColonLexeme(js: string, st: State, n: nat)
    requires st.Valid(js) && st.pos < |js| && js[st.pos] == ':'
    ensures !Ended(js, st.pos) && Advance(js, st, n) == Next(State(st.pos + 1, st.toks, |st.toks| - 1))
  {
    hide StringEnd, PrimitiveEnd, Enclosing, AfterComma, Adopt;
  }

  lemma RunStep(js: string, st: State, n: nat, next: State)
    requires st.Valid(js) && !Ended(js, st.pos) && Advance(js, st, n) == Next(next)
    ensures next.Valid(js) && Run(js, st, n) == Run(js, next, n)
  {
    hide Advance;
  }

  // ------------------------------------------------------------ main proof

  lemma {:induction false} TokensClosed(d: Doc, p: nat)
    ensures AllClosed(Tokens(d, p))
    decreases d, 1, 0
  {
    match d
    case Prim(t) =>
    case Str(t) =>
    case Arr(items) => ItemTokensClosed(items, p + 1);
    case Obj(fields) => FieldTokensClosed(fields, p + 1);
  }

  lemma {:induction false} ItemTokensClosed(items: seq<Doc>, p: nat)
    ensures AllClosed(ItemTokens(items, p))
    decreases items, 0, 0
  {
    hide Print, Tokens;
    if items != [] {
      TokensClosed(items[0], p);
      ItemTokensClosed(items[1..], p + |Print(items[0])| + 1);
    }
  }

  lemma {:induction false} FieldTokensClosed(fields: seq<Field>, p: nat)
    ensures AllClosed(FieldTokens(fields, p))
    decreases fields, 0, 0
  {
    hide PrintField, Tokens, Key;
    if fields != [] {
      TokensClosed(fields[0].value, p + |Key(fields[0].name)|);
      FieldTokensClosed(fields[1..], p + |PrintField(fields[0])| + 1);
    }
  }

  /** The state after a document: its tokens added, counted by the superior token. */
  function After(st: State, d: Doc): State
    requires -1 <= st.super < |st.toks|
  {
    State(st.pos + |Print(d)|, Adopt(st.toks, st.super) + Tokens(d, st.pos),
      if d.Arr? || d.Obj? then Enclosing(st.toks, |st.toks|) else st.super)
  }

  /** Parsing a printed document inside any text and any state adds exactly its tokens. */
  lemma {:induction false} ParseDoc(js: string, st: State, d: Doc, n: nat)
    requires st.Valid(js) && Proper(d) && PlainNames(d)
    requires At(js, st.pos, Print(d)) && EndsAt(js, st.pos + |Print(d)|)
    requires |st.toks| + |Tokens(d, st.pos)| <= n
    ensures After(st, d).Valid(js) && Run(js, st, n) == Run(js, After(st, d), n)
    decreases d, 1, 0
  {
    hide Run, Advance, EndsAt, PrintItems, PrintFields, ItemTokens, FieldTokens, PrimText, CString, Escape;
    match d
    case Prim(t) =>
      PrimLexeme(js, st, t, n);
      RunStep(js, st, n, After(st, d));
    case Str(t) =>
      StringLexeme(js, st, t, n);
      RunStep(js, st, n, After(st, d));
    case Arr(items) => ParseArray(js, st, items, n);
    case Obj(fields) => ParseObject(js, st, fields, n);
  }

  lemma {:induction false} ParseArray(js: string, st: State, items: seq<Doc>, n: nat)
    requires st.Valid(js) && Proper(Arr(items)) && PlainNames(Arr(items))
    requires At(js, st.pos, Print(Arr(items))) && |st.toks| + |Tokens(Arr(items), st.pos)| <= n
    ensures After(st, Arr(items)).Valid(js) && Run(js, st, n) == Run(js, After(st, Arr(items)), n)
    decreases items, 1, 0
  {
    hide Run, Advance, PrintItems, ItemTokens, Enclosing, Adopt, Opened;
    var base := Adopt(st.toks, st.super);
    AdoptEnclosing(st.toks, st.super, |st.toks|);
    assert Print(Arr(items)) == "[" + (PrintItems(items) + "]");
    AtChar(js, st.pos, Print(Arr(items)));
    AtParts(js, st.pos, "[", PrintItems(items) + "]");
    OpenLexeme(js, st, n);
    RunStep(js, st, n, State(st.pos + 1, Opened(base, Kind.Array, st.pos, 0, []), |st.toks|));
    ParseItems(js, st.pos + 1, |base|, base, st.pos, 0, [], items, n);
    assert [] + ItemTokens(items, st.pos + 1) == ItemTokens(items, st.pos + 1);
    SealedTokens(base, Token(Kind.Array, st.pos, st.pos + |Print(Arr(items))|, |items|), ItemTokens(items, st.pos + 1));
  }

  lemma SealedTokens(base: seq<Token>, t: Token, inner: seq<Token>)
    ensures Sealed(base, t, inner) == base + ([t] + inner)
  {
  }

  lemma {:induction false} AdoptEnclosing(toks: seq<Token>, super: int, i: nat)
    requires -1 <= super < |toks| && i <= |toks|
    ensures Enclosing(Adopt(toks, super), i) == Enclosing(toks, i)
  {
    if i > 0 {
      AdoptEnclosing(toks, super, i - 1);
    }
  }

  /** One item of an open array. */
  lemma {:induction false} ParseItem(js: string, pos: nat, base: seq<Token>, p: nat, k: nat, inner: seq<Token>, d: Doc, n: nat)
    requires State(pos, Opened(base, Kind.Array, p, k, inner), |base|).Valid(js) && AllClosed(inner)
    requires At(js, pos, Print(d)) && EndsAt(js, pos + |Print(d)|) && Proper(d) && PlainNames(d)
    requires |base| + 1 + |inner| + |Tokens(d, pos)| <= n
    ensures AllClosed(inner + Tokens(d, pos))
    ensures var end := State(pos + |Print(d)|, Opened(base, Kind.Array, p, k + 1, inner + Tokens(d, pos)), |base|);
      end.Valid(js) && Run(js, State(pos, Opened(base, Kind.Array, p, k, inner), |base|), n) == Run(js, end, n)
    decreases d, 2, 0
  {
    hide Run, Advance, Enclosing, Adopt, Opened, Sealed, Print, Tokens, Proper, PlainNames, WellFormed, AllClosed, Ended;
    var st := State(pos, Opened(base, Kind.Array, p, k, inner), |base|);
    ParseDoc(js, st, d, n);
    EnclosingOpened(base, Kind.Array, p, k, inner);
    AdoptOpened(base, Kind.Array, p, k, inner);
    OpenedMore(base, Kind.Array, p, k + 1, inner, Tokens(d, pos));
    TokensClosed(d, pos);
    AllClosedBoth(inner, Tokens(d, pos));
  }

  /** A comma after an item of an open container. */
  lemma PassComma(js: string, pos: nat, super: int, base: seq<Token>, kind: Kind, p: nat, k: nat, inner: seq<Token>, n: nat)
    requires pos < |js| && js[pos] == ',' && WellFormed(base) && AllClosed(inner) && (kind.Object? || kind.Array?)
    requires super == |base| || (|base| < super < |base| + 1 + |inner| && !inner[super - |base| - 1].Container())
    requires State(pos, Opened(base, kind, p, k, inner), super).Valid(js)
    ensures State(pos + 1, Opened(base, kind, p, k, inner), |base|).Valid(js)
    ensures Run(js, State(pos, Opened(base, kind, p, k, inner), super), n)
         == Run(js, State(pos + 1, Opened(base, kind, p, k, inner), |base|), n)
  {
    hide Run, Advance, Opened, AllClosed, WellFormed, Ended;
    CommaLexeme(js, pos, super, base, kind, p, k, inner, n);
    RunStep(js, State(pos, Opened(base, kind, p, k, inner), super), n, State(pos + 1, Opened(base, kind, p, k, inner), |base|));
  }

  /** The bracket that closes an open container. */
  lemma PassClose(js: string, pos: nat, super: int, base: seq<Token>, kind: Kind, p: nat, k: nat, inner: seq<Token>, n: nat)
    requires pos < |js| && WellFormed(base) && AllClosed(inner)
    requires (kind.Object? && js[pos] == '}') || (kind.Array? && js[pos] == ']')
    requires State(pos, Opened(base, kind, p, k, inner), super).Valid(js)
    ensures var end := State(pos + 1, Sealed(base, Token(kind, p, pos + 1, k), inner), Enclosing(base, |base|));
      end.Valid(js) && Run(js, State(pos, Opened(base, kind, p, k, inner), super), n) == Run(js, end, n)
  {
    hide Run, Advance, Opened, Sealed, AllClosed, WellFormed, Ended, Enclosing;
    CloseLexeme(js, pos, super, base, kind, p, k, inner, n);
    RunStep(js, State(pos, Opened(base, kind, p, k, inner), super), n,
      State(pos + 1, Sealed(base, Token(kind, p, pos + 1, k), inner), Enclosing(base, |base|)));
  }

  /** The rest of an array: its items, and the closing bracket. */
  lemma {:induction false} ParseItems(js: string, pos: nat, super: int, base: seq<Token>, p: nat, k: nat, inner: seq<Token>,
                                      items: seq<Doc>, n: nat)
    requires State(pos, Opened(base, Kind.Array, p, k, inner), super).Valid(js) && WellFormed(base) && AllClosed(inner)
    requires At(js, pos, PrintItems(items) + "]") && (items != [] ==> super == |base|)
    requires forall i :: 0 <= i < |items| ==> Proper(items[i]) && PlainNames(items[i])
    requires |base| + 1 + |inner| + |ItemTokens(items, pos)| <= n
    ensures var e := pos + |PrintItems(items)| + 1;
      var end := State(e, Sealed(base, Token(Kind.Array, p, e, k + |items|), inner + ItemTokens(items, pos)), Enclosing(base, |base|));
      end.Valid(js) && Run(js, State(pos, Opened(base, Kind.Array, p, k, inner), super), n) == Run(js, end, n)
    decreases items, 0, 0
  {
    hide Run, Advance, Enclosing, Adopt, Opened, Sealed, Print, Tokens, Proper, PlainNames, WellFormed, AllClosed, Ended, State.Valid, ItemTokens;
    if items == [] {
      ItemTokensNone(pos);
      AtChar(js, pos, "]");
      PassClose(js, pos, super, base, Kind.Array, p, k, inner, n);
      assert inner + [] == inner;
    } else {
      var d := items[0];
      var rest := if |items| > 1 then "," + (PrintItems(items[1..]) + "]") else "]";
      var q := pos + |Print(d)|;
      assert PrintItems(items) + "]" == Print(d) + rest;
      AtParts(js, pos, Print(d), rest);
      AtChar(js, q, rest);
      ItemTokensRoom(items, pos);
      ParseItem(js, pos, base, p, k, inner, d, n);
      var more := inner + Tokens(d, pos);
      if |items| > 1 {
        AtParts(js, q, ",", PrintItems(items[1..]) + "]");
        PassComma(js, q, |base|, base, Kind.Array, p, k + 1, more, n);
        ParseItems(js, q + 1, |base|, base, p, k + 1, more, items[1..], n);
      } else {
        ParseItems(js, q, |base|, base, p, k + 1, more, items[1..], n);
      }
      Associative(inner, Tokens(d, pos), ItemTokens(items[1..], q + 1));
    }
  }

  lemma ItemTokensNone(p: nat)
    ensures ItemTokens([], p) == []
  {
  }

  lemma ItemTokensRoom(items: seq<Doc>, p: nat)
    requires items != []
    ensures ItemTokens(items, p) == Tokens(items[0], p) + ItemTokens(items[1..], p + |Print(items[0])| + 1)
    ensures |items| == 1 ==> forall q: nat :: ItemTokens(items[1..], q) == []
  {
    hide Tokens, Print;
  }

  lemma AllClosedBoth(a: seq<Token>, b: seq<Token>)
    requires AllClosed(a) && AllClosed(b)
    ensures AllClosed(a + b)
  {
  }

  lemma {:induction false} ParseObject(js: string, st: State, fields: seq<Field>, n: nat)
    requires st.Valid(js) && Proper(Obj(fields)) && PlainNames(Obj(fields))
    requires At(js, st.pos, Print(Obj(fields))) && |st.toks| + |Tokens(Obj(fields), st.pos)| <= n
    ensures After(st, Obj(fields)).Valid(js) && Run(js, st, n) == Run(js, After(st, Obj(fields)), n)
    decreases fields, 1, 0
  {
    hide Run, Advance, PrintFields, FieldTokens, Enclosing, Adopt, Opened;
    var base := Adopt(st.toks, st.super);
    AdoptEnclosing(st.toks, st.super, |st.toks|);
    assert Print(Obj(fields)) == "{" + (PrintFields(fields) + "}");
    AtChar(js, st.pos, Print(Obj(fields)));
    AtParts(js, st.pos, "{", PrintFields(fields) + "}");
    OpenLexeme(js, st, n);
    RunStep(js, st, n, State(st.pos + 1, Opened(base, Kind.Object, st.pos, 0, []), |st.toks|));
    ParseFields(js, st.pos + 1, |base|, base, st.pos, 0, [], fields, n);
    assert [] + FieldTokens(fields, st.pos + 1) == FieldTokens(fields, st.pos + 1);
    SealedTokens(base, Token(Kind.Object, st.pos, st.pos + |Print(Obj(fields))|, |fields|), FieldTokens(fields, st.pos + 1));
  }

  /** The name of a field, and the colon. */
  lemma ParseName(js: string, pos: nat, base: seq<Token>, p: nat, k: nat, inner: seq<Token>, name: string, n: nat)
    requires State(pos, Opened(base, Kind.Object, p, k, inner), |base|).Valid(js) && AllClosed(inner)
    requires At(js, pos, Key(name)) && CString(name) && PlainName(name) && |base| + 1 + |inner| < n
    ensures var toks := Opened(base, Kind.Object, p, k + 1, inner + [Token(String, pos + 1, pos + 1 + |name|, 0)]);
      var end := State(pos + |Key(name)|, toks, |base| + 1 + |inner|);
      end.Valid(js) && Run(js, State(pos, Opened(base, Kind.Object, p, k, inner), |base|), n) == Run(js, end, n)
  {
    hide Run, Advance, Enclosing, Adopt, Opened, WellFormed, AllClosed, Ended, CString;
    var st := State(pos, Opened(base, Kind.Object, p, k, inner), |base|);
    var t := Token(String, pos + 1, pos + 1 + |name|, 0);
    EscapeNothing(name);
    assert Key(name) == ("\"" + Escape(name) + "\"") + ":";
    AtParts(js, pos, "\"" + Escape(name) + "\"", ":");
    AtChar(js, pos + |name| + 2, ":");
    StringLexeme(js, st, name, n);
    AdoptOpened(base, Kind.Object, p, k, inner);
    OpenedMore(base, Kind.Object, p, k + 1, inner, [t]);
    var named := State(pos + |name| + 2, Opened(base, Kind.Object, p, k + 1, inner + [t]), |base|);
    RunStep(js, st, n, named);
    ColonLexeme(js, named, n);
    RunStep(js, named, n, State(pos + |Key(name)|, named.toks, |base| + 1 + |inner|));
  }

  /** The value adds one to the size of its name's token. */
  lemma AdoptName(base: seq<Token>, p: nat, k: nat, inner: seq<Token>, t: Token)
    ensures Adopt(Opened(base, Kind.Object, p, k, inner + [t]), |base| + 1 + |inner|)
         == Opened(base, Kind.Object, p, k, inner + [t.(size := t.size + 1)])
  {
    AdoptLast(Opened(base, Kind.Object, p, k, inner), t);
    OpenedMore(base, Kind.Object, p, k, inner, [t]);
    OpenedMore(base, Kind.Object, p, k, inner, [t.(size := t.size + 1)]);
    hide Opened, Adopt;
  }

  lemma OneClosed(t: Token)
    requires t.start >= 0 && !t.Open()
    ensures AllClosed([t])
  {
  }

  lemma {:induction false} ParseField(js: string, pos: nat, base: seq<Token>, p: nat, k: nat, inner: seq<Token>, f: Field, n: nat)
    returns (super: int)
    requires State(pos, Opened(base, Kind.Object, p, k, inner), |base|).Valid(js) && AllClosed(inner)
    requires At(js, pos, PrintField(f)) && EndsAt(js, pos + |PrintField(f)|)
    requires CString(f.name) && PlainName(f.name) && Proper(f.value) && PlainNames(f.value)
    requires |base| + 1 + |inner| + |OneField(f, pos)| <= n
    ensures AllClosed(inner + OneField(f, pos))
    ensures super == |base| || super == |base| + 1 + |inner|
    ensures var end := State(pos + |PrintField(f)|, Opened(base, Kind.Object, p, k + 1, inner + OneField(f, pos)), super);
      end.Valid(js) && Run(js, State(pos, Opened(base, Kind.Object, p, k, inner), |base|), n) == Run(js, end, n)
    decreases f, 3, 0
  {
    hide Run, Advance, Enclosing, Adopt, Opened, Sealed, Print, Tokens, Proper, PlainNames, PlainName, CString, WellFormed, AllClosed, Ended;
    var t := Token(String, pos + 1, pos + 1 + |f.name|, 0);
    var q := pos + |Key(f.name)|;
    var named := State(q, Opened(base, Kind.Object, p, k + 1, inner + [t]), |base| + 1 + |inner|);
    AtParts(js, pos, Key(f.name), Print(f.value));
    ParseName(js, pos, base, p, k, inner, f.name, n);
    ParseDoc(js, named, f.value, n);
    super := After(named, f.value).super;
    OneClosed(t);
    OneClosed(t.(size := 1));
    AllClosedBoth(inner, [t]);
    EnclosingOpened(base, Kind.Object, p, k + 1, inner + [t]);
    AdoptName(base, p, k + 1, inner, t);
    OpenedMore(base, Kind.Object, p, k + 1, inner + [t.(size := 1)], Tokens(f.value, q));
    Associative(inner, [t.(size := 1)], Tokens(f.value, q));
    TokensClosed(f.value, q);
    AllClosedBoth(inner, [t.(size := 1)]);
    AllClosedBoth(inner + [t.(size := 1)], Tokens(f.value, q));
  }

  /** The rest of an object: its fields, and the closing bracket. */
  lemma {:induction false} ParseFields(js: string, pos: nat, super: int, base: seq<Token>, p: nat, k: nat, inner: seq<Token>,
                                       fields: seq<Field>, n: nat)
    requires State(pos, Opened(base, Kind.Object, p, k, inner), super).Valid(js) && WellFormed(base) && AllClosed(inner)
    requires At(js, pos, PrintFields(fields) + "}") && (fields != [] ==> super == |base|)
    requires forall i :: 0 <= i < |fields| ==>
      CString(fields[i].name) && PlainName(fields[i].name) && Proper(fields[i].value) && PlainNames(fields[i].value)
    requires |base| + 1 + |inner| + |FieldTokens(fields, pos)| <= n
    ensures var e := pos + |PrintFields(fields)| + 1;
      var end := State(e, Sealed(base, Token(Kind.Object, p, e, k + |fields|), inner + FieldTokens(fields, pos)), Enclosing(base, |base|));
      end.Valid(js) && Run(js, State(pos, Opened(base, Kind.Object, p, k, inner), super), n) == Run(js, end, n)
    decreases fields, 0, 0
  {
    hide Run, Advance, Enclosing, Adopt, Opened, Sealed, PrintField, OneField, Proper, PlainNames, PlainName, CString;
    hide WellFormed, AllClosed, Ended, State.Valid, FieldTokens, Token.Container, At, EndsAt;
    if fields == [] {
      FieldTokensNone(pos);
      AtChar(js, pos, PrintFields(fields) + "}");
      PassClose(js, pos, super, base, Kind.Object, p, k, inner, n);
      assert inner + [] == inner;
    } else {
      var f := fields[0];
      var q := pos + |PrintField(f)|;
      FieldsText(js, pos, fields);
      FieldTokensRoom(fields, pos);
      var more := inner + OneField(f, pos);
      assert more[|inner|] == OneField(f, pos)[0];
      var after := ParseField(js, pos, base, p, k, inner, f, n);
      if |fields| > 1 {
        PassComma(js, q, after, base, Kind.Object, p, k + 1, more, n);
        ParseFields(js, q + 1, |base|, base, p, k + 1, more, fields[1..], n);
      } else {
        ParseFields(js, q, after, base, p, k + 1, more, fields[1..], n);
      }
      Associative(inner, OneField(f, pos), FieldTokens(fields[1..], q + 1));
    }
  }

  /** Where the parts of a list of fields stand. */
  lemma FieldsText(js: string, pos: nat, fields: seq<Field>)
    requires fields != [] && At(js, pos, PrintFields(fields) + "}")
    ensures var q := pos + |PrintField(fields[0])|;
      At(js, pos, PrintField(fields[0])) && EndsAt(js, q) && q < |js| &&
      (|fields| > 1 ==> (js[q] == ',' && At(js, q + 1, PrintFields(fields[1..]) + "}")
        && |PrintFields(fields)| == |PrintField(fields[0])| + 1 + |PrintFields(fields[1..])|)) &&
      (|fields| == 1 ==> (At(js, q, PrintFields(fields[1..]) + "}") && |PrintFields(fields)| == |PrintField(fields[0])|
        && PrintFields(fields[1..]) == ""))
  {
    hide PrintField;
    var f := fields[0];
    var rest := if |fields| > 1 then "," + (PrintFields(fields[1..]) + "}") else "}";
    var q := pos + |PrintField(f)|;
    assert PrintFields(fields) + "}" == PrintField(f) + rest;
    AtParts(js, pos, PrintField(f), rest);
    AtChar(js, q, rest);
    if |fields| > 1 {
      AtParts(js, q, ",", PrintFields(fields[1..]) + "}");
    }
  }

  lemma FieldTokensNone(p: nat)
    ensures FieldTokens([], p) == []
  {
  }

  lemma FieldTokensRoom(fields: seq<Field>, p: nat)
    requires fields != []
    ensures FieldTokens(fields, p) == OneField(fields[0], p) + FieldTokens(fields[1..], p + |PrintField(fields[0])| + 1)
    ensures |fields| == 1 ==> forall q: nat :: FieldTokens(fields[1..], q) == []
  {
    hide OneField, PrintField;
  }
}

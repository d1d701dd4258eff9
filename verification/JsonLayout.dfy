/** How a JSON text is laid out and spelled makes no difference to its tokens. */
module JsonLayout {
  import opened Jsmn
  import opened JsmnProperties
  import opened JsonDoc
  import opened JsonReader
  import opened JsonRoundTrip
  import opened MtoJson
  import opened Options
  import opened Rfc8259

  // ------------------------------------------- what the tokenizer accepts

  /** Strings: exactly the lax bodies up to the first quote that is not escaped. */
  lemma {:induction false} ScanBody(js: string, p: nat, s: string)
    requires LaxBody(s) && At(js, p, s + "\"")
    ensures StringEnd(js, p) == Stop(p + |s|)
    decreases |s|
  {
    AtChar(js, p, s + "\"");
    if s != [] {
      var n := if s[0] == '\\' then EscapeLength(s) else 1;
      assert s + "\"" == s[..n] + (s[n..] + "\"");
      AtParts(js, p, s[..n], s[n..] + "\"");
      ScanBody(js, p + n, s[n..]);
      if s[0] == '\\' {
        ScanEscape(js, p, s[..n], s);
      }
    }
  }

  lemma ScanEscape(js: string, p: nat, e: string, s: string)
    requires EscapeLength(s) > 0 && e == s[..EscapeLength(s)] && At(js, p, e)
    ensures StringEnd(js, p) == StringEnd(js, p + |e|)
  {
    assert forall i :: 0 <= i < |e| ==> js[p + i] == js[p..p + |e|][i] == s[i];
    if |e| == 6 {
      HexFour(js, p + 2);
    }
  }

  lemma HexFour(js: string, p: nat)
    requires p + 4 <= |js| && HexChar(js[p]) && HexChar(js[p + 1]) && HexChar(js[p + 2]) && HexChar(js[p + 3])
    ensures HexEnd(js, p, 4) == Stop(p + 4)
  {
    assert HexEnd(js, p + 4, 0) == Stop(p + 4);
    assert HexEnd(js, p + 3, 1) == Stop(p + 4);
    assert HexEnd(js, p + 2, 2) == Stop(p + 4);
    assert HexEnd(js, p + 1, 3) == Stop(p + 4);
  }

  /** And conversely: what a successful scan has passed is such a body. */
  lemma {:induction false} ScannedBody(js: string, p: nat)
    requires p <= |js| && StringEnd(js, p).Stop?
    ensures var q := StringEnd(js, p).at; LaxBody(js[p..q]) && js[q] == '"'
    decreases |js| - p
  {
    var q := StringEnd(js, p).at;
    if p < q {
      var s := js[p..q];
      var n := if js[p] != '\\' then 1 else if Escapable(js[p + 1]) then 2 else 6;
      if n == 6 {
        HexScanned(js, p + 2, 4, p);
      }
      ScannedBody(js, p + n);
      assert s[n..] == js[p + n..q];
      assert forall i :: 0 <= i < |s| ==> s[i] == js[p + i];
    } else {
      assert js[p..q] == [];
    }
  }

  /** Four hexadecimal digits, unless the text ends among them, where no string can end. */
  lemma {:induction false} HexScanned(js: string, p: nat, n: nat, from: nat)
    requires p <= |js| && HexEnd(js, p, n).Stop? && StringEnd(js, HexEnd(js, p, n).at).Stop?
    ensures HexEnd(js, p, n).at == p + n && forall i :: p <= i < p + n ==> i < |js| && HexChar(js[i])
    decreases n
  {
    if n > 0 {
      assert !Ended(js, p);
      HexScanned(js, p + 1, n - 1, from);
    }
  }

  /** Unquoted values: exactly the printable characters up to whitespace, one of : , ] } or the end. */
  lemma {:induction false} WordExact(js: string, p: nat, q: nat)
    requires p <= |js|
    ensures PrimitiveEnd(js, p) == Stop(q) <==>
      (p <= q <= |js| && (q == |js| || js[q] == '\0' || Space(js[q]) || Follower(js[q]))
      && forall i :: p <= i < q ==> '!' <= js[i] <= '~' && !Follower(js[i]))
    decreases |js| - p
  {
    if p < |js| {
      WordExact(js, p + 1, q);
    }
  }

  // ------------------------------------------------------ one lexeme

  /** What may come after a lexeme. */
  predicate EndsLexeme(js: string, q: nat, l: Lexeme)
  {
    l.Word? ==> q >= |js| || Space(js[q]) || Follower(js[q])
  }

  predicate Stands(js: string, p: nat, l: Lexeme)
  {
    l.Valid() && At(js, p, l.Spelling()) && EndsLexeme(js, p + |l.Spelling()|, l)
  }

  lemma MarkRead(js: string, p: nat, l: Lexeme)
    requires Stands(js, p, l) && l.Mark?
    ensures p < |js| && js[p] == l.c && Structural(l.c) && !Ended(js, p) && LexemeEnd(js, p) == Stop(p + 1)
  {
    hide StringEnd, PrimitiveEnd;
    AtChar(js, p, [l.c]);
  }

  lemma QuotedRead(js: string, p: nat, l: Lexeme)
    requires Stands(js, p, l) && l.Quoted?
    ensures p < |js| && js[p] == '"' && !Ended(js, p)
    ensures StringEnd(js, p + 1) == Stop(p + 1 + |l.body|) && LexemeEnd(js, p) == Stop(p + 2 + |l.body|)
    ensures At(js, p + 1, l.body)
  {
    hide StringEnd, PrimitiveEnd, LaxBody, At;
    QuotedParts(js, p, l.body);
    ScanBody(js, p + 1, l.body);
  }

  lemma QuotedParts(js: string, p: nat, body: string)
    requires At(js, p, "\"" + body + "\"")
    ensures p < |js| && js[p] == '"' && At(js, p + 1, body + "\"") && At(js, p + 1, body)
  {
    hide At;
    Regrouped("\"", body, "\"");
    AtParts(js, p, "\"", body + "\"");
    AtChar(js, p, "\"");
    AtParts(js, p + 1, body, "\"");
  }

  lemma Regrouped(a: string, b: string, c: string)
    ensures a + b + c == a + (b + c)
  {
  }

  lemma WordRead(js: string, p: nat, l: Lexeme)
    requires Stands(js, p, l) && l.Word?
    ensures p < |js| && WordChar(js[p]) && !Ended(js, p)
    ensures PrimitiveEnd(js, p) == Stop(p + |l.text|) && LexemeEnd(js, p) == Stop(p + |l.text|)
  {
    hide StringEnd, PrimitiveEnd, At;
    WordChars(js, p, l.text);
    WordExact(js, p, p + |l.text|);
  }

  lemma WordChars(js: string, p: nat, text: string)
    requires At(js, p, text) && WordText(text)
    ensures p + |text| <= |js| && forall i :: p <= i < p + |text| ==> WordChar(js[i])
  {
    forall i | p <= i < p + |text| ensures WordChar(js[i]) {
      assert js[i] == js[p..p + |text|][i - p] == text[i - p];
    }
  }

  /** A lexeme is read as a whole. */
  lemma LexemeRead(js: string, p: nat, l: Lexeme)
    requires Stands(js, p, l)
    ensures p < |js| && !Ended(js, p) && LexemeEnd(js, p) == Stop(p + |l.Spelling()|)
    ensures match l
      case Mark(c) => js[p] == c && Structural(c)
      case Quoted(body) => js[p] == '"' && StringEnd(js, p + 1) == Stop(p + 1 + |body|)
      case Word(text) => WordChar(js[p]) && PrimitiveEnd(js, p) == Stop(p + |text|)
  {
    hide Stands, StringEnd, PrimitiveEnd, LexemeEnd, LaxBody, At, Ended;
    match l
    case Mark(_) => MarkRead(js, p, l);
    case Quoted(_) => QuotedRead(js, p, l);
    case Word(_) => WordRead(js, p, l);
  }

  predicate SameShape(a: Lexeme, b: Lexeme)
  {
    match a
    case Mark(c) => b == a
    case Quoted(_) => b.Quoted?
    case Word(_) => b.Word?
  }

  /** Tokens that differ in their spans only. */
  predicate Alike(a: seq<Token>, b: seq<Token>)
  {
    |a| == |b| && forall i :: 0 <= i < |a| ==> SameToken(a[i], b[i])
  }

  predicate SameToken(a: Token, b: Token)
  {
    a.kind == b.kind && a.size == b.size && a.Open() == b.Open()
  }

  lemma {:induction false} AlikeEnclosing(a: seq<Token>, b: seq<Token>, i: nat)
    requires Alike(a, b) && i <= |a|
    ensures Enclosing(a, i) == Enclosing(b, i)
  {
    if i > 0 {
      assert SameToken(a[i - 1], b[i - 1]);
      AlikeEnclosing(a, b, i - 1);
    }
  }

  lemma AlikeMore(a: seq<Token>, b: seq<Token>, super: int, s: Token, t: Token)
    requires Alike(a, b) && -1 <= super < |a| && SameToken(s, t)
    ensures Alike(Adopt(a, super) + [s], Adopt(b, super) + [t])
  {
  }

  lemma AlikeComma(a: seq<Token>, b: seq<Token>, super: int)
    requires Alike(a, b) && -1 <= super < |a|
    ensures AfterComma(a, super) == AfterComma(b, super)
  {
    AlikeEnclosing(a, b, |a|);
    assert super >= 0 ==> SameToken(a[super], b[super]);
  }

  lemma AlikeClose(a: seq<Token>, b: seq<Token>, i: nat, p: int, q: int)
    requires Alike(a, b) && i < |a| && p >= 0 && q >= 0
    ensures Alike(a[i := a[i].(end := p)], b[i := b[i].(end := q)])
  {
    assert SameToken(a[i], b[i]);
  }

  /** Where a lexeme leaves the parser, spans aside. */
  ghost predicate SameStep(r: Step, p: nat, s: Step, q: nat)
  {
    if r.Stuck? then s == r
    else s.Next? && r.state.pos == p && s.state.pos == q && Alike(r.state.toks, s.state.toks) && r.state.super == s.state.super
  }

  lemma MarkAlike(js: string, st: State, l: Lexeme, js': string, st': State, l': Lexeme, n: nat)
    requires st.Valid(js) && st'.Valid(js') && Alike(st.toks, st'.toks) && st.super == st'.super
    requires Stands(js, st.pos, l) && Stands(js', st'.pos, l') && SameShape(l, l') && l.Mark?
    ensures !Ended(js, st.pos) && !Ended(js', st'.pos)
    ensures SameStep(Advance(js, st, n), st.pos + |l.Spelling()|, Advance(js', st', n), st'.pos + |l'.Spelling()|)
  {
    hide Stands, Enclosing, StringEnd, PrimitiveEnd, AfterComma, LexemeEnd, WellFormed, Alike, Adopt, At;
    LexemeRead(js, st.pos, l);
    LexemeRead(js', st'.pos, l');
    AlikeCount(st.toks, st'.toks);
    var c := l.c;
    if c == '{' || c == '[' {
      AlikeMore(st.toks, st'.toks, st.super, Token(Opens(c), st.pos, -1, 0), Token(Opens(c), st'.pos, -1, 0));
    } else if c == '}' || c == ']' {
      CloseAlike(js, st, js', st', n);
    } else if c == ',' {
      AlikeComma(st.toks, st'.toks, st.super);
    }
  }

  lemma QuotedAlike(js: string, st: State, l: Lexeme, js': string, st': State, l': Lexeme, n: nat)
    requires st.Valid(js) && st'.Valid(js') && Alike(st.toks, st'.toks) && st.super == st'.super
    requires Stands(js, st.pos, l) && Stands(js', st'.pos, l') && SameShape(l, l') && l.Quoted?
    ensures !Ended(js, st.pos) && !Ended(js', st'.pos)
    ensures SameStep(Advance(js, st, n), st.pos + |l.Spelling()|, Advance(js', st', n), st'.pos + |l'.Spelling()|)
  {
    hide Stands, Enclosing, StringEnd, PrimitiveEnd, AfterComma, LexemeEnd, WellFormed, Alike, Adopt, At;
    LexemeRead(js, st.pos, l);
    LexemeRead(js', st'.pos, l');
    AlikeCount(st.toks, st'.toks);
    AlikeMore(st.toks, st'.toks, st.super, Token(String, st.pos + 1, st.pos + 1 + |l.body|, 0),
      Token(String, st'.pos + 1, st'.pos + 1 + |l'.body|, 0));
  }

  lemma WordAlike(js: string, st: State, l: Lexeme, js': string, st': State, l': Lexeme, n: nat)
    requires st.Valid(js) && st'.Valid(js') && Alike(st.toks, st'.toks) && st.super == st'.super
    requires Stands(js, st.pos, l) && Stands(js', st'.pos, l') && SameShape(l, l') && l.Word?
    ensures !Ended(js, st.pos) && !Ended(js', st'.pos)
    ensures SameStep(Advance(js, st, n), st.pos + |l.Spelling()|, Advance(js', st', n), st'.pos + |l'.Spelling()|)
  {
    hide Stands, Enclosing, StringEnd, PrimitiveEnd, AfterComma, LexemeEnd, WellFormed, Alike, Adopt, At;
    LexemeRead(js, st.pos, l);
    LexemeRead(js', st'.pos, l');
    AlikeCount(st.toks, st'.toks);
    AlikeMore(st.toks, st'.toks, st.super, Token(Kind.Primitive, st.pos, st.pos + |l.text|, 0),
      Token(Kind.Primitive, st'.pos, st'.pos + |l'.text|, 0));
  }

  /** The same lexeme, however spelled and wherever it stands, does the same. */
  lemma StepAlike(js: string, st: State, l: Lexeme, js': string, st': State, l': Lexeme, n: nat)
    requires st.Valid(js) && st'.Valid(js') && Alike(st.toks, st'.toks) && st.super == st'.super
    requires Stands(js, st.pos, l) && Stands(js', st'.pos, l') && SameShape(l, l')
    ensures !Ended(js, st.pos) && !Ended(js', st'.pos)
    ensures SameStep(Advance(js, st, n), st.pos + |l.Spelling()|, Advance(js', st', n), st'.pos + |l'.Spelling()|)
  {
    hide *;
    match l
    case Mark(_) => MarkAlike(js, st, l, js', st', l', n);
    case Quoted(_) => QuotedAlike(js, st, l, js', st', l', n);
    case Word(_) => WordAlike(js, st, l, js', st', l', n);
  }

  lemma AlikeCount(a: seq<Token>, b: seq<Token>)
    requires Alike(a, b)
    ensures |a| == |b|
  {
  }

  lemma CloseAlike(js: string, st: State, js': string, st': State, n: nat)
    requires st.Valid(js) && st'.Valid(js') && Alike(st.toks, st'.toks) && st.super == st'.super
    requires st.pos < |js| && st'.pos < |js'| && js[st.pos] == js'[st'.pos] && (js[st.pos] == '}' || js[st.pos] == ']')
    ensures !Ended(js, st.pos) && !Ended(js', st'.pos)
    ensures SameStep(Advance(js, st, n), st.pos + 1, Advance(js', st', n), st'.pos + 1)
  {
    hide Enclosing, StringEnd, PrimitiveEnd, AfterComma, LexemeEnd, WellFormed, Alike;
    AlikeCount(st.toks, st'.toks);
    AlikeEnclosing(st.toks, st'.toks, |st.toks|);
    var i := Enclosing(st.toks, |st.toks|);
    if i != -1 {
      AlikeAt(st.toks, st'.toks, i);
      AlikeClose(st.toks, st'.toks, i, st.pos + 1, st'.pos + 1);
      AlikeEnclosing(st.toks, st'.toks, i);
    }
  }

  lemma AlikeAt(a: seq<Token>, b: seq<Token>, i: nat)
    requires Alike(a, b) && i < |a|
    ensures SameToken(a[i], b[i])
  {
  }

  // --------------------------------------------------------- whole texts

  /** Whitespace only moves the position. */
  lemma SkipSpace(js: string, st: State, c: char, n: nat)
    requires st.Valid(js) && st.pos < |js| && js[st.pos] == c && Space(c)
    ensures st.(pos := st.pos + 1).Valid(js) && Run(js, st, n) == Run(js, st.(pos := st.pos + 1), n)
  {
    hide LexemeEnd, StringEnd, PrimitiveEnd, Run, WellFormed;
    RunStep(js, st, n, st.(pos := st.pos + 1));
  }

  lemma {:induction false} SkipSpaces(js: string, st: State, w: string, n: nat)
    requires st.Valid(js) && At(js, st.pos, w) && Spaces(w)
    ensures st.(pos := st.pos + |w|).Valid(js) && Run(js, st, n) == Run(js, st.(pos := st.pos + |w|), n)
    decreases |w|
  {
    hide Run, State.Valid;
    if w != [] {
      AtChar(js, st.pos, w);
      assert w == [w[0]] + w[1..];
      AtParts(js, st.pos, [w[0]], w[1..]);
      SkipSpace(js, st, w[0], n);
      SkipSpaces(js, st.(pos := st.pos + 1), w[1..], n);
    }
  }

  /** The rest of the text from p on is laid out like this. */
  predicate Rest(js: string, p: nat, ws: seq<string>, ls: seq<Lexeme>)
    requires |ws| == |ls| + 1
  {
    Separated(ws, ls) && At(js, p, Layout(ws, ls)) && p + |Layout(ws, ls)| == |js|
  }

  lemma RestFirst(js: string, p: nat, ws: seq<string>, ls: seq<Lexeme>)
    requires |ws| == |ls| + 1 && Rest(js, p, ws, ls)
    ensures At(js, p, ws[0]) && Spaces(ws[0])
    ensures ls == [] ==> p + |ws[0]| == |js|
    ensures ls != [] ==> var q := p + |ws[0]|;
      Stands(js, q, ls[0]) && Rest(js, q + |ls[0].Spelling()|, ws[1..], ls[1..])
  {
    hide At, Spaces;
    if ls != [] {
      var q, rest := p + |ws[0]|, Layout(ws[1..], ls[1..]);
      AtParts(js, p, ws[0], ls[0].Spelling() + rest);
      AtParts(js, q, ls[0].Spelling(), rest);
      WordEnds(js, q + |ls[0].Spelling()|, ws, ls);
    }
  }

  lemma WordEnds(js: string, q: nat, ws: seq<string>, ls: seq<Lexeme>)
    requires |ws| == |ls| + 1 && Separated(ws, ls) && ls != []
    requires At(js, q, Layout(ws[1..], ls[1..])) && q + |Layout(ws[1..], ls[1..])| == |js|
    ensures EndsLexeme(js, q, ls[0])
  {
    hide At, Layout;
    var rest := Layout(ws[1..], ls[1..]);
    if ls[0].Word? && rest != [] {
      AtChar(js, q, rest);
      RestStarts(ws[1..], ls[1..]);
    }
  }

  /** The rest of a text starts with its whitespace, or its first lexeme. */
  lemma RestStarts(ws: seq<string>, ls: seq<Lexeme>)
    requires |ws| == |ls| + 1 && Separated(ws, ls) && Layout(ws, ls) != []
    ensures if ws[0] != [] then Layout(ws, ls)[0] == ws[0][0] && Space(ws[0][0])
            else ls != [] && (ls[0].Mark? ==> Layout(ws, ls)[0] == ls[0].c)
  {
  }

  predicate SameShapes(a: seq<Lexeme>, b: seq<Lexeme>)
  {
    |a| == |b| && forall i :: 0 <= i < |a| ==> SameShape(a[i], b[i])
  }

  /** Two texts of lexemes of the same shapes, whatever their whitespace and the spelling of strings and words,
      have the same outcome, and tokens that differ in their spans only. */
  lemma {:induction false} LayoutsAgree(js: string, st: State, ws: seq<string>, ls: seq<Lexeme>,
                                        js': string, st': State, ws': seq<string>, ls': seq<Lexeme>, n: nat)
    requires |ws| == |ls| + 1 && |ws'| == |ls'| + 1 && SameShapes(ls, ls')
    requires st.Valid(js) && Rest(js, st.pos, ws, ls) && st'.Valid(js') && Rest(js', st'.pos, ws', ls')
    requires Alike(st.toks, st'.toks) && st.super == st'.super
    ensures Run(js, st, n).result == Run(js', st', n).result
    ensures Alike(Run(js, st, n).state.toks, Run(js', st', n).state.toks)
    decreases |ls|
  {
    hide Advance, Run, Rest, Stands, SameShape, Alike, At;
    RestFirst(js, st.pos, ws, ls);
    RestFirst(js', st'.pos, ws', ls');
    SkipSpaces(js, st, ws[0], n);
    SkipSpaces(js', st', ws'[0], n);
    var at, at' := st.(pos := st.pos + |ws[0]|), st'.(pos := st'.pos + |ws'[0]|);
    if ls == [] {
      EndsAlike(js, at, js', at', n);
    } else {
      StepAlike(js, at, ls[0], js', at', ls'[0], n);
      var r, r' := Advance(js, at, n), Advance(js', at', n);
      if r.Stuck? {
        StuckRun(js, at, n);
        StuckRun(js', at', n);
      } else {
        RunStep(js, at, n, r.state);
        RunStep(js', at', n, r'.state);
        LayoutsAgree(js, r.state, ws[1..], ls[1..], js', r'.state, ws'[1..], ls'[1..], n);
      }
    }
  }

  lemma StuckRun(js: string, st: State, n: nat)
    requires st.Valid(js) && !Ended(js, st.pos) && Advance(js, st, n).Stuck?
    ensures Run(js, st, n) == Outcome(st, Fail(Advance(js, st, n).error))
  {
    hide Advance;
  }

  lemma EndsAlike(js: string, st: State, js': string, st': State, n: nat)
    requires st.Valid(js) && st'.Valid(js') && Alike(st.toks, st'.toks) && st.pos == |js| && st'.pos == |js'|
    ensures Run(js, st, n).result == Run(js', st', n).result
    ensures Run(js, st, n).state == st && Run(js', st', n).state == st'
  {
    hide Advance;
    AlikeEnclosing(st.toks, st'.toks, |st.toks|);
  }

  // ------------------------------------------------------ texts of tokens

  /** The texts of the tokens that the lexemes start; brackets have none of their own. */
  function Contents(ls: seq<Lexeme>): seq<string>
  {
    if ls == [] then [] else ContentOf(ls[0]) + Contents(ls[1..])
  }

  function ContentOf(l: Lexeme): seq<string>
  {
    match l
    case Mark(c) => if c == '{' || c == '[' then [""] else []
    case Quoted(body) => [body]
    case Word(text) => [text]
  }

  predicate Shows(js: string, t: Token, text: string)
  {
    t.Container() || Span(js, t) == Some(text)
  }

  ghost predicate Showing(js: string, toks: seq<Token>, texts: seq<string>)
  {
    |toks| == |texts| && forall i :: 0 <= i < |toks| ==> Shows(js, toks[i], texts[i])
  }

  lemma ShowingMore(js: string, toks: seq<Token>, super: int, t: Token, texts: seq<string>, text: string)
    requires Showing(js, toks, texts) && -1 <= super < |toks| && Shows(js, t, text)
    ensures Showing(js, Adopt(toks, super) + [t], texts + [text])
  {
    var more := Adopt(toks, super);
    forall i | 0 <= i < |toks| ensures Shows(js, more[i], texts[i]) {
      assert Shows(js, toks[i], texts[i]);
    }
  }

  lemma ShowingClosed(js: string, toks: seq<Token>, i: nat, end: int, texts: seq<string>)
    requires Showing(js, toks, texts) && i < |toks| && toks[i].Container()
    ensures Showing(js, toks[i := toks[i].(end := end)], texts)
  {
    forall k | 0 <= k < |toks| ensures Shows(js, toks[i := toks[i].(end := end)][k], texts[k]) {
      assert Shows(js, toks[k], texts[k]);
    }
  }

  lemma MarkShows(js: string, st: State, l: Lexeme, n: nat, texts: seq<string>)
    requires st.Valid(js) && Stands(js, st.pos, l) && Showing(js, st.toks, texts) && l.Mark?
    ensures !Ended(js, st.pos)
    ensures var r := Advance(js, st, n);
      r.Next? ==> r.state.pos == st.pos + |l.Spelling()| && Showing(js, r.state.toks, texts + ContentOf(l))
  {
    hide StringEnd, PrimitiveEnd, LexemeEnd, Enclosing, AfterComma, Showing, LaxBody, Adopt, WellFormed, Stands, Span;
    LexemeRead(js, st.pos, l);
    assert texts + [] == texts;
    if l.c == '{' || l.c == '[' {
      ShowingMore(js, st.toks, st.super, Token(Opens(l.c), st.pos, -1, 0), texts, "");
    } else if l.c == '}' || l.c == ']' {
      var i := Enclosing(st.toks, |st.toks|);
      if i != -1 && st.toks[i].Container() {
        ShowingClosed(js, st.toks, i, st.pos + 1, texts);
      }
    }
  }

  lemma QuotedShows(js: string, st: State, l: Lexeme, n: nat, texts: seq<string>)
    requires st.Valid(js) && Stands(js, st.pos, l) && Showing(js, st.toks, texts) && l.Quoted?
    ensures !Ended(js, st.pos)
    ensures var r := Advance(js, st, n);
      r.Next? ==> r.state.pos == st.pos + |l.Spelling()| && Showing(js, r.state.toks, texts + ContentOf(l))
  {
    hide StringEnd, PrimitiveEnd, LexemeEnd, Enclosing, AfterComma, Showing, LaxBody, Adopt, WellFormed, Stands, Span;
    LexemeRead(js, st.pos, l);
    BodySpan(js, st.pos, l);
    ShowingMore(js, st.toks, st.super, Token(String, st.pos + 1, st.pos + 1 + |l.body|, 0), texts, l.body);
  }

  lemma BodySpan(js: string, p: nat, l: Lexeme)
    requires Stands(js, p, l) && l.Quoted?
    ensures Span(js, Token(String, p + 1, p + 1 + |l.body|, 0)) == Some(l.body)
  {
    hide LaxBody;
    QuotedParts(js, p, l.body);
  }

  lemma WordShows(js: string, st: State, l: Lexeme, n: nat, texts: seq<string>)
    requires st.Valid(js) && Stands(js, st.pos, l) && Showing(js, st.toks, texts) && l.Word?
    ensures !Ended(js, st.pos)
    ensures var r := Advance(js, st, n);
      r.Next? ==> r.state.pos == st.pos + |l.Spelling()| && Showing(js, r.state.toks, texts + ContentOf(l))
  {
    hide StringEnd, PrimitiveEnd, LexemeEnd, Enclosing, AfterComma, Showing, LaxBody, Adopt, WellFormed, Stands, Span;
    LexemeRead(js, st.pos, l);
    WordSpan(js, st.pos, l);
    ShowingMore(js, st.toks, st.super, Token(Kind.Primitive, st.pos, st.pos + |l.text|, 0), texts, l.text);
  }

  lemma WordSpan(js: string, p: nat, l: Lexeme)
    requires Stands(js, p, l) && l.Word?
    ensures Span(js, Token(Kind.Primitive, p, p + |l.text|, 0)) == Some(l.text)
  {
  }

  /** A lexeme adds its own text. */
  lemma StepShows(js: string, st: State, l: Lexeme, n: nat, texts: seq<string>)
    requires st.Valid(js) && Stands(js, st.pos, l) && Showing(js, st.toks, texts)
    ensures !Ended(js, st.pos)
    ensures var r := Advance(js, st, n);
      r.Next? ==> r.state.pos == st.pos + |l.Spelling()| && Showing(js, r.state.toks, texts + ContentOf(l))
  {
    hide *;
    match l
    case Mark(_) => MarkShows(js, st, l, n, texts);
    case Quoted(_) => QuotedShows(js, st, l, n, texts);
    case Word(_) => WordShows(js, st, l, n, texts);
  }

  /** After success every scalar token shows the text of its lexeme. */
  lemma {:induction false} TextsShown(js: string, st: State, ws: seq<string>, ls: seq<Lexeme>, n: nat, texts: seq<string>)
    requires |ws| == |ls| + 1 && st.Valid(js) && Rest(js, st.pos, ws, ls) && Showing(js, st.toks, texts)
    ensures Run(js, st, n).result.Ok? ==> Showing(js, Run(js, st, n).state.toks, texts + Contents(ls))
    decreases |ls|
  {
    hide Advance, Run, Rest, Stands, Showing, At;
    RestFirst(js, st.pos, ws, ls);
    SkipSpaces(js, st, ws[0], n);
    var at := st.(pos := st.pos + |ws[0]|);
    if ls == [] {
      EndsAlike(js, at, js, at, n);
      assert texts + [] == texts;
    } else {
      StepShows(js, at, ls[0], n, texts);
      var r := Advance(js, at, n);
      if r.Stuck? {
        StuckRun(js, at, n);
      } else {
        RunStep(js, at, n, r.state);
        TextsShown(js, r.state, ws[1..], ls[1..], n, texts + ContentOf(ls[0]));
        assert texts + ContentOf(ls[0]) + Contents(ls[1..]) == texts + (ContentOf(ls[0]) + Contents(ls[1..]));
      }
    }
  }
}

/** What the tokens of a parse say about the text, and how calls relate to one another. */
module JsmnProperties {
  import opened Jsmn
  import opened Options

  // --------------------------------------------------- counting and room

  /** A lexeme adds one token exactly when it starts with a token character. */
  lemma AdvanceCounts(js: string, st: State, n: nat)
    requires st.Valid(js) && !Ended(js, st.pos)
    ensures var s := Advance(js, st, n);
      s.Next? ==> |s.state.toks| == |st.toks| + if Starts(js[st.pos]) then 1 else 0
    ensures Starts(js[st.pos]) && Advance(js, st, n).Next? ==> |st.toks| < n
    ensures Advance(js, st, n) == Stuck(NoMem) ==> |st.toks| >= n && Starts(js[st.pos]) && LexemeEnd(js, st.pos).Stop?
  {
    hide StringEnd, PrimitiveEnd, Enclosing;
  }

  /** A counting call returns the number of tokens that any successful call with an array adds. */
  lemma {:induction false} CountingAgrees(js: string, st: State, n: nat)
    requires st.Valid(js)
    ensures var o := Run(js, st, n);
      o.result.Ok? ==> Count(js, st.pos) == Ok(|o.state.toks| - |st.toks|)
    decreases |js| - st.pos
  {
    hide LexemeEnd, Advance, Starts;
    if !Ended(js, st.pos) {
      AdvanceCounts(js, st, n);
      var s := Advance(js, st, n);
      if s.Next? {
        CountingAgrees(js, s.state, n);
      }
    }
  }

  /** An array with room for the counted tokens is never too small, and a smaller one never suffices. */
  lemma {:induction false} RoomIsExact(js: string, st: State, n: nat)
    requires st.Valid(js) && Count(js, st.pos).Ok? && |st.toks| <= n
    ensures |st.toks| + Count(js, st.pos).count <= n ==> Run(js, st, n).result != Fail(NoMem)
    ensures |st.toks| + Count(js, st.pos).count > n ==> !Run(js, st, n).result.Ok?
    decreases |js| - st.pos
  {
    hide LexemeEnd, Advance, Starts;
    if !Ended(js, st.pos) {
      AdvanceCounts(js, st, n);
      var s := Advance(js, st, n);
      if s.Next? {
        RoomIsExact(js, s.state, n);
      }
    }
  }

  /** More room changes a lexeme only when there was none. */
  lemma AdvanceMonotone(js: string, st: State, n: nat, m: nat)
    requires st.Valid(js) && !Ended(js, st.pos) && n <= m
    ensures Advance(js, st, n) == Stuck(NoMem) || Advance(js, st, n) == Advance(js, st, m)
  {
    hide StringEnd, PrimitiveEnd, Enclosing;
  }

  /** Resuming after NOMEM with a larger array ends as one call with the larger array would have. */
  lemma {:induction false} Resume(js: string, st: State, n: nat, m: nat)
    requires st.Valid(js) && n <= m
    ensures var o := Run(js, st, n);
      (o.result == Fail(NoMem) ==> Run(js, o.state, m) == Run(js, st, m)) &&
      (o.result != Fail(NoMem) ==> o == Run(js, st, m))
    decreases |js| - st.pos
  {
    hide Advance;
    if !Ended(js, st.pos) {
      AdvanceMonotone(js, st, n, m);
      var s := Advance(js, st, n);
      if s.Next? {
        Resume(js, s.state, n, m);
      }
    }
  }

  // ------------------------------------------- brackets, with a real stack

  datatype Bracket = Bracket(kind: Kind, start: int, end: int)
  datatype Pending = Pending(kind: Kind, start: int)

  /** The matched bracket pairs of a text by the textbook stack algorithm, reading
      brackets outside strings and unquoted values; None when they do not match up
      or some lexeme is malformed. */
  function Match(js: string, p: nat, stack: seq<Pending>): Option<set<Bracket>>
    requires p <= |js|
    decreases |js| - p
  {
    if Ended(js, p) then (if stack == [] then Some({}) else None)
    else
      var q := LexemeEnd(js, p);
      var c := js[p];
      if q.Bad? then None
      else if c == '{' || c == '[' then Match(js, q.at, stack + [Pending(Opens(c), p)])
      else if c == '}' || c == ']' then
        if stack == [] || stack[|stack| - 1].kind != Closes(c) then None
        else
          var rest := Match(js, q.at, stack[..|stack| - 1]);
          if rest.None? then None else Some(rest.value + {Bracket(Closes(c), stack[|stack| - 1].start, q.at)})
      else Match(js, q.at, stack)
  }

  /** The open containers among the first i tokens, outermost first: the stack the token array hides. */
  ghost function Pendings(toks: seq<Token>, i: nat): (s: seq<Pending>)
    requires i <= |toks|
  {
    if i == 0 then []
    else Pendings(toks, i - 1) + if toks[i - 1].Open() then [Pending(toks[i - 1].kind, toks[i - 1].start)] else []
  }

  /** The containers that are closed. */
  ghost function ClosedOf(toks: seq<Token>): set<Bracket>
  {
    set i | 0 <= i < |toks| && toks[i].Container() && !toks[i].Open() :: Bracket(toks[i].kind, toks[i].start, toks[i].end)
  }

  predicate SameSpan(a: Token, b: Token)
  {
    a.kind == b.kind && a.start == b.start && a.end == b.end
  }

  lemma {:induction false} PendingsSame(a: seq<Token>, b: seq<Token>, i: nat)
    requires i <= |a| && i <= |b| && forall j :: 0 <= j < i ==> SameSpan(a[j], b[j])
    ensures Pendings(a, i) == Pendings(b, i)
  {
    if i > 0 {
      PendingsSame(a, b, i - 1);
      assert SameSpan(a[i - 1], b[i - 1]);
    }
  }

  /** The innermost open container is the top of the stack. */
  lemma {:induction false} PendingsTop(toks: seq<Token>, i: nat)
    requires i <= |toks|
    ensures var k := Enclosing(toks, i);
      Pendings(toks, i) == if k == -1 then [] else Pendings(toks, k) + [Pending(toks[k].kind, toks[k].start)]
  {
    if i > 0 && !toks[i - 1].Open() {
      PendingsTop(toks, i - 1);
    }
  }

  /** Closing it pops the stack. */
  lemma PendingsPop(toks: seq<Token>, end: int)
    requires Enclosing(toks, |toks|) != -1 && end != -1
    ensures var k := Enclosing(toks, |toks|); var s := Pendings(toks, |toks|);
      s != [] && s[|s| - 1] == Pending(toks[k].kind, toks[k].start) &&
      Pendings(toks[k := toks[k].(end := end)], |toks|) == s[..|s| - 1]
  {
    var k := Enclosing(toks, |toks|);
    var closed := toks[k := toks[k].(end := end)];
    PendingsTop(toks, |toks|);
    PendingsTop(closed, |closed|);
    EnclosingAbove(toks, closed, k, |toks|);
    if Enclosing(closed, k) != -1 {
      PendingsTop(closed, k);
    } else {
      PendingsTop(closed, k);
    }
    PendingsSame(toks, closed, k);
  }

  lemma {:induction false} EnclosingAbove(toks: seq<Token>, closed: seq<Token>, k: nat, i: nat)
    requires |closed| == |toks| && k < i <= |toks| && forall j :: k <= j < i ==> !closed[j].Open()
    ensures Enclosing(closed, i) == Enclosing(closed, k)
  {
    if i > k + 1 {
      EnclosingAbove(toks, closed, k, i - 1);
    }
  }

  /** Adding a token. */
  lemma MoreTokens(toks: seq<Token>, super: int, t: Token)
    requires -1 <= super < |toks|
    ensures var more := Adopt(toks, super) + [t];
      Pendings(more, |more|) == Pendings(toks, |toks|) + (if t.Open() then [Pending(t.kind, t.start)] else []) &&
      ClosedOf(more) == ClosedOf(toks) + if t.Container() && !t.Open() then {Bracket(t.kind, t.start, t.end)} else {}
  {
    var more := Adopt(toks, super) + [t];
    PendingsSame(toks, more, |toks|);
    forall b | b in ClosedOf(toks) ensures b in ClosedOf(more) {
      var i :| 0 <= i < |toks| && toks[i].Container() && !toks[i].Open() && b == Bracket(toks[i].kind, toks[i].start, toks[i].end);
      assert SameSpan(more[i], toks[i]);
    }
    forall i | 0 <= i < |toks| ensures SameSpan(more[i], toks[i]) {
    }
    assert more[|toks|] == t;
  }

  lemma ClosedMore(toks: seq<Token>, k: nat, end: int)
    requires k < |toks| && toks[k].Open() && toks[k].Container() && end != -1
    ensures ClosedOf(toks[k := toks[k].(end := end)]) == ClosedOf(toks) + {Bracket(toks[k].kind, toks[k].start, end)}
  {
    var closed := toks[k := toks[k].(end := end)];
    forall b | b in ClosedOf(toks) ensures b in ClosedOf(closed) {
      var i :| 0 <= i < |toks| && toks[i].Container() && !toks[i].Open() && b == Bracket(toks[i].kind, toks[i].start, toks[i].end);
      assert closed[i] == toks[i];
    }
    assert closed[k].Container() && !closed[k].Open();
  }

  /** One lexeme moves the stack and the closed containers as the stack algorithm does. */
  lemma AdvanceMatches(js: string, st: State, n: nat)
    requires st.Valid(js) && !Ended(js, st.pos)
    ensures var c := js[st.pos]; var s := Advance(js, st, n); var stack := Pendings(st.toks, |st.toks|);
      (s.Next? ==>
        Pendings(s.state.toks, |s.state.toks|) ==
          (if c == '{' || c == '[' then stack + [Pending(Opens(c), st.pos)]
           else if (c == '}' || c == ']') && stack != [] then stack[..|stack| - 1] else stack)
        && ClosedOf(s.state.toks) == ClosedOf(st.toks)
          + (if (c == '}' || c == ']') && stack != [] then {Bracket(Closes(c), stack[|stack| - 1].start, s.state.pos)} else {})) &&
      (s != Stuck(NoMem) ==>
        (s.Next? <==> (LexemeEnd(js, st.pos).Stop?
          && (c == '}' || c == ']' ==> stack != [] && stack[|stack| - 1].kind == Closes(c)))))
  {
    hide StringEnd, PrimitiveEnd, Pendings, ClosedOf;
    var c := js[st.pos];
    var s := Advance(js, st, n);
    PendingsTop(st.toks, |st.toks|);
    if c == '}' || c == ']' {
      var k := Enclosing(st.toks, |st.toks|);
      if k != -1 {
        PendingsPop(st.toks, st.pos + 1);
        ClosedMore(st.toks, k, st.pos + 1);
      }
    } else if s.Next? && Starts(c) {
      AdvanceCounts(js, st, n);
      var m := |s.state.toks| - 1;
      MoreTokens(st.toks, st.super, s.state.toks[m]);
      assert s.state.toks == Adopt(st.toks, st.super) + [s.state.toks[m]];
    }
  }

  /** With room enough, parsing succeeds exactly when all lexemes are well formed and the
      brackets outside strings and unquoted values match by kind; the container
      tokens then span exactly the matching pairs. */
  lemma {:induction false} BracketsMatched(js: string, st: State, n: nat)
    requires st.Valid(js)
    ensures var o := Run(js, st, n); var m := Match(js, st.pos, Pendings(st.toks, |st.toks|));
      (o.result != Fail(NoMem) ==> (o.result.Ok? <==> m.Some?)) &&
      (o.result.Ok? ==> ClosedOf(o.state.toks) == ClosedOf(st.toks) + m.value)
    decreases |js| - st.pos
  {
    hide Advance, LexemeEnd, Pendings, ClosedOf, Enclosing, Ended;
    if Ended(js, st.pos) {
      PendingsTop(st.toks, |st.toks|);
    } else {
      AdvanceMatches(js, st, n);
      var s := Advance(js, st, n);
      if s.Next? {
        BracketsMatched(js, s.state, n);
        var rest := Match(js, s.state.pos, Pendings(s.state.toks, |s.state.toks|));
        var m := Match(js, st.pos, Pendings(st.toks, |st.toks|));
        if rest.Some? && m.Some? {
          assert ClosedOf(s.state.toks) + rest.value == ClosedOf(st.toks) + m.value;
        }
      }
    }
  }

  /** From a fresh parser. */
  lemma ParseMatchesBrackets(js: string, n: nat)
    ensures var o := Run(js, INIT, n); var m := Match(js, 0, []);
      (o.result.Ok? ==> m.Some? && ClosedOf(o.state.toks) == m.value) &&
      (m.Some? && o.result != Fail(NoMem) ==> o.result.Ok?)
  {
    hide Run, Match;
    BracketsMatched(js, INIT, n);
    assert ClosedOf([]) == {};
  }

  // ---------------------------------- brackets anywhere outside strings

  /** The kinds of the opening brackets of a text, in order. */
  function Openings(s: string): seq<Kind>
  {
    if s == [] then []
    else (if s[0] == '{' || s[0] == '[' then [Opens(s[0])] else []) + Openings(s[1..])
  }

  /** All lexemes are well formed, and all brackets outside strings match by kind,
      those inside unquoted values included. */
  predicate AllMatch(js: string, p: nat, stack: seq<Kind>)
    requires p <= |js|
    decreases |js| - p
  {
    if Ended(js, p) then stack == []
    else
      var q := LexemeEnd(js, p);
      var c := js[p];
      if q.Bad? then false
      else if c == '}' || c == ']' then
        stack != [] && stack[|stack| - 1] == Closes(c) && AllMatch(js, q.at, stack[..|stack| - 1])
      else AllMatch(js, q.at, if c == '"' then stack else stack + Openings(js[p..q.at]))
  }

  /** No unquoted value holds an opening bracket; a closing one would end it. */
  predicate ValuesPlain(js: string, p: nat)
    requires p <= |js|
    decreases |js| - p
  {
    Ended(js, p) ||
    var q := LexemeEnd(js, p);
    q.Bad? ||
    ((js[p] == '{' || js[p] == '[' || js[p] == '"' || Openings(js[p..q.at]) == []) && ValuesPlain(js, q.at))
  }

  function Kinds(stack: seq<Pending>): (r: seq<Kind>)
    ensures |r| == |stack|
  {
    seq(|stack|, i requires 0 <= i < |stack| => stack[i].kind)
  }

  lemma KindsPush(stack: seq<Pending>, b: Pending)
    ensures Kinds(stack + [b]) == Kinds(stack) + [b.kind]
  {
  }

  lemma KindsPop(stack: seq<Pending>)
    requires stack != []
    ensures Kinds(stack)[|stack| - 1] == stack[|stack| - 1].kind
    ensures Kinds(stack[..|stack| - 1]) == Kinds(stack)[..|stack| - 1]
  {
  }

  /** A bracket or a delimiter is a lexeme of its own. */
  lemma SingleLexeme(js: string, p: nat)
    requires p <= |js| && !Ended(js, p) && (js[p] == '{' || js[p] == '[' || Delimiter(js[p]))
    ensures LexemeEnd(js, p) == Stop(p + 1)
    ensures Openings(js[p..p + 1]) == if js[p] == '{' || js[p] == '[' then [Opens(js[p])] else []
  {
    assert js[p..p + 1] == [js[p]] && [js[p]][1..] == [];
    assert Openings([]) == [];
  }

  /** The brackets inside unquoted values can only make the stack taller. */
  lemma {:induction false} TallerStack(js: string, p: nat, stack: seq<Pending>, all: seq<Kind>)
    requires p <= |js| && Match(js, p, stack).Some? && AllMatch(js, p, all)
    ensures |all| <= |stack|
    decreases |js| - p
  {
    hide LexemeEnd, Openings;
    if !Ended(js, p) {
      var q := LexemeEnd(js, p).at;
      var c := js[p];
      if c == '{' || c == '[' {
        SingleLexeme(js, p);
        TallerStack(js, q, stack + [Pending(Opens(c), p)], all + [Opens(c)]);
      } else if c == '}' || c == ']' {
        TallerStack(js, q, stack[..|stack| - 1], all[..|all| - 1]);
      } else {
        TallerStack(js, q, stack, if c == '"' then all else all + Openings(js[p..q]));
      }
    }
  }

  /** Where the brackets of the structure match, all brackets outside strings do exactly when no
      unquoted value holds one. */
  lemma {:induction false} AllMatchIffPlain(js: string, p: nat, stack: seq<Pending>)
    requires p <= |js| && Match(js, p, stack).Some?
    ensures AllMatch(js, p, Kinds(stack)) <==> ValuesPlain(js, p)
    decreases |js| - p
  {
    hide LexemeEnd, Openings, Kinds;
    if !Ended(js, p) {
      var q := LexemeEnd(js, p).at;
      var c := js[p];
      if c == '{' || c == '[' {
        SingleLexeme(js, p);
        KindsPush(stack, Pending(Opens(c), p));
        AllMatchIffPlain(js, q, stack + [Pending(Opens(c), p)]);
      } else if c == '}' || c == ']' {
        SingleLexeme(js, p);
        KindsPop(stack);
        AllMatchIffPlain(js, q, stack[..|stack| - 1]);
      } else {
        AllMatchIffPlain(js, q, stack);
        var more := Openings(js[p..q]);
        if c != '"' && AllMatch(js, q, Kinds(stack) + more) {
          TallerStack(js, q, stack, Kinds(stack) + more);
        }
        assert Kinds(stack) + [] == Kinds(stack);
      }
    }
  }

  /** After success the brackets outside strings match by kind if and only if no unquoted value holds an opening one. */
  lemma AllBracketsMatchIff(js: string, n: nat)
    requires Run(js, INIT, n).result.Ok?
    ensures AllMatch(js, 0, []) <==> ValuesPlain(js, 0)
  {
    hide Run, Match, AllMatch, ValuesPlain;
    ParseMatchesBrackets(js, n);
    AllMatchIffPlain(js, 0, []);
    assert Kinds([]) == [];
  }

  /** An unquoted value that holds a bracket is accepted: the bracket is not structure. */
  lemma BracketInPrimitive()
    ensures Run("a{", INIT, 1).result == Ok(1) && !AllMatch("a{", 0, [])
  {
    var js := "a{";
    assert PrimitiveEnd(js, 2) == Stop(2);
    assert PrimitiveEnd(js, 1) == Stop(2);
    assert PrimitiveEnd(js, 0) == Stop(2);
    var t := Token(Primitive, 0, 2, 0);
    assert Adopt([], -1) + [t] == [t];
    assert Advance(js, INIT, 1) == Next(State(2, [t], -1));
    assert Enclosing([t], 0) == -1;
    assert Run(js, State(2, [t], -1), 1).result == Ok(1);
  }

  // -------------------------------------------------------------- spans

  /** A token spans what its kind says. */
  predicate Spans(js: string, t: Token, pos: nat)
    requires pos <= |js|
  {
    match t.kind
    case Object => 0 <= t.start < pos && js[t.start] == '{' && (t.Open() || (t.start + 2 <= t.end <= pos && js[t.end - 1] == '}'))
    case Array => 0 <= t.start < pos && js[t.start] == '[' && (t.Open() || (t.start + 2 <= t.end <= pos && js[t.end - 1] == ']'))
    case String => 1 <= t.start <= t.end < pos && js[t.start - 1] == '"' && StringEnd(js, t.start) == Stop(t.end)
    case Primitive => 0 <= t.start < t.end <= pos && PrimitiveEnd(js, t.start) == Stop(t.end)
  }

  /** Token b starts after token a, and lies inside it or after it. */
  predicate Follows(a: Token, b: Token)
  {
    a.start < b.start && (a.Open() || a.end <= b.start || (!b.Open() && b.end < a.end))
  }

  ghost predicate Laid(js: string, toks: seq<Token>, pos: nat)
  {
    && pos <= |js|
    && (forall i :: 0 <= i < |toks| ==> Spans(js, toks[i], pos))
    && (forall i, j :: 0 <= i < j < |toks| ==> Follows(toks[i], toks[j]))
  }

  lemma SpansMore(js: string, t: Token, a: Token, p: nat, q: nat)
    requires p <= q <= |js| && Spans(js, t, p) && SameSpan(a, t)
    ensures Spans(js, a, q)
  {
    hide StringEnd, PrimitiveEnd;
  }

  lemma LaidMore(js: string, toks: seq<Token>, p: nat, super: int, t: Token, q: nat)
    requires Laid(js, toks, p) && -1 <= super < |toks| && p <= q <= |js| && Spans(js, t, q) && p <= t.start
    ensures Laid(js, Adopt(toks, super) + [t], q)
  {
    hide Spans;
    var more := Adopt(toks, super) + [t];
    forall i | 0 <= i < |more| ensures Spans(js, more[i], q) {
      if i < |toks| {
        SpansMore(js, toks[i], more[i], p, q);
      }
    }
    forall i, j | 0 <= i < j < |more| ensures Follows(more[i], more[j]) {
      assert SameSpan(more[i], toks[i]);
      if j < |toks| {
        assert SameSpan(more[j], toks[j]) && Follows(toks[i], toks[j]);
      } else {
        Within(js, toks[i], p);
      }
    }
  }

  lemma Within(js: string, t: Token, p: nat)
    requires p <= |js| && Spans(js, t, p)
    ensures 0 <= t.start && t.start < p && (t.Open() || t.end <= p)
  {
    hide StringEnd, PrimitiveEnd;
  }

  lemma LaidClose(js: string, toks: seq<Token>, p: nat)
    requires Laid(js, toks, p) && p < |js| && (js[p] == '}' || js[p] == ']')
    requires Enclosing(toks, |toks|) != -1 && toks[Enclosing(toks, |toks|)].kind == Closes(js[p])
    ensures var k := Enclosing(toks, |toks|);
      Laid(js, toks[k := toks[k].(end := p + 1)], p + 1)
  {
    hide Spans;
    var k := Enclosing(toks, |toks|);
    var closed := toks[k := toks[k].(end := p + 1)];
    forall i | 0 <= i < |closed| ensures Spans(js, closed[i], p + 1) {
      if i == k {
        CloseSpan(js, toks[k], p);
      } else {
        SpansMore(js, toks[i], closed[i], p, p + 1);
      }
    }
    forall i, j | 0 <= i < j < |closed| ensures Follows(closed[i], closed[j]) {
      assert Follows(toks[i], toks[j]);
      Within(js, toks[j], p);
      Within(js, toks[i], p);
    }
  }

  lemma CloseSpan(js: string, t: Token, p: nat)
    requires p < |js| && Spans(js, t, p) && t.Open() && t.Container() && (js[p] == '}' || js[p] == ']') && t.kind == Closes(js[p])
    ensures Spans(js, t.(end := p + 1), p + 1)
  {
  }

  lemma AdvanceLaid(js: string, st: State, n: nat)
    requires st.Valid(js) && !Ended(js, st.pos) && Laid(js, st.toks, st.pos) && Advance(js, st, n).Next?
    ensures Laid(js, Advance(js, st, n).state.toks, Advance(js, st, n).state.pos)
  {
    hide StringEnd, PrimitiveEnd, Laid, Enclosing;
    var c := js[st.pos];
    var s := Advance(js, st, n).state;
    if c == '}' || c == ']' {
      LaidClose(js, st.toks, st.pos);
    } else if Starts(c) {
      AdvanceCounts(js, st, n);
      var t := s.toks[|st.toks|];
      assert s.toks == Adopt(st.toks, st.super) + [t];
      LaidMore(js, st.toks, st.pos, st.super, t, s.pos);
    } else {
      LaidOn(js, st.toks, st.pos, s.pos);
    }
  }

  lemma LaidOn(js: string, toks: seq<Token>, p: nat, q: nat)
    requires Laid(js, toks, p) && p <= q <= |js|
    ensures Laid(js, toks, q)
  {
    hide Spans, Follows;
    forall i | 0 <= i < |toks| ensures Spans(js, toks[i], q) {
      SpansMore(js, toks[i], toks[i], p, q);
    }
  }

  lemma {:induction false} RunLaid(js: string, st: State, n: nat)
    requires st.Valid(js) && Laid(js, st.toks, st.pos)
    ensures var o := Run(js, st, n);
      Laid(js, o.state.toks, o.state.pos)
    decreases |js| - st.pos
  {
    hide Advance, Laid, Enclosing;
    if !Ended(js, st.pos) {
      var s := Advance(js, st, n);
      if s.Next? {
        AdvanceLaid(js, st, n);
        RunLaid(js, s.state, n);
      }
    }
  }

  /** A successful parse leaves nothing open; token starts increase, spans are nested or
      disjoint, containers run from bracket to bracket of their kind, and strings end
      at the first quote that is not escaped. */
  lemma ParseSpans(js: string, n: nat)
    requires Run(js, INIT, n).result.Ok?
    ensures var toks := Run(js, INIT, n).state.toks;
      (forall i :: 0 <= i < |toks| ==> !toks[i].Open() && Spans(js, toks[i], |js|)) &&
      (forall i, j :: 0 <= i < j < |toks| ==>
        toks[i].start < toks[j].start && (toks[i].end <= toks[j].start || toks[j].end < toks[i].end))
  {
    hide Run, Spans;
    RunLaid(js, INIT, n);
    NothingOpen(js, INIT, n);
    var o := Run(js, INIT, n);
    LaidOn(js, o.state.toks, o.state.pos, |js|);
    forall i, j | 0 <= i < j < |o.state.toks|
      ensures var toks := o.state.toks;
        toks[i].start < toks[j].start && (toks[i].end <= toks[j].start || toks[j].end < toks[i].end)
    {
      assert Follows(o.state.toks[i], o.state.toks[j]);
    }
  }

  lemma {:induction false} NothingOpen(js: string, st: State, n: nat)
    requires st.Valid(js) && Run(js, st, n).result.Ok?
    ensures forall i :: 0 <= i < |Run(js, st, n).state.toks| ==> !Run(js, st, n).state.toks[i].Open()
    decreases |js| - st.pos
  {
    hide Advance;
    if !Ended(js, st.pos) {
      NothingOpen(js, Advance(js, st, n).state, n);
    }
  }
}

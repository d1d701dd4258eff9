/** The hand-off of N buffers between the UART reader and the processor, as interleaved atomic steps. */
module UartHandoff {
  import opened CircularSwap
  import opened Options

  // --------------------------------------------------------- the two tasks

  /** Where the reading task is: between turns, with a buffer to read into, with a full one, with an empty one. */
  datatype Reader = Asking | Reading(b: nat) | Filled(b: nat) | Empty(b: nat)

  /** Where the processing task is: between turns, with a buffer to process, with a processed one. */
  datatype Processor = Waiting | Processing(b: nat) | Processed(b: nat)

  /** What became of a message that left the ring. */
  datatype Fate = Delivered | Discarded

  /** Buffers hold messages. The histories are those of messages read and delivered, and of the fates of
      messages that left the ring, in order. */
  datatype State<M> = State(
    swap: Swap, reader: Reader, processor: Processor, contents: seq<M>,
    read: seq<M>, fates: seq<Fate>, delivered: seq<M>)

  /** One atomic step of one task; a read comes with its message, None when the device had none. */
  datatype Event<M> = TakeForReading | Read(message: Option<M>) | GiveFull | GiveBack | TakeFull | Notify | GiveFree

  /** What a step leads to: the task is not there, it goes on, it got a null buffer, or a capacity assertion fails. */
  datatype Result<M> = Disabled | Next(state: State<M>) | NullBuffer(state: State<M>) | AssertFails

  function Step<M>(s: State<M>, e: Event<M>): Result<M>
  {
    match e
    case TakeForReading =>
      if !s.reader.Asking? then Disabled
      else
        var t := FreeTaken(s.swap);
        if t.buffer.None? then NullBuffer(s)
        else Next(s.(swap := t.swap, reader := Reading(t.buffer.value),
                     fates := if s.swap.free == [] then s.fates + [Discarded] else s.fates))
    case Read(message) =>
      if !s.reader.Reading? || s.reader.b >= |s.contents| then Disabled
      else if message.None? then Next(s.(reader := Empty(s.reader.b)))
      else Next(s.(reader := Filled(s.reader.b), contents := s.contents[s.reader.b := message.value], read := s.read + [message.value]))
    case GiveFull =>
      if !s.reader.Filled? then Disabled
      else if |s.swap.full| >= |s.contents| then AssertFails
      else Next(s.(reader := Asking, swap := s.swap.(full := s.swap.full + [s.reader.b])))
    case GiveBack =>
      if !s.reader.Empty? then Disabled
      else if |s.swap.free| >= |s.contents| then AssertFails
      else Next(s.(reader := Asking, swap := s.swap.(free := s.swap.free + [s.reader.b])))
    case TakeFull =>
      if !s.processor.Waiting? then Disabled
      else
        var t := FullTaken(s.swap);
        if t.buffer.None? then Next(s)
        else Next(s.(swap := t.swap, processor := Processing(t.buffer.value), fates := s.fates + [Delivered]))
    case Notify =>
      if !s.processor.Processing? || s.processor.b >= |s.contents| then Disabled
      else Next(s.(processor := Processed(s.processor.b), delivered := s.delivered + [s.contents[s.processor.b]]))
    case GiveFree =>
      if !s.processor.Processed? then Disabled
      else if |s.swap.free| >= |s.contents| then AssertFails
      else Next(s.(processor := Waiting, swap := s.swap.(free := s.swap.free + [s.processor.b])))
  }

  /** The state after construction: all buffers are free. */
  function Initial<M>(contents: seq<M>): State<M>
  {
    State(Swap(seq(|contents|, i => i), []), Asking, Waiting, contents, [], [], [])
  }

  // ------------------------------------------------------------- ownership

  function Held(s: seq<nat>, b: nat): nat
  {
    multiset(s)[b]
  }

  function ByReader(r: Reader, b: nat): nat
  {
    if !r.Asking? && r.b == b then 1 else 0
  }

  function ByProcessor(p: Processor, b: nat): nat
  {
    if !p.Waiting? && p.b == b then 1 else 0
  }

  /** Each buffer is in exactly one of: the free stack, the ring, the reader, the processor. */
  ghost predicate Owned<M>(s: State<M>)
  {
    forall b: nat ::
      Held(s.swap.free, b) + Held(s.swap.full, b) + ByReader(s.reader, b) + ByProcessor(s.processor, b)
        == if b < |s.contents| then 1 else 0
  }

  function Busy<M>(s: State<M>): nat
  {
    (if s.reader.Asking? then 0 else 1) + if s.processor.Waiting? then 0 else 1
  }

  /** No buffer is lost. */
  predicate Counted<M>(s: State<M>)
  {
    |s.swap.free| + |s.swap.full| + Busy(s) == |s.contents|
  }

  // --------------------------------------------------------------- histories

  /** The messages that were delivered, picked from those that left the ring. */
  function Picked<M>(read: seq<M>, fates: seq<Fate>): seq<M>
    requires |fates| <= |read|
    decreases |fates|
  {
    if fates == [] then []
    else
      var n := |fates| - 1;
      Picked(read, fates[..n]) + if fates[n].Delivered? then [read[n]] else []
  }

  /** Messages leave the ring in the order in which they were read: the ring holds those after
      the ones that left, the reader may hold the newest; the processor has the last one
      delivered, unchanged, until it has passed it on. */
  ghost predicate InOrder<M>(s: State<M>)
  {
    && |s.fates| + |s.swap.full| + (if s.reader.Filled? then 1 else 0) == |s.read|
    && (forall i :: 0 <= i < |s.swap.full| ==> s.swap.full[i] < |s.contents| && s.contents[s.swap.full[i]] == s.read[|s.fates| + i])
    && (s.reader.Filled? ==> s.reader.b < |s.contents| && s.contents[s.reader.b] == s.read[|s.read| - 1])
    && (s.processor.Processing? ==> s.processor.b < |s.contents|)
    && Picked(s.read, s.fates) == s.delivered + if s.processor.Processing? then [s.contents[s.processor.b]] else []
  }

  ghost predicate Inv<M>(s: State<M>)
  {
    Owned(s) && Counted(s) && InOrder(s)
  }

  lemma HeldPush(s: seq<nat>, x: nat, b: nat)
    ensures Held(s + [x], b) == Held(s, b) + if x == b then 1 else 0
  {
  }

  lemma HeldPop(s: seq<nat>, b: nat)
    requires s != []
    ensures Held(s[..|s| - 1], b) == Held(s, b) - if s[|s| - 1] == b then 1 else 0
  {
    assert s == s[..|s| - 1] + [s[|s| - 1]];
  }

  lemma HeldPopFront(s: seq<nat>, b: nat)
    requires s != []
    ensures Held(s[1..], b) == Held(s, b) - if s[0] == b then 1 else 0
  {
    assert s == [s[0]] + s[1..];
  }

  lemma HeldMember(s: seq<nat>, i: nat)
    requires i < |s|
    ensures Held(s, s[i]) >= 1
  {
    assert s[i] in multiset(s);
  }

  lemma {:induction false} InitialHeld(n: nat, b: nat)
    ensures Held(seq(n, i => i), b) == if b < n then 1 else 0
  {
    var s := seq(n, i => i);
    if n == 0 {
      assert s == [];
    } else {
      InitialHeld(n - 1, b);
      assert s == seq(n - 1, i => i) + [n - 1];
    }
  }

  lemma InitialInv<M>(contents: seq<M>)
    ensures Inv(Initial(contents))
  {
    var s := Initial(contents);
    forall b: nat
      ensures Held(s.swap.free, b) + Held(s.swap.full, b) + ByReader(s.reader, b) + ByProcessor(s.processor, b)
           == if b < |s.contents| then 1 else 0
    {
      InitialHeld(|contents|, b);
    }
  }

  lemma StepOwned<M>(s: State<M>, e: Event<M>)
    requires Owned(s) && Step(s, e).Next?
    ensures Owned(Step(s, e).state)
  {
    hide Held;
    var t := Step(s, e).state;
    forall b: nat
      ensures Held(t.swap.free, b) + Held(t.swap.full, b) + ByReader(t.reader, b) + ByProcessor(t.processor, b)
           == if b < |t.contents| then 1 else 0
    {
      assert Held(s.swap.free, b) + Held(s.swap.full, b) + ByReader(s.reader, b) + ByProcessor(s.processor, b)
          == if b < |s.contents| then 1 else 0;
      if s.swap.free != [] {
        HeldPop(s.swap.free, b);
      }
      if s.swap.full != [] {
        HeldPopFront(s.swap.full, b);
      }
      match e {
        case GiveFull => HeldPush(s.swap.full, s.reader.b, b);
        case GiveBack => HeldPush(s.swap.free, s.reader.b, b);
        case GiveFree => HeldPush(s.swap.free, s.processor.b, b);
        case _ =>
      }
    }
  }

  lemma PickedMore<M>(read: seq<M>, fates: seq<Fate>, f: Fate)
    requires |fates| < |read|
    ensures Picked(read, fates + [f]) == Picked(read, fates) + if f.Delivered? then [read[|fates|]] else []
  {
    assert (fates + [f])[..|fates|] == fates;
  }

  lemma {:induction false} PickedPrefix<M>(read: seq<M>, m: M, fates: seq<Fate>)
    requires |fates| <= |read|
    ensures Picked(read + [m], fates) == Picked(read, fates)
    decreases |fates|
  {
    if fates != [] {
      PickedPrefix(read, m, fates[..|fates| - 1]);
    }
  }

  /** A buffer someone holds is nowhere else. */
  lemma Exclusive<M>(s: State<M>)
    requires Owned(s)
    ensures !s.reader.Asking? ==> s.reader.b < |s.contents| && forall i :: 0 <= i < |s.swap.full| ==> s.swap.full[i] != s.reader.b
    ensures !s.processor.Waiting? ==> s.processor.b < |s.contents|
    ensures !s.reader.Asking? && !s.processor.Waiting? ==> s.reader.b != s.processor.b
    ensures forall i :: 0 <= i < |s.swap.full| ==> s.swap.full[i] < |s.contents|
  {
    hide Held;
    forall b: nat
      ensures Held(s.swap.free, b) + Held(s.swap.full, b) + ByReader(s.reader, b) + ByProcessor(s.processor, b)
           == if b < |s.contents| then 1 else 0
    {
    }
    if !s.reader.Asking? {
      assert ByReader(s.reader, s.reader.b) == 1;
    }
    if !s.processor.Waiting? {
      assert ByProcessor(s.processor, s.processor.b) == 1;
    }
    forall i | 0 <= i < |s.swap.full|
      ensures s.swap.full[i] < |s.contents| && (!s.reader.Asking? ==> s.swap.full[i] != s.reader.b)
    {
      HeldMember(s.swap.full, i);
    }
  }

  lemma TakeForReadingInOrder<M>(s: State<M>)
    requires Owned(s) && InOrder(s) && Step(s, TakeForReading).Next?
    ensures InOrder(Step(s, TakeForReading).state)
  {
    Exclusive(s);
    hide Owned, Picked;
    if s.swap.free == [] {
      PickedMore(s.read, s.fates, Discarded);
      assert s.swap.full[1..] == Step(s, TakeForReading).state.swap.full;
    }
  }

  lemma ReadInOrder<M>(s: State<M>, message: Option<M>)
    requires Owned(s) && InOrder(s) && Step(s, Read(message)).Next?
    ensures InOrder(Step(s, Read(message)).state)
  {
    Exclusive(s);
    hide Owned, Picked;
    if message.Some? {
      PickedPrefix(s.read, message.value, s.fates);
    }
  }

  lemma TakeFullInOrder<M>(s: State<M>)
    requires Owned(s) && InOrder(s) && Step(s, TakeFull).Next?
    ensures InOrder(Step(s, TakeFull).state)
  {
    Exclusive(s);
    hide Owned, Picked;
    if s.swap.full != [] {
      PickedMore(s.read, s.fates, Delivered);
      assert s.delivered + [] == s.delivered;
    }
  }

  lemma StepInOrder<M>(s: State<M>, e: Event<M>)
    requires Owned(s) && InOrder(s) && Step(s, e).Next?
    ensures InOrder(Step(s, e).state)
  {
    match e {
      case TakeForReading => TakeForReadingInOrder(s);
      case Read(message) => ReadInOrder(s, message);
      case TakeFull => TakeFullInOrder(s);
      case _ => GiveInOrder(s, e);
    }
  }

  lemma GiveInOrder<M>(s: State<M>, e: Event<M>)
    requires !e.TakeForReading? && !e.Read? && !e.TakeFull?
    requires Owned(s) && InOrder(s) && Step(s, e).Next?
    ensures InOrder(Step(s, e).state)
  {
    Exclusive(s);
    hide Owned, Picked;
    if e.Notify? {
      assert Step(s, e).state.delivered + [] == Step(s, e).state.delivered;
    }
  }

  lemma StepInv<M>(s: State<M>, e: Event<M>)
    requires Inv(s)
    ensures Step(s, e) != AssertFails && (Step(s, e).Next? ==> Inv(Step(s, e).state) && |Step(s, e).state.contents| == |s.contents|)
  {
    Exclusive(s);
    hide Owned, InOrder;
    if Step(s, e).Next? {
      StepOwned(s, e);
      StepInOrder(s, e);
    }
  }

  /** The reader is refused a buffer only if there is at most one. */
  lemma NeverNull<M>(s: State<M>, e: Event<M>)
    requires Inv(s) && |s.contents| >= 2
    ensures !Step(s, e).NullBuffer?
  {
    hide Owned, InOrder;
  }

  /** A message is discarded only when all other buffers, but the one being processed, hold messages that are not delivered yet. */
  lemma DiscardedOnlyUnderBacklog<M>(s: State<M>)
    requires Inv(s) && s.reader.Asking? && s.swap.free == []
    ensures |s.swap.full| == |s.contents| - if s.processor.Waiting? then 0 else 1
  {
    hide Owned, InOrder;
  }

  /** Where every buffer is when none is free and the reader has none. */
  lemma AllInRing<M>(s: State<M>)
    requires Owned(s) && s.reader.Asking? && s.swap.free == []
    ensures forall b: nat :: b < |s.contents| ==> b in s.swap.full || (!s.processor.Waiting? && s.processor.b == b)
  {
    forall b: nat | b < |s.contents|
      ensures b in s.swap.full || (!s.processor.Waiting? && s.processor.b == b)
    {
      assert Held(s.swap.free, b) + Held(s.swap.full, b) + ByReader(s.reader, b) + ByProcessor(s.processor, b) == 1;
    }
  }

  /** The buffers that are not with the processor are all in the ring, waiting to be delivered. */
  ghost predicate Backlog<M>(s: State<M>)
  {
    s.swap.free == [] && forall b: nat :: b < |s.contents| ==> b in s.swap.full || (!s.processor.Waiting? && s.processor.b == b)
  }

  /** What a step does to the messages that leave the ring. */
  lemma StepFates<M>(s: State<M>, e: Event<M>)
    requires Inv(s) && Step(s, e).Next?
    ensures var t := Step(s, e).state;
      match e
      case TakeForReading =>
        t.reader.Reading? &&
        if s.swap.free != [] then t.reader.b in s.swap.free && t.swap.full == s.swap.full && t.fates == s.fates
        else Backlog(s) && [t.reader.b] + t.swap.full == s.swap.full && t.fates == s.fates + [Discarded]
      case TakeFull =>
        if s.swap.full == [] then t == s
        else t.processor.Processing? && [t.processor.b] + t.swap.full == s.swap.full && t.fates == s.fates + [Delivered]
      case _ => t.fates == s.fates
  {
    if e.TakeForReading? && s.swap.free == [] {
      AllInRing(s);
    }
    hide Owned, InOrder, Held;
  }

  // -------------------------------------------------------------------- runs

  /** A run under any schedule: steps of tasks that are elsewhere change nothing, nor does a refused buffer. */
  function Run<M>(s: State<M>, events: seq<Event<M>>): Option<State<M>>
    decreases |events|
  {
    if events == [] then Some(s)
    else
      var r := Step(s, events[0]);
      if r.AssertFails? then None else Run(if r.Next? then r.state else s, events[1..])
  }

  lemma {:induction false} RunInv<M>(s: State<M>, events: seq<Event<M>>)
    requires Inv(s)
    ensures Run(s, events).Some? && Inv(Run(s, events).value) && |Run(s, events).value.contents| == |s.contents|
    decreases |events|
  {
    hide Inv, Step;
    if events != [] {
      StepInv(s, events[0]);
      var r := Step(s, events[0]);
      RunInv(if r.Next? then r.state else s, events[1..]);
    }
  }

  /** Every schedule of one reader and one processor: no capacity assertion fails, each buffer has one
      owner, and what was delivered is what was read, in that order, but for the messages that were discarded. */
  lemma EverySchedule<M>(contents: seq<M>, events: seq<Event<M>>)
    ensures Run(Initial(contents), events).Some?
    ensures var s := Run(Initial(contents), events).value;
      Owned(s) && |s.fates| <= |s.read| && |s.contents| == |contents| &&
      Picked(s.read, s.fates) == s.delivered + (if s.processor.Processing? && s.processor.b < |s.contents| then [s.contents[s.processor.b]] else [])
  {
    hide Owned, Step;
    InitialInv(contents);
    RunInv(Initial(contents), events);
  }

  /** In every run: a message is discarded only by a reader that finds no free buffer while all others, but the one
      being processed, are in the ring; a message that is taken for processing is delivered. */
  lemma FatesOfRun<M>(contents: seq<M>, events: seq<Event<M>>, e: Event<M>)
    ensures Run(Initial(contents), events).Some?
    ensures var s := Run(Initial(contents), events).value; var r := Step(s, e);
      r.Next? && r.state.fates != s.fates ==>
        (e.TakeForReading? && Backlog(s) && r.state.fates == s.fates + [Discarded])
        || (e.TakeFull? && s.swap.full != [] && r.state.fates == s.fates + [Delivered])
    ensures var s := Run(Initial(contents), events).value; var r := Step(s, e);
      e.TakeFull? && s.processor.Waiting? && s.swap.full != [] ==>
        r.Next? && r.state.processor == Processing(s.swap.full[0]) && r.state.fates == s.fates + [Delivered]
  {
    hide Inv, Backlog;
    InitialInv(contents);
    RunInv(Initial(contents), events);
    var s := Run(Initial(contents), events).value;
    if Step(s, e).Next? {
      StepFates(s, e);
    }
  }

  lemma RunOne<M>(s: State<M>, e: Event<M>)
    requires Step(s, e).Next?
    ensures Run(s, [e]) == Some(Step(s, e).state)
  {
    hide Step;
    assert [e][1..] == [];
  }

  lemma {:induction false} RunThree<M>(s: State<M>, a: Event<M>, b: Event<M>, c: Event<M>)
    requires Step(s, a).Next? && Step(Step(s, a).state, b).Next? && Step(Step(Step(s, a).state, b).state, c).Next?
    ensures Run(s, [a, b, c]) == Some(Step(Step(Step(s, a).state, b).state, c).state)
  {
    hide Step;
    var t := Step(s, a).state;
    assert [a, b, c][1..] == [b, c] && [b, c][1..] == [c];
    RunOne(Step(t, b).state, c);
    assert Run(t, [b, c]) == Run(Step(t, b).state, [c]);
  }

  /** A turn of the reader that finds a message: it comes last in the ring. */
  lemma ReaderTurn<M>(s: State<M>, m: M)
    requires Inv(s) && s.reader.Asking? && (s.swap.free != [] || s.swap.full != [])
    ensures var r := Run(s, [TakeForReading, Read(Some(m)), GiveFull]);
      r.Some? && r.value.read == s.read + [m] && r.value.reader.Asking? && r.value.processor == s.processor && r.value.swap.full != []
      && var b := r.value.swap.full[|r.value.swap.full| - 1]; b < |r.value.contents| && r.value.contents[b] == m
  {
    hide Owned, InOrder;
    StepInv(s, TakeForReading);
    var s1 := Step(s, TakeForReading).state;
    Exclusive(s1);
    StepInv(s1, Read(Some(m)));
    var s2 := Step(s1, Read(Some(m))).state;
    StepInv(s2, GiveFull);
    RunThree(s, TakeForReading, Read(Some(m)), GiveFull);
  }

  /** A turn of the processor delivers the oldest message in the ring, and its buffer is free again. */
  lemma ProcessorTurn<M>(s: State<M>)
    requires Inv(s) && s.processor.Waiting? && s.swap.full != []
    ensures var b := s.swap.full[0]; var r := Run(s, [TakeFull, Notify, GiveFree]);
      b < |s.contents| && r == Some(s.(swap := Swap(s.swap.free + [b], s.swap.full[1..]), fates := s.fates + [Delivered],
                                       delivered := s.delivered + [s.contents[b]]))
  {
    hide Owned, InOrder;
    Exclusive(s);
    StepInv(s, TakeFull);
    var s1 := Step(s, TakeFull).state;
    StepInv(s1, Notify);
    var s2 := Step(s1, Notify).state;
    StepInv(s2, GiveFree);
    RunThree(s, TakeFull, Notify, GiveFree);
  }

  /** With at least two buffers the reader always gets one. */
  lemma ReaderAlwaysServed<M>(contents: seq<M>, events: seq<Event<M>>, e: Event<M>)
    requires |contents| >= 2
    ensures Run(Initial(contents), events).Some? && !Step(Run(Initial(contents), events).value, e).NullBuffer?
  {
    hide Inv, Step;
    InitialInv(contents);
    RunInv(Initial(contents), events);
    NeverNull(Run(Initial(contents), events).value, e);
  }

  /** With a single buffer it may not. */
  lemma SingleBufferRefused<M>(old_: M, m: M)
    ensures var s := Run(Initial([old_]), [TakeForReading, Read(Some(m)), GiveFull, TakeFull]);
      s.Some? && Step(s.value, TakeForReading).NullBuffer?
  {
    var s0 := Initial([old_]);
    var s1 := Step(s0, TakeForReading).state;
    var s2 := Step(s1, Read(Some(m))).state;
    var s3 := Step(s2, GiveFull).state;
    var s4 := Step(s3, TakeFull).state;
    assert s4.swap.free == [] && s4.swap.full == [];
    var e3: seq<Event<M>> := [TakeFull];
    var e2 := [GiveFull] + e3;
    var e1 := [Read(Some(m))] + e2;
    assert e3[1..] == [] && e2[1..] == e3 && e1[1..] == e2;
    assert Run(s3, e3) == Some(s4);
    assert Run(s2, e2) == Some(s4);
    assert Run(s1, e1) == Some(s4);
    assert [TakeForReading, Read(Some(m)), GiveFull, TakeFull][1..] == e1;
  }

  /** After the run no assertion has failed, and step e does not find that there is no buffer. */
  predicate Served<M>(contents: seq<M>, events: seq<Event<M>>, e: Event<M>)
  {
    var s := Run(Initial(contents), events);
    s.Some? && !Step(s.value, e).NullBuffer?
  }

  /** The reader is served in every run if and only if there are at least two buffers. */
  lemma ServedIffTwo<M>(contents: seq<M>)
    ensures |contents| >= 2 <==> forall events: seq<Event<M>>, e :: Served(contents, events, e)
  {
    hide Step, Run;
    if |contents| >= 2 {
      forall events: seq<Event<M>>, e
        ensures Served(contents, events, e)
      {
        ReaderAlwaysServed(contents, events, e);
      }
    } else if |contents| == 1 {
      assert contents == [contents[0]];
      SingleBufferRefused(contents[0], contents[0]);
      assert !Served(contents, [TakeForReading, Read(Some(contents[0])), GiveFull, TakeFull], TakeForReading);
    } else {
      NoBufferRefused(contents);
      assert !Served(contents, [], TakeForReading);
    }
  }

  lemma NoBufferRefused<M>(contents: seq<M>)
    requires contents == []
    ensures var s := Run(Initial(contents), []); s.Some? && Step(s.value, TakeForReading).NullBuffer?
  {
  }
}

/** Which rule tables the firmware can build, and why forwarding along them ends. */
module Notification {
  import opened EndpointVariant
  import opened Options
  import opened RoutingTable

  // --------------------------------------------------------- rule tables

  const MAVLINK_UDP_PORT := 8001
  const MAVLINK_UART := 0

  /** The rules installed at start, for both configuration options. */
  function StaticRules(uartProcess: bool, udpProcess: bool): seq<Rule>
  {
    var uart, udp := UartEndpoint(MAVLINK_UART), UdpPort(MAVLINK_UDP_PORT);
    (if uartProcess then
       [Rule(Trigger(uart, Named(Mavlink)), Named(UartMavlinkForwarded)), Rule(Trigger(Named(UartMavlinkForwarded), udp), NONE)]
     else [Rule(Trigger(uart, udp), NONE)])
    + (if udpProcess then
         [Rule(Trigger(udp, Named(Mavlink)), Named(UdpMavlinkForwarded)), Rule(Trigger(Named(UdpMavlinkForwarded), uart), NONE)]
       else [Rule(Trigger(udp, uart), NONE)])
    + [Rule(Trigger(udp, UdpHook(MAVLINK_UDP_PORT)), NONE), Rule(Trigger(Named(MavlinkIpPackForwarded), uart), NONE),
       Rule(Trigger(Named(Mavlink), uart), NONE), Rule(Trigger(Named(Mavlink), udp), NONE)]
  }

  /** A message only ever moves down: transports, then protocol stages, then nothing. */
  function Rank(e: Endpoint): nat
  {
    match e
    case Named(n) => if n.None_? then 0 else 1
    case _ => 2
  }

  /** Every rule lowers the rank of the origin. */
  ghost predicate Descending(table: Table)
  {
    forall t :: t in table ==> Rank(table[t]) < Rank(t.origin)
  }

  function Added(table: Table, r: Rule): Table
  {
    if Applies(table, r.trigger.origin, r.trigger.receiver).None? then table[r.trigger := r.reduction] else table
  }

  function Removed(table: Table, t: Trigger): Table
  {
    var a := Applies(table, t.origin, t.receiver);
    if a.Some? then table - {a.value} else table
  }

  function AddedAll(table: Table, rules: seq<Rule>): Table
    decreases |rules|
  {
    if rules == [] then table else AddedAll(Added(table, rules[0]), rules[1..])
  }

  /** The endpoints in the origins of the static rules have no other readings. */
  predicate Plain(rules: seq<Rule>)
  {
    forall r :: r in rules ==> AsAlternative(r.trigger.origin) == []
  }

  predicate DistinctTriggers(rules: seq<Rule>)
  {
    forall i, j :: 0 <= i < j < |rules| ==> rules[i].trigger != rules[j].trigger
  }

  lemma AddedNew(table: Table, r: Rule)
    requires AsAlternative(r.trigger.origin) == [] && r.trigger !in table
    ensures Added(table, r) == table[r.trigger := r.reduction]
  {
    var o := r.trigger.origin;
    assert Readings(o) == [o] && [o][1..] == [];
    assert Trigger(o, r.trigger.receiver) == r.trigger;
    assert FirstIn(table, [], r.trigger.receiver).None?;
  }

  lemma {:induction false} AddedPlain(table: Table, rules: seq<Rule>, k: nat)
    requires k <= |rules| && Plain(rules) && DistinctTriggers(rules)
    requires forall i :: k <= i < |rules| ==> rules[i].trigger !in table
    ensures forall i :: k <= i < |rules| ==>
      rules[i].trigger in AddedAll(table, rules[k..]) && AddedAll(table, rules[k..])[rules[i].trigger] == rules[i].reduction
    ensures forall t :: t in AddedAll(table, rules[k..]) <==> t in table || exists i :: k <= i < |rules| && rules[i].trigger == t
    ensures forall t :: t in table ==> AddedAll(table, rules[k..])[t] == table[t]
    decreases |rules| - k
  {
    hide Added;
    if k < |rules| {
      AddedNew(table, rules[k]);
      assert rules[k..][1..] == rules[k + 1..];
      AddedPlain(table[rules[k].trigger := rules[k].reduction], rules, k + 1);
    }
  }

  lemma StaticRulesPlain(uartProcess: bool, udpProcess: bool)
    ensures Plain(StaticRules(uartProcess, udpProcess)) && DistinctTriggers(StaticRules(uartProcess, udpProcess))
  {
  }

  /** None of the static rules is refused: the table at start is exactly the map of them. */
  lemma StaticTable(uartProcess: bool, udpProcess: bool)
    ensures DistinctTriggers(StaticRules(uartProcess, udpProcess))
    ensures var rules := StaticRules(uartProcess, udpProcess); AddedAll(map[], rules) == map r | r in rules :: r.trigger := r.reduction
  {
    hide StaticRules, AddedAll;
    var rules := StaticRules(uartProcess, udpProcess);
    StaticRulesPlain(uartProcess, udpProcess);
    AddedPlain(map[], rules, 0);
    assert rules[0..] == rules;
  }

  /** The receivers that messages of an origin reach at start: transports feed the dispatcher or, without processing,
      each other; what the dispatcher and the packing service hand on goes to the wires. */
  function ReachedAtStart(uartProcess: bool, udpProcess: bool, origin: Endpoint): set<Endpoint>
  {
    match origin
    case UartEndpoint(num) => if num != 0 then {} else if uartProcess then {Named(Mavlink)} else {UdpPort(8001)}
    case UdpPort(port) => if port != 8001 then {} else {UdpHook(8001), if udpProcess then Named(Mavlink) else UartEndpoint(0)}
    case UdpEndpoint(_, local) => if local != 8001 then {} else {UdpHook(8001), if udpProcess then Named(Mavlink) else UartEndpoint(0)}
    case Named(Mavlink) => {UartEndpoint(0), UdpPort(8001)}
    case Named(UartMavlinkForwarded) => if uartProcess then {UdpPort(8001)} else {}
    case Named(UdpMavlinkForwarded) => if udpProcess then {UartEndpoint(0)} else {}
    case Named(MavlinkIpPackForwarded) => {UartEndpoint(0)}
    case _ => {}
  }

  lemma StartReaches(uartProcess: bool, udpProcess: bool, origin: Endpoint, receiver: Endpoint)
    ensures Applies(AddedAll(map[], StaticRules(uartProcess, udpProcess)), origin, receiver).Some?
        <==> receiver in ReachedAtStart(uartProcess, udpProcess, origin)
  {
    hide AddedAll, Applies, StaticRules, StartTriggers;
    var rules := StaticRules(uartProcess, udpProcess);
    var table := AddedAll(map[], rules);
    StaticTable(uartProcess, udpProcess);
    TriedOnly(table, origin, receiver);
    TriggersAtStart(uartProcess, udpProcess);
    assert table.Keys == TriggersOf(rules);
    TriedAtStart(uartProcess, udpProcess, origin, receiver);
  }

  /** The triggers of the static rules. */
  function StartTriggers(uartProcess: bool, udpProcess: bool): set<Trigger>
  {
    var uart, udp, mavlink := UartEndpoint(0), UdpPort(8001), Named(Mavlink);
    (if uartProcess then {Trigger(uart, mavlink), Trigger(Named(UartMavlinkForwarded), udp)} else {Trigger(uart, udp)})
    + (if udpProcess then {Trigger(udp, mavlink), Trigger(Named(UdpMavlinkForwarded), uart)} else {Trigger(udp, uart)})
    + {Trigger(udp, UdpHook(8001)), Trigger(Named(MavlinkIpPackForwarded), uart), Trigger(mavlink, uart), Trigger(mavlink, udp)}
  }

  function TriggersOf(rules: seq<Rule>): set<Trigger>
  {
    set r | r in rules :: r.trigger
  }

  lemma TriggersConcat(a: seq<Rule>, b: seq<Rule>)
    ensures TriggersOf(a + b) == TriggersOf(a) + TriggersOf(b)
  {
  }

  lemma TriggersOfOne(r: Rule)
    ensures TriggersOf([r]) == {r.trigger}
  {
    assert r in [r];
  }

  lemma TriggersOfTwo(r: Rule, q: Rule)
    ensures TriggersOf([r, q]) == {r.trigger, q.trigger}
  {
    assert [r, q] == [r] + [q];
    TriggersConcat([r], [q]);
    TriggersOfOne(r);
    TriggersOfOne(q);
  }

  lemma TriggersAtStart(uartProcess: bool, udpProcess: bool)
    ensures TriggersOf(StaticRules(uartProcess, udpProcess)) == StartTriggers(uartProcess, udpProcess)
  {
    hide TriggersOf;
    var uart, udp := UartEndpoint(MAVLINK_UART), UdpPort(MAVLINK_UDP_PORT);
    var a := if uartProcess then
        [Rule(Trigger(uart, Named(Mavlink)), Named(UartMavlinkForwarded)), Rule(Trigger(Named(UartMavlinkForwarded), udp), NONE)]
      else [Rule(Trigger(uart, udp), NONE)];
    var b := if udpProcess then
        [Rule(Trigger(udp, Named(Mavlink)), Named(UdpMavlinkForwarded)), Rule(Trigger(Named(UdpMavlinkForwarded), uart), NONE)]
      else [Rule(Trigger(udp, uart), NONE)];
    var c, d := [Rule(Trigger(udp, UdpHook(MAVLINK_UDP_PORT)), NONE), Rule(Trigger(Named(MavlinkIpPackForwarded), uart), NONE)],
      [Rule(Trigger(Named(Mavlink), uart), NONE), Rule(Trigger(Named(Mavlink), udp), NONE)];
    assert StaticRules(uartProcess, udpProcess) == a + b + (c + d);
    TriggersConcat(a + b, c + d);
    TriggersConcat(a, b);
    TriggersConcat(c, d);
    if uartProcess { TriggersOfTwo(a[0], a[1]); } else { TriggersOfOne(a[0]); }
    if udpProcess { TriggersOfTwo(b[0], b[1]); } else { TriggersOfOne(b[0]); }
    TriggersOfTwo(c[0], c[1]);
    TriggersOfTwo(d[0], d[1]);
  }

  lemma TriedAtStart(uartProcess: bool, udpProcess: bool, origin: Endpoint, receiver: Endpoint)
    ensures (exists t :: t in Tried(origin, receiver) && t in StartTriggers(uartProcess, udpProcess))
        <==> receiver in ReachedAtStart(uartProcess, udpProcess, origin)
  {
    if receiver in ReachedAtStart(uartProcess, udpProcess, origin) {
      var t := Trigger(if origin.UdpEndpoint? then UdpPort(origin.local) else origin, receiver);
      assert t in Tried(origin, receiver) && t in StartTriggers(uartProcess, udpProcess);
    }
    forall t | t in Tried(origin, receiver) && t in StartTriggers(uartProcess, udpProcess)
      ensures receiver in ReachedAtStart(uartProcess, udpProcess, origin)
    {
    }
  }

  /** What the ground-station service does to the table: a port opened or closed. */
  datatype Change = Open(tcp: bool, port: nat) | Close(tcp: bool, port: nat)

  function PortTrigger(tcp: bool, port: nat): Trigger
  {
    Trigger(if tcp then TcpPort(port) else UdpPort(port), Named(MavlinkIpPack))
  }

  function PortRule(tcp: bool, port: nat): Rule
  {
    Rule(PortTrigger(tcp, port), Named(MavlinkIpPackForwarded))
  }

  function Changed(table: Table, c: Change): Table
  {
    match c
    case Open(tcp, port) => Added(table, PortRule(tcp, port))
    case Close(tcp, port) => Removed(table, PortTrigger(tcp, port))
  }

  function ChangedAll(table: Table, changes: seq<Change>): Table
    decreases |changes|
  {
    if changes == [] then table else ChangedAll(Changed(table, changes[0]), changes[1..])
  }

  /** Messages that arrive at a port the ground station opened, from whomever, go to the packing service. */
  lemma OpenedReached(table: Table, tcp: bool, remote: Remote, port: nat)
    ensures var from := if tcp then TcpEndpoint(remote, port) else UdpEndpoint(remote, port);
      var after := Changed(table, Open(tcp, port)); var t := Applies(after, from, Named(MavlinkIpPack));
      t.Some? && t.value in after
      && (Applies(table, from, Named(MavlinkIpPack)).None? ==> after[t.value] == Named(MavlinkIpPackForwarded))
  {
    hide Applies, FirstOf;
    var from := if tcp then TcpEndpoint(remote, port) else UdpEndpoint(remote, port);
    var at, pack := if tcp then TcpPort(port) else UdpPort(port), Named(MavlinkIpPack);
    var after := Changed(table, Open(tcp, port));
    var a, b, c := Trigger(from, pack), Trigger(if tcp then TcpRemote(remote) else UdpRemote(remote), pack), Trigger(at, pack);
    TriedInOrder(table, at, pack);
    TriedInOrder(table, from, pack);
    TriedInOrder(after, from, pack);
    FirstOfThree(table, a, b, c);
    FirstOfThree(after, a, b, c);
  }

  lemma {:induction false} AddedDescending(table: Table, rules: seq<Rule>)
    requires Descending(table) && forall i :: 0 <= i < |rules| ==> Rank(rules[i].reduction) < Rank(rules[i].trigger.origin)
    ensures Descending(AddedAll(table, rules))
    decreases |rules|
  {
    if rules != [] {
      assert Descending(Added(table, rules[0]));
      AddedDescending(Added(table, rules[0]), rules[1..]);
    }
  }

  lemma {:induction false} ChangedDescending(table: Table, changes: seq<Change>)
    requires Descending(table)
    ensures Descending(ChangedAll(table, changes))
    decreases |changes|
  {
    if changes != [] {
      ChangedDescending(Changed(table, changes[0]), changes[1..]);
    }
  }

  /** Every table reachable from the static rules by opening and closing ports. */
  lemma ReachableDescending(uartProcess: bool, udpProcess: bool, changes: seq<Change>)
    ensures Descending(ChangedAll(AddedAll(map[], StaticRules(uartProcess, udpProcess)), changes))
  {
    AddedDescending(map[], StaticRules(uartProcess, udpProcess));
    ChangedDescending(AddedAll(map[], StaticRules(uartProcess, udpProcess)), changes);
  }

  /** Opening and closing a port in between leaves the table as it was, when no rule for it was there. */
  lemma CloseUndoesOpen(table: Table, tcp: bool, port: nat)
    requires PortTrigger(tcp, port) !in table
    ensures Changed(Changed(table, Open(tcp, port)), Close(tcp, port)) == table
  {
    var t := PortTrigger(tcp, port);
    assert Readings(t.origin) == [t.origin] && [t.origin][1..] == [];
    var after := Changed(table, Open(tcp, port));
    assert FirstIn(table, [], t.receiver).None?;
    assert after == table[t := Named(MavlinkIpPackForwarded)];
    assert after - {t} == table;
  }

  // ------------------------------------------------ the service's two calls

  datatype Transport = Tcp4 | Tcp6 | Udp4 | Udp6 | UnknownTransport
  datatype SocketError = NoError | AlreadyOpen | NotFound | OtherError

  predicate IsTcp(t: Transport)
  {
    t.Tcp4? || t.Tcp6?
  }

  /** Opens a port and installs its rule; an already open port counts as success, and so does an
      unknown transport, for which no socket call is made. */
  method ProcessOpen(rules: RoutingRules, transport: Transport, hostPort: nat, socket: SocketError) returns (ack: bool)
    requires rules.Valid()
    modifies rules
    ensures rules.Valid() && ack == (transport.UnknownTransport? || socket.NoError? || socket.AlreadyOpen?)
    ensures rules.table == if ack then Changed(old(rules.table), Open(IsTcp(transport), hostPort)) else old(rules.table)
  {
    var error := if transport.UnknownTransport? then NoError else socket;
    ack := error.NoError?;
    if error.AlreadyOpen? {
      ack := true;
    }
    if ack {
      var added;
      if IsTcp(transport) {
        added := rules.AddStatic(TcpPort(hostPort), Named(MavlinkIpPack), Named(MavlinkIpPackForwarded));
      } else {
        added := rules.AddStatic(UdpPort(hostPort), Named(MavlinkIpPack), Named(MavlinkIpPackForwarded));
      }
    }
  }

  method ProcessClose(rules: RoutingRules, transport: Transport, hostPort: nat, socket: SocketError) returns (ack: bool)
    requires rules.Valid()
    modifies rules
    ensures rules.Valid() && ack == (transport.UnknownTransport? || socket.NoError? || socket.NotFound?)
    ensures rules.table == if ack then Changed(old(rules.table), Close(IsTcp(transport), hostPort)) else old(rules.table)
  {
    var error := if transport.UnknownTransport? then NoError else socket;
    ack := error.NoError?;
    if error.NotFound? {
      ack := true;
    }
    if ack {
      if IsTcp(transport) {
        rules.Remove(TcpPort(hostPort), Named(MavlinkIpPack));
      } else {
        rules.Remove(UdpPort(hostPort), Named(MavlinkIpPack));
      }
    }
  }

  /** Installs the static rules one by one. */
  method Init(rules: RoutingRules, uartProcess: bool, udpProcess: bool)
    requires rules.Valid()
    modifies rules
    ensures rules.Valid() && rules.table == AddedAll(old(rules.table), StaticRules(uartProcess, udpProcess))
  {
    hide StaticRules, Applies;
    var all := StaticRules(uartProcess, udpProcess);
    for i := 0 to |all|
      invariant rules.Valid() && AddedAll(rules.table, all[i..]) == AddedAll(old(rules.table), all)
    {
      var r := all[i];
      assert all[i..][1..] == all[i + 1..];
      var added := rules.AddStatic(r.trigger.origin, r.trigger.receiver, r.reduction);
      assert Trigger(r.trigger.origin, r.trigger.receiver) == r.trigger;
    }
  }

  // ------------------------------------------------------------ forwarding

  /** All readings of an endpoint have its rank, so whichever rule applies lowers it. */
  lemma ReducedRank(table: Table, origin: Endpoint, receiver: Endpoint)
    requires Descending(table) && Applies(table, origin, receiver).Some?
    ensures Applies(table, origin, receiver).value in table
    ensures Rank(table[Applies(table, origin, receiver).value]) < Rank(origin)
  {
    FirstInTable(table, Readings(origin), receiver);
  }

  /** A call of a receiver: who is told, on behalf of whom, and the endpoint that forwarded bytes will be from. */
  datatype Delivery = Delivery(receiver: Endpoint, origin: Endpoint, reduced: Endpoint)

  /** What a receiver does in one call: forward some bytes or not, and open and close ports. */
  datatype Reaction = Reaction(forward: Option<seq<int>>, changes: seq<Change>)

  /** What a receiver does in each of the calls it gets for one message, whatever was delivered before. */
  type Behaviour = (seq<Delivery>, Endpoint, Endpoint, seq<int>) -> seq<Reaction>

  /** The calls so far, for each the table its rule was looked up in, and the table now. */
  datatype Cycle = Cycle(calls: seq<Delivery>, tables: seq<Table>, table: Table) {
    /** One more call, with a rule from table seen, and the changes made in it. */
    function Told(d: Delivery, seen: Table, changes: seq<Change>): Cycle
    {
      Cycle(calls + [d], tables + [seen], ChangedAll(table, changes))
    }
  }

  /** The notification cycle from receiver i of the registry on. */
  function Deliver(c: Cycle, registry: seq<Endpoint>, behave: Behaviour, origin: Endpoint, buffer: seq<int>, i: nat): (r: Cycle)
    requires Descending(c.table)
    ensures Descending(r.table)
    decreases Rank(origin), 1, |registry| - i
  {
    if i >= |registry| then c
    else
      var t := Applies(c.table, origin, registry[i]);
      if t.None? then Deliver(c, registry, behave, origin, buffer, i + 1)
      else
        ReducedRank(c.table, origin, registry[i]);
        var next := Feed(c, c.table, registry, behave, Delivery(registry[i], origin, c.table[t.value]),
          behave(c.calls, registry[i], origin, buffer), 0, false, buffer);
        Deliver(next, registry, behave, origin, buffer, i + 1)
  }

  /** The calls of one receiver from call j on, each followed by a cycle for the reduced endpoint once the
      receiver has forwarded anything. */
  function Feed(c: Cycle, seen: Table, registry: seq<Endpoint>, behave: Behaviour, d: Delivery, reactions: seq<Reaction>,
                j: nat, forwarded: bool, out: seq<int>): (r: Cycle)
    requires Descending(c.table) && Rank(d.reduced) < Rank(d.origin)
    ensures Descending(r.table)
    decreases Rank(d.origin), 0, |reactions| - j
  {
    if j >= |reactions| then c
    else
      var f, o := forwarded || reactions[j].forward.Some?, reactions[j].forward.UnwrapOr(out);
      ChangedDescending(c.table, reactions[j].changes);
      var told := c.Told(d, seen, reactions[j].changes);
      var next := if f then Deliver(told, registry, behave, d.reduced, o, 0) else told;
      Feed(next, seen, registry, behave, d, reactions, j + 1, f, o)
  }

  /** The rule of a call was the one its table had. */
  ghost predicate Follows(registry: seq<Endpoint>, d: Delivery, table: Table)
  {
    && Descending(table) && d.receiver in registry && Applies(table, d.origin, d.receiver).Some?
    && Applies(table, d.origin, d.receiver).value in table && table[Applies(table, d.origin, d.receiver).value] == d.reduced
  }

  ghost predicate Below(e: Endpoint, origin: Endpoint)
  {
    e == origin || Rank(e) < Rank(origin)
  }

  /** Between c and r only calls that follow rules were made, for the origin or endpoints below it. */
  ghost predicate Extends(registry: seq<Endpoint>, origin: Endpoint, c: Cycle, r: Cycle)
  {
    && |c.calls| == |c.tables| <= |r.calls| == |r.tables|
    && r.calls[..|c.calls|] == c.calls && r.tables[..|c.calls|] == c.tables
    && forall k :: |c.calls| <= k < |r.calls| ==> Follows(registry, r.calls[k], r.tables[k]) && Below(r.calls[k].origin, origin)
  }

  lemma ExtendsMore(registry: seq<Endpoint>, origin: Endpoint, other: Endpoint, c: Cycle, m: Cycle, r: Cycle)
    requires Extends(registry, origin, c, m) && Extends(registry, other, m, r) && Below(other, origin)
    ensures Extends(registry, origin, c, r)
  {
    hide Follows, Rank;
    assert m.calls[..|c.calls|] == r.calls[..|m.calls|][..|c.calls|] == r.calls[..|c.calls|];
    assert m.tables[..|c.calls|] == r.tables[..|m.calls|][..|c.calls|] == r.tables[..|c.calls|];
    forall k | |c.calls| <= k < |r.calls|
      ensures Follows(registry, r.calls[k], r.tables[k]) && Below(r.calls[k].origin, origin)
    {
      if k < |m.calls| {
        assert r.calls[k] == r.calls[..|m.calls|][k] && r.tables[k] == r.tables[..|m.calls|][k];
      }
    }
  }

  lemma ExtendsTold(registry: seq<Endpoint>, c: Cycle, d: Delivery, seen: Table, changes: seq<Change>)
    requires |c.calls| == |c.tables| && Follows(registry, d, seen)
    ensures Extends(registry, d.origin, c, c.Told(d, seen, changes))
  {
    hide Follows, Rank, ChangedAll;
  }

  /** Every call follows the rule that the table had when it was looked up, for the origin or for an endpoint
      of lower rank, whatever ports the receivers open and close meanwhile. */
  lemma {:induction false} DeliveriesFollowRules(c: Cycle, registry: seq<Endpoint>, behave: Behaviour, origin: Endpoint, buffer: seq<int>, i: nat)
    requires Descending(c.table) && |c.calls| == |c.tables|
    ensures Extends(registry, origin, c, Deliver(c, registry, behave, origin, buffer, i))
    decreases Rank(origin), 1, |registry| - i
  {
    hide Applies, Feed, Rank, Descending;
    if i < |registry| {
      var t := Applies(c.table, origin, registry[i]);
      if t.Some? {
        ReducedRank(c.table, origin, registry[i]);
        var d := Delivery(registry[i], origin, c.table[t.value]);
        var reactions := behave(c.calls, registry[i], origin, buffer);
        var next := Feed(c, c.table, registry, behave, d, reactions, 0, false, buffer);
        FedFollowsRules(c, c.table, registry, behave, d, reactions, 0, false, buffer);
        DeliveriesFollowRules(next, registry, behave, origin, buffer, i + 1);
        ExtendsMore(registry, origin, origin, c, next, Deliver(next, registry, behave, origin, buffer, i + 1));
      } else {
        DeliveriesFollowRules(c, registry, behave, origin, buffer, i + 1);
      }
    }
  }

  lemma {:induction false} FedFollowsRules(c: Cycle, seen: Table, registry: seq<Endpoint>, behave: Behaviour, d: Delivery,
                                           reactions: seq<Reaction>, j: nat, forwarded: bool, out: seq<int>)
    requires Descending(c.table) && |c.calls| == |c.tables| && Rank(d.reduced) < Rank(d.origin) && Follows(registry, d, seen)
    ensures Extends(registry, d.origin, c, Feed(c, seen, registry, behave, d, reactions, j, forwarded, out))
    decreases Rank(d.origin), 0, |reactions| - j
  {
    hide Applies, Deliver, Rank, Descending, Follows, Extends, ChangedAll;
    if j < |reactions| {
      var f, o := forwarded || reactions[j].forward.Some?, reactions[j].forward.UnwrapOr(out);
      ChangedDescending(c.table, reactions[j].changes);
      var told := c.Told(d, seen, reactions[j].changes);
      ExtendsTold(registry, c, d, seen, reactions[j].changes);
      var next := told;
      if f {
        next := Deliver(told, registry, behave, d.reduced, o, 0);
        DeliveriesFollowRules(told, registry, behave, d.reduced, o, 0);
        BelowRank(d.reduced, d.origin);
        ExtendsMore(registry, d.origin, d.reduced, c, told, next);
      }
      ExtendsCounts(registry, d.origin, c, next);
      FedFollowsRules(next, seen, registry, behave, d, reactions, j + 1, f, o);
      BelowRank(d.origin, d.origin);
      ExtendsMore(registry, d.origin, d.origin, c, next, Feed(next, seen, registry, behave, d, reactions, j + 1, f, o));
    } else {
      ExtendsSelf(registry, d.origin, c);
    }
  }

  lemma BelowRank(e: Endpoint, origin: Endpoint)
    requires e == origin || Rank(e) < Rank(origin)
    ensures Below(e, origin)
  {
  }

  lemma ExtendsSelf(registry: seq<Endpoint>, origin: Endpoint, c: Cycle)
    requires |c.calls| == |c.tables|
    ensures Extends(registry, origin, c, c)
  {
  }

  lemma ExtendsCounts(registry: seq<Endpoint>, origin: Endpoint, c: Cycle, r: Cycle)
    requires Extends(registry, origin, c, r)
    ensures |r.calls| == |r.tables|
  {
  }

  // ------------------------------------------------- nobody is left out

  /** The bytes that the latest of the first j + 1 reactions forwarded, if one did. */
  function Forwarded(reactions: seq<Reaction>, j: nat, buffer: seq<int>): seq<int>
    requires j < |reactions|
  {
    if reactions[j].forward.Some? then reactions[j].forward.value
    else if j == 0 then buffer
    else Forwarded(reactions, j - 1, buffer)
  }

  predicate AnyForwarded(reactions: seq<Reaction>, j: nat)
    requires j < |reactions|
  {
    exists k :: 0 <= k <= j && reactions[k].forward.Some?
  }

  /** From c to r the whole registry had its turn, one receiver after the other. */
  ghost predicate Notified(registry: seq<Endpoint>, behave: Behaviour, origin: Endpoint, buffer: seq<int>, c: Cycle, r: Cycle)
    decreases Rank(origin), 2
  {
    exists points: seq<Cycle> ::
      |points| == |registry| + 1 && points[0] == c && points[|registry|] == r &&
      forall i :: 0 <= i < |registry| ==> Turn(registry, behave, origin, buffer, registry[i], points[i], points[i + 1])
  }

  /** A receiver's turn: nothing when no rule of the table as it then stands applies; otherwise one call for each
      of its reactions, and after each call from the first that forwarded on, the whole registry for the reduced endpoint. */
  ghost predicate Turn(registry: seq<Endpoint>, behave: Behaviour, origin: Endpoint, buffer: seq<int>, receiver: Endpoint,
                       c: Cycle, r: Cycle)
    decreases Rank(origin), 1
  {
    var t := Applies(c.table, origin, receiver);
    if t.None? then r == c
    else
      t.value in c.table &&
      var d := Delivery(receiver, origin, c.table[t.value]);
      var reactions := behave(c.calls, receiver, origin, buffer);
      Rank(d.reduced) < Rank(origin) &&
      exists states: seq<Cycle> ::
        |states| == |reactions| + 1 && states[0] == c && states[|reactions|] == r &&
        forall j :: 0 <= j < |reactions| ==> Call(registry, behave, d, c.table, reactions, buffer, j, states[j], states[j + 1])
  }

  /** One call, and what follows it. */
  ghost predicate Call(registry: seq<Endpoint>, behave: Behaviour, d: Delivery, seen: Table, reactions: seq<Reaction>,
                       buffer: seq<int>, j: nat, c: Cycle, r: Cycle)
    requires j < |reactions| && Rank(d.reduced) < Rank(d.origin)
    decreases Rank(d.origin), 0
  {
    var told := c.Told(d, seen, reactions[j].changes);
    if AnyForwarded(reactions, j)
    then Notified(registry, behave, d.reduced, Forwarded(reactions, j, buffer), told, r)
    else r == told
  }

  lemma {:induction false} FeedReacts(c: Cycle, seen: Table, registry: seq<Endpoint>, behave: Behaviour, d: Delivery,
                                      reactions: seq<Reaction>, buffer: seq<int>, j: nat, forwarded: bool, out: seq<int>)
    returns (states: seq<Cycle>)
    requires Descending(c.table) && Rank(d.reduced) < Rank(d.origin) && j <= |reactions|
    requires forwarded <==> (j > 0 && AnyForwarded(reactions, j - 1))
    requires out == if j > 0 then Forwarded(reactions, j - 1, buffer) else buffer
    ensures |states| == |reactions| - j + 1 && states[0] == c
    ensures states[|reactions| - j] == Feed(c, seen, registry, behave, d, reactions, j, forwarded, out)
    ensures forall k :: 0 <= k < |reactions| - j ==>
      Call(registry, behave, d, seen, reactions, buffer, j + k, states[k], states[k + 1])
    decreases Rank(d.origin), 1, |reactions| - j
  {
    hide Rank, Descending, ChangedAll, Notified, Call, Forwarded, AnyForwarded;
    if j == |reactions| {
      states := [c];
    } else {
      var f, o := forwarded || reactions[j].forward.Some?, reactions[j].forward.UnwrapOr(out);
      var next := NextCall(c, seen, registry, behave, d, reactions, buffer, j, f, o);
      Latest(reactions, j, buffer);
      var rest := FeedReacts(next, seen, registry, behave, d, reactions, buffer, j + 1, f, o);
      states := [c] + rest;
      forall k | 0 <= k < |reactions| - j
        ensures Call(registry, behave, d, seen, reactions, buffer, j + k, states[k], states[k + 1])
      {
        if k > 0 {
          assert Call(registry, behave, d, seen, reactions, buffer, (j + 1) + (k - 1), rest[k - 1], rest[k]);
        }
      }
    }
  }

  lemma Latest(reactions: seq<Reaction>, j: nat, buffer: seq<int>)
    requires j < |reactions|
    ensures AnyForwarded(reactions, j) <==> (reactions[j].forward.Some? || (j > 0 && AnyForwarded(reactions, j - 1)))
    ensures Forwarded(reactions, j, buffer) == reactions[j].forward.UnwrapOr(if j > 0 then Forwarded(reactions, j - 1, buffer) else buffer)
  {
  }

  /** The state after a call, and after the cycle for the reduced endpoint if something was forwarded. */
  function AfterCall(c: Cycle, seen: Table, registry: seq<Endpoint>, behave: Behaviour, d: Delivery, changes: seq<Change>,
                     f: bool, o: seq<int>): (r: Cycle)
    requires Descending(c.table)
  {
    ChangedDescending(c.table, changes);
    var told := c.Told(d, seen, changes);
    if f then Deliver(told, registry, behave, d.reduced, o, 0) else told
  }

  lemma {:induction false} NextCall(c: Cycle, seen: Table, registry: seq<Endpoint>, behave: Behaviour, d: Delivery,
                                    reactions: seq<Reaction>, buffer: seq<int>, j: nat, f: bool, o: seq<int>)
    returns (next: Cycle)
    requires Descending(c.table) && Rank(d.reduced) < Rank(d.origin) && j < |reactions|
    requires f == (reactions[j].forward.Some? || (j > 0 && AnyForwarded(reactions, j - 1)))
    requires o == reactions[j].forward.UnwrapOr(if j > 0 then Forwarded(reactions, j - 1, buffer) else buffer)
    ensures Descending(next.table) && Call(registry, behave, d, seen, reactions, buffer, j, c, next)
    ensures next == AfterCall(c, seen, registry, behave, d, reactions[j].changes, f, o)
    decreases Rank(d.origin), 0, 0
  {
    hide Rank, Descending, ChangedAll, Notified, Forwarded, AnyForwarded;
    ChangedDescending(c.table, reactions[j].changes);
    Latest(reactions, j, buffer);
    next := c.Told(d, seen, reactions[j].changes);
    if f {
      DeliverNotifies(next, registry, behave, d.reduced, o);
      next := Deliver(next, registry, behave, d.reduced, o, 0);
    }
  }

  lemma {:induction false} DeliverTurns(c: Cycle, registry: seq<Endpoint>, behave: Behaviour, origin: Endpoint, buffer: seq<int>, i: nat)
    returns (points: seq<Cycle>)
    requires Descending(c.table) && i <= |registry|
    ensures |points| == |registry| - i + 1 && points[0] == c
    ensures points[|registry| - i] == Deliver(c, registry, behave, origin, buffer, i)
    ensures forall k :: i <= k < |registry| ==> Turn(registry, behave, origin, buffer, registry[k], points[k - i], points[k - i + 1])
    decreases Rank(origin), 3, |registry| - i
  {
    hide Applies, Rank, Descending, Turn, Feed;
    if i == |registry| {
      points := [c];
    } else {
      var next := NextTurn(c, registry, behave, origin, buffer, i);
      var rest := DeliverTurns(next, registry, behave, origin, buffer, i + 1);
      points := [c] + rest;
    }
  }

  lemma {:induction false} NextTurn(c: Cycle, registry: seq<Endpoint>, behave: Behaviour, origin: Endpoint, buffer: seq<int>, i: nat)
    returns (next: Cycle)
    requires Descending(c.table) && i < |registry|
    ensures Descending(next.table) && Deliver(c, registry, behave, origin, buffer, i) == Deliver(next, registry, behave, origin, buffer, i + 1)
    ensures Turn(registry, behave, origin, buffer, registry[i], c, next)
    decreases Rank(origin), 2, 0
  {
    hide Applies, Rank, Descending, Feed, Call;
    var t := Applies(c.table, origin, registry[i]);
    next := c;
    if t.Some? {
      ReducedRank(c.table, origin, registry[i]);
      var d := Delivery(registry[i], origin, c.table[t.value]);
      var reactions := behave(c.calls, registry[i], origin, buffer);
      next := Feed(c, c.table, registry, behave, d, reactions, 0, false, buffer);
      var states := FeedReacts(c, c.table, registry, behave, d, reactions, buffer, 0, false, buffer);
      assert states[|reactions|] == next;
      forall k | 0 <= k < |reactions|
        ensures Call(registry, behave, d, c.table, reactions, buffer, k, states[k], states[k + 1])
      {
        assert Call(registry, behave, d, c.table, reactions, buffer, 0 + k, states[k], states[k + 1]);
      }
    }
  }

  lemma {:induction false} DeliverNotifies(c: Cycle, registry: seq<Endpoint>, behave: Behaviour, origin: Endpoint, buffer: seq<int>)
    requires Descending(c.table)
    ensures Notified(registry, behave, origin, buffer, c, Deliver(c, registry, behave, origin, buffer, 0))
    decreases Rank(origin), 4
  {
    hide Rank, Descending, Turn, Deliver;
    var points := DeliverTurns(c, registry, behave, origin, buffer, 0);
  }

  // --------------------------------------- who is called when no port changes

  /** No receiver ever opens or closes a port. */
  ghost predicate Quiet(behave: Behaviour)
  {
    forall h, e, o, b, k :: 0 <= k < |behave(h, e, o, b)| ==> behave(h, e, o, b)[k].changes == []
  }

  /** Each receiver reacts a fixed number of times to a message from the origin. */
  ghost predicate Regular(behave: Behaviour, origin: Endpoint, count: Endpoint -> nat)
  {
    forall h, e, b :: |behave(h, e, origin, b)| == count(e)
  }

  /** The calls made for an origin, without those for the endpoints it is reduced to. */
  function CallsFor(calls: seq<Delivery>, origin: Endpoint): seq<Delivery>
  {
    if calls == [] then []
    else
      var last := calls[|calls| - 1];
      CallsFor(calls[..|calls| - 1], origin) + if last.origin == origin then [last] else []
  }

  /** The receivers that have a rule for the origin, in registry order. */
  function Eligible(table: Table, registry: seq<Endpoint>, origin: Endpoint): (r: seq<Endpoint>)
    ensures forall e :: e in r ==> Applies(table, origin, e).Some?
  {
    if registry == [] then []
    else (if Applies(table, origin, registry[0]).Some? then [registry[0]] else []) + Eligible(table, registry[1..], origin)
  }

  function CallOf(table: Table, origin: Endpoint, receiver: Endpoint): Delivery
    requires Applies(table, origin, receiver).Some?
  {
    FirstInTable(table, Readings(origin), receiver);
    Delivery(receiver, origin, table[Applies(table, origin, receiver).value])
  }

  /** Each of some receivers called as often as it reacts. */
  function EachCalled(table: Table, receivers: seq<Endpoint>, origin: Endpoint, count: Endpoint -> nat): seq<Delivery>
    requires forall e :: e in receivers ==> Applies(table, origin, e).Some?
  {
    if receivers == [] then []
    else seq(count(receivers[0]), _ => CallOf(table, origin, receivers[0])) + EachCalled(table, receivers[1..], origin, count)
  }

  lemma CallsForMore(calls: seq<Delivery>, d: Delivery, origin: Endpoint)
    ensures CallsFor(calls + [d], origin) == CallsFor(calls, origin) + if d.origin == origin then [d] else []
  {
    assert (calls + [d])[..|calls|] == calls;
  }

  /** A cycle for an endpoint of lower rank makes no call for the origin. */
  lemma {:induction false} CallsForOthers(calls: seq<Delivery>, more: seq<Delivery>, origin: Endpoint)
    requires |calls| <= |more| && more[..|calls|] == calls
    requires forall k :: |calls| <= k < |more| ==> more[k].origin != origin
    ensures CallsFor(more, origin) == CallsFor(calls, origin)
    decreases |more|
  {
    if |more| > |calls| {
      var init := more[..|more| - 1];
      assert init[..|calls|] == calls;
      CallsForOthers(calls, init, origin);
    } else {
      assert more == calls;
    }
  }

  lemma {:induction false} QuietTable(c: Cycle, registry: seq<Endpoint>, behave: Behaviour, origin: Endpoint, buffer: seq<int>, i: nat)
    requires Descending(c.table) && Quiet(behave)
    ensures Deliver(c, registry, behave, origin, buffer, i).table == c.table
    decreases Rank(origin), 1, |registry| - i
  {
    hide Applies, Feed, Rank, Descending, Quiet;
    if i < |registry| {
      var t := Applies(c.table, origin, registry[i]);
      if t.Some? {
        ReducedRank(c.table, origin, registry[i]);
        var d := Delivery(registry[i], origin, c.table[t.value]);
        var reactions := behave(c.calls, registry[i], origin, buffer);
        QuietReactions(behave, c.calls, registry[i], origin, buffer);
        QuietFeedTable(c, c.table, registry, behave, d, reactions, 0, false, buffer);
        QuietTable(Feed(c, c.table, registry, behave, d, reactions, 0, false, buffer), registry, behave, origin, buffer, i + 1);
      } else {
        QuietTable(c, registry, behave, origin, buffer, i + 1);
      }
    }
  }

  predicate NoChanges(reactions: seq<Reaction>)
  {
    forall k :: 0 <= k < |reactions| ==> reactions[k].changes == []
  }

  lemma QuietReactions(behave: Behaviour, h: seq<Delivery>, e: Endpoint, o: Endpoint, b: seq<int>)
    requires Quiet(behave)
    ensures NoChanges(behave(h, e, o, b))
  {
  }

  lemma {:induction false} QuietFeedTable(c: Cycle, seen: Table, registry: seq<Endpoint>, behave: Behaviour, d: Delivery,
                                          reactions: seq<Reaction>, j: nat, forwarded: bool, out: seq<int>)
    requires Descending(c.table) && Rank(d.reduced) < Rank(d.origin) && Quiet(behave) && NoChanges(reactions)
    ensures Feed(c, seen, registry, behave, d, reactions, j, forwarded, out).table == c.table
    decreases Rank(d.origin), 0, |reactions| - j
  {
    hide Deliver, Rank, Descending, Quiet;
    if j < |reactions| {
      var f, o := forwarded || reactions[j].forward.Some?, reactions[j].forward.UnwrapOr(out);
      assert ChangedAll(c.table, []) == c.table;
      var told := c.Told(d, seen, reactions[j].changes);
      if f {
        QuietTable(told, registry, behave, d.reduced, o, 0);
      }
      var next := if f then Deliver(told, registry, behave, d.reduced, o, 0) else told;
      QuietFeedTable(next, seen, registry, behave, d, reactions, j + 1, f, o);
    }
  }

  /** One receiver is called once per reaction. */
  lemma {:induction false} QuietFeedCalls(c: Cycle, seen: Table, registry: seq<Endpoint>, behave: Behaviour, d: Delivery,
                                          reactions: seq<Reaction>, j: nat, forwarded: bool, out: seq<int>)
    requires Descending(c.table) && |c.calls| == |c.tables| && Rank(d.reduced) < Rank(d.origin) && Follows(registry, d, seen)
    requires j <= |reactions|
    ensures CallsFor(Feed(c, seen, registry, behave, d, reactions, j, forwarded, out).calls, d.origin)
         == CallsFor(c.calls, d.origin) + seq(|reactions| - j, _ => d)
    decreases |reactions| - j
  {
    hide Deliver, Rank, Descending, ChangedAll, Follows, CallsFor, Extends;
    if j < |reactions| {
      var f, o := forwarded || reactions[j].forward.Some?, reactions[j].forward.UnwrapOr(out);
      ChangedDescending(c.table, reactions[j].changes);
      var told := c.Told(d, seen, reactions[j].changes);
      CallsForMore(c.calls, d, d.origin);
      var next := told;
      if f {
        next := Deliver(told, registry, behave, d.reduced, o, 0);
        DeliveriesFollowRules(told, registry, behave, d.reduced, o, 0);
        NestedCalls(registry, d.reduced, d.origin, told, next);
      }
      QuietFeedCalls(next, seen, registry, behave, d, reactions, j + 1, f, o);
      assert seq(|reactions| - j, _ => d) == [d] + seq(|reactions| - (j + 1), _ => d);
    }
  }

  lemma NestedCalls(registry: seq<Endpoint>, lower: Endpoint, origin: Endpoint, c: Cycle, r: Cycle)
    requires Extends(registry, lower, c, r) && Rank(lower) < Rank(origin)
    ensures CallsFor(r.calls, origin) == CallsFor(c.calls, origin) && |r.calls| == |r.tables|
  {
    hide Follows;
    CallsForOthers(c.calls, r.calls, origin);
  }

  /** When no port changes, the calls made for the origin are exactly those of the eligible receivers, in registry order. */
  lemma {:induction false} QuietCalls(c: Cycle, registry: seq<Endpoint>, behave: Behaviour, origin: Endpoint, buffer: seq<int>,
                                      i: nat, count: Endpoint -> nat)
    requires Descending(c.table) && |c.calls| == |c.tables| && Quiet(behave) && Regular(behave, origin, count) && i <= |registry|
    ensures CallsFor(Deliver(c, registry, behave, origin, buffer, i).calls, origin)
         == CallsFor(c.calls, origin) + EachCalled(c.table, Eligible(c.table, registry[i..], origin), origin, count)
    decreases |registry| - i
  {
    hide Applies, Feed, Rank, Descending, Quiet, CallsFor, Extends, Follows, EachCalled, Eligible;
    if i < |registry| {
      var e, rest := registry[i], registry[i + 1..];
      assert registry[i..][1..] == rest;
      var t := Applies(c.table, origin, e);
      var others := Eligible(c.table, rest, origin);
      EligibleFirst(c.table, registry[i..], origin);
      if t.Some? {
        ReducedRank(c.table, origin, e);
        var d := Delivery(e, origin, c.table[t.value]);
        var reactions := behave(c.calls, e, origin, buffer);
        QuietReactions(behave, c.calls, e, origin, buffer);
        var next := Feed(c, c.table, registry, behave, d, reactions, 0, false, buffer);
        QuietFeedTable(c, c.table, registry, behave, d, reactions, 0, false, buffer);
        RuleFollowed(c.table, registry, i, origin);
        FedFollowsRules(c, c.table, registry, behave, d, reactions, 0, false, buffer);
        ExtendsCounts(registry, origin, c, next);
        QuietFeedCalls(c, c.table, registry, behave, d, reactions, 0, false, buffer);
        QuietCalls(next, registry, behave, origin, buffer, i + 1, count);
        EachFirst(c.table, e, others, origin, count);
      } else {
        assert [] + others == others;
        QuietCalls(c, registry, behave, origin, buffer, i + 1, count);
      }
    } else {
      EachNone(c.table, registry, origin, count);
    }
  }

  lemma RuleFollowed(table: Table, registry: seq<Endpoint>, i: nat, origin: Endpoint)
    requires Descending(table) && i < |registry| && Applies(table, origin, registry[i]).Some?
    ensures Follows(registry, CallOf(table, origin, registry[i]), table)
  {
    hide Applies;
    ReducedRank(table, origin, registry[i]);
  }

  lemma EligibleFirst(table: Table, registry: seq<Endpoint>, origin: Endpoint)
    requires registry != []
    ensures Eligible(table, registry, origin)
         == (if Applies(table, origin, registry[0]).Some? then [registry[0]] else []) + Eligible(table, registry[1..], origin)
  {
    hide Applies;
  }

  lemma EachFirst(table: Table, e: Endpoint, others: seq<Endpoint>, origin: Endpoint, count: Endpoint -> nat)
    requires Applies(table, origin, e).Some? && forall o :: o in others ==> Applies(table, origin, o).Some?
    ensures EachCalled(table, [e] + others, origin, count)
         == seq(count(e), _ => CallOf(table, origin, e)) + EachCalled(table, others, origin, count)
  {
    hide Applies;
    assert ([e] + others)[1..] == others;
  }

  lemma EachNone(table: Table, registry: seq<Endpoint>, origin: Endpoint, count: Endpoint -> nat)
    ensures EachCalled(table, Eligible(table, registry[|registry|..], origin), origin, count) == []
  {
  }

  // -------------------------------------------------- the cycle as it runs

  /** The ports that a receiver opens and closes in one call. */
  method ApplyChanges(rules: RoutingRules, changes: seq<Change>)
    requires rules.Valid()
    modifies rules
    ensures rules.Valid() && rules.table == ChangedAll(old(rules.table), changes)
  {
    hide Changed, RoutingRules.Valid;
    for i := 0 to |changes|
      invariant rules.Valid() && ChangedAll(rules.table, changes[i..]) == ChangedAll(old(rules.table), changes)
    {
      assert changes[i..][1..] == changes[i + 1..];
      var done;
      match changes[i]
      case Open(tcp, port) => done := ProcessOpen(rules, if tcp then Tcp4 else Udp4, port, NoError);
      case Close(tcp, port) => done := ProcessClose(rules, if tcp then Tcp4 else Udp4, port, NoError);
    }
  }

  /** The notification cycle: it ends because each nested cycle is for an endpoint of lower rank, and no
      change that a receiver makes to the table adds a rule that would not lower it. */
  method NotifyAsImpl(rules: RoutingRules, registry: seq<Endpoint>, behave: Behaviour, origin: Endpoint, buffer: seq<int>,
                      history: seq<Delivery>, ghost before: seq<Table>) returns (calls: seq<Delivery>, ghost tables: seq<Table>)
    requires rules.Valid() && Descending(rules.table)
    modifies rules
    ensures rules.Valid() && Descending(rules.table)
    ensures Cycle(calls, tables, rules.table) == Deliver(Cycle(history, before, old(rules.table)), registry, behave, origin, buffer, 0)
    ensures Notified(registry, behave, origin, buffer, Cycle(history, before, old(rules.table)), Cycle(calls, tables, rules.table))
    ensures forall count: Endpoint -> nat :: Quiet(behave) && |history| == |before| && Regular(behave, origin, count) ==>
      CallsFor(calls, origin) == CallsFor(history, origin)
        + EachCalled(old(rules.table), Eligible(old(rules.table), registry, origin), origin, count)
    decreases Rank(origin), 1
  {
    hide Rank, Applies, Feed, RoutingRules.Valid, Descending, Notified, Quiet, Regular, CallsFor, EachCalled, Eligible;
    calls, tables := history, before;
    for i := 0 to |registry|
      invariant rules.Valid() && Descending(rules.table)
      invariant Deliver(Cycle(calls, tables, rules.table), registry, behave, origin, buffer, i)
             == Deliver(Cycle(history, before, old(rules.table)), registry, behave, origin, buffer, 0)
    {
      var receiver := registry[i];
      var reduced := rules.Reduce(origin, receiver);
      if reduced.Some? {
        ReducedRank(rules.table, origin, receiver);
        calls, tables := FeedReceiver(rules, registry, behave, Delivery(receiver, origin, reduced.value), buffer, calls, tables);
      }
    }
    ghost var start := Cycle(history, before, old(rules.table));
    DeliverNotifies(start, registry, behave, origin, buffer);
    forall count: Endpoint -> nat | Quiet(behave) && |history| == |before| && Regular(behave, origin, count)
      ensures CallsFor(calls, origin) == CallsFor(history, origin)
        + EachCalled(old(rules.table), Eligible(old(rules.table), registry, origin), origin, count)
    {
      assert registry[0..] == registry;
      QuietCalls(start, registry, behave, origin, buffer, 0, count);
    }
  }

  /** The calls of one receiver, and the nested cycles. */
  method FeedReceiver(rules: RoutingRules, registry: seq<Endpoint>, behave: Behaviour, d: Delivery, buffer: seq<int>,
                      history: seq<Delivery>, ghost before: seq<Table>) returns (calls: seq<Delivery>, ghost tables: seq<Table>)
    requires rules.Valid() && Descending(rules.table) && Rank(d.reduced) < Rank(d.origin)
    modifies rules
    ensures rules.Valid() && Descending(rules.table)
    ensures Cycle(calls, tables, rules.table) == Feed(Cycle(history, before, old(rules.table)), old(rules.table), registry, behave, d,
      behave(history, d.receiver, d.origin, buffer), 0, false, buffer)
    decreases Rank(d.origin), 0
  {
    hide Rank, Applies, Deliver, Descending, RoutingRules.Valid, ChangedAll;
    var reactions := behave(history, d.receiver, d.origin, buffer);
    ghost var seen := rules.table;
    var out, forwarded := buffer, false;
    calls, tables := history, before;
    for j := 0 to |reactions|
      invariant rules.Valid() && Descending(rules.table)
      invariant Feed(Cycle(calls, tables, rules.table), seen, registry, behave, d, reactions, j, forwarded, out)
             == Feed(Cycle(history, before, old(rules.table)), seen, registry, behave, d, reactions, 0, false, buffer)
    {
      ChangedDescending(rules.table, reactions[j].changes);
      calls, tables := calls + [d], tables + [seen];
      ApplyChanges(rules, reactions[j].changes);
      if reactions[j].forward.Some? {
        forwarded := true;
        out := reactions[j].forward.value;
      }
      if forwarded {
        calls, tables := NotifyAsImpl(rules, registry, behave, d.reduced, out, calls, tables);
      }
    }
  }
}

/** Endpoints of the bridge, their order, and their fallback interpretations. */
module EndpointVariant {
  datatype Name = Mavlink | MavlinkIpPack | UartMavlinkForwarded | UdpMavlinkForwarded | MavlinkIpPackForwarded | None_

  /** An address and a port; addresses are numbered in the order in which they compare. */
  datatype Remote = Remote(address: nat, port: nat)

  /** The alternatives in the order of their declaration. */
  datatype Endpoint =
    | Named(name: Name)
    | TcpEndpoint(remote: Remote, local: nat)
    | UdpEndpoint(remote: Remote, local: nat)
    | UartEndpoint(num: nat)
    | UdpRemote(remote: Remote)
    | TcpRemote(remote: Remote)
    | TcpPort(port: nat)
    | UdpPort(port: nat)
    | UdpHook(port: nat)

  const NONE := Named(None_)

  /** Other readings of an endpoint, in the order in which they are tried: the remote side, then the local port. */
  function AsAlternative(e: Endpoint): seq<Endpoint>
  {
    match e
    case UdpEndpoint(r, p) => [UdpRemote(r), UdpPort(p)]
    case TcpEndpoint(r, p) => [TcpRemote(r), TcpPort(p)]
    case _ => []
  }

  function NameIndex(n: Name): nat
  {
    match n
    case Mavlink => 0
    case MavlinkIpPack => 1
    case UartMavlinkForwarded => 2
    case UdpMavlinkForwarded => 3
    case MavlinkIpPackForwarded => 4
    case None_ => 5
  }

  /** What endpoints are compared by: the alternative, then its fields from left to right. */
  function Key(e: Endpoint): (k: seq<nat>)
    ensures |k| == 4
  {
    match e
    case Named(n) => [0, NameIndex(n), 0, 0]
    case TcpEndpoint(r, p) => [1, r.address, r.port, p]
    case UdpEndpoint(r, p) => [2, r.address, r.port, p]
    case UartEndpoint(n) => [3, n, 0, 0]
    case UdpRemote(r) => [4, r.address, r.port, 0]
    case TcpRemote(r) => [5, r.address, r.port, 0]
    case TcpPort(p) => [6, p, 0, 0]
    case UdpPort(p) => [7, p, 0, 0]
    case UdpHook(p) => [8, p, 0, 0]
  }

  lemma KeyInjective(a: Endpoint, b: Endpoint)
    requires Key(a) == Key(b)
    ensures a == b
  {
    assert Key(a)[0] == Key(b)[0] && Key(a)[1] == Key(b)[1] && Key(a)[2] == Key(b)[2] && Key(a)[3] == Key(b)[3];
  }

  // ------------------------------------------------------ dictionary order

  predicate LexLess(a: seq<nat>, b: seq<nat>)
    requires |a| == |b|
    decreases |a|
  {
    a != [] && (a[0] < b[0] || (a[0] == b[0] && LexLess(a[1..], b[1..])))
  }

  lemma {:induction false} LexTransitive(a: seq<nat>, b: seq<nat>, c: seq<nat>)
    requires |a| == |b| == |c| && LexLess(a, b) && LexLess(b, c)
    ensures LexLess(a, c)
    decreases |a|
  {
    if a[0] == b[0] == c[0] {
      LexTransitive(a[1..], b[1..], c[1..]);
    }
  }

  lemma {:induction false} LexIrreflexive(a: seq<nat>)
    ensures !LexLess(a, a)
    decreases |a|
  {
    if a != [] {
      LexIrreflexive(a[1..]);
    }
  }

  lemma {:induction false} LexTotal(a: seq<nat>, b: seq<nat>)
    requires |a| == |b|
    ensures LexLess(a, b) || LexLess(b, a) || a == b
    decreases |a|
  {
    if a != [] && a[0] == b[0] {
      LexTotal(a[1..], b[1..]);
      assert a == [a[0]] + a[1..] && b == [b[0]] + b[1..];
    }
  }

  /** What identifies a rule: where a message comes from, and a receiver. */
  datatype Trigger = Trigger(origin: Endpoint, receiver: Endpoint)

  predicate Less(a: Trigger, b: Trigger)
  {
    LexLess(Key(a.origin) + Key(a.receiver), Key(b.origin) + Key(b.receiver))
  }

  lemma LessTransitive(a: Trigger, b: Trigger, c: Trigger)
    requires Less(a, b) && Less(b, c)
    ensures Less(a, c)
  {
    hide LexLess, Key;
    LexTransitive(Key(a.origin) + Key(a.receiver), Key(b.origin) + Key(b.receiver), Key(c.origin) + Key(c.receiver));
  }

  lemma LessIrreflexive(a: Trigger)
    ensures !Less(a, a)
  {
    LexIrreflexive(Key(a.origin) + Key(a.receiver));
  }

  lemma LessTotal(a: Trigger, b: Trigger)
    ensures Less(a, b) || Less(b, a) || a == b
  {
    hide LexLess, Key;
    var x, y := Key(a.origin) + Key(a.receiver), Key(b.origin) + Key(b.receiver);
    LexTotal(x, y);
    if x == y {
      assert x[..4] == Key(a.origin) && x[4..] == Key(a.receiver) && y[..4] == Key(b.origin) && y[4..] == Key(b.receiver);
      KeyInjective(a.origin, b.origin);
      KeyInjective(a.receiver, b.receiver);
    }
  }
}

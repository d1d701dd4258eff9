/** The sorted table of routing rules, and what it agrees with: a plain map. */
module RoutingTable {
  import opened EndpointVariant
  import opened Options

  datatype Rule = Rule(trigger: Trigger, reduction: Endpoint)

  type Table = map<Trigger, Endpoint>

  /** The endpoint itself, then its other readings. */
  function Readings(e: Endpoint): seq<Endpoint>
  {
    [e] + AsAlternative(e)
  }

  /** The first of some readings that has a rule for the receiver. */
  function FirstIn(table: Table, readings: seq<Endpoint>, receiver: Endpoint): Option<Trigger>
  {
    if readings == [] then None
    else if Trigger(readings[0], receiver) in table then Some(Trigger(readings[0], receiver))
    else FirstIn(table, readings[1..], receiver)
  }

  /** The rule that applies to a message from an origin at a receiver. */
  function Applies(table: Table, origin: Endpoint, receiver: Endpoint): (r: Option<Trigger>)
  {
    FirstIn(table, Readings(origin), receiver)
  }

  /** The rule of the first of some triggers that the table has. */
  function FirstOf(table: Table, triggers: seq<Trigger>): Option<Trigger>
  {
    if triggers == [] then None else if triggers[0] in table then Some(triggers[0]) else FirstOf(table, triggers[1..])
  }

  /** What is tried for an origin: a UDP or TCP endpoint itself, its remote side, its local port; anything else only itself. */
  function Tried(origin: Endpoint, receiver: Endpoint): seq<Trigger>
  {
    match origin
    case UdpEndpoint(remote, local) => [Trigger(origin, receiver), Trigger(UdpRemote(remote), receiver), Trigger(UdpPort(local), receiver)]
    case TcpEndpoint(remote, local) => [Trigger(origin, receiver), Trigger(TcpRemote(remote), receiver), Trigger(TcpPort(local), receiver)]
    case _ => [Trigger(origin, receiver)]
  }

  function TriggersFor(readings: seq<Endpoint>, receiver: Endpoint): (r: seq<Trigger>)
    ensures |r| == |readings|
  {
    seq(|readings|, i requires 0 <= i < |readings| => Trigger(readings[i], receiver))
  }

  lemma TriedInOrder(table: Table, origin: Endpoint, receiver: Endpoint)
    ensures Applies(table, origin, receiver) == FirstOf(table, Tried(origin, receiver))
  {
    FirstsAgree(table, Readings(origin), receiver);
    assert Tried(origin, receiver) == TriggersFor(Readings(origin), receiver);
  }

  lemma {:induction false} FirstsAgree(table: Table, readings: seq<Endpoint>, receiver: Endpoint)
    ensures FirstIn(table, readings, receiver) == FirstOf(table, TriggersFor(readings, receiver))
  {
    if readings != [] {
      FirstsAgree(table, readings[1..], receiver);
      assert TriggersFor(readings, receiver)[1..] == TriggersFor(readings[1..], receiver);
    }
  }

  lemma FirstOfThree(table: Table, a: Trigger, b: Trigger, c: Trigger)
    ensures FirstOf(table, [a, b, c]) == if a in table then Some(a) else if b in table then Some(b) else if c in table then Some(c) else None
    ensures FirstOf(table, [c]) == if c in table then Some(c) else None
  {
    assert [a, b, c][1..] == [b, c] && [b, c][1..] == [c] && [c][1..] == [];
    assert FirstOf(table, []).None?;
    assert FirstOf(table, [c]) == if c in table then Some(c) else None;
    assert FirstOf(table, [b, c]) == if b in table then Some(b) else FirstOf(table, [c]);
  }

  lemma TriedOnly(table: Table, origin: Endpoint, receiver: Endpoint)
    ensures Applies(table, origin, receiver).Some? <==> exists t :: t in Tried(origin, receiver) && t in table
  {
    TriedInOrder(table, origin, receiver);
    FirstOfSome(table, Tried(origin, receiver));
    hide Applies, Tried;
  }

  lemma {:induction false} FirstOfSome(table: Table, triggers: seq<Trigger>)
    ensures FirstOf(table, triggers).Some? <==> exists t :: t in triggers && t in table
  {
    if triggers != [] {
      FirstOfSome(table, triggers[1..]);
      assert forall t :: t in triggers <==> t == triggers[0] || t in triggers[1..];
    }
  }

  lemma {:induction false} FirstInTable(table: Table, readings: seq<Endpoint>, receiver: Endpoint)
    ensures var r := FirstIn(table, readings, receiver);
      r.Some? ==> r.value in table && r.value.receiver == receiver && r.value.origin in readings
  {
    if readings != [] {
      FirstInTable(table, readings[1..], receiver);
    }
  }

  ghost predicate Sorted(rules: seq<Rule>)
  {
    forall i, j :: 0 <= i < j < |rules| ==> Less(rules[i].trigger, rules[j].trigger)
  }

  /** The rules are exactly the entries of the map. */
  ghost predicate Represents(rules: seq<Rule>, table: Table)
  {
    && (forall i :: 0 <= i < |rules| ==> rules[i].trigger in table && table[rules[i].trigger] == rules[i].reduction)
    && (forall t :: t in table ==> exists i :: 0 <= i < |rules| && rules[i].trigger == t)
  }

  /** A trigger in the map is found where the search for it ends. */
  lemma FoundAt(rules: seq<Rule>, table: Table, t: Trigger, i: nat)
    requires Sorted(rules) && Represents(rules, table) && t in table && i <= |rules|
    requires forall k :: 0 <= k < i ==> Less(rules[k].trigger, t)
    requires forall k :: i <= k < |rules| ==> !Less(rules[k].trigger, t)
    ensures i < |rules| && rules[i].trigger == t
  {
    hide Less;
    LessIrreflexive(t);
    var k :| 0 <= k < |rules| && rules[k].trigger == t;
    SortedAt(rules, i, k);
  }

  lemma SortedAt(rules: seq<Rule>, i: nat, k: nat)
    requires Sorted(rules)
    ensures i < k < |rules| ==> Less(rules[i].trigger, rules[k].trigger)
  {
  }

  class RoutingRules {
    var rules: seq<Rule>
    ghost var table: Table

    ghost predicate Valid()
      reads this
    {
      Sorted(rules) && Represents(rules, table)
    }

    constructor ()
      ensures Valid() && table == map[]
    {
      rules, table := [], map[];
    }

    /** The first position whose trigger is not less than the given one. */
    method LowerBound(t: Trigger) returns (first: nat)
      requires Valid()
      ensures first <= |rules|
      ensures forall k :: 0 <= k < first ==> Less(rules[k].trigger, t)
      ensures forall k :: first <= k < |rules| ==> !Less(rules[k].trigger, t)
    {
      hide Less;
      first := 0;
      var count := |rules|;
      while count > 0
        invariant 0 <= count && first + count <= |rules|
        invariant forall k :: 0 <= k < first ==> Less(rules[k].trigger, t)
        invariant forall k :: first + count <= k < |rules| ==> !Less(rules[k].trigger, t)
        decreases count
      {
        var step := count / 2;
        var it := first + step;
        if Less(rules[it].trigger, t) {
          forall k | 0 <= k < it ensures Less(rules[k].trigger, t) {
            LessTransitive(rules[k].trigger, rules[it].trigger, t);
          }
          first, count := it + 1, count - (step + 1);
        } else {
          forall k | it < k < |rules| ensures !Less(rules[k].trigger, t) {
            if Less(rules[k].trigger, t) {
              LessTransitive(rules[it].trigger, rules[k].trigger, t);
            }
          }
          count := step;
        }
      }
    }

    /** The position of a rule that applies: searched for the origin, and then for each other reading of it. */
    method Find(origin: Endpoint, receiver: Endpoint) returns (it: Option<nat>)
      requires Valid()
      ensures it.Some? ==> it.value < |rules|
      ensures Applies(table, origin, receiver) == if it.Some? then Some(rules[it.value].trigger) else None
      decreases |AsAlternative(origin)|
    {
      hide Less;
      var t := Trigger(origin, receiver);
      var i := LowerBound(t);
      if t in table {
        FoundAt(rules, table, t, i);
      }
      if i < |rules| && rules[i].trigger == t {
        return Some(i);
      }
      it := None;
      var alternatives := AsAlternative(origin);
      ghost var readings := Readings(origin);
      assert readings[1..] == alternatives;
      for a := 0 to |alternatives|
        invariant it.None? && FirstIn(table, readings, receiver) == FirstIn(table, alternatives[a..], receiver)
      {
        NoMore(table, alternatives[a], receiver);
        it := Find(alternatives[a], receiver);
        assert alternatives[a..][1..] == alternatives[a + 1..];
        if it.Some? {
          break;
        }
      }
    }

    lemma NoMore(table: Table, e: Endpoint, receiver: Endpoint)
      requires AsAlternative(e) == []
      ensures Applies(table, e, receiver) == if Trigger(e, receiver) in table then Some(Trigger(e, receiver)) else None
    {
      assert Readings(e) == [e] && [e][1..] == [];
      assert FirstIn(table, [], receiver).None?;
    }

    /** Adds a rule unless one applies already. */
    method AddStatic(origin: Endpoint, receiver: Endpoint, reduction: Endpoint) returns (added: bool)
      requires Valid()
      modifies this
      ensures Valid() && added == Applies(old(table), origin, receiver).None?
      ensures table == if added then old(table)[Trigger(origin, receiver) := reduction] else old(table)
    {
      hide Less, Sorted, Represents;
      var it := Find(origin, receiver);
      added := it.None?;
      if added {
        var t := Trigger(origin, receiver);
        assert t !in table by {
          assert Readings(origin)[0] == origin;
        }
        var at := LowerBound(t);
        NotIn(rules, table, t);
        InsertSorted(rules, at, Rule(t, reduction));
        ghost var before := rules;
        rules := rules[..at] + [Rule(t, reduction)] + rules[at..];
        table := table[t := reduction];
        InsertRepresents(before, old(table), at, t, reduction);
      }
    }

    lemma NotIn(rules: seq<Rule>, table: Table, t: Trigger)
      requires Represents(rules, table) && t !in table
      ensures forall k :: 0 <= k < |rules| ==> rules[k].trigger != t
    {
    }

    lemma InsertSorted(before: seq<Rule>, at: nat, r: Rule)
      requires Sorted(before) && at <= |before| && forall k :: 0 <= k < |before| ==> before[k].trigger != r.trigger
      requires forall k :: 0 <= k < at ==> Less(before[k].trigger, r.trigger)
      requires forall k :: at <= k < |before| ==> !Less(before[k].trigger, r.trigger)
      ensures Sorted(before[..at] + [r] + before[at..])
    {
      hide Less;
      forall k | at <= k < |before| ensures Less(r.trigger, before[k].trigger) {
        LessTotal(r.trigger, before[k].trigger);
      }
    }

    lemma InsertRepresents(before: seq<Rule>, table: Table, at: nat, t: Trigger, reduction: Endpoint)
      requires Represents(before, table) && at <= |before| && t !in table
      ensures Represents(before[..at] + [Rule(t, reduction)] + before[at..], table[t := reduction])
    {
      var after := before[..at] + [Rule(t, reduction)] + before[at..];
      var updated := table[t := reduction];
      forall u | u in updated ensures exists i :: 0 <= i < |after| && after[i].trigger == u {
        if u == t {
          assert after[at].trigger == t;
        } else {
          var k :| 0 <= k < |before| && before[k].trigger == u;
          assert after[if k < at then k else k + 1].trigger == u;
        }
      }
    }

    /** Removes the rule that applies, if any. */
    method Remove(origin: Endpoint, receiver: Endpoint)
      requires Valid()
      modifies this
      ensures Valid()
      ensures var t := Applies(old(table), origin, receiver);
        table == if t.Some? then old(table) - {t.value} else old(table)
    {
      hide Less;
      var it := Find(origin, receiver);
      if it.Some? {
        ghost var t := rules[it.value].trigger;
        forall k | 0 <= k < |rules| && k != it.value ensures rules[k].trigger != t {
          LessIrreflexive(t);
        }
        RemoveRepresents(rules, table, it.value);
        rules := rules[..it.value] + rules[it.value + 1..];
        table := table - {t};
      }
    }

    lemma RemoveRepresents(before: seq<Rule>, table: Table, at: nat)
      requires Represents(before, table) && at < |before|
      requires forall k :: 0 <= k < |before| && k != at ==> before[k].trigger != before[at].trigger
      ensures Represents(before[..at] + before[at + 1..], table - {before[at].trigger})
    {
      var after := before[..at] + before[at + 1..];
      var smaller := table - {before[at].trigger};
      forall u | u in smaller ensures exists i :: 0 <= i < |after| && after[i].trigger == u {
        var k :| 0 <= k < |before| && before[k].trigger == u;
        assert after[if k < at then k else k - 1].trigger == u;
      }
    }

    /** The endpoint that takes the place of the origin after the receiver; None when no rule applies. */
    method Reduce(origin: Endpoint, receiver: Endpoint) returns (reduced: Option<Endpoint>)
      requires Valid()
      ensures var t := Applies(table, origin, receiver);
        reduced == if t.Some? && t.value in table then Some(table[t.value]) else None
      ensures reduced.Some? == Applies(table, origin, receiver).Some?
    {
      var it := Find(origin, receiver);
      reduced := None;
      if it.Some? {
        reduced := Some(rules[it.value].reduction);
      }
    }
  }
}

/** Revocation gossip (daemon/auth/auth.go, daemon/auth/gossip.go) over any number of nodes, with messages
    lost, repeated and reordered at will. */
module Revocation {
  import opened Machine

  function Copies(id: Str, n: nat): seq<Str> { if n == 0 then [] else Copies(id, n - 1) + [id] }

  /** The gossip topic: everything published on it. */
  class Topic {
    var sent: seq<Str>

    constructor ()
      ensures sent == []
    {
      sent := [];
    }
  }

  /** A node's revocation store and its publish hooks on the topic. */
  class Issuer {
    const topic: Topic
    var revoked: set<Str>
    var hooks: nat

    constructor (topic: Topic)
      ensures this.topic == topic && revoked == {} && hooks == 0
    {
      this.topic, revoked, hooks := topic, {}, 0;
    }

    /** `HookPublish`. */
    method HookPublish()
      modifies this`hooks
      ensures hooks == old(hooks) + 1
    {
      hooks := hooks + 1;
    }

    /** `Revoke`: the local path; every hook publishes the id once. */
    method Revoke(id: Str)
      modifies this`revoked, topic
      ensures revoked == old(revoked) + {id}
      ensures topic.sent == old(topic.sent) + Copies(id, hooks)
      ensures |topic.sent| == |old(topic.sent)| + hooks && old(topic.sent) <= topic.sent
      ensures forall i :: |old(topic.sent)| <= i < |topic.sent| ==> topic.sent[i] == id
    {
      revoked := revoked + {id};
      for i := 0 to hooks
        invariant topic.sent == old(topic.sent) + Copies(id, i) && revoked == old(revoked) + {id}
        invariant |topic.sent| == |old(topic.sent)| + i
        invariant forall j :: |old(topic.sent)| <= j < |topic.sent| ==> topic.sent[j] == id
      {
        topic.sent := topic.sent + [id];
      }
    }

    /** `ApplyRevocation`: the remote path publishes nothing. */
    method ApplyRevocation(id: Str)
      modifies this`revoked
      ensures revoked == old(revoked) + {id}
    {
      revoked := revoked + {id};
    }

    /** One turn of `Run`: an unreadable event, or one without an id, is ignored. */
    method Receive(ev: Option<Str>)
      modifies this`revoked
      ensures revoked == if ev.Some? && ev.value != [] then old(revoked) + {ev.value} else old(revoked)
    {
      if ev.None? || ev.value == [] { return; }
      ApplyRevocation(ev.value);
    }
  }

  // ---------- n nodes, each hooked once ----------

  datatype Net = Net(nodes: seq<set<Str>>, sent: seq<Str>)

  datatype Event = Revoke(node: nat, id: Str) | Deliver(node: nat, msg: nat)

  /** An event at a node or of a message that does not exist does nothing. */
  function Step(s: Net, e: Event): Net {
    match e
    case Revoke(i, id) =>
      if i < |s.nodes| then Net(s.nodes[i := s.nodes[i] + {id}], s.sent + [id]) else s
    case Deliver(i, m) =>
      if i < |s.nodes| && m < |s.sent| && s.sent[m] != [] then s.(nodes := s.nodes[i := s.nodes[i] + {s.sent[m]}]) else s
  }

  function Run(n: nat, events: seq<Event>): Net {
    if events == [] then Net(seq(n, _ => {}), [])
    else Step(Run(n, events[..|events| - 1]), events[|events| - 1])
  }

  /** The nodes of a mesh, each hooked once to one topic. */
  class Mesh {
    const topic: Topic
    const nodes: seq<Issuer>

    ghost predicate Valid()
      reads nodes
    {
      (forall i :: 0 <= i < |nodes| ==> nodes[i].topic == topic && nodes[i].hooks == 1)
      && forall i, j :: 0 <= i < j < |nodes| ==> nodes[i] != nodes[j]
    }

    ghost function State(): Net
      reads topic, nodes
    {
      Net(seq(|nodes|, i requires 0 <= i < |nodes| reads nodes => nodes[i].revoked), topic.sent)
    }

    constructor (n: nat)
      ensures Valid() && |nodes| == n && State() == Run(n, [])
      ensures fresh(topic) && forall x :: x in nodes ==> fresh(x)
    {
      var t := new Topic();
      var ns: seq<Issuer> := [];
      for k := 0 to n
        invariant |ns| == k && t.sent == [] && fresh(t) && forall x :: x in ns ==> fresh(x)
        invariant forall i :: 0 <= i < k ==> ns[i].topic == t && ns[i].hooks == 1 && ns[i].revoked == {}
        invariant forall i, j :: 0 <= i < j < k ==> ns[i] != ns[j]
      {
        var node := new Issuer(t);
        node.HookPublish();
        ns := ns + [node];
      }
      topic, nodes := t, ns;
    }

    /** A local revocation at a node is a step of the network. */
    method RevokeAt(i: nat, id: Str)
      requires Valid()
      modifies topic, nodes
      ensures Valid() && State() == Step(old(State()), Revoke(i, id))
    {
      if i < |nodes| {
        assert Copies(id, 1) == [] + [id] by { assert Copies(id, 0) == []; }
        nodes[i].Revoke(id);
        assert State().nodes == old(State()).nodes[i := old(State()).nodes[i] + {id}];
      }
    }

    /** So is a message taken off the topic. */
    method DeliverTo(i: nat, m: nat)
      requires Valid()
      modifies nodes
      ensures Valid() && State() == Step(old(State()), Deliver(i, m))
    {
      if i < |nodes| && m < |topic.sent| {
        nodes[i].Receive(Some(topic.sent[m]));
        assert State().nodes == old(State()).nodes[i := nodes[i].revoked];
      }
    }
  }

  /** Issuers driven through any events end where the network's run ends. */
  method Gossip(n: nat, events: seq<Event>) returns (mesh: Mesh)
    ensures fresh(mesh) && mesh.Valid() && |mesh.nodes| == n && mesh.State() == Run(n, events)
  {
    mesh := new Mesh(n);
    for k := 0 to |events|
      invariant fresh(mesh.topic) && forall x :: x in mesh.nodes ==> fresh(x)
      invariant mesh.Valid() && mesh.State() == Run(n, events[..k])
    {
      RunSnoc(n, events, k);
      match events[k] {
        case Revoke(i, id) => mesh.RevokeAt(i, id);
        case Deliver(i, m) => mesh.DeliverTo(i, m);
      }
    }
    assert events[..|events|] == events;
  }

  /** The ids revoked locally, in order, and those revoked at one node. */
  function Revokes(n: nat, events: seq<Event>): seq<Str> {
    if events == [] then []
    else
      var e := events[|events| - 1];
      Revokes(n, events[..|events| - 1]) + if e.Revoke? && e.node < n then [e.id] else []
  }

  function LocalTo(i: nat, events: seq<Event>): set<Str> {
    set e | e in events && e.Revoke? && e.node == i :: e.id
  }

  lemma LocalSnoc(i: nat, events: seq<Event>)
    requires events != []
    ensures var e := events[|events| - 1];
            LocalTo(i, events) == LocalTo(i, events[..|events| - 1]) + if e.Revoke? && e.node == i then {e.id} else {}
  {
    var init, e := events[..|events| - 1], events[|events| - 1];
    assert events == init + [e];
    assert forall x :: x in events <==> x in init || x == e;
  }

  /** In every reachable state: what was published is exactly the local revokes in order, so applying
      never publishes; a node holds every id revoked there, and nothing that no node revoked; and the
      empty id is held only where it was revoked. */
  lemma {:induction false} GossipInvariant(n: nat, events: seq<Event>)
    ensures var s := Run(n, events);
            |s.nodes| == n && s.sent == Revokes(n, events)
            && forall i :: 0 <= i < n ==>
                 LocalTo(i, events) <= s.nodes[i]
                 && (forall id :: id in s.nodes[i] ==> id in s.sent)
                 && ([] in s.nodes[i] ==> [] in LocalTo(i, events))
  {
    if events != [] {
      GossipInvariant(n, events[..|events| - 1]);
      var s, s' := Run(n, events[..|events| - 1]), Run(n, events);
      forall i | 0 <= i < n
        ensures LocalTo(i, events) <= s'.nodes[i]
        ensures forall id :: id in s'.nodes[i] ==> id in s'.sent
        ensures [] in s'.nodes[i] ==> [] in LocalTo(i, events)
      {
        LocalSnoc(i, events);
      }
    }
  }

  lemma StepGrows(s: Net, e: Event, i: nat)
    requires i < |s.nodes|
    ensures |Step(s, e).nodes| == |s.nodes| && s.nodes[i] <= Step(s, e).nodes[i] && s.sent <= Step(s, e).sent
  {
  }

  /** A revocation never un-applies: along every run a node's set, and the published list, only grow. */
  lemma {:induction false} OnlyGrows(n: nat, events: seq<Event>, k: nat, i: nat)
    requires k <= |events| && i < n
    ensures |Run(n, events[..k]).nodes| == |Run(n, events).nodes| == n
    ensures Run(n, events[..k]).nodes[i] <= Run(n, events).nodes[i]
    ensures Run(n, events[..k]).sent <= Run(n, events).sent
    decreases |events| - k
  {
    GossipInvariant(n, events[..k]);
    if k == |events| {
      assert events[..k] == events;
    } else {
      OnlyGrows(n, events, k + 1, i);
      assert events[..k + 1][..k] == events[..k];
      StepGrows(Run(n, events[..k]), events[k], i);
    }
  }

  /** Message `m` was delivered to node `i` after it had been published. */
  ghost predicate Reached(n: nat, events: seq<Event>, i: nat, m: nat) {
    exists t :: 0 <= t < |events| && events[t] == Deliver(i, m) && m < |Run(n, events[..t]).sent|
  }

  lemma {:induction false} RunSnoc(n: nat, events: seq<Event>, t: nat)
    requires t < |events|
    ensures Run(n, events[..t + 1]) == Step(Run(n, events[..t]), events[t])
  {
    assert events[..t + 1][..t] == events[..t];
  }

  lemma {:induction false} ReachedIsHeld(n: nat, events: seq<Event>, i: nat, m: nat)
    requires i < n && m < |Run(n, events).sent| && Reached(n, events, i, m) && Run(n, events).sent[m] != []
    ensures |Run(n, events).nodes| == n && Run(n, events).sent[m] in Run(n, events).nodes[i]
  {
    var t :| 0 <= t < |events| && events[t] == Deliver(i, m) && m < |Run(n, events[..t]).sent|;
    OnlyGrows(n, events, t, i);
    OnlyGrows(n, events, t + 1, i);
    RunSnoc(n, events, t);
    hide Run, Reached;
  }

  /** Once every message has reached every node, each holds exactly the non-empty ids revoked anywhere,
      and the empty id just where it was revoked itself. */
  lemma {:induction false} Convergence(n: nat, events: seq<Event>, i: nat)
    requires i < n && forall m: nat :: m < |Run(n, events).sent| ==> Reached(n, events, i, m)
    ensures |Run(n, events).nodes| == n
    ensures forall id :: id in Run(n, events).nodes[i] <==>
              if id != [] then id in Revokes(n, events) else id in LocalTo(i, events)
  {
    GossipInvariant(n, events);
    var s := Run(n, events);
    forall id | id != [] && id in s.sent ensures id in s.nodes[i] {
      var m :| 0 <= m < |s.sent| && s.sent[m] == id;
      ReachedIsHeld(n, events, i, m);
    }
  }

  /** So two nodes that have heard everything hold the same set exactly when both or neither revoked the
      empty id, which receivers ignore. */
  lemma {:induction false} AgreeExactly(n: nat, events: seq<Event>, i: nat, j: nat)
    requires i < n && j < n
    requires forall m: nat :: m < |Run(n, events).sent| ==> Reached(n, events, i, m) && Reached(n, events, j, m)
    ensures |Run(n, events).nodes| == n
    ensures Run(n, events).nodes[i] == Run(n, events).nodes[j] <==> ([] in LocalTo(i, events) <==> [] in LocalTo(j, events))
  {
    hide Reached;
    Convergence(n, events, i);
    Convergence(n, events, j);
    var s := Run(n, events);
    assert [] in s.nodes[i] <==> [] in LocalTo(i, events);
    assert [] in s.nodes[j] <==> [] in LocalTo(j, events);
    assert (forall id :: id in s.nodes[i] <==> id in s.nodes[j]) ==> s.nodes[i] == s.nodes[j];
  }

  /** The empty id, revoked at one of two nodes and delivered to both, stays where it was revoked. */
  lemma EmptyIdExample()
    ensures var s := Run(2, [Revoke(0, []), Deliver(0, 0), Deliver(1, 0)]);
            s.nodes == [{[]}, {}] && s.sent == [[]]
  {
    var e1, e2, e3 := Revoke(0, []), Deliver(0, 0), Deliver(1, 0);
    assert [e1, e2, e3][..2] == [e1, e2] && [e1, e2][..1] == [e1] && [e1][..0] == [];
    var s0, s1 := Run(2, []), Net([{[]}, {}], [[]]);
    assert |s0.nodes| == 2 && s0.nodes[0] == {} && s0.nodes[1] == {};
    assert s0.nodes[0] + {[]} == {[]};
    assert Step(s0, e1).nodes == [{[]}, {}];
    assert Run(2, [e1]) == s1;
    assert Run(2, [e1, e2]) == Step(s1, e2) == s1;
    assert Run(2, [e1, e2, e3]) == Step(Run(2, [e1, e2]), e3);
  }
}

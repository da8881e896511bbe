/** Placement and re-routing (daemon/scheduler/scheduler.go) under any cost model. */
module Scheduler {
  import opened Machine

  type Peer = Str

  /** A node's latest telemetry; `reading` is everything a cost model looks at. */
  datatype Telemetry = Telemetry(peer: Peer, reading: Str)

  datatype Task = Task(id: Str, shard: Str, caps: seq<Str>)

  datatype Placement = Placement(shard: Str, node: Peer, caps: seq<Str>)

  datatype Plan = Plan(task: Str, placements: seq<Placement>, standbys: seq<Placement>)

  /** A score for the nodes that can run the task at all; higher is better. */
  type Cost = (Task, Telemetry) -> Option<real>

  function Feasible(nodes: map<Peer, Telemetry>, cost: Cost, t: Task, exclude: set<Peer>): set<Peer> {
    set n | n in nodes && n !in exclude && cost(t, nodes[n]).Some?
  }

  function Score(nodes: map<Peer, Telemetry>, cost: Cost, t: Task, n: Peer): real {
    if n in nodes then cost(t, nodes[n]).GetOr(0.0) else 0.0
  }

  predicate Distinct(r: seq<Peer>) { forall i, j :: 0 <= i < j < |r| ==> r[i] != r[j] }

  predicate BestFirst(nodes: map<Peer, Telemetry>, cost: Cost, t: Task, r: seq<Peer>) {
    forall i, j :: 0 <= i < j < |r| ==> Score(nodes, cost, t, r[i]) >= Score(nodes, cost, t, r[j])
  }

  /** `rank`: the feasible nodes, each once, best first; ties may come in any order. */
  ghost predicate IsRanking(nodes: map<Peer, Telemetry>, cost: Cost, t: Task, exclude: set<Peer>, r: seq<Peer>) {
    Distinct(r) && BestFirst(nodes, cost, t, r) && forall n :: n in r <==> n in Feasible(nodes, cost, t, exclude)
  }

  /** Sorting by insertion, after equals: what a stable descending sort of the map's candidates gives. */
  method Rank(nodes: map<Peer, Telemetry>, cost: Cost, t: Task, exclude: set<Peer>) returns (r: seq<Peer>)
    ensures IsRanking(nodes, cost, t, exclude, r)
  {
    r := [];
    var todo := nodes.Keys;
    while todo != {}
      invariant todo <= nodes.Keys
      invariant IsRanking(nodes, cost, t, exclude + todo, r)
    {
      var n :| n in todo;
      if n !in exclude && cost(t, nodes[n]).Some? {
        var at := 0;
        while at < |r| && Score(nodes, cost, t, r[at]) >= Score(nodes, cost, t, n)
          invariant 0 <= at <= |r|
          invariant forall i :: 0 <= i < at ==> Score(nodes, cost, t, r[i]) >= Score(nodes, cost, t, n)
        {
          at := at + 1;
        }
        assert Feasible(nodes, cost, t, exclude + (todo - {n})) == Feasible(nodes, cost, t, exclude + todo) + {n};
        InsertMembers(r, n, at);
        InsertBestFirst(nodes, cost, t, r, n, at);
        r := r[..at] + [n] + r[at..];
      } else {
        assert Feasible(nodes, cost, t, exclude + todo) == Feasible(nodes, cost, t, exclude + (todo - {n}));
      }
      todo := todo - {n};
    }
    assert exclude + {} == exclude;
  }

  lemma InsertMembers(r: seq<Peer>, n: Peer, at: nat)
    requires at <= |r| && Distinct(r)
    ensures forall x :: x in r[..at] + [n] + r[at..] <==> x in r || x == n
    ensures n !in r ==> Distinct(r[..at] + [n] + r[at..])
  {
    assert r == r[..at] + r[at..];
  }

  lemma InsertBestFirst(nodes: map<Peer, Telemetry>, cost: Cost, t: Task, r: seq<Peer>, n: Peer, at: nat)
    requires BestFirst(nodes, cost, t, r) && at <= |r|
    requires forall i :: 0 <= i < at ==> Score(nodes, cost, t, r[i]) >= Score(nodes, cost, t, n)
    requires at < |r| ==> Score(nodes, cost, t, r[at]) < Score(nodes, cost, t, n)
    ensures BestFirst(nodes, cost, t, r[..at] + [n] + r[at..])
  {
    hide Score;
    var s := r[..at] + [n] + r[at..];
    forall i, j | 0 <= i < j < |s| ensures Score(nodes, cost, t, s[i]) >= Score(nodes, cost, t, s[j]) {
      if i == at && j > at + 1 { assert Score(nodes, cost, t, r[at]) >= Score(nodes, cost, t, r[j - 1]); }
    }
  }

  // ---------- plans ----------

  /** Each standby sits on another node than the primary it stands by for. */
  predicate Separated(p: Plan) {
    (p.standbys == [] || |p.standbys| == |p.placements|)
    && forall i :: 0 <= i < |p.standbys| ==> p.standbys[i].node != p.placements[i].node
  }

  predicate PrimaryOn(p: Plan, n: Peer) { exists x :: x in p.placements && x.node == n }

  predicate Mentions(p: Plan, n: Peer) { PrimaryOn(p, n) || exists x :: x in p.standbys && x.node == n }

  function PlanOn(task: Str, shard: Str, caps: seq<Str>, ranked: seq<Peer>): Plan
    requires ranked != []
  {
    Plan(task, [Placement(shard, ranked[0], caps)], if |ranked| > 1 then [Placement(shard, ranked[1], caps)] else [])
  }

  function Turn(ranked: seq<Peer>, i: nat): Peer
    requires ranked != []
  {
    ranked[i % |ranked|]
  }

  /** Round-robin over the ranking, each standby one further along. */
  function PipelineOn(task: Str, shards: seq<Str>, ranked: seq<Peer>): Plan
    requires ranked != []
  {
    Plan(task,
         seq(|shards|, i requires 0 <= i < |shards| => Placement(shards[i], Turn(ranked, i), [])),
         if |ranked| > 1
         then seq(|shards|, i requires 0 <= i < |shards| => Placement(shards[i], Turn(ranked, i + 1), []))
         else [])
  }

  method BuildPipeline(task: Str, shards: seq<Str>, ranked: seq<Peer>) returns (plan: Plan)
    requires ranked != []
    ensures plan == PipelineOn(task, shards, ranked)
  {
    hide Turn;
    var primaries: seq<Placement>, standbys: seq<Placement> := [], [];
    ghost var goal := PipelineOn(task, shards, ranked);
    for i := 0 to |shards|
      invariant |primaries| == i && forall j :: 0 <= j < i ==> primaries[j] == goal.placements[j]
      invariant |ranked| > 1 ==> |standbys| == i && forall j :: 0 <= j < i ==> standbys[j] == goal.standbys[j]
      invariant |ranked| <= 1 ==> standbys == []
    {
      primaries := primaries + [Placement(shards[i], Turn(ranked, i), [])];
      if |ranked| > 1 {
        standbys := standbys + [Placement(shards[i], Turn(ranked, i + 1), [])];
      }
    }
    assert primaries == goal.placements && standbys == goal.standbys;
    plan := Plan(task, primaries, standbys);
  }

  lemma MultipleIsFar(n: nat, d: int)
    ensures n * d <= 0 || n * d >= n
  {
    if d >= 1 { assert n * d == n + n * (d - 1); }
  }

  lemma ApartModulo(i: nat, j: nat, n: nat)
    requires i < j && j - i < n
    ensures i % n != j % n
  {
    MultipleIsFar(n, j / n - i / n);
    assert j - i == n * (j / n - i / n) + (j % n - i % n);
  }

  /** The pipeline covers every shard, keeps standbys apart, and uses distinct nodes for up to as many
      shards as there are nodes. */
  lemma PipelineSpreads(task: Str, shards: seq<Str>, ranked: seq<Peer>)
    requires ranked != [] && Distinct(ranked)
    ensures Separated(PipelineOn(task, shards, ranked))
    ensures forall i, j :: 0 <= i < j < |shards| && j - i < |ranked| ==>
              PipelineOn(task, shards, ranked).placements[i].node != PipelineOn(task, shards, ranked).placements[j].node
  {
    var p, n := PipelineOn(task, shards, ranked), |ranked|;
    forall i | 0 <= i < |p.standbys| ensures p.standbys[i].node != p.placements[i].node {
      ApartModulo(i, i + 1, n);
    }
    forall i, j | 0 <= i < j < |shards| && j - i < n ensures p.placements[i].node != p.placements[j].node {
      ApartModulo(i, j, n);
    }
  }

  // ---------- which nodes a plan uses ----------

  /** Of the nodes that can run the task and are not excluded, none scores higher than `n`. */
  predicate Best(nodes: map<Peer, Telemetry>, cost: Cost, t: Task, exclude: set<Peer>, n: Peer) {
    n in nodes && n !in exclude && cost(t, nodes[n]).Some?
    && forall m :: m in nodes && m !in exclude && cost(t, nodes[m]).Some? ==>
         cost(t, nodes[m]).value <= cost(t, nodes[n]).value
  }

  predicate NoneLeft(nodes: map<Peer, Telemetry>, cost: Cost, t: Task, exclude: set<Peer>) {
    forall m :: m in nodes && m !in exclude ==> cost(t, nodes[m]).None?
  }

  lemma HeadIsBest(nodes: map<Peer, Telemetry>, cost: Cost, t: Task, exclude: set<Peer>, r: seq<Peer>)
    requires IsRanking(nodes, cost, t, exclude, r)
    ensures r == [] <==> NoneLeft(nodes, cost, t, exclude)
    ensures r != [] ==> Best(nodes, cost, t, exclude, r[0])
  {
    if r == [] {
      EmptyRanking(nodes, cost, t, exclude, r);
      assert forall m :: m in nodes && m !in exclude && cost(t, nodes[m]).Some? ==> m in Feasible(nodes, cost, t, exclude);
    } else {
      assert r[0] in r;
      forall m | m in nodes && m !in exclude && cost(t, nodes[m]).Some?
        ensures cost(t, nodes[m]).value <= cost(t, nodes[r[0]]).value
      {
        assert m in r;
        var i :| 0 <= i < |r| && r[i] == m;
        assert i > 0 ==> Score(nodes, cost, t, r[0]) >= Score(nodes, cost, t, r[i]);
      }
    }
  }

  lemma TailIsRanking(nodes: map<Peer, Telemetry>, cost: Cost, t: Task, exclude: set<Peer>, r: seq<Peer>)
    requires IsRanking(nodes, cost, t, exclude, r) && r != []
    ensures IsRanking(nodes, cost, t, exclude + {r[0]}, r[1..])
  {
    hide Score;
    forall n ensures n in r[1..] <==> n in Feasible(nodes, cost, t, exclude + {r[0]}) {
      assert n in r <==> n == r[0] || n in r[1..];
      assert r[0] !in r[1..];
      assert n in Feasible(nodes, cost, t, exclude + {r[0]}) <==> n in Feasible(nodes, cost, t, exclude) && n != r[0];
    }
  }

  /** The plan puts the shard on a best node, with a best of the others standing by if there is one. */
  ghost predicate PlansBest(nodes: map<Peer, Telemetry>, cost: Cost, t: Task, exclude: set<Peer>, plan: Plan, caps: seq<Str>) {
    plan.task == t.id && |plan.placements| == 1
    && var n := plan.placements[0].node;
       plan.placements[0] == Placement(t.shard, n, caps) && Best(nodes, cost, t, exclude, n)
       && if NoneLeft(nodes, cost, t, exclude + {n}) then plan.standbys == []
          else |plan.standbys| == 1
               && plan.standbys[0] == Placement(t.shard, plan.standbys[0].node, caps)
               && Best(nodes, cost, t, exclude + {n}, plan.standbys[0].node)
  }

  lemma PlanOnBest(nodes: map<Peer, Telemetry>, cost: Cost, t: Task, exclude: set<Peer>, ranked: seq<Peer>, caps: seq<Str>)
    requires IsRanking(nodes, cost, t, exclude, ranked) && ranked != []
    ensures PlansBest(nodes, cost, t, exclude, PlanOn(t.id, t.shard, caps, ranked), caps)
  {
    hide IsRanking, Best, NoneLeft;
    HeadIsBest(nodes, cost, t, exclude, ranked);
    TailIsRanking(nodes, cost, t, exclude, ranked);
    HeadIsBest(nodes, cost, t, exclude + {ranked[0]}, ranked[1..]);
  }

  lemma TurnsComeRound(ranked: seq<Peer>, i: nat)
    requires ranked != []
    ensures Turn(ranked, i + |ranked|) == Turn(ranked, i) && (i < |ranked| ==> Turn(ranked, i) == ranked[i])
  {
    RoundAgain(i, |ranked|);
    if i < |ranked| { SmallModulo(i, |ranked|); }
  }

  /** The pipeline gives each shard, in order, a node of the ranking, and the next shard's node as standby. */
  lemma PipelineCovers(task: Str, shards: seq<Str>, ranked: seq<Peer>)
    requires ranked != []
    ensures var p := PipelineOn(task, shards, ranked);
            p.task == task && |p.placements| == |shards| && |p.standbys| == (if |ranked| > 1 then |shards| else 0)
            && (forall i :: 0 <= i < |shards| ==> p.placements[i].shard == shards[i] && p.placements[i].caps == [])
            && (forall i :: 0 <= i < |p.standbys| ==> p.standbys[i].shard == shards[i] && p.standbys[i].caps == [])
            && (forall i :: 0 <= i < |p.standbys| - 1 ==> p.standbys[i].node == p.placements[i + 1].node)
  {
    hide Turn;
  }

  /** The nodes come in the order of the ranking, which comes round again after its last. */
  lemma PipelineNode(task: Str, shards: seq<Str>, ranked: seq<Peer>, i: nat)
    requires ranked != [] && i < |shards|
    ensures var p := PipelineOn(task, shards, ranked);
            (i < |ranked| ==> p.placements[i].node == ranked[i])
            && (i + |ranked| < |shards| ==> p.placements[i + |ranked|].node == p.placements[i].node)
  {
    hide Turn;
    TurnsComeRound(ranked, i);
  }

  /** So the first shard goes to a best node, and later ones to no better nodes until the ranking comes round. */
  lemma PipelineTakesBest(nodes: map<Peer, Telemetry>, cost: Cost, task: Str, shards: seq<Str>, ranked: seq<Peer>)
    requires IsRanking(nodes, cost, Task(task, [], []), {}, ranked) && ranked != [] && shards != []
    ensures var p, t := PipelineOn(task, shards, ranked), Task(task, [], []);
            Best(nodes, cost, t, {}, p.placements[0].node)
            && forall i, j :: 0 <= i < j < |shards| && j < |ranked| ==>
                 Score(nodes, cost, t, p.placements[i].node) >= Score(nodes, cost, t, p.placements[j].node)
  {
    hide PipelineOn, Score, Best;
    PipelineCovers(task, shards, ranked);
    forall i | 0 <= i < |shards| && i < |ranked| ensures PipelineOn(task, shards, ranked).placements[i].node == ranked[i] {
      PipelineNode(task, shards, ranked, i);
    }
    HeadIsBest(nodes, cost, Task(task, [], []), {}, ranked);
  }

  lemma SmallModulo(i: nat, n: nat)
    requires i < n
    ensures i % n == i
  {
  }

  lemma RoundAgain(i: nat, n: nat)
    requires n > 0
    ensures (i + n) % n == i % n
  {
    var d := (i + n) / n - i / n - 1;
    assert n * d == i % n - (i + n) % n by { Spread(i, n, d); }
    MultipleIsFar(n, d);
    MultipleIsFar(n, -d);
    assert n * -d == -(n * d);
  }

  lemma Spread(i: nat, n: nat, d: int)
    requires n > 0 && d == (i + n) / n - i / n - 1
    ensures n * d == i % n - (i + n) % n
  {
    var a, b := (i + n) / n, i / n;
    assert i + n == n * a + (i + n) % n && i == n * b + i % n;
    assert n * (a - b - 1) == n * a - n * b - n;
  }

  // ---------- the scheduler ----------

  datatype Outcome = Placed(plan: Plan) | NoFeasible | UnknownTask

  function PrevShard(p: Plan): Str { if |p.placements| > 0 then p.placements[0].shard else [] }

  /** The task a reroute ranks for: only the id and the first shard survive. */
  function Remnant(task: Str, p: Plan): Task { Task(task, PrevShard(p), []) }

  /** The lost node was the first primary and has a standby. */
  predicate Promotes(p: Plan, lost: Peer) { |p.placements| > 0 && p.placements[0].node == lost && |p.standbys| > 0 }

  function Avoided(p: Plan, lost: Peer): set<Peer> {
    if Promotes(p, lost) then {lost, p.standbys[0].node} else {lost}
  }

  function Rerouted(task: Str, p: Plan, lost: Peer, ranked: seq<Peer>): Plan
    requires Promotes(p, lost) || ranked != []
  {
    if Promotes(p, lost) then
      Plan(task, [p.standbys[0]], if ranked != [] then [Placement(p.placements[0].shard, ranked[0], [])] else [])
    else PlanOn(task, PrevShard(p), [], ranked)
  }

  ghost predicate IsReroute(nodes: map<Peer, Telemetry>, cost: Cost, task: Str, prev: Plan, lost: Peer, plan: Plan) {
    exists ranked :: IsRanking(nodes, cost, Remnant(task, prev), Avoided(prev, lost), ranked)
                     && (Promotes(prev, lost) || ranked != []) && plan == Rerouted(task, prev, lost, ranked)
  }

  /** Said of the nodes: losing the first primary promotes its standby, which keeps its shard and capabilities,
      with a best of the other nodes standing by for the lost shard; otherwise the first shard goes to a best
      node other than the lost one. */
  lemma RerouteTakesBest(nodes: map<Peer, Telemetry>, cost: Cost, task: Str, prev: Plan, lost: Peer, plan: Plan)
    requires IsReroute(nodes, cost, task, prev, lost, plan)
    ensures var shard := if |prev.placements| > 0 then prev.placements[0].shard else [];
            var t := Task(task, shard, []);
            if |prev.placements| > 0 && prev.placements[0].node == lost && |prev.standbys| > 0 then
              var rest := {lost, prev.standbys[0].node};
              plan.task == task && plan.placements == [prev.standbys[0]]
              && if NoneLeft(nodes, cost, t, rest) then plan.standbys == []
                 else |plan.standbys| == 1 && plan.standbys[0] == Placement(shard, plan.standbys[0].node, [])
                      && Best(nodes, cost, t, rest, plan.standbys[0].node)
            else PlansBest(nodes, cost, t, {lost}, plan, [])
  {
    var ranked :| IsRanking(nodes, cost, Remnant(task, prev), Avoided(prev, lost), ranked)
                  && (Promotes(prev, lost) || ranked != []) && plan == Rerouted(task, prev, lost, ranked);
    hide IsRanking, Best, NoneLeft;
    HeadIsBest(nodes, cost, Remnant(task, prev), Avoided(prev, lost), ranked);
    if !Promotes(prev, lost) { PlanOnBest(nodes, cost, Remnant(task, prev), {lost}, ranked, []); }
  }

  class Placer {
    var nodes: map<Peer, Telemetry>
    const cost: Cost
    var placements: map<Str, Plan>

    ghost predicate Valid()
      reads this
    {
      forall k :: k in placements ==> Separated(placements[k])
    }

    constructor (cost: Cost)
      ensures Valid() && nodes == map[] && placements == map[] && this.cost == cost
    {
      nodes, this.cost, placements := map[], cost, map[];
    }

    method UpdateNode(t: Telemetry)
      requires Valid()
      modifies this`nodes
      ensures Valid() && nodes == old(nodes)[t.peer := t]
    {
      nodes := nodes[t.peer := t];
    }

    method Place(t: Task) returns (r: Outcome)
      requires Valid()
      modifies this`placements
      ensures Valid()
      ensures r.NoFeasible? <==> Feasible(nodes, cost, t, {}) == {}
      ensures r.NoFeasible? || r.Placed?
      ensures r.NoFeasible? ==> placements == old(placements)
      ensures r.Placed? ==> placements == old(placements)[t.id := r.plan]
                            && exists ranked :: ranked != [] && IsRanking(nodes, cost, t, {}, ranked)
                                                && r.plan == PlanOn(t.id, t.shard, t.caps, ranked)
      ensures r.Placed? ==> PlansBest(nodes, cost, t, {}, r.plan, t.caps)
    {
      var ranked := Rank(nodes, cost, t, {});
      if |ranked| == 0 {
        EmptyRanking(nodes, cost, t, {}, ranked);
        return NoFeasible;
      }
      assert ranked[0] in Feasible(nodes, cost, t, {});
      var plan := PlanOn(t.id, t.shard, t.caps, ranked);
      assert PlansBest(nodes, cost, t, {}, plan, t.caps) by { PlanOnBest(nodes, cost, t, {}, ranked, t.caps); }
      placements := placements[t.id := plan];
      r := Placed(plan);
    }

    method PlacePipeline(task: Str, shards: seq<Str>) returns (r: Outcome)
      requires Valid()
      modifies this`placements
      ensures Valid()
      ensures r.NoFeasible? <==> Feasible(nodes, cost, Task(task, [], []), {}) == {}
      ensures r.NoFeasible? || r.Placed?
      ensures r.NoFeasible? ==> placements == old(placements)
      ensures r.Placed? ==> placements == old(placements)[task := r.plan]
                            && exists ranked :: ranked != [] && IsRanking(nodes, cost, Task(task, [], []), {}, ranked)
                                                && r.plan == PipelineOn(task, shards, ranked)
    {
      var ranked := Rank(nodes, cost, Task(task, [], []), {});
      if |ranked| == 0 {
        EmptyRanking(nodes, cost, Task(task, [], []), {}, ranked);
        return NoFeasible;
      }
      assert ranked[0] in Feasible(nodes, cost, Task(task, [], []), {});
      hide PipelineOn, Separated;
      var plan := BuildPipeline(task, shards, ranked);
      PipelineSpreads(task, shards, ranked);
      placements := placements[task := plan];
      r := Placed(plan);
    }

    /** A successful reroute promotes the standby, or else takes the best other node, with the best of the
        rest standing by, and mentions the lost node nowhere; a failed one changes nothing, and fails only
        for an unknown task or when no other node is feasible. */
    method Reroute(task: Str, lost: Peer) returns (r: Outcome)
      requires Valid()
      modifies this`placements
      ensures Valid()
      ensures r.UnknownTask? <==> task !in old(placements)
      ensures !r.Placed? ==> placements == old(placements)
      ensures r.NoFeasible? ==> Feasible(nodes, cost, Remnant(task, old(placements)[task]), {lost}) == {}
      ensures r.Placed? ==> placements == old(placements)[task := r.plan] && !Mentions(r.plan, lost)
                            && IsReroute(nodes, cost, task, old(placements)[task], lost, r.plan)
    {
      if task !in placements { return UnknownTask; }
      var prev := placements[task];
      assert Separated(prev);
      var t := Remnant(task, prev);
      var ranked := Rank(nodes, cost, t, Avoided(prev, lost));
      assert forall i :: 0 <= i < |ranked| ==> ranked[i] in Feasible(nodes, cost, t, Avoided(prev, lost));
      if !Promotes(prev, lost) && |ranked| == 0 {
        EmptyRanking(nodes, cost, t, {lost}, ranked);
        return NoFeasible;
      }
      var plan := Rerouted(task, prev, lost, ranked);
      placements := placements[task := plan];
      r := Placed(plan);
    }

    /** After a node is lost, a stored plan still has a primary there only if no other node is feasible
        for its task; plans without a primary there are untouched. */
    method RerouteNode(lost: Peer) returns (out: seq<Plan>)
      requires Valid()
      modifies this`placements
      ensures Valid() && placements.Keys == old(placements).Keys
      ensures forall k :: k in placements && PrimaryOn(placements[k], lost) ==>
                placements[k] == old(placements)[k] && Feasible(nodes, cost, Remnant(k, placements[k]), {lost}) == {}
      ensures forall k :: k in placements && !PrimaryOn(old(placements)[k], lost) ==> placements[k] == old(placements)[k]
      ensures forall k :: k in placements && placements[k] != old(placements)[k] ==>
                !Mentions(placements[k], lost) && placements[k] in out
    {
      hide IsReroute, PrimaryOn, Feasible, Separated, Remnant;
      var keys := set k | k in placements && PrimaryOn(placements[k], lost);
      out := [];
      ghost var all := keys;
      while keys != {}
        invariant keys <= all && Valid() && placements.Keys == old(placements).Keys
        invariant forall k :: k in placements && (k in keys || k !in all) ==> placements[k] == old(placements)[k]
        invariant forall k :: k in all && k !in keys ==>
                    (placements[k] == old(placements)[k] && Feasible(nodes, cost, Remnant(k, placements[k]), {lost}) == {})
                    || (!Mentions(placements[k], lost) && placements[k] in out)
      {
        var key :| key in keys;
        var r := Reroute(key, lost);
        if r.Placed? { out := out + [r.plan]; }
        keys := keys - {key};
      }
    }
  }

  lemma EmptyRanking(nodes: map<Peer, Telemetry>, cost: Cost, t: Task, exclude: set<Peer>, r: seq<Peer>)
    requires IsRanking(nodes, cost, t, exclude, r) && r == []
    ensures Feasible(nodes, cost, t, exclude) == {}
  {
    forall n ensures n !in Feasible(nodes, cost, t, exclude) { assert n !in r; }
  }
}

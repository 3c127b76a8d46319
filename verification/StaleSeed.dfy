/** A newcomer that asks a seed which has changed state since its creation, and whose view then goes backwards. */
module StaleSeed {
  import opened Types
  import opened Gossips
  import opened Membership

  lemma Extend(cs: seq<Cluster>, steps: seq<Step>, step: Step, c': Cluster)
    returns (cs': seq<Cluster>, steps': seq<Step>)
    requires AnyRun(cs, steps) && Next(cs[|steps|], step, c')
    ensures AnyRun(cs', steps') && cs' == cs + [c'] && steps' == steps + [step]
  {
    cs', steps' := cs + [c'], steps + [step];
    forall i | 0 <= i < |steps'| ensures Next(cs'[i], steps'[i], cs'[i + 1]) {
      if i < |steps| {
        assert Next(cs[i], steps[i], cs[i + 1]);
      }
    }
  }

  function Born(id: string): NodeGossip { NodeGossip(id, id, TOTAL_SLOTS, 0, Unset, 0) }

  function Record(id: string, stamp: nat, state: NodeState): NodeGossip {
    Born(id).(lastUpdate := stamp, state := state)
  }

  function First(): Member {
    Member(Available, map["a" := Record("a", 0, Available)], [], [],
           [Record("a", 0, Available), Record("a", 0, Available)], true)
  }

  function Second(state: NodeState, checks: nat): Member {
    Member(state, map["a" := Record("a", 0, Available), "b" := Record("b", 1, Joining)],
           seq(checks, _ => 2), seq(checks, _ => {"a", "b"}),
           [Record("b", 0, Joining), Record("b", 0, Joining), Record("b", 1, Joining)], false)
  }

  function Net(): set<NodeGossip> {
    {Record("a", 0, Available), Record("b", 1, Joining)}
  }

  /** Node b joins through a and publishes itself as JOINING. */
  lemma SecondPublished() returns (cs: seq<Cluster>, steps: seq<Step>)
    ensures AnyRun(cs, steps) && cs[|steps|] == Cluster(map["a" := First(), "b" := Second(Joining, 0)], Net())
  {
    cs, steps := [Cluster(map[], {})], [];
    var c := Cluster(map["a" := First()], {});
    assert Newcomer(map[], Born("a"), {}, 0) == First();
    cs, steps := Extend(cs, steps, Create(Born("a"), {}, 0), c);
    var joined := Newcomer(c.members, Born("b"), {"a"}, 0);
    assert joined.view == map["a" := Record("a", 0, Available), "b" := Record("b", 0, Joining)];
    c := c.(members := map["a" := First(), "b" := joined]);
    cs, steps := Extend(cs, steps, Create(Born("b"), {"a"}, 0), c);
    assert AfterPublish(joined, "b", 1) == Second(Joining, 0);
    assert Second(Joining, 0).view.Values == Net() by {
      assert Second(Joining, 0).view["a"] in Second(Joining, 0).view.Values;
      assert Second(Joining, 0).view["b"] in Second(Joining, 0).view.Values;
    }
    c := Cluster(map["a" := First(), "b" := Second(Joining, 0)], Net());
    cs, steps := Extend(cs, steps, Publish("b", 1), c);
  }

  lemma OneCheck(checks: nat)
    requires checks <= 2
    ensures AfterCheck(Second(Joining, checks)) == Second(if checks == 2 then Bootstrapping else Joining, checks + 1)
  {
    var m := Second(Joining, checks);
    assert m.view.Keys == {"a", "b"};
    assert m.meta + [2] == seq(checks + 1, _ => 2);
    assert m.seen + [{"a", "b"}] == seq(checks + 1, _ => {"a", "b"});
  }

  /** Three checks later b is BOOTSTRAPPING. */
  lemma SecondRose() returns (cs: seq<Cluster>, steps: seq<Step>)
    ensures AnyRun(cs, steps) && cs[|steps|] == Cluster(map["a" := First(), "b" := Second(Bootstrapping, 3)], Net())
  {
    cs, steps := SecondPublished();
    for i := 0 to 3
      invariant AnyRun(cs, steps)
      invariant cs[|steps|] ==
        Cluster(map["a" := First(), "b" := Second(if i == 3 then Bootstrapping else Joining, i)], Net())
    {
      OneCheck(i);
      var c := Cluster(map["a" := First(), "b" := Second(if i == 2 then Bootstrapping else Joining, i + 1)], Net());
      cs, steps := Extend(cs, steps, Check("b"), c);
    }
  }

  /** Node c asks b, then hears b's older record: its view of b falls back from BOOTSTRAPPING to JOINING. The first
      record it held was never published by b. */
  lemma StaleSeedRegresses() returns (cs: seq<Cluster>, steps: seq<Step>)
    ensures AnyRun(cs, steps) && |steps| >= 2
    ensures var was := cs[|steps| - 1].members; var now := cs[|steps|].members;
      && "b" in was && "c" in was && "c" in now && "b" in was["c"].view && "b" in now["c"].view
      && was["c"].view["b"] !in was["b"].history
      && was["c"].view["b"].state == Bootstrapping && now["c"].view["b"].state == Joining
  {
    cs, steps := SecondRose();
    var before := cs[|steps|];
    var third := Newcomer(before.members, Born("c"), {"b"}, 0);
    assert third.view["b"] == Record("b", 0, Bootstrapping);
    var c := before.(members := before.members["c" := third]);
    cs, steps := Extend(cs, steps, Create(Born("c"), {"b"}, 0), c);
    var heard := third.(view := MergeOne(third.view, Record("b", 1, Joining)));
    cs, steps := Extend(cs, steps, Deliver("c", Record("b", 1, Joining)), c.(members := c.members["c" := heard]));
  }
}

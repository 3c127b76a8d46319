/** Gossip membership across a cluster whose messages may be lost, duplicated and reordered. One record merge is one
    atomic step; a published record stays deliverable for ever, so dropping, repeating and reordering need no steps. */
module Membership {
  import opened Types
  import opened Sets
  import opened Gossips

  /** The three latest recorded view sizes are equal. */
  predicate IsStable(meta: seq<nat>) {
    && |meta| >= 3
    && meta[|meta| - 1] == meta[|meta| - 2]
    && meta[|meta| - 2] == meta[|meta| - 3]
  }

  /** `meta` are the recorded view sizes and `seen` the sets of ids they counted; `history` is every record the node
      published about itself, the first one being what it was created with. */
  datatype Member = Member(
    state: NodeState, view: View, meta: seq<nat>, seen: seq<set<string>>,
    history: seq<NodeGossip>, bornAvailable: bool)

  type Members = map<string, Member>

  datatype Cluster = Cluster(members: Members, net: set<NodeGossip>)

  datatype Step =
    | Create(self: NodeGossip, seeds: set<string>, first: nat)
    | Publish(p: string, now: nat)
    | Deliver(q: string, g: NodeGossip)
    | Check(q: string)
    | Serve(q: string)

  /** What a node answers a newcomer: its creation-time stamp with its current state. */
  function Metadata(m: Member): NodeGossip
    requires m.history != []
  {
    m.history[0].(state := m.state)
  }

  ghost predicate Askable(members: Members, seeds: set<string>) {
    seeds <= members.Keys && forall s :: s in seeds ==> members[s].history != []
  }

  /** What the seeds tell a newcomer. */
  ghost function SeedView(members: Members, seeds: set<string>): View
    requires Askable(members, seeds)
  {
    map s | s in seeds :: Metadata(members[s])
  }

  ghost function Newcomer(members: Members, self: NodeGossip, seeds: set<string>, first: nat): Member
    requires Askable(members, seeds)
  {
    var known := SeedView(members, seeds);
    var state := if seeds == {} then Available else Joining;
    var born := self.(state := state);
    var own := born.(lastUpdate := first);
    Member(state, known[self.id := own], [], [], [born, own], seeds == {})
  }

  function Published(m: Member, now: nat): NodeGossip
    requires m.history != []
  {
    m.history[0].(lastUpdate := now, state := m.state)
  }

  function AfterPublish(m: Member, p: string, now: nat): Member
    requires m.history != []
  {
    m.(view := m.view[p := Published(m, now)], history := m.history + [Published(m, now)])
  }

  function AfterCheck(m: Member): Member {
    if m.state != Joining then m
    else
      var meta := m.meta + [|m.view|];
      m.(meta := meta, seen := m.seen + [m.view.Keys], state := if IsStable(meta) then Bootstrapping else Joining)
  }

  /** The end of a snapshot makes a bootstrapping node serve. */
  function AfterServe(m: Member): Member {
    m.(state := Available)
  }

  ghost predicate Next(c: Cluster, step: Step, c': Cluster) {
    match step
    case Create(self, seeds, first) =>
      && self.id !in c.members && Askable(c.members, seeds) && self.lastUpdate <= first
      && c' == c.(members := c.members[self.id := Newcomer(c.members, self, seeds, first)])
    case Publish(p, now) =>
      && p in c.members && c.members[p].history != []
      && c.members[p].history[|c.members[p].history| - 1].lastUpdate <= now
      && var m := AfterPublish(c.members[p], p, now);
         c' == Cluster(c.members[p := m], c.net + m.view.Values)
    case Deliver(q, g) =>
      && q in c.members && g in c.net
      && c' == c.(members := c.members[q := c.members[q].(view := MergeOne(c.members[q].view, g))])
    case Check(q) =>
      && q in c.members
      && c' == c.(members := c.members[q := AfterCheck(c.members[q])])
    case Serve(q) =>
      && q in c.members && c.members[q].state == Bootstrapping
      && c' == c.(members := c.members[q := AfterServe(c.members[q])])
  }

  /** The node is in the state it was created in. */
  predicate Unmoved(m: Member)
    requires m.history != []
  {
    m.state == m.history[0].state
  }

  /** Newcomers ask only seeds that have not changed state since their creation. */
  ghost predicate SeedsUnmoved(c: Cluster, step: Step) {
    step.Create? && Askable(c.members, step.seeds) ==> forall s :: s in step.seeds ==> Unmoved(c.members[s])
  }

  ghost predicate AnyRun(cs: seq<Cluster>, steps: seq<Step>) {
    && |cs| == |steps| + 1
    && cs[0] == Cluster(map[], {})
    && forall i :: 0 <= i < |steps| ==> Next(cs[i], steps[i], cs[i + 1])
  }

  ghost predicate Run(cs: seq<Cluster>, steps: seq<Step>) {
    && AnyRun(cs, steps)
    && forall i :: 0 <= i < |steps| ==> SeedsUnmoved(cs[i], steps[i])
  }

  // What a node publishes

  /** Later records carry no older stamp and no lower state than earlier ones, and none is ahead of the node. */
  ghost predicate Honest(id: string, m: Member) {
    && |m.history| >= 2 && m.history[1].state == m.history[0].state
    && (forall i :: 0 <= i < |m.history| ==>
          && m.history[i].id == id
          && m.history[i] == m.history[0].(lastUpdate := m.history[i].lastUpdate, state := m.history[i].state)
          && Rank(m.history[i].state) <= Rank(m.state))
    && (forall i, j :: 0 <= i < j < |m.history| ==>
          && m.history[i].lastUpdate <= m.history[j].lastUpdate
          && Rank(m.history[i].state) <= Rank(m.history[j].state))
    && m.state in {Joining, Bootstrapping, Available}
  }

  ghost predicate Wrote(members: Members, g: NodeGossip) {
    g.id in members && g in members[g.id].history
  }

  ghost predicate Truthful(members: Members, v: View) {
    forall k :: k in v ==> v[k].id == k && Wrote(members, v[k])
  }

  ghost predicate Sound(c: Cluster) {
    && (forall p :: p in c.members ==> Honest(p, c.members[p]) && Truthful(c.members, c.members[p].view))
    && (forall g :: g in c.net ==> Wrote(c.members, g))
  }

  /** Histories only grow. */
  ghost predicate Extends(members: Members, members': Members) {
    forall p :: p in members ==> p in members' && members[p].history <= members'[p].history
  }

  lemma StillWrote(members: Members, members': Members, g: NodeGossip)
    requires Extends(members, members') && Wrote(members, g)
    ensures Wrote(members', g)
  {
  }

  lemma StillTruthful(members: Members, members': Members, v: View)
    requires Extends(members, members') && Truthful(members, v)
    ensures Truthful(members', v)
  {
  }

  /** One member changes, honestly and with a truthful view; everything else stays sound. */
  lemma SoundUpdate(c: Cluster, q: string, m: Member, net: set<NodeGossip>)
    requires Sound(c) && Honest(q, m)
    requires Extends(c.members, c.members[q := m])
    requires Truthful(c.members[q := m], m.view)
    requires forall g :: g in net ==> g in c.net || g in m.view.Values
    ensures Sound(Cluster(c.members[q := m], net))
  {
    var members := c.members[q := m];
    forall p | p in members ensures Honest(p, members[p]) && Truthful(members, members[p].view) {
      if p != q {
        StillTruthful(c.members, members, c.members[p].view);
      }
    }
    forall g | g in net ensures Wrote(members, g) {
      if g in c.net {
        StillWrote(c.members, members, g);
      }
    }
  }

  lemma PublishHonest(p: string, m: Member, now: nat)
    requires Honest(p, m) && m.history[|m.history| - 1].lastUpdate <= now
    ensures Honest(p, AfterPublish(m, p, now))
  {
  }

  /** A newer record was published later, so it carries no lower state. */
  lemma NewerIsLater(id: string, m: Member, a: NodeGossip, b: NodeGossip)
    requires Honest(id, m) && a in m.history && b in m.history && a.lastUpdate < b.lastUpdate
    ensures Rank(a.state) <= Rank(b.state) && b == a.(lastUpdate := b.lastUpdate, state := b.state)
  {
  }

  /** Two records a sound cluster knows of one node: the newer one carries no lower state. */
  lemma WroteLater(c: Cluster, a: NodeGossip, b: NodeGossip)
    requires Sound(c) && Wrote(c.members, a) && Wrote(c.members, b) && a.id == b.id && a.lastUpdate < b.lastUpdate
    ensures Rank(a.state) <= Rank(b.state) && b == a.(lastUpdate := b.lastUpdate, state := b.state)
  {
    assert Honest(a.id, c.members[a.id]);
    NewerIsLater(a.id, c.members[a.id], a, b);
  }

  lemma NewerReplaces(members: Members, v: View, g: NodeGossip)
    requires Truthful(members, v) && Wrote(members, g)
    requires g.id in v && g.lastUpdate > v[g.id].lastUpdate && Rank(v[g.id].state) <= Rank(g.state)
    requires g == v[g.id].(lastUpdate := g.lastUpdate, state := g.state)
    ensures Truthful(members, MergeOne(v, g)) && Advances(v, MergeOne(v, g))
  {
  }

  lemma MergeTruthful(c: Cluster, v: View, g: NodeGossip)
    requires Sound(c) && Truthful(c.members, v) && Wrote(c.members, g)
    ensures Truthful(c.members, MergeOne(v, g)) && Advances(v, MergeOne(v, g))
  {
    if g.id in v && g.lastUpdate > v[g.id].lastUpdate {
      WroteLater(c, v[g.id], g);
      NewerReplaces(c.members, v, g);
    }
  }

  /** No record goes back in time or in state. */
  ghost predicate Advances(v: View, v': View) {
    forall k :: k in v ==>
      k in v' && v[k].lastUpdate <= v'[k].lastUpdate && Rank(v[k].state) <= Rank(v'[k].state)
  }

  ghost predicate ClusterAdvances(c: Cluster, c': Cluster) {
    forall q :: q in c.members ==> q in c'.members && Advances(c.members[q].view, c'.members[q].view)
  }

  lemma UpdateAdvances(c: Cluster, q: string, m: Member, net: set<NodeGossip>)
    requires q in c.members ==> Advances(c.members[q].view, m.view)
    ensures ClusterAdvances(c, Cluster(c.members[q := m], net))
  {
  }

  lemma AdvancesTransitive(u: View, v: View, w: View)
    requires Advances(u, v) && Advances(v, w)
    ensures Advances(u, w)
  {
  }

  lemma NewcomerTruthful(c: Cluster, self: NodeGossip, seeds: set<string>, first: nat)
    requires Sound(c) && self.id !in c.members && Askable(c.members, seeds)
    requires forall s :: s in seeds ==> Unmoved(c.members[s])
    ensures var m := Newcomer(c.members, self, seeds, first); Truthful(c.members[self.id := m], m.view)
  {
  }

  lemma CreateSound(c: Cluster, self: NodeGossip, seeds: set<string>, first: nat, c': Cluster)
    requires Sound(c) && Next(c, Create(self, seeds, first), c')
    requires SeedsUnmoved(c, Create(self, seeds, first))
    ensures Sound(c') && ClusterAdvances(c, c')
  {
    var m := Newcomer(c.members, self, seeds, first);
    NewcomerTruthful(c, self, seeds, first);
    SoundUpdate(c, self.id, m, c.net);
    UpdateAdvances(c, self.id, m, c.net);
  }

  lemma PublishAdvances(members: Members, p: string, now: nat)
    requires p in members && Honest(p, members[p]) && Truthful(members, members[p].view)
    requires members[p].history[|members[p].history| - 1].lastUpdate <= now
    ensures Advances(members[p].view, AfterPublish(members[p], p, now).view)
  {
  }

  lemma PublishSound(c: Cluster, p: string, now: nat, c': Cluster)
    requires Sound(c) && Next(c, Publish(p, now), c')
    ensures Sound(c') && ClusterAdvances(c, c')
  {
    var was := c.members[p];
    var m := AfterPublish(was, p, now);
    PublishHonest(p, was, now);
    PublishAdvances(c.members, p, now);
    assert m.history[|was.history|] == Published(was, now);
    StillTruthful(c.members, c.members[p := m], was.view);
    assert Truthful(c.members[p := m], m.view);
    SoundUpdate(c, p, m, c.net + m.view.Values);
    UpdateAdvances(c, p, m, c.net + m.view.Values);
  }

  /** A member with the same history that has not moved down is as honest as before. */
  lemma SameHistoryHonest(id: string, m: Member, m': Member)
    requires Honest(id, m) && m'.history == m.history
    requires Rank(m.state) <= Rank(m'.state) && m'.state != Unset
    ensures Honest(id, m')
  {
  }

  /** One member takes another view and a state no lower; its history stays. */
  lemma ViewUpdateSound(c: Cluster, q: string, m: Member)
    requires Sound(c) && q in c.members && m.history == c.members[q].history
    requires Rank(c.members[q].state) <= Rank(m.state)
    requires Truthful(c.members, m.view) && Advances(c.members[q].view, m.view)
    ensures Sound(c.(members := c.members[q := m])) && ClusterAdvances(c, c.(members := c.members[q := m]))
  {
    var was := c.members[q];
    assert Honest(q, was);
    SameHistoryHonest(q, was, m);
    StillTruthful(c.members, c.members[q := m], m.view);
    SoundUpdate(c, q, m, c.net);
    UpdateAdvances(c, q, m, c.net);
  }

  lemma DeliverSound(c: Cluster, q: string, g: NodeGossip, c': Cluster)
    requires Sound(c) && Next(c, Deliver(q, g), c')
    ensures Sound(c') && ClusterAdvances(c, c')
  {
    MergeTruthful(c, c.members[q].view, g);
    ViewUpdateSound(c, q, c.members[q].(view := MergeOne(c.members[q].view, g)));
  }

  lemma CheckSound(c: Cluster, q: string, c': Cluster)
    requires Sound(c) && Next(c, Check(q), c')
    ensures Sound(c') && ClusterAdvances(c, c')
  {
    ViewUpdateSound(c, q, AfterCheck(c.members[q]));
  }

  lemma ServeSound(c: Cluster, q: string, c': Cluster)
    requires Sound(c) && Next(c, Serve(q), c')
    ensures Sound(c') && ClusterAdvances(c, c')
  {
    ViewUpdateSound(c, q, AfterServe(c.members[q]));
  }

  lemma StepSound(c: Cluster, step: Step, c': Cluster)
    requires Sound(c) && Next(c, step, c') && SeedsUnmoved(c, step)
    ensures Sound(c') && ClusterAdvances(c, c')
  {
    match step
    case Create(self, seeds, first) => CreateSound(c, self, seeds, first, c');
    case Publish(p, now) => PublishSound(c, p, now, c');
    case Deliver(q, g) => DeliverSound(c, q, g, c');
    case Check(q) => CheckSound(c, q, c');
    case Serve(q) => ServeSound(c, q, c');
  }

  lemma {:induction false} RunSound(cs: seq<Cluster>, steps: seq<Step>, n: nat)
    requires Run(cs, steps) && n <= |steps|
    ensures Sound(cs[n])
  {
    if n > 0 {
      RunSound(cs, steps, n - 1);
      StepSound(cs[n - 1], steps[n - 1], cs[n]);
    }
  }

  /** In every reachable state each record anyone holds about p was published by p and is not ahead of p. */
  lemma ViewsAreTruthful(cs: seq<Cluster>, steps: seq<Step>, n: nat, q: string, p: string)
    requires Run(cs, steps) && n <= |steps|
    requires q in cs[n].members && p in cs[n].members[q].view
    ensures p in cs[n].members && cs[n].members[q].view[p].id == p
    ensures cs[n].members[q].view[p] in cs[n].members[p].history
    ensures Rank(cs[n].members[q].view[p].state) <= Rank(cs[n].members[p].state)
  {
    RunSound(cs, steps, n);
    assert Truthful(cs[n].members, cs[n].members[q].view);
    assert Wrote(cs[n].members, cs[n].members[q].view[p]);
    assert Honest(p, cs[n].members[p]);
  }

  lemma RunAdvances(cs: seq<Cluster>, steps: seq<Step>, i: nat)
    requires Run(cs, steps) && i < |steps|
    ensures ClusterAdvances(cs[i], cs[i + 1])
  {
    RunSound(cs, steps, i);
    StepSound(cs[i], steps[i], cs[i + 1]);
  }

  lemma {:induction false} AdvanceAlong(cs: seq<Cluster>, i: nat, j: nat, q: string)
    requires forall n :: 0 <= n < |cs| - 1 ==> ClusterAdvances(cs[n], cs[n + 1])
    requires i <= j < |cs| && q in cs[i].members
    ensures q in cs[j].members && Advances(cs[i].members[q].view, cs[j].members[q].view)
    decreases j
  {
    if i < j {
      var k := j - 1;
      AdvanceAlong(cs, i, k, q);
      assert ClusterAdvances(cs[k], cs[k + 1]);
      AdvancesTransitive(cs[i].members[q].view, cs[k].members[q].view, cs[j].members[q].view);
    }
  }

  /** No regression: over any stretch of a run no view forgets a node, and no record in it loses time or rank. */
  lemma ViewsNeverRegress(cs: seq<Cluster>, steps: seq<Step>, i: nat, j: nat, q: string)
    requires Run(cs, steps) && i <= j <= |steps| && q in cs[i].members
    ensures q in cs[j].members && Advances(cs[i].members[q].view, cs[j].members[q].view)
  {
    forall n | 0 <= n < |cs| - 1 ensures ClusterAdvances(cs[n], cs[n + 1]) {
      RunAdvances(cs, steps, n);
    }
    AdvanceAlong(cs, i, j, q);
  }

  // Stamps, whatever seeds newcomers ask

  /** Every record known of p is stamped no later than p's latest. */
  ghost predicate Dated(members: Members, g: NodeGossip) {
    && g.id in members && members[g.id].history != []
    && g.lastUpdate <= members[g.id].history[|members[g.id].history| - 1].lastUpdate
  }

  ghost predicate AllDated(c: Cluster) {
    && (forall p :: p in c.members ==> c.members[p].history != [] && c.members[p].history[0].id == p)
    && (forall p :: p in c.members ==> Dated(c.members, c.members[p].history[0]))
    && (forall q, k :: q in c.members && k in c.members[q].view ==>
          c.members[q].view[k].id == k && Dated(c.members, c.members[q].view[k]))
    && (forall g :: g in c.net ==> Dated(c.members, g))
  }

  /** No member is forgotten, none publishes an older stamp. */
  ghost predicate Later(members: Members, members': Members) {
    forall p :: p in members && members[p].history != [] ==>
      && p in members' && members'[p].history != [] && members'[p].history[0] == members[p].history[0]
      && members[p].history[|members[p].history| - 1].lastUpdate <= members'[p].history[|members'[p].history| - 1].lastUpdate
  }

  lemma StillDated(members: Members, members': Members, g: NodeGossip)
    requires Later(members, members') && Dated(members, g)
    ensures Dated(members', g)
  {
  }

  lemma DatedUpdate(c: Cluster, q: string, m: Member, net: set<NodeGossip>)
    requires AllDated(c) && Later(c.members, c.members[q := m])
    requires m.history != [] && m.history[0].id == q && Dated(c.members[q := m], m.history[0])
    requires forall k :: k in m.view ==> m.view[k].id == k && Dated(c.members[q := m], m.view[k])
    requires forall g :: g in net ==> g in c.net || g in m.view.Values
    ensures AllDated(Cluster(c.members[q := m], net))
  {
    var members := c.members[q := m];
    forall p | p in members && p != q ensures Dated(members, members[p].history[0]) {
      StillDated(c.members, members, c.members[p].history[0]);
    }
    forall p, k | p in members && k in members[p].view && p != q ensures Dated(members, members[p].view[k]) {
      StillDated(c.members, members, c.members[p].view[k]);
    }
    forall g | g in net && g in c.net ensures Dated(members, g) {
      StillDated(c.members, members, g);
    }
  }

  /** No record goes back in time. */
  ghost predicate Newer(v: View, v': View) {
    forall k :: k in v ==> k in v' && v[k].lastUpdate <= v'[k].lastUpdate
  }

  lemma JoinedLater(members: Members, id: string, m: Member, k: string)
    requires id !in members && k in members && members[k].history != [] && Dated(members, members[k].history[0])
    requires members[k].history[0].id == k
    ensures Later(members, members[id := m]) && Dated(members[id := m], Metadata(members[k]))
  {
  }

  lemma CreateDated(c: Cluster, self: NodeGossip, seeds: set<string>, first: nat, c': Cluster)
    requires AllDated(c) && Next(c, Create(self, seeds, first), c')
    ensures AllDated(c')
  {
    var m := Newcomer(c.members, self, seeds, first);
    forall k | k in m.view ensures m.view[k].id == k && Dated(c'.members, m.view[k]) {
      if k == self.id {
        assert m.view[k] == m.history[1];
      } else {
        assert m.view[k] == Metadata(c.members[k]);
        JoinedLater(c.members, self.id, m, k);
      }
    }
    DatedUpdate(c, self.id, m, c.net);
  }

  lemma PublishLater(members: Members, p: string, now: nat)
    requires p in members && members[p].history != []
    requires members[p].history[|members[p].history| - 1].lastUpdate <= now
    ensures Later(members, members[p := AfterPublish(members[p], p, now)])
    ensures AfterPublish(members[p], p, now).history[0] == members[p].history[0]
    ensures members[p].history[0].id == p ==>
      Dated(members[p := AfterPublish(members[p], p, now)], Published(members[p], now))
  {
  }

  lemma PublishDated(c: Cluster, p: string, now: nat, c': Cluster)
    requires AllDated(c) && Next(c, Publish(p, now), c')
    ensures AllDated(c')
  {
    var was := c.members[p];
    var m := AfterPublish(was, p, now);
    PublishLater(c.members, p, now);
    StillDated(c.members, c.members[p := m], was.history[0]);
    forall k | k in m.view ensures m.view[k].id == k && Dated(c.members[p := m], m.view[k]) {
      if k != p {
        StillDated(c.members, c.members[p := m], was.view[k]);
      }
    }
    DatedUpdate(c, p, m, c.net + m.view.Values);
  }

  lemma PublishNewer(c: Cluster, p: string, now: nat, c': Cluster)
    requires AllDated(c) && Next(c, Publish(p, now), c')
    ensures Newer(c.members[p].view, c'.members[p].view)
  {
    if p in c.members[p].view {
      assert Dated(c.members, c.members[p].view[p]);
    }
  }

  lemma ViewUpdateDated(c: Cluster, q: string, m: Member)
    requires AllDated(c) && q in c.members && m.history == c.members[q].history
    requires forall k :: k in m.view ==> m.view[k].id == k && Dated(c.members, m.view[k])
    ensures AllDated(c.(members := c.members[q := m]))
  {
    var members := c.members[q := m];
    assert Later(c.members, members);
    StillDated(c.members, members, m.history[0]);
    forall k | k in m.view ensures m.view[k].id == k && Dated(members, m.view[k]) {
      StillDated(c.members, members, m.view[k]);
    }
    DatedUpdate(c, q, m, c.net);
  }

  lemma MergeDated(members: Members, v: View, g: NodeGossip)
    requires Dated(members, g) && forall k :: k in v ==> v[k].id == k && Dated(members, v[k])
    ensures forall k :: k in MergeOne(v, g) ==> MergeOne(v, g)[k].id == k && Dated(members, MergeOne(v, g)[k])
    ensures Newer(v, MergeOne(v, g))
  {
  }

  lemma DeliverDated(c: Cluster, q: string, g: NodeGossip, c': Cluster)
    requires AllDated(c) && Next(c, Deliver(q, g), c')
    ensures AllDated(c') && Newer(c.members[q].view, c'.members[q].view)
  {
    MergeDated(c.members, c.members[q].view, g);
    ViewUpdateDated(c, q, c.members[q].(view := MergeOne(c.members[q].view, g)));
  }

  lemma StepDated(c: Cluster, step: Step, c': Cluster)
    requires AllDated(c) && Next(c, step, c')
    ensures AllDated(c')
    ensures forall q :: q in c.members ==> q in c'.members && Newer(c.members[q].view, c'.members[q].view)
  {
    match step
    case Create(self, seeds, first) => CreateDated(c, self, seeds, first, c');
    case Publish(p, now) =>
      PublishDated(c, p, now, c');
      PublishNewer(c, p, now, c');
    case Deliver(q, g) => DeliverDated(c, q, g, c');
    case Check(q) => ViewUpdateDated(c, q, c'.members[q]);
    case Serve(q) => ViewUpdateDated(c, q, c'.members[q]);
  }

  lemma {:induction false} RunDated(cs: seq<Cluster>, steps: seq<Step>, n: nat)
    requires AnyRun(cs, steps) && n <= |steps|
    ensures AllDated(cs[n])
  {
    if n > 0 {
      RunDated(cs, steps, n - 1);
      StepDated(cs[n - 1], steps[n - 1], cs[n]);
    }
  }

  /** Whatever seeds newcomers ask, no view forgets a node and no record in it goes back in time; and no record held
      of p is stamped later than the latest p published. */
  lemma {:induction false} StampsNeverRegress(cs: seq<Cluster>, steps: seq<Step>, i: nat, j: nat, q: string)
    requires AnyRun(cs, steps) && i <= j <= |steps| && q in cs[i].members
    ensures q in cs[j].members && Newer(cs[i].members[q].view, cs[j].members[q].view)
    ensures forall p :: p in cs[j].members[q].view ==> Dated(cs[j].members, cs[j].members[q].view[p])
    decreases j
  {
    RunDated(cs, steps, j);
    if i < j {
      StampsNeverRegress(cs, steps, i, j - 1, q);
      RunDated(cs, steps, j - 1);
      StepDated(cs[j - 1], steps[j - 1], cs[j]);
    }
  }

  // Leaving JOINING

  ghost predicate Counted(m: Member) {
    && |m.meta| == |m.seen|
    && (forall i :: 0 <= i < |m.seen| ==> m.meta[i] == |m.seen[i]| && m.seen[i] <= m.view.Keys)
    && (forall i, j :: 0 <= i < j < |m.seen| ==> m.seen[i] <= m.seen[j])
    && (m.state != Joining && !m.bornAvailable ==> IsStable(m.meta))
  }

  lemma CountedStep(c: Cluster, step: Step, c': Cluster, q: string)
    requires Next(c, step, c') && q in c'.members && (q in c.members ==> Counted(c.members[q]))
    ensures Counted(c'.members[q])
  {
  }

  /** A node that joined an existing cluster and is past JOINING had the same set of known ids at its last three checks. */
  lemma {:induction false} StableTopology(cs: seq<Cluster>, steps: seq<Step>, n: nat, q: string)
    requires AnyRun(cs, steps) && n <= |steps| && q in cs[n].members
    ensures Counted(cs[n].members[q])
    ensures var m := cs[n].members[q];
      m.state != Joining && !m.bornAvailable ==>
        && |m.seen| >= 3
        && m.seen[|m.seen| - 1] == m.seen[|m.seen| - 2] == m.seen[|m.seen| - 3]
  {
    if n > 0 {
      if q in cs[n - 1].members {
        StableTopology(cs, steps, n - 1, q);
      }
      CountedStep(cs[n - 1], steps[n - 1], cs[n], q);
    }
    var m := cs[n].members[q];
    if m.state != Joining && !m.bornAvailable {
      SubsetSize(m.seen[|m.seen| - 2], m.seen[|m.seen| - 1]);
      SubsetSize(m.seen[|m.seen| - 3], m.seen[|m.seen| - 2]);
    }
  }

  /** A JOINING node's check raises it exactly when the ids it knows now are those it knew at its last two checks. */
  lemma CheckRaisesIff(cs: seq<Cluster>, steps: seq<Step>, n: nat, q: string)
    requires AnyRun(cs, steps) && n < |steps| && steps[n] == Check(q)
    requires q in cs[n].members && cs[n].members[q].state == Joining
    ensures q in cs[n + 1].members
    ensures var seen := cs[n].members[q].seen; var known := cs[n].members[q].view.Keys;
      && cs[n + 1].members[q].seen == seen + [known]
      && cs[n + 1].members[q].state ==
           if |seen| >= 2 && seen[|seen| - 1] == known && seen[|seen| - 2] == known then Bootstrapping else Joining
  {
    StableTopology(cs, steps, n, q);
    var m := cs[n].members[q];
    var size := |m.seen|;
    assert |m.view| == |m.view.Keys|;
    if size >= 2 {
      if |m.seen[size - 1]| == |m.view.Keys| {
        SubsetSize(m.seen[size - 1], m.view.Keys);
      }
      if |m.seen[size - 2]| == |m.view.Keys| {
        SubsetSize(m.seen[size - 2], m.view.Keys);
      }
    }
  }

  // Seeds that have changed state since their creation

  /** The clock moved between the node's creation and the first record of itself it stored. */
  ghost predicate Ticked(m: Member) {
    |m.history| >= 2 && m.history[0].lastUpdate < m.history[1].lastUpdate
  }

  /** What a node answers a newcomer is one of its own records, and stands up to all of them, exactly when the node
      is still in the state it was created in. */
  lemma MetadataSafeIff(id: string, m: Member)
    requires Honest(id, m) && Ticked(m)
    ensures Metadata(m) in m.history <==> Unmoved(m)
    ensures (forall g :: g in m.history ==> Advances(map[id := Metadata(m)], MergeOne(map[id := Metadata(m)], g))) <==>
            Unmoved(m)
  {
    var v: View := map[id := Metadata(m)];
    assert m.history[0] in m.history && m.history[1] in m.history;
    if !Unmoved(m) {
      assert !Advances(v, MergeOne(v, m.history[1]));
    } else {
      assert Metadata(m) == m.history[0];
      forall g | g in m.history ensures Advances(v, MergeOne(v, g)) {
        if g.lastUpdate > v[id].lastUpdate {
          NewerIsLater(id, m, m.history[0], g);
        }
      }
    }
  }

  /** Admitting a newcomer keeps a sound cluster sound exactly when every seed asked is in the state it was created in. */
  lemma CreateSoundIff(c: Cluster, self: NodeGossip, seeds: set<string>, first: nat, c': Cluster)
    requires Sound(c) && Next(c, Create(self, seeds, first), c')
    requires forall s :: s in seeds ==> Ticked(c.members[s])
    ensures Sound(c') <==> forall s :: s in seeds ==> Unmoved(c.members[s])
  {
    if s :| s in seeds && !Unmoved(c.members[s]) {
      MetadataSafeIff(s, c.members[s]);
      assert c'.members[self.id].view[s] == Metadata(c.members[s]);
      assert Metadata(c.members[s]).id == s && !Wrote(c'.members, Metadata(c.members[s]));
      assert !Truthful(c'.members, c'.members[self.id].view);
    } else {
      CreateSound(c, self, seeds, first, c');
    }
  }
}

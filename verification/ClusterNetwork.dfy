// Several registries of internal/cli/cluster.go at work: who may start an automation.

module ClusterNetwork {
  import opened Cluster
  import opened Text

  // ------------------------------------------------------- the id of an instance

  function Decimal(n: nat): string {
    if n < 10 then [n as char + '0'] else Decimal(n / 10) + [(n % 10) as char + '0']
  }

  /** The id an instance gives itself: host, process and the nanosecond of its start. */
  function OwnId(host: string, pid: nat, startedAt: nat): string {
    host + "-" + Decimal(pid) + "-" + Decimal(startedAt)
  }

  /** An instance is built with one reading of the clock for its start and its id. */
  ghost predicate Built(info: Info) {
    info.startedAt >= 0 && exists host, pid :: info.id == OwnId(host, pid, info.startedAt)
  }

  lemma {:induction false} DecimalIsDigits(n: nat)
    ensures Decimal(n) != "" && '-' !in Decimal(n)
  {
    if n >= 10 {
      DecimalIsDigits(n / 10);
    }
  }

  lemma DecimalLength(n: nat)
    ensures n < 10 <==> |Decimal(n)| == 1
  {
    DecimalIsDigits(n / 10);
  }

  lemma {:induction false} DecimalIsInjective(m: nat, n: nat)
    requires Decimal(m) == Decimal(n)
    ensures m == n
  {
    DecimalLength(m);
    DecimalLength(n);
    var s, t := Decimal(m), Decimal(n);
    if m < 10 {
      assert s[0] == t[0];
    } else {
      assert s[..|s| - 1] == Decimal(m / 10) && t[..|t| - 1] == Decimal(n / 10);
      assert s[|s| - 1] == (m % 10) as char + '0' && t[|t| - 1] == (n % 10) as char + '0';
      DecimalIsInjective(m / 10, n / 10);
    }
  }

  /** The id tells host, process and start: no two instances share one, and equal ids mean equal starts. */
  lemma OwnIdIsInjective(host: string, pid: nat, start: nat, host2: string, pid2: nat, start2: nat)
    requires OwnId(host, pid, start) == OwnId(host2, pid2, start2)
    ensures host == host2 && pid == pid2 && start == start2
  {
    DecimalIsDigits(start);
    DecimalIsDigits(start2);
    SplitAtLast('-', host + "-" + Decimal(pid), Decimal(start), host2 + "-" + Decimal(pid2), Decimal(start2));
    DecimalIsInjective(start, start2);
    DecimalIsDigits(pid);
    DecimalIsDigits(pid2);
    SplitAtLast('-', host, Decimal(pid), host2, Decimal(pid2));
    DecimalIsInjective(pid, pid2);
  }

  lemma OwnIdTellsTheStart(a: Info, b: Info)
    requires Built(a) && Built(b) && a.id == b.id
    ensures a.startedAt == b.startedAt && a.id != ""
  {
    var hostA, pidA :| a.id == OwnId(hostA, pidA, a.startedAt);
    var hostB, pidB :| b.id == OwnId(hostB, pidB, b.startedAt);
    OwnIdIsInjective(hostA, pidA, a.startedAt, hostB, pidB, b.startedAt);
  }

  // ------------------------------------------------------- two nodes, one moment

  /**
   * Among the candidates of `n` is an entry, under any id, that starts no later than `other` does. Only when the
   * two instances started at the same instant must it carry the id of `other`.
   */
  ghost predicate Sees(n: Node, other: Info, mode: string, now: nat) {
    exists c <- Candidates(n, mode, now) ::
      c.startedAt <= other.startedAt && (c.startedAt == n.self.startedAt ==> c.id == other.id)
  }

  /** No candidate has an empty id, and only entries of `n` itself carry its id. */
  ghost predicate IdsAreSound(n: Node, mode: string, now: nat) {
    forall c <- Candidates(n, mode, now) ::
      c.id != "" && (c.id == n.self.id ==> c.startedAt == n.self.startedAt)
  }

  /** A node leads exactly when nobody it can still hear ranks before it. */
  lemma LeadsIffNobodyRanksBefore(n: Node, mode: string, now: nat)
    requires EqualFold(n.self.mode, mode) && IdsAreSound(n, mode, now)
    ensures IsLeader(n, mode, now) <==> forall c <- Candidates(n, mode, now) :: !Before(c, n.self)
  {
    var candidates := Candidates(n, mode, now);
    assert n.self in candidates;
    var first := Earliest(candidates);
    if forall c <- candidates :: !Before(c, n.self) {
      FirstHasOneId(candidates, n.self, first);
    }
  }

  /** ... that is, when every earlier-ranked peer of its group has not been seen for more than the window. */
  lemma LeadsIffEarlierPeersAreStale(n: Node, mode: string, now: nat)
    requires EqualFold(n.self.mode, mode) && IdsAreSound(n, mode, now)
    ensures IsLeader(n, mode, now)
            <==> forall k <- n.peers ::
                   var v := n.peers[k];
                   EqualFold(v.info.mode, mode) && GroupKey(v.info) == GroupKey(n.self) && Before(v.info, n.self)
                   ==> !Active(v, now)
  {
    LeadsIffNobodyRanksBefore(n, mode, now);
    BeforeIsAnOrder(n.self, n.self, n.self);
    forall k | k in n.peers && Eligible(n.peers[k], n, mode, now)
      ensures n.peers[k].info in Candidates(n, mode, now)
    {
    }
  }

  /** Two instances that see each other do not both lead, whatever ids their entries are stored under. */
  lemma NotBothLead(a: Node, b: Node, mode: string, now: nat)
    requires EqualFold(a.self.mode, mode) && EqualFold(b.self.mode, mode)
    requires IdsAreSound(a, mode, now) && IdsAreSound(b, mode, now)
    requires Sees(a, b.self, mode, now) && Sees(b, a.self, mode, now)
    requires a.self.startedAt != b.self.startedAt || a.self.id != b.self.id
    ensures !(IsLeader(a, mode, now) && IsLeader(b, mode, now))
  {
    LeadsIffNobodyRanksBefore(a, mode, now);
    LeadsIffNobodyRanksBefore(b, mode, now);
    BeforeIsAnOrder(a.self, b.self, a.self);
  }

  /** With different starts an entry of the other's start is enough: the id it is stored under plays no part. */
  lemma EntryOfOtherStartIsSeen(n: Node, k: string, other: Info, mode: string, now: nat)
    requires k in n.peers && Eligible(n.peers[k], n, mode, now)
    requires n.peers[k].info.startedAt == other.startedAt != n.self.startedAt
    ensures Sees(n, other, mode, now)
  {
    assert n.peers[k].info in Candidates(n, mode, now);
  }

  /** Two nodes with one view of the group both lead exactly when the first entry has no id, or the id of both. */
  lemma BothLeadIff(a: Node, b: Node, mode: string, now: nat)
    requires Candidates(a, mode, now) == Candidates(b, mode, now) != {}
    ensures var first := Earliest(Candidates(a, mode, now)).id;
            IsLeader(a, mode, now) && IsLeader(b, mode, now) <==> first == "" || a.self.id == b.self.id == first
  {
  }

  // -------------------------------------------------------------- all the nodes

  /** The running instances under their own ids. */
  datatype World = World(now: nat, nodes: map<string, Node>)

  /** Time passes, or one node takes in what a query returned. */
  datatype Step = Tick(elapsed: nat) | Refresh(at: string, views: seq<View>)

  /**
   * What a query returns: entries seen by now, none without an id. Whatever else they say, an entry under the own
   * id of a running instance is one of that instance.
   */
  predicate Genuine(w: World, v: View) {
    0 < v.seenAt <= w.now && v.info.id != ""
    && (v.info.id in w.nodes ==> v.info.startedAt == w.nodes[v.info.id].self.startedAt)
  }

  predicate Possible(w: World, s: Step) {
    s.Refresh? ==> s.at in w.nodes && forall v <- s.views :: Genuine(w, v)
  }

  function Next(w: World, s: Step): World {
    match s
    case Tick(elapsed) => w.(now := w.now + elapsed)
    case Refresh(at, views) =>
      if at !in w.nodes then w
      else w.(nodes := w.nodes[at := Node(w.nodes[at].self, Absorb(w.nodes[at].peers, views))])
  }

  ghost predicate Starting(w: World) {
    w.now > 0
    && forall id <- w.nodes :: w.nodes[id].self.id == id && Built(w.nodes[id].self) && w.nodes[id].peers == map[]
  }

  /** A run of any length from `w`. */
  predicate IsRun(w: World, steps: seq<Step>, last: World)
    decreases |steps|
  {
    if steps == [] then last == w
    else Possible(w, steps[0]) && IsRun(Next(w, steps[0]), steps[1..], last)
  }

  ghost predicate Inv(w: World) {
    && w.now > 0
    && (forall id <- w.nodes :: w.nodes[id].self.id == id && Built(w.nodes[id].self))
    && forall id <- w.nodes :: HeardGenuinely(w, w.nodes[id].peers)
  }

  predicate HeardGenuinely(w: World, peers: map<string, View>) {
    forall k <- peers ::
      && k == peers[k].info.id != "" && 0 < peers[k].seenAt <= w.now
      && (k in w.nodes ==> peers[k].info.startedAt == w.nodes[k].self.startedAt)
  }

  lemma {:induction false} AbsorbingIsGenuine(w: World, peers: map<string, View>, views: seq<View>)
    requires w.now > 0 && HeardGenuinely(w, peers) && forall v <- views :: Genuine(w, v)
    ensures HeardGenuinely(w, Absorb(peers, views))
    ensures peers.Keys <= Absorb(peers, views).Keys
    ensures forall v <- views :: v.info.id in Absorb(peers, views)
  {
    if views != [] {
      var before, last := views[..|views| - 1], views[|views| - 1];
      AbsorbingIsGenuine(w, peers, before);
      assert last in views && forall v <- views :: v in before || v == last;
    }
  }

  /** What was heard genuinely stays so as time passes and instances hear more. */
  lemma HeardStays(w: World, next: World, peers: map<string, View>)
    requires HeardGenuinely(w, peers) && w.now <= next.now
    requires forall id :: id in next.nodes ==> id in w.nodes && next.nodes[id].self == w.nodes[id].self
    ensures HeardGenuinely(next, peers)
  {
  }

  lemma StepKeepsNodes(w: World, s: Step)
    requires Possible(w, s)
    ensures var next := Next(w, s);
            && next.nodes.Keys == w.nodes.Keys && w.now <= next.now
            && forall id <- w.nodes :: next.nodes[id].self == w.nodes[id].self
  {
  }

  lemma StepKeepsPeers(w: World, s: Step, id: string)
    requires Inv(w) && Possible(w, s) && id in w.nodes
    ensures id in Next(w, s).nodes
    ensures HeardGenuinely(w, Next(w, s).nodes[id].peers) && w.nodes[id].peers.Keys <= Next(w, s).nodes[id].peers.Keys
  {
    if s.Refresh? && s.at == id {
      AbsorbingIsGenuine(w, w.nodes[id].peers, s.views);
    }
  }

  lemma StepKeepsInv(w: World, s: Step)
    requires Inv(w) && Possible(w, s)
    ensures Inv(Next(w, s))
    ensures Next(w, s).nodes.Keys == w.nodes.Keys
    ensures forall id <- w.nodes :: w.nodes[id].peers.Keys <= Next(w, s).nodes[id].peers.Keys
  {
    var next := Next(w, s);
    StepKeepsNodes(w, s);
    forall id | id in w.nodes
      ensures HeardGenuinely(next, next.nodes[id].peers)
      ensures w.nodes[id].peers.Keys <= next.nodes[id].peers.Keys
    {
      StepKeepsPeers(w, s, id);
      HeardStays(w, next, next.nodes[id].peers);
    }
  }

  /** Over any run a node forgets no peer, and what it stores under the own id of an instance has its start. */
  lemma {:induction false} RunsKeepInv(w: World, steps: seq<Step>, last: World)
    requires Inv(w) && IsRun(w, steps, last)
    ensures Inv(last) && last.nodes.Keys == w.nodes.Keys
    ensures forall id <- w.nodes :: w.nodes[id].peers.Keys <= last.nodes[id].peers.Keys
    decreases |steps|
  {
    if steps != [] {
      StepKeepsInv(w, steps[0]);
      RunsKeepInv(Next(w, steps[0]), steps[1..], last);
    }
  }

  lemma GenuineIdsAreSound(w: World, id: string, mode: string)
    requires Inv(w) && id in w.nodes
    ensures IdsAreSound(w.nodes[id], mode, w.now)
  {
    OwnIdTellsTheStart(w.nodes[id].self, w.nodes[id].self);
  }

  /** The nodes of the team that would start an automation on an event that reaches all of them now. */
  ghost function Starters(w: World, team: set<string>, mode: string): set<string> {
    set id <- team | id in w.nodes && IsLeader(w.nodes[id], mode, w.now)
  }

  lemma NotBothStart(w: World, a: string, b: string, mode: string)
    requires Inv(w) && a in w.nodes && b in w.nodes && a != b
    requires EqualFold(w.nodes[a].self.mode, mode) && EqualFold(w.nodes[b].self.mode, mode)
    requires Sees(w.nodes[a], w.nodes[b].self, mode, w.now) && Sees(w.nodes[b], w.nodes[a].self, mode, w.now)
    ensures !(IsLeader(w.nodes[a], mode, w.now) && IsLeader(w.nodes[b], mode, w.now))
  {
    GenuineIdsAreSound(w, a, mode);
    GenuineIdsAreSound(w, b, mode);
    NotBothLead(w.nodes[a], w.nodes[b], mode, w.now);
  }

  /** In every reachable state, instances of one mode that all see each other start an automation at most once. */
  lemma AtMostOneStarter(start: World, steps: seq<Step>, w: World, team: set<string>, mode: string)
    requires Starting(start) && IsRun(start, steps, w)
    requires forall id <- team :: id in w.nodes && EqualFold(w.nodes[id].self.mode, mode)
    requires forall a <- team, b <- team :: a != b ==> Sees(w.nodes[a], w.nodes[b].self, mode, w.now)
    ensures forall a, b :: a in Starters(w, team, mode) && b in Starters(w, team, mode) ==> a == b
    ensures |Starters(w, team, mode)| <= 1
  {
    RunsKeepInv(start, steps, w);
    forall a, b | a in Starters(w, team, mode) && b in Starters(w, team, mode) ensures a == b {
      if a != b {
        NotBothStart(w, a, b, mode);
      }
    }
    AllEqual(Starters(w, team, mode));
  }

  lemma AllEqual(s: set<string>)
    requires forall a, b :: a in s && b in s ==> a == b
    ensures |s| <= 1
  {
    if a :| a in s {
      assert s == {a};
    }
  }

  /**
   * In every reachable state, a node leads exactly when every entry of its mode and group that ranks before it,
   * by its start and else by its id, was last seen more than 15 s ago.
   */
  lemma ReachableLeader(start: World, steps: seq<Step>, w: World, id: string, mode: string)
    requires Starting(start) && IsRun(start, steps, w)
    requires id in w.nodes && EqualFold(w.nodes[id].self.mode, mode)
    ensures IsLeader(w.nodes[id], mode, w.now)
            <==> forall k <- w.nodes[id].peers ::
                   var self, peer := w.nodes[id].self, w.nodes[id].peers[k].info;
                   EqualFold(peer.mode, mode) && GroupKey(peer) == GroupKey(self)
                   && (peer.startedAt < self.startedAt || (peer.startedAt == self.startedAt && LexLess(peer.id, id)))
                   ==> w.now - w.nodes[id].peers[k].seenAt > 15_000_000_000
  {
    RunsKeepInv(start, steps, w);
    GenuineIdsAreSound(w, id, mode);
    LeadsIffEarlierPeersAreStale(w.nodes[id], mode, w.now);
    forall k | k in w.nodes[id].peers
      ensures var v := w.nodes[id].peers[k]; Active(v, w.now) <==> !(w.now - v.seenAt > 15_000_000_000)
    {
    }
  }

  // -------------------------------------------------------------- announcements

  /** Announcements carry no id: a receiver stores them under the hub key, which instances of one hub share. */
  function Announced(x: Info): Info {
    x.(id := x.hubKey)
  }

  /** What a query returns of these announcements; `at` is when the entries were seen. */
  function Heard(announcements: seq<Info>, at: nat): seq<View> {
    seq(|announcements|, i requires 0 <= i < |announcements| => View(Announced(announcements[i]), at))
  }

  lemma CandidatesAreTwo(n: Node, id: string, mode: string, now: nat)
    requires EqualFold(n.self.mode, mode) && n.peers.Keys == {id} && Eligible(n.peers[id], n, mode, now)
    ensures Candidates(n, mode, now) == {n.self, n.peers[id].info}
  {
    assert n.peers[id].info in Candidates(n, mode, now);
  }

  predicate OfOneHub(x: Info, y: Info) {
    x.mode == y.mode && x.hubKey == y.hubKey && x.hubHost == y.hubHost
  }

  /** An instance that has stored one announcement of its hub leads exactly when that does not rank before it. */
  lemma OneEntry(n: Node, x: Info, seenAt: nat, now: nat)
    requires 0 < seenAt <= now <= seenAt + ACTIVE_WINDOW && n.peers == map[n.self.hubKey := View(Announced(x), seenAt)]
    requires OfOneHub(x, n.self) && n.self.hubKey != "" && n.self.id != "" && n.self.hubKey != n.self.id
    ensures Candidates(n, n.self.mode, now) == {n.self, Announced(x)}
    ensures IsLeader(n, n.self.mode, now) <==> !Before(Announced(x), n.self)
  {
    CandidatesAreTwo(n, n.self.hubKey, n.self.mode, now);
    LeadsIffNobodyRanksBefore(n, n.self.mode, now);
    BeforeIsAnOrder(n.self, n.self, n.self);
  }

  /** Of announcements under one key the last one is kept. */
  lemma {:induction false} LastAnnouncementIsKept(key: string, announcements: seq<Info>, at: nat)
    requires announcements != [] && forall x <- announcements :: x.hubKey == key
    ensures Absorb(map[], Heard(announcements, at))
            == map[key := View(Announced(announcements[|announcements| - 1]), at)]
  {
    var n := |announcements| - 1;
    assert Heard(announcements, at)[..n] == Heard(announcements[..n], at);
    if n > 0 {
      LastAnnouncementIsKept(key, announcements[..n], at);
    }
  }

  predicate AnnouncedIn(announcements: seq<Info>, w: World, hub: Info) {
    announcements != []
    && forall x <- announcements :: x.id in w.nodes && x == w.nodes[x.id].self && OfOneHub(x, hub)
  }

  /** One instance hears announcements of its hub, its own among them or not. */
  lemma HearingDecides(w: World, id: string, announcements: seq<Info>, seenAt: nat)
    requires (forall i <- w.nodes :: w.nodes[i].self.id == i && Built(w.nodes[i].self)) && id in w.nodes
    requires var self := w.nodes[id].self;
             self.hubKey != "" && self.hubKey !in w.nodes && AnnouncedIn(announcements, w, self)
    requires w.nodes[id].peers == map[] && 0 < seenAt <= w.now <= seenAt + ACTIVE_WINDOW
    ensures var s, self := Refresh(id, Heard(announcements, seenAt)), w.nodes[id].self;
            var last := announcements[|announcements| - 1];
            && Possible(w, s)
            && Next(w, s) == w.(nodes := w.nodes[id := Next(w, s).nodes[id]]) && Next(w, s).nodes[id].self == self
            && Candidates(Next(w, s).nodes[id], self.mode, w.now) == {self, Announced(last)}
            && (IsLeader(Next(w, s).nodes[id], self.mode, w.now) <==> !Before(Announced(last), self))
  {
    var self, last := w.nodes[id].self, announcements[|announcements| - 1];
    OwnIdTellsTheStart(self, self);
    LastAnnouncementIsKept(self.hubKey, announcements, seenAt);
    OneEntry(Next(w, Refresh(id, Heard(announcements, seenAt))).nodes[id], last, seenAt, w.now);
  }

  /**
   * An instance that hears its own announcement, and no local probe that replaces it, stores it under its hub key.
   * From then on, alone in the world, it leads exactly when that key does not sort before its id.
   */
  lemma EchoDecidesWhoLeads(w: World, id: string, seenAt: nat)
    requires Starting(w) && id in w.nodes && 0 < seenAt <= w.now <= seenAt + ACTIVE_WINDOW
    requires var key := w.nodes[id].self.hubKey; key != "" && key !in w.nodes
    ensures var self := w.nodes[id].self;
            var heard := Refresh(id, Heard([self], seenAt));
            && Possible(w, heard)
            && (IsLeader(Next(w, heard).nodes[id], self.mode, w.now) <==> !LexLess(self.hubKey, id))
  {
    HearingDecides(w, id, [w.nodes[id].self], seenAt);
  }

  lemma RunOfTwo(w: World, one: Step, two: Step)
    requires Possible(w, one) && Possible(Next(w, one), two)
    ensures IsRun(w, [one, two], Next(Next(w, one), two))
  {
    var last := Next(Next(w, one), two);
    assert [one, two][1..] == [two] && [two][1..] == [];
    assert IsRun(last, [], last);
    assert IsRun(Next(w, one), [two], last);
  }

  /** With its own entry and one announcement of the two, an instance sees the other exactly by that one's. */
  lemma SeenIfKept(n: Node, other: Info, kept: Info, mode: string, now: nat)
    requires Candidates(n, mode, now) == {n.self, Announced(kept)} && (kept == n.self || kept == other)
    requires n.self.startedAt != other.startedAt && other.id !in {n.self.id, n.self.hubKey}
    ensures Sees(n, other, mode, now) <==> kept == other
  {
    assert Announced(kept) in Candidates(n, mode, now);
  }

  /** Its own announcement ranks before an instance by the key, and that of another one by the start. */
  lemma KeptDecidesWhoLeads(self: Info, other: Info, kept: Info)
    requires OfOneHub(self, other) && self.startedAt != other.startedAt && (kept == self || kept == other)
    ensures Before(Announced(kept), self)
            <==> if kept == self then LexLess(self.hubKey, self.id) else other.startedAt < self.startedAt
  {
  }

  /** Two instances of one hub, started at different instants; no instance is called by the key of the hub. */
  ghost predicate OfOneHubAlone(w: World, a: string, b: string) {
    && w.nodes.Keys == {a, b}
    && (forall id <- w.nodes :: w.nodes[id].self.id == id && Built(w.nodes[id].self))
    && var x, y := w.nodes[a].self, w.nodes[b].self;
       OfOneHub(x, y) && x.startedAt != y.startedAt && x.hubKey != "" && x.hubKey !in w.nodes
  }

  /** One of them hears announcements and keeps the last one. */
  lemma HearsOne(w: World, id: string, other: string, announcements: seq<Info>, seenAt: nat)
    requires OfOneHubAlone(w, id, other) && w.nodes[id].peers == map[]
    requires 0 < seenAt <= w.now <= seenAt + ACTIVE_WINDOW && AnnouncedIn(announcements, w, w.nodes[id].self)
    ensures var s, self, y := Refresh(id, Heard(announcements, seenAt)), w.nodes[id].self, w.nodes[other].self;
            var next, kept := Next(w, s), announcements[|announcements| - 1];
            && Possible(w, s)
            && next == w.(nodes := w.nodes[id := next.nodes[id]]) && next.nodes[id].self == self
            && (IsLeader(next.nodes[id], self.mode, w.now)
                <==> if kept == self then !LexLess(self.hubKey, id) else self.startedAt < y.startedAt)
            && (Sees(next.nodes[id], y, self.mode, w.now) <==> kept == y)
  {
    var self, y, kept := w.nodes[id].self, w.nodes[other].self, announcements[|announcements| - 1];
    HearingDecides(w, id, announcements, seenAt);
    assert kept in announcements;
    KeptDecidesWhoLeads(self, y, kept);
    SeenIfKept(Next(w, Refresh(id, Heard(announcements, seenAt))).nodes[id], y, kept, self.mode, w.now);
  }

  /**
   * Two instances of one hub, each of which hears announcements of both in any order and number, keep the one they
   * heard last. They see each other exactly when each keeps the other's, and what they keep decides who leads.
   */
  lemma LastHeardDecidesWhoLeads(w: World, a: string, b: string, toA: seq<Info>, toB: seq<Info>, seenAt: nat)
    returns (last: World)
    requires Starting(w) && OfOneHubAlone(w, a, b) && 0 < seenAt <= w.now <= seenAt + ACTIVE_WINDOW
    requires AnnouncedIn(toA, w, w.nodes[a].self) && AnnouncedIn(toB, w, w.nodes[b].self)
    ensures IsRun(w, [Refresh(a, Heard(toA, seenAt)), Refresh(b, Heard(toB, seenAt))], last)
    ensures a in last.nodes && b in last.nodes && last.now == w.now
    ensures var x, y := w.nodes[a].self, w.nodes[b].self;
            var m, keptByA, keptByB := x.mode, toA[|toA| - 1], toB[|toB| - 1];
            && (IsLeader(last.nodes[a], m, w.now)
                <==> if keptByA == x then !LexLess(x.hubKey, a) else x.startedAt < y.startedAt)
            && (IsLeader(last.nodes[b], m, w.now)
                <==> if keptByB == y then !LexLess(y.hubKey, b) else y.startedAt < x.startedAt)
            && (Sees(last.nodes[a], y, m, w.now) <==> keptByA == y)
            && (Sees(last.nodes[b], x, m, w.now) <==> keptByB == x)
  {
    var one, two := Refresh(a, Heard(toA, seenAt)), Refresh(b, Heard(toB, seenAt));
    HearsOne(w, a, b, toA, seenAt);
    var between := Next(w, one);
    assert between.nodes[b] == w.nodes[b] && between.now == w.now;
    HearsOne(between, b, a, toB, seenAt);
    last := Next(between, two);
    assert last.nodes[a] == between.nodes[a];
    RunOfTwo(w, one, two);
  }

  /** When both keep the later one's announcement both may lead; with the earlier one's it may be that none does. */
  lemma SameLastHeard(w: World, a: string, b: string, seenAt: nat) returns (laterKept: World, earlierKept: World)
    requires Starting(w) && OfOneHubAlone(w, a, b) && 0 < seenAt <= w.now <= seenAt + ACTIVE_WINDOW
    requires w.nodes[a].self.startedAt < w.nodes[b].self.startedAt
    ensures a in laterKept.nodes && b in laterKept.nodes && a in earlierKept.nodes && b in earlierKept.nodes
    ensures var x, y := w.nodes[a].self, w.nodes[b].self;
            && IsRun(w, [Refresh(a, Heard([x, y], seenAt)), Refresh(b, Heard([x, y], seenAt))], laterKept)
            && IsLeader(laterKept.nodes[a], x.mode, w.now)
            && (IsLeader(laterKept.nodes[b], y.mode, w.now) <==> !LexLess(y.hubKey, b))
            && IsRun(w, [Refresh(a, Heard([y, x], seenAt)), Refresh(b, Heard([y, x], seenAt))], earlierKept)
            && (IsLeader(earlierKept.nodes[a], x.mode, w.now) <==> !LexLess(x.hubKey, a))
            && !IsLeader(earlierKept.nodes[b], y.mode, w.now)
  {
    var x, y := w.nodes[a].self, w.nodes[b].self;
    laterKept := LastHeardDecidesWhoLeads(w, a, b, [x, y], [x, y], seenAt);
    earlierKept := LastHeardDecidesWhoLeads(w, a, b, [y, x], [y, x], seenAt);
  }
}

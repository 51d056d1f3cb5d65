// The two ways internal/cli/cluster.go chooses a leader: one gates automations, the other is shown in a list.

module ClusterSelectors {
  import opened Text
  import opened Cluster

  ghost function Members(views: seq<View>, group: string, now: nat): set<Info> {
    set v <- views | Active(v, now) && GroupKey(v.info) == group :: v.info
  }

  ghost predicate Groups(grouped: map<string, seq<Info>>, views: seq<View>, now: nat) {
    forall g :: if g in grouped then grouped[g] != [] && Elements(grouped[g]) == Members(views, g, now)
                else Members(views, g, now) == {}
  }

  lemma OneMoreInGroups(grouped: map<string, seq<Info>>, views: seq<View>, i: nat, now: nat)
    requires i < |views| && Groups(grouped, views[..i], now)
    ensures var info := views[i].info;
            var items := if GroupKey(info) in grouped then grouped[GroupKey(info)] else [];
            Groups(if Active(views[i], now) then grouped[GroupKey(info) := items + [info]] else grouped,
                   views[..i + 1], now)
  {
    var info, key := views[i].info, GroupKey(views[i].info);
    var items := if key in grouped then grouped[key] else [];
    MembersOfOneMore(views, i, now);
    OneMoreElement(items, info);
    var more := if Active(views[i], now) then grouped[key := items + [info]] else grouped;
    forall g
      ensures if g in more then more[g] != [] && Elements(more[g]) == Members(views[..i + 1], g, now)
              else Members(views[..i + 1], g, now) == {}
    {
    }
  }

  method GroupViews(views: seq<View>, now: nat) returns (grouped: map<string, seq<Info>>)
    ensures Groups(grouped, views, now)
  {
    grouped := map[];
    var i := 0;
    while i < |views|
      invariant i <= |views|
      invariant Groups(grouped, views[..i], now)
    {
      OneMoreInGroups(grouped, views, i, now);
      if Active(views[i], now) {
        var group := GroupKey(views[i].info);
        var items := if group in grouped then grouped[group] else [];
        grouped := grouped[group := items + [views[i].info]];
      }
      i := i + 1;
    }
    assert views[..i] == views;
  }

  method LeaderByGroup(views: seq<View>, now: nat) returns (leaders: map<string, string>)
    ensures forall g :: g in leaders <==> Members(views, g, now) != {}
    ensures forall g <- leaders :: leaders[g] == Earliest(Members(views, g, now)).id
  {
    var grouped := GroupViews(views, now);
    leaders := map[];
    var left := grouped.Keys;
    while left != {}
      invariant left <= grouped.Keys
      invariant leaders.Keys == grouped.Keys - left
      invariant forall g <- leaders :: Members(views, g, now) != {} && leaders[g] == Earliest(Members(views, g, now)).id
      decreases |left|
    {
      var g :| g in left;
      var first := FirstOf(grouped[g]);
      FirstHasOneId(Members(views, g, now), first, Earliest(Members(views, g, now)));
      leaders := leaders[g := first.id];
      left := left - {g};
    }
  }

  lemma MembersOfOneMore(views: seq<View>, i: nat, now: nat)
    requires i < |views|
    ensures forall g :: Members(views[..i + 1], g, now)
                        == Members(views[..i], g, now)
                           + if Active(views[i], now) && GroupKey(views[i].info) == g then {views[i].info} else {}
  {
    assert views[..i + 1] == views[..i] + [views[i]];
  }

  /** A mode without padding and without the character that joins mode and hub. */
  predicate PlainMode(info: Info) {
    TrimSpace(info.mode) == info.mode && '|' !in info.mode
  }

  lemma {:induction false} JoinedTextsSplit(a: string, x: string, b: string, y: string)
    requires a + "|" + x == b + "|" + y && '|' !in a && '|' !in b
    ensures a == b && x == y
  {
    var s := a + "|" + x;
    assert s[|a|] == '|' && forall i :: 0 <= i < |a| ==> s[i] == a[i];
    assert s == b + "|" + y;
    assert s[|b|] == '|' && forall i :: 0 <= i < |b| ==> s[i] == b[i];
    assert s[..|a|] == a && s[..|b|] == b && s[|a| + 1..] == x && s[|b| + 1..] == y;
  }

  /** The hub an instance is grouped by: its key, or its host when the key is blank. */
  function HubOf(info: Info): string {
    if !Blank(info.hubKey) then info.hubKey else if !Blank(info.hubHost) then info.hubHost else ""
  }

  /** Two instances with plain modes are in one group exactly when mode and hub are the same but for case. */
  lemma OneGroupIff(a: Info, b: Info)
    requires PlainMode(a) && PlainMode(b)
    ensures GroupKey(a) == GroupKey(b) <==> SameButCase(a.mode, b.mode) && SameButCase(HubOf(a), HubOf(b))
  {
    forall x | x in {a, b}
      ensures FirstNonEmpty(x.hubKey, x.hubHost) == HubOf(x)
    {
      BlankIff(x.hubKey);
      BlankIff(x.hubHost);
    }
    if GroupKey(a) == GroupKey(b) {
      OneGroupOneMode(a, b);
      assert GroupKey(a)[|a.mode| + 1..] == Lower(HubOf(a)) && GroupKey(b)[|b.mode| + 1..] == Lower(HubOf(b));
    }
    FoldIff(a.mode, b.mode);
    FoldIff(HubOf(a), HubOf(b));
  }

  lemma OneGroupOneMode(a: Info, b: Info)
    requires PlainMode(a) && PlainMode(b) && GroupKey(a) == GroupKey(b)
    ensures EqualFold(a.mode, b.mode)
  {
    assert forall i :: 0 <= i < |a.mode| ==> Lower(a.mode)[i] != '|';
    assert forall i :: 0 <= i < |b.mode| ==> Lower(b.mode)[i] != '|';
    JoinedTextsSplit(Lower(a.mode), Lower(FirstNonEmpty(a.hubKey, a.hubHost)),
                     Lower(b.mode), Lower(FirstNonEmpty(b.hubKey, b.hubHost)));
  }

  /** The views the list is made of: the peers in whatever order, and the instance itself. */
  ghost predicate PeersAndSelf(views: seq<View>, n: Node, now: nat) {
    forall v :: v in views <==> v in n.peers.Values || v == View(n.self, now)
  }

  /** The list goes by the group key alone, the gate by the mode as well. */
  lemma CandidatesAreMembers(n: Node, views: seq<View>, now: nat)
    requires now > 0 && PeersAndSelf(views, n, now)
    ensures n.self in Members(views, GroupKey(n.self), now)
    ensures forall x :: x in Candidates(n, n.self.mode, now)
                        <==> x in Members(views, GroupKey(n.self), now) && EqualFold(x.mode, n.self.mode)
  {
    var members, candidates := Members(views, GroupKey(n.self), now), Candidates(n, n.self.mode, now);
    assert View(n.self, now) in views;
    forall x | x in members && EqualFold(x.mode, n.self.mode)
      ensures x in candidates
    {
      var v :| v in views && Active(v, now) && GroupKey(v.info) == GroupKey(n.self) && v.info == x;
      if v != View(n.self, now) {
        var k :| k in n.peers && n.peers[k] == v;
      }
    }
    forall x | x in candidates
      ensures x in members && EqualFold(x.mode, n.self.mode)
    {
      if x != n.self {
        var k :| k in n.peers && Eligible(n.peers[k], n, n.self.mode, now) && n.peers[k].info == x;
        assert n.peers[k] in views;
      }
    }
  }

  /** Entries of one id have one start. */
  predicate IdsTellStarts(members: set<Info>) {
    forall x <- members, y <- members :: x.id == y.id ==> x.startedAt == y.startedAt
  }

  /** First of all and first of a part have one id when nothing outside the part ranks before the first of it. */
  lemma FirstOfPart(all: set<Info>, part: set<Info>)
    requires part <= all && part != {}
    ensures var first := Earliest(part);
            var none := forall x <- all - part :: !Before(x, first);
            && (none ==> Earliest(all).id == first.id)
            && (IdsTellStarts(all) && Earliest(all).id == first.id ==> none)
  {
    var first, earliest := Earliest(part), Earliest(all);
    if forall x <- all - part :: !Before(x, first) {
      assert forall x <- all :: x in part || x in all - part;
      FirstHasOneId(all, first, earliest);
    }
    if IdsTellStarts(all) && earliest.id == first.id {
      forall x | x in all - part
        ensures !Before(x, first)
      {
        assert Before(x, first) ==> Before(x, earliest);
      }
    }
  }

  /**
   * The leader that gates automations is the leader the list shows, in whatever order the peers come, when no
   * active member of the group key with another mode ranks before it, and, as long as ids tell starts, only then.
   */
  lemma SelectorsAgreeIff(n: Node, views: seq<View>, now: nat)
    requires now > 0 && PeersAndSelf(views, n, now)
    ensures var members := Members(views, GroupKey(n.self), now);
            && n.self in members && n.self in Candidates(n, n.self.mode, now)
            && var first := Earliest(Candidates(n, n.self.mode, now));
            var agree := LeaderId(n, n.self.mode, now) == Earliest(members).id;
            var none := forall x <- members :: !EqualFold(x.mode, n.self.mode) ==> !Before(x, first);
            (none ==> agree) && (IdsTellStarts(members) && agree ==> none)
  {
    var members, candidates := Members(views, GroupKey(n.self), now), Candidates(n, n.self.mode, now);
    CandidatesAreMembers(n, views, now);
    FirstOfPart(members, candidates);
    assert forall x <- members :: x in members - candidates <==> !EqualFold(x.mode, n.self.mode);
  }

  /** For modes without padding and bar, that is always so. */
  lemma SelectorsAgree(n: Node, views: seq<View>, now: nat)
    requires now > 0 && PeersAndSelf(views, n, now)
    requires PlainMode(n.self) && forall k <- n.peers :: PlainMode(n.peers[k].info)
    ensures n.self in Members(views, GroupKey(n.self), now)
    ensures LeaderId(n, n.self.mode, now) == Earliest(Members(views, GroupKey(n.self), now)).id
  {
    SelectorsAgreeIff(n, views, now);
    forall x | x in Members(views, GroupKey(n.self), now)
      ensures EqualFold(x.mode, n.self.mode)
    {
      var v :| v in views && v.info == x && GroupKey(v.info) == GroupKey(n.self);
      if v != View(n.self, now) {
        var k :| k in n.peers && n.peers[k] == v;
      }
      OneGroupOneMode(x, n.self);
    }
  }

  /** The list names an earlier peer of the same group key and another mode, the gate the instance itself. */
  ghost predicate SelectorsPart(self: Info, peer: Info, now: nat) {
    var n, views := Node(self, map[peer.id := View(peer, now)]), [View(self, now), View(peer, now)];
    && PeersAndSelf(views, n, now) && self in Members(views, GroupKey(self), now)
    && LeaderId(n, self.mode, now) == self.id != peer.id == Earliest(Members(views, GroupKey(self), now)).id
  }

  lemma ListOfTwo(self: Info, peer: Info, now: nat)
    requires now > 0 && GroupKey(peer) == GroupKey(self)
    ensures var views := [View(self, now), View(peer, now)];
            && PeersAndSelf(views, Node(self, map[peer.id := View(peer, now)]), now)
            && Members(views, GroupKey(self), now) == {self, peer}
  {
    var peers, views := map[peer.id := View(peer, now)], [View(self, now), View(peer, now)];
    assert peers[peer.id] in peers.Values;
    assert View(self, now) in views && View(peer, now) in views;
  }

  lemma OtherModePartsThem(self: Info, peer: Info, now: nat)
    requires now > 0 && GroupKey(peer) == GroupKey(self) && !EqualFold(peer.mode, self.mode)
    requires Before(peer, self) && peer.id != self.id
    ensures SelectorsPart(self, peer, now)
  {
    var n, views := Node(self, map[peer.id := View(peer, now)]), [View(self, now), View(peer, now)];
    ListOfTwo(self, peer, now);
    CandidatesAreMembers(n, views, now);
    assert Candidates(n, self.mode, now) == {self};
    BeforeIsAnOrder(peer, peer, peer);
    BeforeIsAnOrder(peer, self, peer);
    FirstHasOneId({self, peer}, peer, Earliest({self, peer}));
  }

  /** A bar in the mode of an earlier peer does that ... */
  lemma BarInModePartsThem(self: Info, peer: Info, now: nat)
    requires now > 0 && peer.startedAt < self.startedAt && peer.id != self.id
    requires self.mode == "auto-run" && self.hubKey == "h|k" && peer.mode == "auto-run|h" && peer.hubKey == "k"
    ensures SelectorsPart(self, peer, now)
  {
    PlainGroupKey(self);
    PlainGroupKey(peer);
    assert "auto-run" + "|" + "h|k" == "auto-run|h" + "|" + "k";
    assert Lower(peer.mode) != Lower(self.mode) by {
      PlainText(peer.mode);
      PlainText(self.mode);
    }
    OtherModePartsThem(self, peer, now);
  }

  predicate Plain(s: string) {
    && s != "" && !GoSpace(s[0]) && !GoSpace(s[|s| - 1])
    && forall i :: 0 <= i < |s| ==> LowerChar(s[i]) == s[i]
  }

  lemma PlainGroupKey(info: Info)
    requires Plain(info.mode) && Plain(info.hubKey)
    ensures GroupKey(info) == info.mode + "|" + info.hubKey
  {
    PlainText(info.mode);
    PlainText(info.hubKey);
  }

  /** ... and so does a space around it. */
  lemma PaddedModePartsThem(self: Info, peer: Info, now: nat)
    requires now > 0 && peer.startedAt < self.startedAt && peer.id != self.id
    requires self.mode == "auto-run" && peer.mode == " auto-run"
    requires peer.hubKey == self.hubKey && peer.hubHost == self.hubHost
    ensures SelectorsPart(self, peer, now)
  {
    assert " " + self.mode == peer.mode;
    PaddedGroupKey(self, peer);
    OtherModePartsThem(self, peer, now);
  }

  lemma PaddedGroupKey(self: Info, peer: Info)
    requires Plain(self.mode) && peer.mode == " " + self.mode
    requires peer.hubKey == self.hubKey && peer.hubHost == self.hubHost
    ensures GroupKey(peer) == GroupKey(self) && !EqualFold(peer.mode, self.mode)
  {
    PlainText(self.mode);
    SpaceIsTrimmed(self.mode);
    assert |Lower(peer.mode)| != |Lower(self.mode)|;
  }

  lemma SpaceIsTrimmed(s: string)
    requires Plain(s)
    ensures TrimSpace(" " + s) == s
  {
    TrimDropsPadding(" ", s, "", c => GoSpace(c));
    assert " " + s + "" == " " + s;
  }

  lemma PlainText(s: string)
    requires Plain(s)
    ensures TrimSpace(s) == s && Lower(s) == s
  {
    TrimDropsPadding("", s, "", c => GoSpace(c));
    assert "" + s + "" == s;
  }
}

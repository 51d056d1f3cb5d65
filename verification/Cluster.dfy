// internal/cli/cluster.go: which of several running instances is the leader of its group.

module Cluster {
  import opened Common
  import opened Text

  datatype Info = Info(id: string, mode: string, startedAt: int, hubKey: string, hubHost: string)

  /** Instants are nanoseconds; 0 is the zero time of an instance that was never seen. */
  datatype View = View(info: Info, seenAt: nat)

  const ACTIVE_WINDOW: nat := 15_000_000_000

  predicate Active(v: View, now: nat) {
    v.seenAt != 0 && now - v.seenAt <= ACTIVE_WINDOW
  }

  predicate EqualFold(a: string, b: string) {
    Lower(a) == Lower(b)
  }

  function FirstNonEmpty(a: string, b: string): string {
    if TrimSpace(a) != "" then a else if TrimSpace(b) != "" then b else ""
  }

  function GroupKey(info: Info): string {
    Lower(TrimSpace(info.mode)) + "|" + Lower(FirstNonEmpty(info.hubKey, info.hubHost))
  }

  // ------------------------------------------------------------- the ranking

  predicate LexLess(a: string, b: string) {
    b != "" && (a == "" || a[0] < b[0] || (a[0] == b[0] && LexLess(a[1..], b[1..])))
  }

  /** Earlier start first; the id decides between equal starts. */
  predicate Before(a: Info, b: Info) {
    if a.startedAt == b.startedAt then LexLess(a.id, b.id) else a.startedAt < b.startedAt
  }

  lemma {:induction false} LexIsTotal(a: string, b: string)
    ensures LexLess(a, b) || LexLess(b, a) || a == b
    ensures !(LexLess(a, b) && LexLess(b, a))
  {
    if a != "" && b != "" {
      LexIsTotal(a[1..], b[1..]);
      assert a == [a[0]] + a[1..] && b == [b[0]] + b[1..];
    }
  }

  /** The texts first differ at `i`, with the smaller character in `a`, or `a` ends there and `b` does not. */
  predicate LessAt(a: string, b: string, i: nat) {
    i <= |a| && i < |b| && a[..i] == b[..i] && (i == |a| || a[i] < b[i])
  }

  lemma FirstIsShared(a: string, b: string, i: nat)
    requires LessAt(a, b, i) && i > 0
    ensures a != "" && b != "" && a[0] == b[0]
  {
    assert a[0] == a[..i][0] && b[0] == b[..i][0];
  }

  lemma {:induction false} LexLessIff(a: string, b: string)
    ensures LexLess(a, b) <==> exists i: nat :: LessAt(a, b, i)
  {
    if a == "" || b == "" || a[0] != b[0] {
      assert LexLess(a, b) ==> LessAt(a, b, 0);
      if i: nat :| LessAt(a, b, i) && i > 0 {
        FirstIsShared(a, b, i);
      }
    } else {
      LexLessIff(a[1..], b[1..]);
      if i: nat :| LessAt(a[1..], b[1..], i) {
        assert a[..i + 1] == [a[0]] + a[1..][..i] && b[..i + 1] == [b[0]] + b[1..][..i];
        assert LessAt(a, b, i + 1);
      }
      if i: nat :| LessAt(a, b, i) {
        assert a[1..][..i - 1] == a[..i][1..] && b[1..][..i - 1] == b[..i][1..];
        assert LessAt(a[1..], b[1..], i - 1);
      }
    }
  }

  lemma {:induction false} LexIsTransitive(a: string, b: string, c: string)
    requires LexLess(a, b) && LexLess(b, c)
    ensures LexLess(a, c)
  {
    if a != "" && a[0] == b[0] == c[0] {
      LexIsTransitive(a[1..], b[1..], c[1..]);
    }
  }

  lemma BeforeIsAnOrder(a: Info, b: Info, c: Info)
    ensures !Before(a, a)
    ensures Before(a, b) && Before(b, c) ==> Before(a, c)
    ensures Before(a, b) || Before(b, a) || (a.startedAt == b.startedAt && a.id == b.id)
  {
    LexIsTotal(a.id, a.id);
    LexIsTotal(a.id, b.id);
    if LexLess(a.id, b.id) && LexLess(b.id, c.id) {
      LexIsTransitive(a.id, b.id, c.id);
    }
  }

  /** A first element of the ranking, whatever order the set is walked in. */
  predicate First(s: set<Info>, x: Info) {
    x in s && forall y <- s :: !Before(y, x)
  }

  ghost function Earliest(s: set<Info>): (x: Info)
    requires s != {}
    ensures First(s, x)
  {
    var y :| y in s;
    BeforeIsAnOrder(y, y, y);
    if s == {y} then y
    else
      assert s == {y} + (s - {y});
      var rest := Earliest(s - {y});
      assert forall z <- s :: z == y || z in s - {y};
      assert forall z <- s :: Before(z, y) && Before(y, rest) ==> Before(z, rest) by {
        forall z <- s ensures Before(z, y) && Before(y, rest) ==> Before(z, rest) {
          BeforeIsAnOrder(z, y, rest);
        }
      }
      if Before(y, rest) then y else rest
  }

  /** Two first elements carry the same id: ties do not matter to anyone who only looks at the id. */
  lemma FirstHasOneId(s: set<Info>, x: Info, y: Info)
    requires First(s, x) && First(s, y)
    ensures x.id == y.id && x.startedAt == y.startedAt
  {
    BeforeIsAnOrder(x, y, x);
  }

  // ------------------------------------------------------------- one registry

  /** An instance and the peers it has heard of, by their id. */
  datatype Node = Node(self: Info, peers: map<string, View>)

  predicate Eligible(v: View, n: Node, mode: string, now: nat) {
    EqualFold(v.info.mode, mode) && GroupKey(v.info) == GroupKey(n.self) && Active(v, now)
  }

  ghost function Candidates(n: Node, mode: string, now: nat): set<Info> {
    (if EqualFold(n.self.mode, mode) then {n.self} else {}) +
    set k <- n.peers | Eligible(n.peers[k], n, mode, now) :: n.peers[k].info
  }

  ghost function LeaderId(n: Node, mode: string, now: nat): string {
    var candidates := Candidates(n, mode, now);
    if candidates == {} then "" else Earliest(candidates).id
  }

  ghost predicate IsLeader(n: Node, mode: string, now: nat) {
    LeaderId(n, mode, now) == "" || LeaderId(n, mode, now) == n.self.id
  }

  function Absorb(peers: map<string, View>, views: seq<View>): map<string, View> {
    if views == [] then peers
    else
      var last := views[|views| - 1];
      Absorb(peers, views[..|views| - 1])[last.info.id := last]
  }

  class Registry {
    const self: Info
    var peers: map<string, View>

    ghost function State(): Node
      reads this
    {
      Node(self, peers)
    }

    constructor (self: Info)
      ensures this.self == self && peers == map[]
    {
      this.self, peers := self, map[];
    }

    method Refresh(views: seq<View>)
      modifies this`peers
      ensures State() == Node(self, Absorb(old(peers), views))
    {
      var i := 0;
      while i < |views|
        invariant i <= |views|
        invariant peers == Absorb(old(peers), views[..i])
      {
        assert views[..i + 1][..i] == views[..i];
        peers := peers[views[i].info.id := views[i]];
        i := i + 1;
      }
      assert views[..i] == views;
    }

    /** The peers in some order: iterating over the map gives no particular one. */
    method Snapshot() returns (views: seq<View>)
      ensures forall v :: v in views <==> v in peers.Values
    {
      views := [];
      var left := peers.Keys;
      while left != {}
        invariant left <= peers.Keys
        invariant forall v :: v in views <==> exists k <- peers.Keys - left :: peers[k] == v
        decreases |left|
      {
        var k :| k in left;
        views := views + [peers[k]];
        left := left - {k};
      }
    }

    /** None stands for the empty info that is returned when there is no candidate. */
    method Leader(mode: string, now: nat) returns (leader: Option<Info>)
      ensures leader.None? <==> Candidates(State(), mode, now) == {}
      ensures leader.Some? ==> First(Candidates(State(), mode, now), leader.value)
    {
      var views := Snapshot();
      var candidates: seq<Info> := [];
      var group := GroupKey(self);
      if EqualFold(self.mode, mode) {
        candidates := [self];
      }
      ghost var own := Elements(candidates);
      var i := 0;
      while i < |views|
        invariant i <= |views|
        invariant Elements(candidates) == own + EligibleInfos(views[..i], State(), mode, now)
      {
        var view := views[i];
        OneMoreView(views, i, State(), mode, now);
        if EqualFold(view.info.mode, mode) && GroupKey(view.info) == group && Active(view, now) {
          OneMoreElement(candidates, view.info);
          candidates := candidates + [view.info];
        }
        i := i + 1;
      }
      assert views[..i] == views;
      SameCandidates(views, State(), mode, now);
      if |candidates| == 0 {
        return None;
      }
      assert candidates[0] in Elements(candidates);
      var first := FirstOf(candidates);
      return Some(first);
    }

    method IsLeaderNow(mode: string, now: nat) returns (r: bool)
      ensures r == IsLeader(State(), mode, now)
    {
      var leader := Leader(mode, now);
      if leader.None? {
        return true;
      }
      FirstHasOneId(Candidates(State(), mode, now), leader.value, Earliest(Candidates(State(), mode, now)));
      return leader.value.id == "" || leader.value.id == self.id;
    }
  }

  ghost function Elements(infos: seq<Info>): set<Info> {
    set x | x in infos
  }

  ghost function EligibleInfos(views: seq<View>, n: Node, mode: string, now: nat): set<Info> {
    set v <- views | Eligible(v, n, mode, now) :: v.info
  }

  lemma OneMoreElement(infos: seq<Info>, info: Info)
    ensures Elements(infos + [info]) == Elements(infos) + {info}
  {
  }

  lemma OneMoreView(views: seq<View>, i: nat, n: Node, mode: string, now: nat)
    requires i < |views|
    ensures EligibleInfos(views[..i + 1], n, mode, now)
            == EligibleInfos(views[..i], n, mode, now)
              + if Eligible(views[i], n, mode, now) then {views[i].info} else {}
  {
    assert views[..i + 1] == views[..i] + [views[i]];
  }

  lemma SameCandidates(views: seq<View>, n: Node, mode: string, now: nat)
    requires forall v :: v in views <==> v in n.peers.Values
    ensures Candidates(n, mode, now)
            == (if EqualFold(n.self.mode, mode) then {n.self} else {}) + EligibleInfos(views, n, mode, now)
  {
    forall k | k in n.peers
      ensures n.peers[k] in views
    {
      assert n.peers[k] in n.peers.Values;
    }
    forall v | v in views
      ensures exists k <- n.peers :: n.peers[k] == v
    {
      assert v in n.peers.Values;
    }
  }

  /** The head of the sorted candidates. */
  method FirstOf(candidates: seq<Info>) returns (first: Info)
    requires candidates != []
    ensures First(Elements(candidates), first)
  {
    first := candidates[0];
    BeforeIsAnOrder(first, first, first);
    var i := 1;
    while i < |candidates|
      invariant 1 <= i <= |candidates|
      invariant first in candidates
      invariant forall j :: 0 <= j < i ==> !Before(candidates[j], first)
    {
      if Before(candidates[i], first) {
        forall j | 0 <= j <= i ensures !Before(candidates[j], candidates[i]) {
          BeforeIsAnOrder(candidates[j], candidates[i], first);
          BeforeIsAnOrder(candidates[i], candidates[i], candidates[i]);
        }
        first := candidates[i];
      }
      i := i + 1;
    }
  }
}

/** The inter-satellite link manager of simulator/src/core/communication.rs.

    Satellites are the integers 0 .. n-1; their integer order stands for the
    order of Bevy entities that `disconnect_farthest` relies on. Each satellite
    owns a `Connections` list of peer ids (a list, not a set: the same peer may
    occur twice), and may carry a `TryConnect` marker. Positions are seen only
    through a squared-distance function `distSq(b, a)`, the squared distance from
    `b`'s position to `a`'s. Once per fixed tick five steps run in order:
    mark, propose, apply proposals, detect stretched links, remove them. */
module LinkManager {
  import opened Sequences

  /** A `ConnectTwo` or `DisconnectTwo` event. */
  datatype Link = Link(from: int, to: int)

  // ---------------------------------------------------------------------------
  // The link-graph invariant

  /** Every stored peer is a satellite. */
  predicate PeersAreSatellites(conns: seq<seq<int>>)
  {
    forall a, k :: 0 <= a < |conns| && 0 <= k < |conns[a]| ==> 0 <= conns[a][k] < |conns|
  }

  /** No satellite is linked to itself. */
  predicate NoSelfLinks(conns: seq<seq<int>>)
  {
    forall a :: 0 <= a < |conns| ==> a !in conns[a]
  }

  /** No list is longer than the configured `connection_number`. */
  predicate WithinCapacity(conns: seq<seq<int>>, cap: nat)
  {
    forall a :: 0 <= a < |conns| ==> |conns[a]| <= cap
  }

  /** `b` occurs in `a`'s list exactly as often as `a` occurs in `b`'s. */
  predicate Symmetric(conns: seq<seq<int>>)
  {
    forall a, b :: 0 <= a < |conns| && 0 <= b < |conns| ==> multiset(conns[a])[b] == multiset(conns[b])[a]
  }

  predicate LinkGraph(conns: seq<seq<int>>, cap: nat)
  {
    PeersAreSatellites(conns) && NoSelfLinks(conns) && WithinCapacity(conns, cap) && Symmetric(conns)
  }

  /** Symmetry in the set sense: B is a peer of A iff A is a peer of B. */
  lemma SymmetricMembership(conns: seq<seq<int>>, a: int, b: int)
    requires Symmetric(conns)
    requires 0 <= a < |conns| && 0 <= b < |conns|
    ensures b in conns[a] <==> a in conns[b]
  {
    assert b in conns[a] <==> multiset(conns[a])[b] > 0;
    assert a in conns[b] <==> multiset(conns[b])[a] > 0;
  }

  // ---------------------------------------------------------------------------
  // Step 1: mark_satellites_try_connect

  /** The query filter of both `mark_satellites_try_connect` and the target list
      of `connect_nearest`: no `TryConnect` marker and fewer than `cap` links. */
  predicate Unfull(conns: seq<seq<int>>, marked: set<int>, cap: nat, a: int)
  {
    0 <= a < |conns| && a !in marked && |conns[a]| < cap
  }

  /** The `Unfull` satellites below `n`, in ascending id order. */
  function UnfullBelow(conns: seq<seq<int>>, marked: set<int>, cap: nat, n: nat): (r: seq<int>)
    requires n <= |conns|
    ensures forall x :: x in r <==> 0 <= x < n && Unfull(conns, marked, cap, x)
    ensures forall i, j :: 0 <= i < j < |r| ==> r[i] < r[j]
  {
    if n == 0 then []
    else
      var prev := UnfullBelow(conns, marked, cap, n - 1);
      assert forall i :: 0 <= i < |prev| ==> prev[i] < n - 1 by {
        forall i | 0 <= i < |prev|
          ensures prev[i] < n - 1
        {
          assert prev[i] in prev;
        }
      }
      prev + (if Unfull(conns, marked, cap, n - 1) then [n - 1] else [])
  }

  /** The `unfull_satellites` list. */
  function UnfullSatellites(conns: seq<seq<int>>, marked: set<int>, cap: nat): seq<int>
  {
    UnfullBelow(conns, marked, cap, |conns|)
  }

  /** Sort key of the fairness sort: a satellite's current degree. */
  function DegreeKey(conns: seq<seq<int>>): int -> real
  {
    a => if 0 <= a < |conns| then |conns[a]| as real else 0.0
  }

  /** How many satellites step 1 marks out of `candidates`: one in every
      `cap + 1`, rounded down. */
  function MarkCount(candidates: nat, cap: nat): (k: nat)
    ensures k <= candidates
  {
    DivAtMost(candidates, cap + 1);
    candidates / (cap + 1)
  }

  /** The satellites `mark_satellites_try_connect` marks, given the shuffled
      candidate list: the first |candidates| / (cap + 1) after sorting by degree. */
  function SelectTryConnect(conns: seq<seq<int>>, marked: set<int>, cap: nat, shuffled: seq<int>): seq<int>
    requires multiset(shuffled) == multiset(UnfullSatellites(conns, marked, cap))
  {
    var sorted := SortBy(shuffled, DegreeKey(conns));
    sorted[..MarkCount(|shuffled|, cap)]
  }

  /** Step 1 marks exactly |candidates| / (cap + 1) distinct under-capacity,
      unmarked satellites, and none of them has more links than a candidate left
      unmarked. */
  lemma MarkFairness(conns: seq<seq<int>>, marked: set<int>, cap: nat, shuffled: seq<int>)
    requires multiset(shuffled) == multiset(UnfullSatellites(conns, marked, cap))
    ensures var sel := SelectTryConnect(conns, marked, cap, shuffled);
      && |sel| == MarkCount(|UnfullSatellites(conns, marked, cap)|, cap)
      && Distinct(sel)
      && (forall x :: x in sel ==> Unfull(conns, marked, cap, x))
      && (forall x, y :: x in sel && Unfull(conns, marked, cap, y) && y !in sel ==> |conns[x]| <= |conns[y]|)
  {
    var cands := UnfullSatellites(conns, marked, cap);
    var sorted := SortBy(shuffled, DegreeKey(conns));
    var k := MarkCount(|shuffled|, cap);
    var sel := sorted[..k];
    assert sel == SelectTryConnect(conns, marked, cap, shuffled);
    assert |shuffled| == |cands| by {
      assert |multiset(shuffled)| == |multiset(cands)|;
    }
    IncreasingIsDistinct(cands);
    DistinctSub(sorted, cands);
    PrefixMultiset(sorted, k);
    DistinctSub(sel, sorted);
    forall x | x in sel
      ensures Unfull(conns, marked, cap, x)
    {
      SubMember(sel, sorted, x);
      SameMembers(sorted, cands, x);
    }
    forall x, y | x in sel && Unfull(conns, marked, cap, y) && y !in sel
      ensures |conns[x]| <= |conns[y]|
    {
      SameMembers(sorted, cands, y);
      SortedPrefixFirst(sorted, DegreeKey(conns), k, x, y);
      SubMember(sel, sorted, x);
      SameMembers(sorted, cands, x);
    }
  }

  // ---------------------------------------------------------------------------
  // Step 2: connect_nearest

  /** The targets whose squared distance to `a` is strictly below `limitSq`, in
      target order. */
  function InRange(targets: seq<int>, a: int, distSq: (int, int) -> real, limitSq: real): (r: seq<int>)
    ensures forall b :: b in r <==> b in targets && distSq(b, a) < limitSq
    ensures multiset(r) <= multiset(targets)
  {
    if targets == [] then []
    else
      assert targets == [targets[0]] + targets[1..];
      (if distSq(targets[0], a) < limitSq then [targets[0]] else []) + InRange(targets[1..], a, distSq, limitSq)
  }

  function Min(x: int, y: int): int
  {
    if x <= y then x else y
  }

  /** The peers a marked satellite `a` proposes to: its in-range targets sorted by
      squared distance, at most `cap - degree(a)` of them. */
  function NearestPeers(conns: seq<seq<int>>, marked: set<int>, cap: nat,
                        distSq: (int, int) -> real, limitSq: real, a: int): seq<int>
    requires 0 <= a < |conns| && |conns[a]| <= cap
  {
    var near := SortBy(InRange(UnfullSatellites(conns, marked, cap), a, distSq, limitSq), b => distSq(b, a));
    near[..Min(cap - |conns[a]|, |near|)]
  }

  /** A marked satellite proposes to distinct unmarked, under-capacity satellites
      strictly within range, at most `cap - degree(a)` of them. */
  lemma NearestPeersTargets(conns: seq<seq<int>>, marked: set<int>, cap: nat,
                            distSq: (int, int) -> real, limitSq: real, a: int)
    requires 0 <= a < |conns| && |conns[a]| <= cap && a in marked
    ensures var r := NearestPeers(conns, marked, cap, distSq, limitSq, a);
      && |r| <= cap - |conns[a]|
      && Distinct(r)
      && (forall b :: b in r ==> Unfull(conns, marked, cap, b) && distSq(b, a) < limitSq && b != a)
  {
    var cands := UnfullSatellites(conns, marked, cap);
    var inRange := InRange(cands, a, distSq, limitSq);
    var near := SortBy(inRange, (b: int) => distSq(b, a));
    var m := Min(cap - |conns[a]|, |near|);
    var r := near[..m];
    assert r == NearestPeers(conns, marked, cap, distSq, limitSq, a);
    IncreasingIsDistinct(cands);
    DistinctSub(inRange, cands);
    DistinctSub(near, inRange);
    PrefixMultiset(near, m);
    DistinctSub(r, near);
    forall b | b in r
      ensures Unfull(conns, marked, cap, b) && distSq(b, a) < limitSq && b != a
    {
      SubMember(r, near, b);
      SameMembers(near, inRange, b);
    }
  }

  /** The chosen peers are the nearest: each is at least as near as every
      qualifying peer left out, and when fewer than `cap - degree(a)` are chosen
      no qualifying peer is left out. */
  lemma NearestPeersNearest(conns: seq<seq<int>>, marked: set<int>, cap: nat,
                            distSq: (int, int) -> real, limitSq: real, a: int)
    requires 0 <= a < |conns| && |conns[a]| <= cap
    ensures var r := NearestPeers(conns, marked, cap, distSq, limitSq, a);
      && (forall b, c :: b in r && Unfull(conns, marked, cap, c) && distSq(c, a) < limitSq && c !in r ==>
            distSq(b, a) <= distSq(c, a))
      && (|r| < cap - |conns[a]| ==>
            forall c :: Unfull(conns, marked, cap, c) && distSq(c, a) < limitSq ==> c in r)
  {
    NearestPeersFirst(conns, marked, cap, distSq, limitSq, a);
    NearestPeersComplete(conns, marked, cap, distSq, limitSq, a);
  }

  /** The ordering half of `NearestPeersNearest`. */
  lemma NearestPeersFirst(conns: seq<seq<int>>, marked: set<int>, cap: nat,
                          distSq: (int, int) -> real, limitSq: real, a: int)
    requires 0 <= a < |conns| && |conns[a]| <= cap
    ensures var r := NearestPeers(conns, marked, cap, distSq, limitSq, a);
      forall b, c :: b in r && Unfull(conns, marked, cap, c) && distSq(c, a) < limitSq && c !in r ==>
        distSq(b, a) <= distSq(c, a)
  {
    var inRange := InRange(UnfullSatellites(conns, marked, cap), a, distSq, limitSq);
    var key := (b: int) => distSq(b, a);
    var near := SortBy(inRange, key);
    var m := Min(cap - |conns[a]|, |near|);
    var r := near[..m];
    assert r == NearestPeers(conns, marked, cap, distSq, limitSq, a);
    forall b, c | b in r && Unfull(conns, marked, cap, c) && distSq(c, a) < limitSq && c !in r
      ensures distSq(b, a) <= distSq(c, a)
    {
      SameMembers(near, inRange, c);
      SortedPrefixFirst(near, key, m, b, c);
    }
  }

  /** The completeness half of `NearestPeersNearest`. */
  lemma NearestPeersComplete(conns: seq<seq<int>>, marked: set<int>, cap: nat,
                             distSq: (int, int) -> real, limitSq: real, a: int)
    requires 0 <= a < |conns| && |conns[a]| <= cap
    ensures var r := NearestPeers(conns, marked, cap, distSq, limitSq, a);
      |r| < cap - |conns[a]| ==> forall c :: Unfull(conns, marked, cap, c) && distSq(c, a) < limitSq ==> c in r
  {
    var inRange := InRange(UnfullSatellites(conns, marked, cap), a, distSq, limitSq);
    var near := SortBy(inRange, (b: int) => distSq(b, a));
    var r := NearestPeers(conns, marked, cap, distSq, limitSq, a);
    if |r| < cap - |conns[a]| {
      assert r == near;
      forall c | Unfull(conns, marked, cap, c) && distSq(c, a) < limitSq
        ensures c in r
      {
        SameMembers(near, inRange, c);
      }
    }
  }

  /** Both halves of the promise of `connect_nearest` for one marked satellite. */
  lemma NearestPeersSpec(conns: seq<seq<int>>, marked: set<int>, cap: nat,
                         distSq: (int, int) -> real, limitSq: real, a: int)
    requires 0 <= a < |conns| && |conns[a]| <= cap && a in marked
    ensures var r := NearestPeers(conns, marked, cap, distSq, limitSq, a);
      && |r| <= cap - |conns[a]|
      && Distinct(r)
      && (forall b :: b in r ==> Unfull(conns, marked, cap, b) && distSq(b, a) < limitSq && b != a)
      && (forall b, c :: b in r && Unfull(conns, marked, cap, c) && distSq(c, a) < limitSq && c !in r ==>
            distSq(b, a) <= distSq(c, a))
      && (|r| < cap - |conns[a]| ==>
            forall c :: Unfull(conns, marked, cap, c) && distSq(c, a) < limitSq ==> c in r)
  {
    NearestPeersTargets(conns, marked, cap, distSq, limitSq, a);
    NearestPeersNearest(conns, marked, cap, distSq, limitSq, a);
  }

  /** One `ConnectTwo { from: a, to: b }` per peer, in order. */
  function LinksFrom(a: int, peers: seq<int>): (r: seq<Link>)
    ensures |r| == |peers|
    ensures forall i :: 0 <= i < |r| ==> r[i] == Link(a, peers[i])
  {
    seq(|peers|, i requires 0 <= i < |peers| => Link(a, peers[i]))
  }

  /** The nearest-peer list of each satellite, as `connect_nearest` would build
      it were the satellite marked. */
  function Nearest(conns: seq<seq<int>>, marked: set<int>, cap: nat,
                   distSq: (int, int) -> real, limitSq: real): int -> seq<int>
  {
    a => if 0 <= a < |conns| && |conns[a]| <= cap
         then NearestPeers(conns, marked, cap, distSq, limitSq, a) else []
  }

  /** The events of the marked satellites among `0 .. n-1` in ascending id
      order, each sending one event per entry of its `nearest` list. */
  function Gather(marked: set<int>, nearest: int -> seq<int>, n: nat): seq<Link>
  {
    if n == 0 then []
    else Gather(marked, nearest, n - 1) + (if n - 1 in marked then LinksFrom(n - 1, nearest(n - 1)) else [])
  }

  /** Every `ConnectTwo` event `connect_nearest` writes. */
  function Proposals(conns: seq<seq<int>>, marked: set<int>, cap: nat,
                     distSq: (int, int) -> real, limitSq: real): seq<Link>
  {
    Gather(marked, Nearest(conns, marked, cap, distSq, limitSq), |conns|)
  }

  /** How many events in `ps` come from `a`. */
  function FromCount(ps: seq<Link>, a: int): nat
  {
    if ps == [] then 0
    else FromCount(ps[..|ps| - 1], a) + (if ps[|ps| - 1].from == a then 1 else 0)
  }

  lemma {:induction false} FromCountAppend(xs: seq<Link>, ys: seq<Link>, a: int)
    ensures FromCount(xs + ys, a) == FromCount(xs, a) + FromCount(ys, a)
  {
    if ys == [] {
      assert xs + ys == xs;
    } else {
      assert (xs + ys)[..|xs + ys| - 1] == xs + ys[..|ys| - 1];
      assert (xs + ys)[|xs + ys| - 1] == ys[|ys| - 1];
      FromCountAppend(xs, ys[..|ys| - 1], a);
    }
  }

  lemma {:induction false} FromCountLinksFrom(a: int, peers: seq<int>, x: int)
    ensures FromCount(LinksFrom(a, peers), x) == if x == a then |peers| else 0
  {
    if peers != [] {
      var ls := LinksFrom(a, peers);
      assert ls[..|ls| - 1] == LinksFrom(a, peers[..|peers| - 1]);
      FromCountLinksFrom(a, peers[..|peers| - 1], x);
    }
  }

  /** Every gathered event comes from a marked satellite below `n` and goes to
      a member of its `nearest` list. */
  lemma {:induction false} GatherMembers(marked: set<int>, nearest: int -> seq<int>, n: nat)
    ensures forall p :: p in Gather(marked, nearest, n) ==>
      0 <= p.from < n && p.from in marked && p.to in nearest(p.from)
  {
    if n > 0 {
      GatherMembers(marked, nearest, n - 1);
      var last := LinksFrom(n - 1, nearest(n - 1));
      forall p | p in last
        ensures p.from == n - 1 && p.to in nearest(n - 1)
      {
        var i :| 0 <= i < |last| && last[i] == p;
      }
    }
  }

  /** Each marked satellite below `n` sends exactly as many events as its
      `nearest` list has entries, and no other satellite sends any. */
  lemma {:induction false} GatherCounts(marked: set<int>, nearest: int -> seq<int>, n: nat, a: int)
    ensures FromCount(Gather(marked, nearest, n), a) ==
      if 0 <= a < n && a in marked then |nearest(a)| else 0
  {
    if n > 0 {
      var last: seq<Link> := if n - 1 in marked then LinksFrom(n - 1, nearest(n - 1)) else [];
      GatherCounts(marked, nearest, n - 1, a);
      FromCountAppend(Gather(marked, nearest, n - 1), last, a);
      FromCountLinksFrom(n - 1, nearest(n - 1), a);
    }
  }

  /** Every proposal `connect_nearest` writes meets the promise of the source:
      it goes from a marked satellite to a distinct unmarked, under-capacity
      satellite strictly within range; a marked satellite sends at most
      `cap - degree` of them and an unmarked one none. */
  lemma ProposalsSpec(conns: seq<seq<int>>, marked: set<int>, cap: nat,
                      distSq: (int, int) -> real, limitSq: real)
    requires WithinCapacity(conns, cap)
    ensures var ps := Proposals(conns, marked, cap, distSq, limitSq);
      && (forall p :: p in ps ==>
            && 0 <= p.from < |conns| && p.from in marked
            && Unfull(conns, marked, cap, p.to) && distSq(p.to, p.from) < limitSq && p.to != p.from)
      && (forall a :: 0 <= a < |conns| ==> FromCount(ps, a) <= if a in marked then cap - |conns[a]| else 0)
  {
    var nearest := Nearest(conns, marked, cap, distSq, limitSq);
    var ps := Gather(marked, nearest, |conns|);
    GatherMembers(marked, nearest, |conns|);
    forall p | p in ps
      ensures 0 <= p.from < |conns| && p.from in marked
      ensures Unfull(conns, marked, cap, p.to) && distSq(p.to, p.from) < limitSq && p.to != p.from
    {
      assert p.to in nearest(p.from);
      NearestPeersSpec(conns, marked, cap, distSq, limitSq, p.from);
    }
    forall a | 0 <= a < |conns|
      ensures FromCount(ps, a) <= if a in marked then cap - |conns[a]| else 0
    {
      GatherCounts(marked, nearest, |conns|, a);
      if a in marked {
        NearestPeersSpec(conns, marked, cap, distSq, limitSq, a);
      }
    }
  }

  // ---------------------------------------------------------------------------
  // Step 3: handle_connection

  /** The precondition under which the two `assert!`s of `handle_connection`
      hold: every event names satellites, no satellite is both a proposer and a
      target, and no proposer sends more events than it has free slots. */
  predicate WellFormed(conns: seq<seq<int>>, cap: nat, ps: seq<Link>)
  {
    && (forall p :: p in ps ==> 0 <= p.from < |conns| && 0 <= p.to < |conns|)
    && (forall p, q :: p in ps && q in ps ==> p.from != q.to)
    && (forall a :: 0 <= a < |conns| ==> |conns[a]| + FromCount(ps, a) <= cap)
  }

  /** What `connect_nearest` writes is well formed for `handle_connection`. */
  lemma ProposalsWellFormed(conns: seq<seq<int>>, marked: set<int>, cap: nat,
                            distSq: (int, int) -> real, limitSq: real)
    requires WithinCapacity(conns, cap)
    ensures WellFormed(conns, cap, Proposals(conns, marked, cap, distSq, limitSq))
  {
    ProposalsSpec(conns, marked, cap, distSq, limitSq);
  }

  /** `b` pushed onto the end of `a`'s list. */
  function AddPeer(conns: seq<seq<int>>, a: int, b: int): (r: seq<seq<int>>)
    requires 0 <= a < |conns|
    ensures |r| == |conns|
    ensures forall x, y :: 0 <= x < |conns| ==>
      multiset(r[x])[y] == multiset(conns[x])[y] + (if x == a && y == b then 1 else 0)
  {
    conns[a := conns[a] + [b]]
  }

  /** `handle_connection` on one event: dropped when `to` is already full,
      otherwise `from` is pushed onto `to`'s list and then `to` onto `from`'s. */
  function Connect(conns: seq<seq<int>>, cap: nat, p: Link): (r: seq<seq<int>>)
    requires 0 <= p.from < |conns| && 0 <= p.to < |conns|
    ensures |r| == |conns|
  {
    if |conns[p.to]| >= cap then conns
    else AddPeer(AddPeer(conns, p.to, p.from), p.from, p.to)
  }

  /** A proposal to a full target changes nothing; otherwise exactly one entry is
      added at each end and every other list is unchanged. */
  lemma ConnectSpec(conns: seq<seq<int>>, cap: nat, p: Link)
    requires 0 <= p.from < |conns| && 0 <= p.to < |conns| && p.from != p.to
    ensures var r := Connect(conns, cap, p);
      && (|conns[p.to]| >= cap ==> r == conns)
      && (|conns[p.to]| < cap ==>
            && r[p.to] == conns[p.to] + [p.from]
            && r[p.from] == conns[p.from] + [p.to]
            && forall x :: 0 <= x < |conns| && x != p.from && x != p.to ==> r[x] == conns[x])
  {
  }

  /** `handle_connection` over a whole event list, in order. */
  function ApplyConnects(conns: seq<seq<int>>, cap: nat, ps: seq<Link>): (r: seq<seq<int>>)
    requires forall p :: p in ps ==> 0 <= p.from < |conns| && 0 <= p.to < |conns|
    ensures |r| == |conns|
  {
    if ps == [] then conns
    else
      var prev := ApplyConnects(conns, cap, ps[..|ps| - 1]);
      Connect(prev, cap, ps[|ps| - 1])
  }

  predicate NeverTarget(ps: seq<Link>, a: int)
  {
    forall p :: p in ps ==> p.to != a
  }

  predicate NeverProposer(ps: seq<Link>, a: int)
  {
    forall p :: p in ps ==> p.from != a
  }

  /** Pushing a satellite onto a list keeps every stored peer a satellite. */
  lemma AddPeerKeepsPeers(conns: seq<seq<int>>, a: int, b: int)
    requires PeersAreSatellites(conns)
    requires 0 <= a < |conns| && 0 <= b < |conns|
    ensures PeersAreSatellites(AddPeer(conns, a, b))
  {
    var r := AddPeer(conns, a, b);
    forall x, k | 0 <= x < |r| && 0 <= k < |r[x]|
      ensures 0 <= r[x][k] < |r|
    {
      if x == a && k == |conns[a]| {
        assert r[x][k] == b;
      } else {
        assert r[x][k] == conns[x][k];
      }
    }
  }

  /** Pushing another satellite onto a list keeps it free of self links. */
  lemma AddPeerKeepsNoSelfLinks(conns: seq<seq<int>>, a: int, b: int)
    requires NoSelfLinks(conns)
    requires 0 <= a < |conns| && a != b
    ensures NoSelfLinks(AddPeer(conns, a, b))
  {
    var r := AddPeer(conns, a, b);
    forall x | 0 <= x < |r|
      ensures x !in r[x]
    {
      assert r[x] == if x == a then conns[a] + [b] else conns[x];
    }
  }

  /** Pushing each end onto the other's list keeps the lists symmetric. */
  lemma AddBothKeepsSymmetric(conns: seq<seq<int>>, f: int, t: int)
    requires Symmetric(conns)
    requires 0 <= f < |conns| && 0 <= t < |conns| && f != t
    ensures Symmetric(AddPeer(AddPeer(conns, t, f), f, t))
  {
    var c := AddPeer(conns, t, f);
    var r := AddPeer(c, f, t);
    forall x, y | 0 <= x < |r| && 0 <= y < |r|
      ensures multiset(r[x])[y] == multiset(r[y])[x]
    {
      assert multiset(r[x])[y] == multiset(c[x])[y] + (if x == f && y == t then 1 else 0);
      assert multiset(r[y])[x] == multiset(c[y])[x] + (if y == f && x == t then 1 else 0);
    }
  }

  /** One accepted or dropped proposal keeps the lists symmetric, self-free and
      within the table. */
  lemma ConnectKeepsShape(conns: seq<seq<int>>, cap: nat, p: Link)
    requires PeersAreSatellites(conns) && NoSelfLinks(conns) && Symmetric(conns)
    requires 0 <= p.from < |conns| && 0 <= p.to < |conns| && p.from != p.to
    ensures var r := Connect(conns, cap, p);
      PeersAreSatellites(r) && NoSelfLinks(r) && Symmetric(r)
  {
    if |conns[p.to]| < cap {
      var f, t := p.from, p.to;
      var c := AddPeer(conns, t, f);
      AddPeerKeepsPeers(conns, t, f);
      AddPeerKeepsPeers(c, f, t);
      AddPeerKeepsNoSelfLinks(conns, t, f);
      AddPeerKeepsNoSelfLinks(c, f, t);
      AddBothKeepsSymmetric(conns, f, t);
    }
  }

  /** One proposal grows each end of an accepted link by one entry and leaves
      every other list alone. */
  lemma ConnectLengths(conns: seq<seq<int>>, cap: nat, p: Link, a: int)
    requires 0 <= p.from < |conns| && 0 <= p.to < |conns| && p.from != p.to && 0 <= a < |conns|
    ensures |Connect(conns, cap, p)[a]| ==
      |conns[a]| + (if |conns[p.to]| < cap && (a == p.from || a == p.to) then 1 else 0)
  {
  }

  /** Applying proposals in order keeps the lists symmetric, self-free and
      within the table. */
  lemma {:induction false} ApplyConnectsKeepsShape(conns: seq<seq<int>>, cap: nat, ps: seq<Link>)
    requires PeersAreSatellites(conns) && NoSelfLinks(conns) && Symmetric(conns)
    requires forall p :: p in ps ==> 0 <= p.from < |conns| && 0 <= p.to < |conns| && p.from != p.to
    ensures var r := ApplyConnects(conns, cap, ps);
      PeersAreSatellites(r) && NoSelfLinks(r) && Symmetric(r)
  {
    if ps != [] {
      var init := ps[..|ps| - 1];
      assert ps[|ps| - 1] in ps;
      assert forall q :: q in init ==> q in ps;
      ApplyConnectsKeepsShape(conns, cap, init);
      ConnectKeepsShape(ApplyConnects(conns, cap, init), cap, ps[|ps| - 1]);
    }
  }

  /** The bookkeeping behind the assertions at lines 205 and 209: a satellite
      that is never a target grows by at most the number of events it sends, and
      one that never proposes grows only while it is under capacity. */
  lemma {:induction false} ApplyConnectsLengths(conns: seq<seq<int>>, cap: nat, ps: seq<Link>, a: int)
    requires forall p :: p in ps ==> 0 <= p.from < |conns| && 0 <= p.to < |conns| && p.from != p.to
    requires 0 <= a < |conns|
    ensures var r := ApplyConnects(conns, cap, ps);
      && (NeverTarget(ps, a) ==> |r[a]| <= |conns[a]| + FromCount(ps, a))
      && (NeverProposer(ps, a) && |conns[a]| <= cap ==> |r[a]| <= cap)
  {
    if ps != [] {
      var init := ps[..|ps| - 1];
      var p := ps[|ps| - 1];
      assert p in ps;
      assert forall q :: q in init ==> q in ps;
      ApplyConnectsLengths(conns, cap, init, a);
      ConnectLengths(ApplyConnects(conns, cap, init), cap, p, a);
      if NeverTarget(ps, a) {
        assert NeverTarget(init, a);
      }
      if NeverProposer(ps, a) {
        assert NeverProposer(init, a);
      }
    }
  }

  /** The capacity bound of the source: applying well-formed proposals to a valid
      link graph yields a valid link graph, so no list exceeds `cap`. */
  lemma ApplyConnectsKeepsLinkGraph(conns: seq<seq<int>>, cap: nat, ps: seq<Link>)
    requires LinkGraph(conns, cap)
    requires WellFormed(conns, cap, ps)
    ensures LinkGraph(ApplyConnects(conns, cap, ps), cap)
  {
    ApplyConnectsKeepsShape(conns, cap, ps);
    var r := ApplyConnects(conns, cap, ps);
    forall a | 0 <= a < |conns|
      ensures |r[a]| <= cap
    {
      ApplyConnectsLengths(conns, cap, ps, a);
      if NeverTarget(ps, a) {
      } else {
        var q :| q in ps && q.to == a;
        assert NeverProposer(ps, a);
      }
    }
  }

  /** Taking the event at `i` out of `ys` lowers the count of `a` by one iff
      that event comes from `a`. */
  lemma FromCountRemoveAt(ys: seq<Link>, i: nat, a: int)
    requires i < |ys|
    ensures FromCount(ys, a) == FromCount(ys[..i] + ys[i + 1..], a) + (if ys[i].from == a then 1 else 0)
  {
    assert ys == ys[..i] + [ys[i]] + ys[i + 1..];
    FromCountAppend(ys[..i] + [ys[i]], ys[i + 1..], a);
    FromCountAppend(ys[..i], [ys[i]], a);
    FromCountAppend(ys[..i], ys[i + 1..], a);
    assert [ys[i]][..0] == [];
  }

  /** Taking the event at `i` out of `ys` takes one copy out of its multiset. */
  lemma MultisetRemoveAt(ys: seq<Link>, i: nat)
    requires i < |ys|
    ensures multiset(ys[..i] + ys[i + 1..]) == multiset(ys) - multiset{ys[i]}
  {
    assert ys == ys[..i] + [ys[i]] + ys[i + 1..];
  }

  /** Counting the events sent by `a` ignores their order. */
  lemma {:induction false} FromCountReordered(xs: seq<Link>, ys: seq<Link>, a: int)
    requires multiset(xs) == multiset(ys)
    ensures FromCount(xs, a) == FromCount(ys, a)
  {
    if xs != [] {
      var n := |xs| - 1;
      var x := xs[n];
      assert x in multiset(ys);
      var i :| 0 <= i < |ys| && ys[i] == x;
      var rest := ys[..i] + ys[i + 1..];
      MultisetRemoveAt(xs, n);
      MultisetRemoveAt(ys, i);
      assert xs[..n] + xs[n + 1..] == xs[..n];
      FromCountReordered(xs[..n], rest, a);
      FromCountRemoveAt(ys, i, a);
    }
  }

  /** Well-formedness does not depend on the order of the events. */
  lemma WellFormedReordered(conns: seq<seq<int>>, cap: nat, ps: seq<Link>, qs: seq<Link>)
    requires WellFormed(conns, cap, ps)
    requires multiset(ps) == multiset(qs)
    ensures WellFormed(conns, cap, qs)
  {
    forall p | p in qs
      ensures p in ps
    {
      assert p in multiset(qs);
    }
    forall a | 0 <= a < |conns|
      ensures |conns[a]| + FromCount(qs, a) <= cap
    {
      FromCountReordered(ps, qs, a);
    }
  }

  /** Whatever order the proposers are visited in, `handle_connection` keeps a
      valid link graph: any reordering of the proposals is well formed. */
  lemma ReorderedProposalsKeepLinkGraph(conns: seq<seq<int>>, marked: set<int>, cap: nat,
                                        distSq: (int, int) -> real, limitSq: real, events: seq<Link>)
    requires LinkGraph(conns, cap)
    requires multiset(events) == multiset(Proposals(conns, marked, cap, distSq, limitSq))
    ensures WellFormed(conns, cap, events)
    ensures LinkGraph(ApplyConnects(conns, cap, events), cap)
  {
    ProposalsWellFormed(conns, marked, cap, distSq, limitSq);
    WellFormedReordered(conns, cap, Proposals(conns, marked, cap, distSq, limitSq), events);
    ApplyConnectsKeepsLinkGraph(conns, cap, events);
  }

  // ---------------------------------------------------------------------------
  // Step 4: disconnect_farthest

  /** The event scanning link `a -> b` yields: only from the lower-id end, and
      only when the squared distance strictly exceeds the limit. */
  function Evict(a: int, b: int, distSq: (int, int) -> real, limitSq: real): seq<Link>
  {
    if a <= b && distSq(b, a) > limitSq then [Link(a, b)] else []
  }

  /** The events scanning `a`'s list yields, in list order. */
  function ScanPeers(a: int, peers: seq<int>, distSq: (int, int) -> real, limitSq: real): seq<Link>
  {
    if peers == [] then []
    else ScanPeers(a, peers[..|peers| - 1], distSq, limitSq) + Evict(a, peers[|peers| - 1], distSq, limitSq)
  }

  function EvictionsBelow(conns: seq<seq<int>>, distSq: (int, int) -> real, limitSq: real, n: nat): seq<Link>
    requires n <= |conns|
  {
    if n == 0 then []
    else EvictionsBelow(conns, distSq, limitSq, n - 1) + ScanPeers(n - 1, conns[n - 1], distSq, limitSq)
  }

  /** The batch of `DisconnectTwo` events `disconnect_farthest` writes. */
  function Evictions(conns: seq<seq<int>>, distSq: (int, int) -> real, limitSq: real): seq<Link>
  {
    EvictionsBelow(conns, distSq, limitSq, |conns|)
  }

  lemma {:induction false} ScanPeersSpec(a: int, peers: seq<int>, distSq: (int, int) -> real, limitSq: real)
    ensures forall l :: l in ScanPeers(a, peers, distSq, limitSq) <==>
      l.from == a && l.to in peers && a <= l.to && distSq(l.to, a) > limitSq
  {
    if peers != [] {
      ScanPeersSpec(a, peers[..|peers| - 1], distSq, limitSq);
      assert peers == peers[..|peers| - 1] + [peers[|peers| - 1]];
    }
  }

  lemma {:induction false} EvictionsBelowSpec(conns: seq<seq<int>>, distSq: (int, int) -> real, limitSq: real, n: nat)
    requires n <= |conns|
    ensures forall l :: l in EvictionsBelow(conns, distSq, limitSq, n) <==>
      0 <= l.from < n && l.to in conns[l.from] && l.from <= l.to && distSq(l.to, l.from) > limitSq
  {
    if n > 0 {
      EvictionsBelowSpec(conns, distSq, limitSq, n - 1);
      ScanPeersSpec(n - 1, conns[n - 1], distSq, limitSq);
    }
  }

  /** A link is reported iff it is stored at its lower-id end and its squared
      distance strictly exceeds the limit. */
  lemma EvictionsSpec(conns: seq<seq<int>>, distSq: (int, int) -> real, limitSq: real)
    ensures forall l :: l in Evictions(conns, distSq, limitSq) <==>
      0 <= l.from < |conns| && l.to in conns[l.from] && l.from <= l.to && distSq(l.to, l.from) > limitSq
  {
    EvictionsBelowSpec(conns, distSq, limitSq, |conns|);
  }

  lemma {:induction false} ScanPeersNone(a: int, peers: seq<int>, distSq: (int, int) -> real, limitSq: real)
    requires forall b :: b in peers && a <= b ==> distSq(b, a) <= limitSq
    ensures ScanPeers(a, peers, distSq, limitSq) == []
  {
    if peers != [] {
      assert peers[|peers| - 1] in peers;
      assert forall b :: b in peers[..|peers| - 1] ==> b in peers;
      ScanPeersNone(a, peers[..|peers| - 1], distSq, limitSq);
    }
  }

  /** When no stored link is stretched, no `DisconnectTwo` is written. */
  lemma {:induction false} NoEvictions(conns: seq<seq<int>>, distSq: (int, int) -> real, limitSq: real, n: nat)
    requires n <= |conns|
    requires forall a, b :: 0 <= a < n && b in conns[a] && a <= b ==> distSq(b, a) <= limitSq
    ensures EvictionsBelow(conns, distSq, limitSq, n) == []
  {
    if n > 0 {
      NoEvictions(conns, distSq, limitSq, n - 1);
      ScanPeersNone(n - 1, conns[n - 1], distSq, limitSq);
    }
  }

  /** A pair exactly at the threshold is neither proposed nor evicted. */
  lemma ThresholdPair(conns: seq<seq<int>>, marked: set<int>, cap: nat,
                      distSq: (int, int) -> real, limitSq: real, a: int, b: int)
    requires WithinCapacity(conns, cap)
    requires distSq(b, a) == limitSq
    ensures Link(a, b) !in Proposals(conns, marked, cap, distSq, limitSq)
    ensures Link(a, b) !in Evictions(conns, distSq, limitSq)
  {
    ProposalsSpec(conns, marked, cap, distSq, limitSq);
    EvictionsSpec(conns, distSq, limitSq);
  }

  // ---------------------------------------------------------------------------
  // Step 5: handle_disconnection

  /** `Vec::retain(|&s| s != x)`: every copy of `x` removed, order kept. */
  function Without(xs: seq<int>, x: int): (r: seq<int>)
    ensures forall y :: y in r <==> y in xs && y != x
    ensures forall y :: multiset(r)[y] == if y == x then 0 else multiset(xs)[y]
    ensures |r| <= |xs|
  {
    if xs == [] then []
    else
      assert xs == xs[..|xs| - 1] + [xs[|xs| - 1]];
      Without(xs[..|xs| - 1], x) + (if xs[|xs| - 1] == x then [] else [xs[|xs| - 1]])
  }

  /** Every copy of `b` removed from `a`'s list. */
  function RemovePeer(conns: seq<seq<int>>, a: int, b: int): (r: seq<seq<int>>)
    requires 0 <= a < |conns|
    ensures |r| == |conns|
    ensures forall x, y :: 0 <= x < |conns| ==>
      multiset(r[x])[y] == if x == a && y == b then 0 else multiset(conns[x])[y]
    ensures forall x, y :: 0 <= x < |conns| ==> (y in r[x] <==> y in conns[x] && !(x == a && y == b))
    ensures forall x :: 0 <= x < |conns| ==> |r[x]| <= |conns[x]|
    ensures forall x :: 0 <= x < |conns| && x != a ==> r[x] == conns[x]
  {
    conns[a := Without(conns[a], b)]
  }

  /** `handle_disconnection` on one event: `to` leaves `from`'s list, then `from`
      leaves `to`'s list. */
  function Disconnect(conns: seq<seq<int>>, p: Link): (r: seq<seq<int>>)
    requires 0 <= p.from < |conns| && 0 <= p.to < |conns|
    ensures |r| == |conns|
  {
    RemovePeer(RemovePeer(conns, p.from, p.to), p.to, p.from)
  }

  /** Removing a peer keeps every remaining peer a satellite. */
  lemma RemovePeerKeepsPeers(conns: seq<seq<int>>, a: int, b: int)
    requires PeersAreSatellites(conns) && 0 <= a < |conns|
    ensures PeersAreSatellites(RemovePeer(conns, a, b))
  {
    var r := RemovePeer(conns, a, b);
    forall x, k | 0 <= x < |r| && 0 <= k < |r[x]|
      ensures 0 <= r[x][k] < |r|
    {
      assert r[x][k] in r[x];
    }
  }

  /** Removing both directions of a link keeps the lists symmetric. */
  lemma RemoveBothKeepsSymmetric(conns: seq<seq<int>>, f: int, t: int)
    requires Symmetric(conns) && 0 <= f < |conns| && 0 <= t < |conns|
    ensures Symmetric(RemovePeer(RemovePeer(conns, f, t), t, f))
  {
    var c := RemovePeer(conns, f, t);
    var r := RemovePeer(c, t, f);
    forall x, y | 0 <= x < |r| && 0 <= y < |r|
      ensures multiset(r[x])[y] == multiset(r[y])[x]
    {
      assert multiset(r[x])[y] == if x == t && y == f then 0 else multiset(c[x])[y];
      assert multiset(r[y])[x] == if y == t && x == f then 0 else multiset(c[y])[x];
    }
  }

  /** Removing one link keeps the link-graph invariant. */
  lemma DisconnectKeepsLinkGraph(conns: seq<seq<int>>, cap: nat, p: Link)
    requires LinkGraph(conns, cap)
    requires 0 <= p.from < |conns| && 0 <= p.to < |conns|
    ensures LinkGraph(Disconnect(conns, p), cap)
  {
    var c := RemovePeer(conns, p.from, p.to);
    RemovePeerKeepsPeers(conns, p.from, p.to);
    RemovePeerKeepsPeers(c, p.to, p.from);
    RemoveBothKeepsSymmetric(conns, p.from, p.to);
  }

  function ApplyDisconnects(conns: seq<seq<int>>, ps: seq<Link>): (r: seq<seq<int>>)
    requires forall p :: p in ps ==> 0 <= p.from < |conns| && 0 <= p.to < |conns|
    ensures |r| == |conns|
  {
    if ps == [] then conns
    else Disconnect(ApplyDisconnects(conns, ps[..|ps| - 1]), ps[|ps| - 1])
  }

  /** After the disconnections a peer remains exactly when it was there and no
      event named the pair in either direction; an event for an absent link is
      harmless. */
  lemma ApplyDisconnectsSpec(conns: seq<seq<int>>, ps: seq<Link>)
    requires forall p :: p in ps ==> 0 <= p.from < |conns| && 0 <= p.to < |conns|
    ensures forall a, x :: 0 <= a < |conns| ==>
      (x in ApplyDisconnects(conns, ps)[a] <==> x in conns[a] && Link(a, x) !in ps && Link(x, a) !in ps)
  {
    forall a, x | 0 <= a < |conns|
      ensures x in ApplyDisconnects(conns, ps)[a] <==> x in conns[a] && Link(a, x) !in ps && Link(x, a) !in ps
    {
      ApplyDisconnectsAt(conns, ps, a, x);
    }
  }

  /** `ApplyDisconnectsSpec` for one list and one peer. */
  lemma {:induction false} ApplyDisconnectsAt(conns: seq<seq<int>>, ps: seq<Link>, a: int, x: int)
    requires forall p :: p in ps ==> 0 <= p.from < |conns| && 0 <= p.to < |conns|
    requires 0 <= a < |conns|
    ensures x in ApplyDisconnects(conns, ps)[a] <==> x in conns[a] && Link(a, x) !in ps && Link(x, a) !in ps
  {
    if ps != [] {
      var init := ps[..|ps| - 1];
      var last := ps[|ps| - 1];
      assert forall q :: q in init ==> q in ps;
      ApplyDisconnectsAt(conns, init, a, x);
      DisconnectAt(ApplyDisconnects(conns, init), last, a, x);
      assert ps == init + [last];
      assert Link(a, x) in ps <==> Link(a, x) in init || Link(a, x) == last;
      assert Link(x, a) in ps <==> Link(x, a) in init || Link(x, a) == last;
    }
  }

  /** One event removes exactly the two directions of its link. */
  lemma DisconnectAt(conns: seq<seq<int>>, p: Link, a: int, x: int)
    requires 0 <= p.from < |conns| && 0 <= p.to < |conns| && 0 <= a < |conns|
    ensures x in Disconnect(conns, p)[a] <==> x in conns[a] && Link(a, x) != p && Link(x, a) != p
  {
  }

  /** Removing links keeps the link-graph invariant. */
  lemma {:induction false} ApplyDisconnectsKeepsLinkGraph(conns: seq<seq<int>>, cap: nat, ps: seq<Link>)
    requires LinkGraph(conns, cap)
    requires forall p :: p in ps ==> 0 <= p.from < |conns| && 0 <= p.to < |conns|
    ensures LinkGraph(ApplyDisconnects(conns, ps), cap)
  {
    if ps != [] {
      var init := ps[..|ps| - 1];
      assert forall q :: q in init ==> q in ps;
      ApplyDisconnectsKeepsLinkGraph(conns, cap, init);
      DisconnectKeepsLinkGraph(ApplyDisconnects(conns, init), cap, ps[|ps| - 1]);
    }
  }

  // ---------------------------------------------------------------------------
  // handle_disconnect_all

  /** Every list emptied. */
  function DisconnectAll(conns: seq<seq<int>>): (r: seq<seq<int>>)
    ensures |r| == |conns|
    ensures forall a :: 0 <= a < |r| ==> r[a] == []
  {
    seq(|conns|, _ => [])
  }

  /** Resetting twice is resetting once, and the reset graph is a valid one. */
  lemma DisconnectAllIdempotent(conns: seq<seq<int>>, cap: nat)
    ensures DisconnectAll(DisconnectAll(conns)) == DisconnectAll(conns)
    ensures LinkGraph(DisconnectAll(conns), cap)
  {
  }

  // ---------------------------------------------------------------------------
  // One whole tick, as a function of the state before it

  /** Every proposal names two distinct satellites. */
  lemma ProposalIds(conns: seq<seq<int>>, marked: set<int>, cap: nat,
                    distSq: (int, int) -> real, limitSq: real)
    requires WithinCapacity(conns, cap)
    ensures forall p :: p in Proposals(conns, marked, cap, distSq, limitSq) ==>
      0 <= p.from < |conns| && 0 <= p.to < |conns| && p.from != p.to
  {
    ProposalsSpec(conns, marked, cap, distSq, limitSq);
  }

  /** Every eviction found after applying proposals names two satellites. */
  lemma EvictionIds(conns: seq<seq<int>>, cap: nat, ps: seq<Link>, distSq: (int, int) -> real, limitSq: real)
    requires PeersAreSatellites(conns) && NoSelfLinks(conns) && Symmetric(conns)
    requires forall p :: p in ps ==> 0 <= p.from < |conns| && 0 <= p.to < |conns| && p.from != p.to
    ensures forall l :: l in Evictions(ApplyConnects(conns, cap, ps), distSq, limitSq) ==>
      0 <= l.from < |conns| && 0 <= l.to < |conns|
  {
    var connected := ApplyConnects(conns, cap, ps);
    ApplyConnectsKeepsShape(conns, cap, ps);
    EvictionsSpec(connected, distSq, limitSq);
    forall l | l in Evictions(connected, distSq, limitSq)
      ensures 0 <= l.to < |conns|
    {
      var k :| 0 <= k < |connected[l.from]| && connected[l.from][k] == l.to;
    }
  }

  /** The lists after steps 1 to 5 of a tick, with `shuffled` the order the
      random shuffle put the under-capacity satellites in. */
  function TickState(conns: seq<seq<int>>, marked: set<int>, cap: nat, shuffled: seq<int>,
                     distSq: (int, int) -> real, limitSq: real): (r: seq<seq<int>>)
    requires LinkGraph(conns, cap)
    requires multiset(shuffled) == multiset(UnfullSatellites(conns, marked, cap))
    ensures |r| == |conns|
  {
    var marked1 := marked + Members(SelectTryConnect(conns, marked, cap, shuffled));
    var proposals := Proposals(conns, marked1, cap, distSq, limitSq);
    ProposalIds(conns, marked1, cap, distSq, limitSq);
    var connected := ApplyConnects(conns, cap, proposals);
    EvictionIds(conns, cap, proposals, distSq, limitSq);
    ApplyDisconnects(connected, Evictions(connected, distSq, limitSq))
  }

  /** A tick is the composition of its five steps, given each step's result. */
  lemma TickStateOf(conns: seq<seq<int>>, marked: set<int>, cap: nat, shuffled: seq<int>,
                    distSq: (int, int) -> real, limitSq: real,
                    marked1: set<int>, proposals: seq<Link>, connected: seq<seq<int>>, evictions: seq<Link>)
    requires LinkGraph(conns, cap)
    requires multiset(shuffled) == multiset(UnfullSatellites(conns, marked, cap))
    requires marked1 == marked + Members(SelectTryConnect(conns, marked, cap, shuffled))
    requires proposals == Proposals(conns, marked1, cap, distSq, limitSq)
    requires forall p :: p in proposals ==> 0 <= p.from < |conns| && 0 <= p.to < |conns|
    requires connected == ApplyConnects(conns, cap, proposals)
    requires evictions == Evictions(connected, distSq, limitSq)
    requires forall p :: p in evictions ==> 0 <= p.from < |conns| && 0 <= p.to < |conns|
    ensures TickState(conns, marked, cap, shuffled, distSq, limitSq) == ApplyDisconnects(connected, evictions)
  {
  }

  /** After a tick the graph is still a valid link graph, and no link stored at
      its lower-id end is stretched beyond the limit. */
  lemma TickKeepsLinkGraph(conns: seq<seq<int>>, marked: set<int>, cap: nat, shuffled: seq<int>,
                           distSq: (int, int) -> real, limitSq: real)
    requires LinkGraph(conns, cap)
    requires multiset(shuffled) == multiset(UnfullSatellites(conns, marked, cap))
    ensures var r := TickState(conns, marked, cap, shuffled, distSq, limitSq);
      && LinkGraph(r, cap)
      && forall a, b :: 0 <= a <= b < |r| && b in r[a] ==> distSq(b, a) <= limitSq
  {
    var marked1 := marked + Members(SelectTryConnect(conns, marked, cap, shuffled));
    var proposals := Proposals(conns, marked1, cap, distSq, limitSq);
    ProposalsWellFormed(conns, marked1, cap, distSq, limitSq);
    ProposalIds(conns, marked1, cap, distSq, limitSq);
    var connected := ApplyConnects(conns, cap, proposals);
    ApplyConnectsKeepsLinkGraph(conns, cap, proposals);
    EvictionIds(conns, cap, proposals, distSq, limitSq);
    EvictionsLeaveShortLinks(connected, cap, distSq, limitSq);
    assert ApplyDisconnects(connected, Evictions(connected, distSq, limitSq)) ==
      TickState(conns, marked, cap, shuffled, distSq, limitSq);
  }

  /** Steps 4 and 5 on a valid link graph: the result is still valid and every
      link stored at its lower-id end is within the limit. */
  lemma EvictionsLeaveShortLinks(connected: seq<seq<int>>, cap: nat, distSq: (int, int) -> real, limitSq: real)
    requires LinkGraph(connected, cap)
    requires forall l :: l in Evictions(connected, distSq, limitSq) ==> 0 <= l.from < |connected| && 0 <= l.to < |connected|
    ensures var r := ApplyDisconnects(connected, Evictions(connected, distSq, limitSq));
      && LinkGraph(r, cap)
      && forall a, b :: 0 <= a <= b < |r| && b in r[a] ==> distSq(b, a) <= limitSq
  {
    var evictions := Evictions(connected, distSq, limitSq);
    EvictionsSpec(connected, distSq, limitSq);
    ApplyDisconnectsKeepsLinkGraph(connected, cap, evictions);
    ApplyDisconnectsSpec(connected, evictions);
    var r := ApplyDisconnects(connected, evictions);
    forall a, b | 0 <= a <= b < |r| && b in r[a]
      ensures distSq(b, a) <= limitSq
    {
      assert Link(a, b) !in evictions;
    }
  }

  // ---------------------------------------------------------------------------
  // Helpers for the stateful model

  /** A prefix of a well-formed event list is well formed. */
  lemma WellFormedPrefix(conns: seq<seq<int>>, cap: nat, ps: seq<Link>, k: nat)
    requires WellFormed(conns, cap, ps) && k <= |ps|
    ensures WellFormed(conns, cap, ps[..k])
    ensures forall a :: FromCount(ps[..k], a) <= FromCount(ps, a)
  {
    assert ps == ps[..k] + ps[k..];
    forall a
      ensures FromCount(ps[..k], a) <= FromCount(ps, a)
    {
      FromCountAppend(ps[..k], ps[k..], a);
    }
  }

  /** The second assertion of `handle_connection`: when event `i` of a
      well-formed list is accepted, its proposer still has a free slot, so the
      push at its end stays within capacity. */
  lemma ProposerFits(conns: seq<seq<int>>, cap: nat, ps: seq<Link>, i: nat)
    requires WellFormed(conns, cap, ps) && i < |ps|
    ensures 0 <= ps[i].from < |conns| && 0 <= ps[i].to < |conns| && ps[i].from != ps[i].to
    ensures var prev := ApplyConnects(conns, cap, ps[..i]);
      && ApplyConnects(conns, cap, ps[..i + 1]) == Connect(prev, cap, ps[i])
      && (|prev[ps[i].to]| < cap ==> |prev[ps[i].from]| < cap)
  {
    var from := ps[i].from;
    assert ps[i] in ps;
    assert ps[..i + 1][..i] == ps[..i];
    WellFormedPrefix(conns, cap, ps, i + 1);
    ApplyConnectsLengths(conns, cap, ps[..i + 1], from);
    assert NeverTarget(ps[..i + 1], from) by {
      forall q | q in ps[..i + 1]
        ensures q.to != from
      {
        assert q in ps;
      }
    }
    ConnectLengths(ApplyConnects(conns, cap, ps[..i]), cap, ps[i], from);
  }

  /** The lists step 2 reads are the ones after step 1, and the marked set
      grows by the selected satellites only. */
  lemma SelectedAreSatellites(conns: seq<seq<int>>, marked: set<int>, cap: nat, shuffled: seq<int>)
    requires multiset(shuffled) == multiset(UnfullSatellites(conns, marked, cap))
    ensures forall x :: x in SelectTryConnect(conns, marked, cap, shuffled) ==> 0 <= x < |conns|
  {
    MarkFairness(conns, marked, cap, shuffled);
  }

  // ---------------------------------------------------------------------------
  // The ECS state: one `Connections` list and an optional `TryConnect` marker
  // per satellite, updated in place by the systems of the tick.

  class Constellation {
    /** `connections[a]` is the `Connections.connections` vector of satellite `a`. */
    var connections: seq<seq<int>>
    /** The satellites carrying the `TryConnect` marker. */
    var tryConnect: set<int>
    /** `config.simulation.connection_number`. */
    const capacity: nat

    ghost predicate Valid()
      reads this
    {
      LinkGraph(connections, capacity) && forall a :: a in tryConnect ==> 0 <= a < |connections|
    }

    /** `n` freshly spawned satellites, each with `Connections::default()`. */
    constructor (n: nat, connectionNumber: nat)
      ensures Valid()
      ensures capacity == connectionNumber && tryConnect == {}
      ensures |connections| == n && forall a :: 0 <= a < n ==> connections[a] == []
    {
      capacity := connectionNumber;
      connections := seq(n, _ => []);
      tryConnect := {};
    }

    /** `mark_satellites_try_connect`, with `shuffled` the order the random
        shuffle put the candidate list in. */
    method MarkSatellitesTryConnect(shuffled: seq<int>)
      requires Valid()
      requires multiset(shuffled) == multiset(UnfullSatellites(connections, tryConnect, capacity))
      modifies this
      ensures Valid()
      ensures connections == old(connections)
      ensures tryConnect == old(tryConnect) + Members(SelectTryConnect(old(connections), old(tryConnect), capacity, shuffled))
    {
      SelectedAreSatellites(connections, tryConnect, capacity, shuffled);
      var sorted := SortBy(shuffled, DegreeKey(connections));
      var chosen := sorted[..MarkCount(|shuffled|, capacity)];
      assert chosen == SelectTryConnect(connections, tryConnect, capacity, shuffled);
      InsertTryConnect(chosen);
    }

    /** The loop of `mark_satellites_try_connect`: a `TryConnect` marker on each
        satellite of `chosen`. */
    method InsertTryConnect(chosen: seq<int>)
      requires Valid()
      requires forall x :: x in chosen ==> 0 <= x < |connections|
      modifies this
      ensures Valid()
      ensures connections == old(connections)
      ensures tryConnect == old(tryConnect) + Members(chosen)
    {
      var i := 0;
      while i < |chosen|
        invariant 0 <= i <= |chosen|
        invariant connections == old(connections)
        invariant tryConnect == old(tryConnect) + Members(chosen[..i])
      {
        assert chosen[..i + 1] == chosen[..i] + [chosen[i]];
        tryConnect := tryConnect + {chosen[i]};
        i := i + 1;
      }
      assert chosen[..i] == chosen;
    }

    /** `connect_nearest`: every marked satellite, in id order, proposes to its
        nearest in-range targets, then loses its marker. Returns the
        `ConnectTwo` events written. */
    method ConnectNearest(distSq: (int, int) -> real, connectionDistance: real) returns (proposals: seq<Link>)
      requires Valid()
      modifies this
      ensures Valid()
      ensures connections == old(connections) && tryConnect == {}
      ensures proposals == Proposals(old(connections), old(tryConnect), capacity, distSq, connectionDistance * connectionDistance)
    {
      var marked := tryConnect;
      var nearest := Nearest(connections, marked, capacity, distSq, connectionDistance * connectionDistance);
      proposals := ProposeFromMarked(|connections|, marked, nearest);
      // `commands.entity(a).remove::<TryConnect>()` for every marked satellite.
      tryConnect := tryConnect - marked;
    }

    /** The loop of `connect_nearest` over the satellites in id order: each
        marked one writes one `ConnectTwo` per entry of its `nearest` list. */
    static method ProposeFromMarked(n: nat, marked: set<int>, nearest: int -> seq<int>) returns (proposals: seq<Link>)
      ensures proposals == Gather(marked, nearest, n)
    {
      proposals := [];
      var a := 0;
      while a < n
        invariant 0 <= a <= n
        invariant proposals == Gather(marked, nearest, a)
      {
        if a in marked {
          proposals := WriteConnectTwo(a, nearest(a), proposals);
        }
        a := a + 1;
      }
    }

    /** The inner loop of `connect_nearest`: one `ConnectTwo { from: a, to: b }`
        written after `events` for each `b` of `peers`, in order. */
    static method WriteConnectTwo(a: int, peers: seq<int>, events: seq<Link>) returns (r: seq<Link>)
      ensures r == events + LinksFrom(a, peers)
    {
      r := events;
      var i := 0;
      while i < |peers|
        invariant 0 <= i <= |peers|
        invariant r == events + LinksFrom(a, peers[..i])
      {
        r := r + [Link(a, peers[i])];
        i := i + 1;
        assert LinksFrom(a, peers[..i]) == LinksFrom(a, peers[..i - 1]) + [Link(a, peers[i - 1])];
      }
      assert peers[..i] == peers;
    }

    /** `handle_connection`: each event in order is dropped when its target is
        full, otherwise appended at both ends; the two `assert!`s of the source
        hold on every well-formed event list. */
    method HandleConnection(events: seq<Link>)
      requires Valid()
      requires WellFormed(connections, capacity, events)
      modifies this
      ensures Valid()
      ensures connections == ApplyConnects(old(connections), capacity, events)
      ensures tryConnect == old(tryConnect)
    {
      ghost var start := connections;
      var i := 0;
      while i < |events|
        invariant 0 <= i <= |events|
        invariant tryConnect == old(tryConnect)
        invariant connections == ApplyConnects(start, capacity, events[..i])
      {
        ProposerFits(start, capacity, events, i);
        ConnectTwo(events[i]);
        i := i + 1;
      }
      assert events[..i] == events;
      ApplyConnectsKeepsLinkGraph(start, capacity, events);
    }

    /** The body of the loop of `handle_connection` on one event: dropped
        when the target is full, otherwise `from` is pushed onto the target's
        list and the target onto the proposer's, and the two `assert!`s on the
        new lengths hold. */
    method ConnectTwo(e: Link)
      requires 0 <= e.from < |connections| && 0 <= e.to < |connections| && e.from != e.to
      requires |connections[e.to]| < capacity ==> |connections[e.from]| < capacity
      modifies this
      ensures connections == Connect(old(connections), capacity, e)
      ensures tryConnect == old(tryConnect)
    {
      var from, to := e.from, e.to;
      if |connections[to]| < capacity {
        connections := connections[to := connections[to] + [from]];
        assert |connections[to]| <= capacity;
        connections := connections[from := connections[from] + [to]];
        assert |connections[from]| <= capacity;
      }
    }

    /** `disconnect_farthest`: scans every stored link from its lower-id end and
        returns the batch of `DisconnectTwo` events for those stretched beyond
        the connection distance. */
    method DisconnectFarthest(distSq: (int, int) -> real, connectionDistance: real) returns (batch: seq<Link>)
      requires Valid()
      ensures batch == Evictions(connections, distSq, connectionDistance * connectionDistance)
      ensures forall l :: l in batch <==>
        && 0 <= l.from < |connections| && l.to in connections[l.from] && l.from <= l.to
        && distSq(l.to, l.from) > connectionDistance * connectionDistance
    {
      var limitSq := connectionDistance * connectionDistance;
      batch := [];
      var sat := 0;
      while sat < |connections|
        invariant 0 <= sat <= |connections|
        invariant batch == EvictionsBelow(connections, distSq, limitSq, sat)
      {
        batch := ScanLinks(sat, connections[sat], distSq, limitSq, batch);
        sat := sat + 1;
      }
      EvictionsSpec(connections, distSq, limitSq);
    }

    /** The inner loop of `disconnect_farthest` over the list of `sat`: a
        `DisconnectTwo` written after `batch` for each peer not below `sat`
        whose squared distance exceeds the limit. */
    static method ScanLinks(sat: int, peers: seq<int>, distSq: (int, int) -> real, limitSq: real,
                            batch: seq<Link>) returns (r: seq<Link>)
      ensures r == batch + ScanPeers(sat, peers, distSq, limitSq)
    {
      r := batch;
      var k := 0;
      while k < |peers|
        invariant 0 <= k <= |peers|
        invariant r == batch + ScanPeers(sat, peers[..k], distSq, limitSq)
      {
        var other := peers[k];
        assert peers[..k + 1][..k] == peers[..k];
        if sat <= other {
          if distSq(other, sat) > limitSq {
            r := r + [Link(sat, other)];
          }
        }
        k := k + 1;
      }
      assert peers[..k] == peers;
    }

    /** `handle_disconnection`: each event in order removes every copy of each
        endpoint from the other's list. */
    method HandleDisconnection(events: seq<Link>)
      requires Valid()
      requires forall p :: p in events ==> 0 <= p.from < |connections| && 0 <= p.to < |connections|
      modifies this
      ensures Valid()
      ensures connections == ApplyDisconnects(old(connections), events)
      ensures tryConnect == old(tryConnect)
    {
      ghost var start := connections;
      var i := 0;
      while i < |events|
        invariant 0 <= i <= |events|
        invariant tryConnect == old(tryConnect)
        invariant connections == ApplyDisconnects(start, events[..i])
      {
        assert events[..i + 1][..i] == events[..i];
        assert events[i] in events;
        DisconnectTwo(events[i]);
        i := i + 1;
      }
      assert events[..i] == events;
      ApplyDisconnectsKeepsLinkGraph(start, capacity, events);
    }

    /** The body of the loop of `handle_disconnection` on one event: every
        copy of `to` leaves the list of `from`, then every copy of `from` leaves
        the list of `to`. */
    method DisconnectTwo(e: Link)
      requires 0 <= e.from < |connections| && 0 <= e.to < |connections|
      modifies this
      ensures connections == Disconnect(old(connections), e)
      ensures tryConnect == old(tryConnect)
    {
      var from, to := e.from, e.to;
      connections := connections[from := Without(connections[from], to)];
      connections := connections[to := Without(connections[to], from)];
    }

    /** `handle_disconnect_all` with `pending` queued `DisconnectAll` events:
        any event empties every list and removes every marker. */
    method HandleDisconnectAll(pending: nat)
      requires Valid()
      modifies this
      ensures Valid()
      ensures pending == 0 ==> connections == old(connections) && tryConnect == old(tryConnect)
      ensures pending > 0 ==> connections == DisconnectAll(old(connections)) && tryConnect == {}
    {
      var e := 0;
      while e < pending
        invariant 0 <= e <= pending
        invariant e == 0 ==> connections == old(connections) && tryConnect == old(tryConnect)
        invariant e > 0 ==> connections == DisconnectAll(old(connections)) && tryConnect == {}
        invariant Valid()
      {
        ghost var before := connections;
        ghost var marked := tryConnect;
        var a := 0;
        while a < |connections|
          invariant 0 <= a <= |connections| == |before|
          invariant forall x :: 0 <= x < a ==> connections[x] == []
          invariant forall x :: x in tryConnect ==> x in marked && a <= x
        {
          connections := connections[a := []];
          tryConnect := tryConnect - {a};
          a := a + 1;
        }
        assert tryConnect == {} by {
          forall x | x in tryConnect
            ensures false
          {
          }
        }
        assert connections == DisconnectAll(old(connections));
        DisconnectAllIdempotent(old(connections), capacity);
        e := e + 1;
      }
    }

    /** One fixed tick: the five systems in their listed order, with `shuffled`
        the order the random shuffle of step 1 produced. The lists end as
        `TickState` says, every marker is gone, and no link stored at its
        lower-id end is longer than the connection distance. */
    method Tick(shuffled: seq<int>, distSq: (int, int) -> real, connectionDistance: real)
      requires Valid()
      requires multiset(shuffled) == multiset(UnfullSatellites(connections, tryConnect, capacity))
      modifies this
      ensures Valid()
      ensures connections == TickState(old(connections), old(tryConnect), capacity, shuffled, distSq,
                                       connectionDistance * connectionDistance)
      ensures tryConnect == {}
      ensures forall a, b :: 0 <= a <= b < |connections| && b in connections[a] ==>
        distSq(b, a) <= connectionDistance * connectionDistance
    {
      var limitSq := connectionDistance * connectionDistance;
      MarkSatellitesTryConnect(shuffled);
      ProposalsWellFormed(connections, tryConnect, capacity, distSq, limitSq);
      var proposals := ConnectNearest(distSq, connectionDistance);
      HandleConnection(proposals);
      var batch := DisconnectFarthest(distSq, connectionDistance);
      forall p | p in batch
        ensures 0 <= p.from < |connections| && 0 <= p.to < |connections|
      {
        var k :| 0 <= k < |connections[p.from]| && connections[p.from][k] == p.to;
      }
      HandleDisconnection(batch);
      TickKeepsLinkGraph(old(connections), old(tryConnect), capacity, shuffled, distSq, limitSq);
    }
  }
}

/** Whole-tick scenarios for the link manager of
    simulator/src/core/communication.rs, derived from the general lemmas. */
module LinkScenarios {
  import opened Sequences
  import opened LinkManager

  /** `n` satellites with empty `Connections`. */
  function Unlinked(n: nat): (r: seq<seq<int>>)
    ensures |r| == n && forall a :: 0 <= a < n ==> r[a] == []
  {
    seq(n, _ => [])
  }

  lemma UnlinkedIsLinkGraph(n: nat, cap: nat)
    ensures LinkGraph(Unlinked(n), cap)
  {
  }

  /** With every list empty and no marker, every satellite is a candidate. */
  lemma {:induction false} UnlinkedAllUnfull(n: nat, cap: nat, k: nat)
    requires cap > 0 && k <= n
    ensures |UnfullBelow(Unlinked(n), {}, cap, k)| == k
  {
    if k > 0 {
      UnlinkedAllUnfull(n, cap, k - 1);
      assert Unfull(Unlinked(n), {}, cap, k - 1);
    }
  }

  /** All events of `ps` come from `a`, so `a` sends all of them. */
  lemma {:induction false} FromCountAll(ps: seq<Link>, a: int)
    requires forall p :: p in ps ==> p.from == a
    ensures FromCount(ps, a) == |ps|
  {
    if ps != [] {
      assert forall p :: p in ps[..|ps| - 1] ==> p in ps;
      assert ps[|ps| - 1] in ps;
      FromCountAll(ps[..|ps| - 1], a);
    }
  }

  /** Step 1 on two or three unlinked satellites of capacity 1 marks exactly
      one of them. */
  lemma OneMarked(n: nat, shuffled: seq<int>) returns (s: int)
    requires n == 2 || n == 3
    requires multiset(shuffled) == multiset(UnfullSatellites(Unlinked(n), {}, 1))
    ensures 0 <= s < n
    ensures SelectTryConnect(Unlinked(n), {}, 1, shuffled) == [s]
  {
    UnlinkedAllUnfull(n, 1, n);
    s := SingleSelection(Unlinked(n), {}, 1, shuffled);
  }

  /** When step 1 has exactly one satellite to mark, it marks one
      under-capacity, unmarked satellite. */
  lemma SingleSelection(conns: seq<seq<int>>, marked: set<int>, cap: nat, shuffled: seq<int>) returns (s: int)
    requires multiset(shuffled) == multiset(UnfullSatellites(conns, marked, cap))
    requires MarkCount(|UnfullSatellites(conns, marked, cap)|, cap) == 1
    ensures SelectTryConnect(conns, marked, cap, shuffled) == [s]
    ensures Unfull(conns, marked, cap, s)
  {
    MarkFairness(conns, marked, cap, shuffled);
    var sel := SelectTryConnect(conns, marked, cap, shuffled);
    s := sel[0];
    assert s in sel;
    assert sel == [s];
  }

  /** A marked satellite with room for one more link and at least one
      qualifying target proposes to exactly one satellite. */
  lemma OneRoomOnePeer(conns: seq<seq<int>>, marked: set<int>, cap: nat,
                       distSq: (int, int) -> real, limitSq: real, a: int, c: int)
    requires 0 <= a < |conns| && |conns[a]| + 1 == cap && a in marked
    requires Unfull(conns, marked, cap, c) && distSq(c, a) < limitSq
    ensures |NearestPeers(conns, marked, cap, distSq, limitSq, a)| == 1
  {
    NearestPeersTargets(conns, marked, cap, distSq, limitSq, a);
    NearestPeersNearest(conns, marked, cap, distSq, limitSq, a);
  }

  /** Capacity 1, no links, `s` marked and every pair within range: the
      nearest-peer list of `s` holds exactly one other satellite. */
  lemma OnePeer(n: nat, s: int, distSq: (int, int) -> real, limitSq: real) returns (t: int)
    requires n == 2 || n == 3
    requires 0 <= s < n
    requires forall a, b :: 0 <= a < n && 0 <= b < n && a != b ==> distSq(b, a) < limitSq
    ensures 0 <= t < n && t != s
    ensures NearestPeers(Unlinked(n), {s}, 1, distSq, limitSq, s) == [t]
  {
    var conns := Unlinked(n);
    var other := if s == 0 then 1 else 0;
    assert distSq(other, s) < limitSq;
    assert conns[s] == [] && conns[other] == [];
    OneRoomOnePeer(conns, {s}, 1, distSq, limitSq, s, other);
    var peers := NearestPeers(conns, {s}, 1, distSq, limitSq, s);
    t := peers[0];
    assert t in peers;
    NearestPeersTargets(conns, {s}, 1, distSq, limitSq, s);
    assert peers == [t];
  }

  /** One marked satellite whose list is `[t]` sends exactly one event. */
  lemma GatherSingle(nearest: int -> seq<int>, n: nat, s: int, t: int)
    requires 0 <= s < n && nearest(s) == [t]
    ensures Gather({s}, nearest, n) == [Link(s, t)]
  {
    var ps := Gather({s}, nearest, n);
    GatherMembers({s}, nearest, n);
    GatherCounts({s}, nearest, n, s);
    FromCountAll(ps, s);
    assert |ps| == 1;
    assert ps[0] in ps;
  }

  /** Step 2 with one marked satellite `s` among unlinked satellites of
      capacity 1, every pair within range: `s` proposes to exactly one other
      satellite. */
  lemma OneProposal(n: nat, s: int, distSq: (int, int) -> real, limitSq: real) returns (t: int)
    requires n == 2 || n == 3
    requires 0 <= s < n
    requires forall a, b :: 0 <= a < n && 0 <= b < n && a != b ==> distSq(b, a) < limitSq
    ensures 0 <= t < n && t != s
    ensures Proposals(Unlinked(n), {s}, 1, distSq, limitSq) == [Link(s, t)]
  {
    t := OnePeer(n, s, distSq, limitSq);
    var nearest := Nearest(Unlinked(n), {s}, 1, distSq, limitSq);
    assert nearest(s) == [t];
    GatherSingle(nearest, n, s, t);
  }

  /** Steps 3 to 5 after the single proposal `s -> t`: the pair is linked and
      nothing is stretched. */
  lemma LinkOneAndScan(n: nat, s: int, t: int, distSq: (int, int) -> real, limitSq: real)
    requires 0 <= s < n && 0 <= t < n && s != t
    requires distSq(t, s) < limitSq && distSq(s, t) < limitSq
    ensures var connected := ApplyConnects(Unlinked(n), 1, [Link(s, t)]);
      && connected == Unlinked(n)[t := [s]][s := [t]]
      && Evictions(connected, distSq, limitSq) == []
      && ApplyDisconnects(connected, []) == connected
  {
    var conns := Unlinked(n);
    var ps := [Link(s, t)];
    assert ps[..|ps| - 1] == [];
    assert ApplyConnects(conns, 1, ps[..|ps| - 1]) == conns;
    var connected := ApplyConnects(conns, 1, ps);
    assert connected == Connect(conns, 1, Link(s, t));
    assert conns[t] + [s] == [s] && conns[s] + [t] == [t];
    assert connected == AddPeer(AddPeer(conns, t, s), s, t);
    assert connected == conns[t := [s]][s := [t]];
    NoEvictions(connected, distSq, limitSq, n);
  }

  /** Once step 1 has marked `s` alone and step 2 has proposed `s -> t`
      alone, the tick ends with exactly that pair linked. */
  lemma TickAfterOneProposal(n: nat, shuffled: seq<int>, distSq: (int, int) -> real, limitSq: real, s: int, t: int)
    requires 0 <= s < n && 0 <= t < n && s != t
    requires distSq(t, s) < limitSq && distSq(s, t) < limitSq
    requires multiset(shuffled) == multiset(UnfullSatellites(Unlinked(n), {}, 1))
    requires SelectTryConnect(Unlinked(n), {}, 1, shuffled) == [s]
    requires Proposals(Unlinked(n), {s}, 1, distSq, limitSq) == [Link(s, t)]
    ensures LinkGraph(Unlinked(n), 1)
    ensures TickState(Unlinked(n), {}, 1, shuffled, distSq, limitSq) == Unlinked(n)[t := [s]][s := [t]]
  {
    UnlinkedIsLinkGraph(n, 1);
    LinkOneAndScan(n, s, t, distSq, limitSq);
    TickOfOneProposal(Unlinked(n), shuffled, distSq, limitSq, s, t, Unlinked(n)[t := [s]][s := [t]]);
  }

  /** A tick in which step 1 marks `s` alone, step 2 proposes `s -> t` alone
      and step 4 finds nothing stretched ends with the lists step 3 left. */
  lemma TickOfOneProposal(conns: seq<seq<int>>, shuffled: seq<int>, distSq: (int, int) -> real, limitSq: real,
                          s: int, t: int, connected: seq<seq<int>>)
    requires LinkGraph(conns, 1)
    requires 0 <= s < |conns| && 0 <= t < |conns|
    requires multiset(shuffled) == multiset(UnfullSatellites(conns, {}, 1))
    requires SelectTryConnect(conns, {}, 1, shuffled) == [s]
    requires Proposals(conns, {s}, 1, distSq, limitSq) == [Link(s, t)]
    requires connected == ApplyConnects(conns, 1, [Link(s, t)])
    requires Evictions(connected, distSq, limitSq) == []
    ensures TickState(conns, {}, 1, shuffled, distSq, limitSq) == connected
  {
    assert {} + Members([s]) == {s};
    TickStateOf(conns, {}, 1, shuffled, distSq, limitSq, {s}, [Link(s, t)], connected, []);
  }

  /** Two or three unlinked satellites with capacity 1, every pair strictly
      within range: after one tick exactly one pair `s`, `t` is linked,
      whatever order the shuffle chose and whatever the distances; every other
      list stays empty, so the degrees sum to 2 and no triangle forms. */
  lemma OnePairForms(n: nat, shuffled: seq<int>, distSq: (int, int) -> real, limitSq: real)
    requires n == 2 || n == 3
    requires multiset(shuffled) == multiset(UnfullSatellites(Unlinked(n), {}, 1))
    requires forall a, b :: 0 <= a < n && 0 <= b < n && a != b ==> distSq(b, a) < limitSq
    ensures LinkGraph(Unlinked(n), 1)
    ensures exists s, t :: (0 <= s < n && 0 <= t < n && s != t &&
      TickState(Unlinked(n), {}, 1, shuffled, distSq, limitSq) == Unlinked(n)[t := [s]][s := [t]])
  {
    var s := OneMarked(n, shuffled);
    var t := OneProposal(n, s, distSq, limitSq);
    TickAfterOneProposal(n, shuffled, distSq, limitSq, s, t);
  }

  /** Two satellites linked to each other form a valid link graph. */
  lemma PairIsLinkGraph(conns: seq<seq<int>>)
    requires conns == [[1], [0]]
    ensures LinkGraph(conns, 1)
  {
    assert multiset(conns[0])[1] == 1 && multiset(conns[1])[0] == 1;
    assert multiset(conns[0])[0] == 0 && multiset(conns[1])[1] == 0;
  }

  /** The linked pair is full, so step 1 has no candidates. */
  lemma PairIsFull(conns: seq<seq<int>>)
    requires conns == [[1], [0]]
    ensures UnfullSatellites(conns, {}, 1) == []
    ensures SelectTryConnect(conns, {}, 1, []) == []
  {
    assert UnfullBelow(conns, {}, 1, 0) == [];
    assert !Unfull(conns, {}, 1, 0);
    assert UnfullBelow(conns, {}, 1, 1) == [];
    assert !Unfull(conns, {}, 1, 1);
  }

  /** Steps 4 and 5 on the stretched pair: one `DisconnectTwo`, and both lists
      end empty. */
  lemma PairIsEvicted(conns: seq<seq<int>>, distSq: (int, int) -> real, limitSq: real)
    requires conns == [[1], [0]]
    requires distSq(1, 0) > limitSq
    ensures Evictions(conns, distSq, limitSq) == [Link(0, 1)]
    ensures ApplyDisconnects(conns, [Link(0, 1)]) == [[], []]
  {
    ScanOne(0, 1, distSq, limitSq);
    ScanOne(1, 0, distSq, limitSq);
    assert EvictionsBelow(conns, distSq, limitSq, 1) == [Link(0, 1)];
    assert EvictionsBelow(conns, distSq, limitSq, 2) == [Link(0, 1)];
    var ps := [Link(0, 1)];
    assert ps[..0] == [];
    WithoutOnly(1);
    WithoutOnly(0);
    assert RemovePeer(conns, 0, 1) == [[], [0]];
  }

  /** Scanning a one-entry list reports at most that one link. */
  lemma ScanOne(a: int, b: int, distSq: (int, int) -> real, limitSq: real)
    ensures ScanPeers(a, [b], distSq, limitSq) == Evict(a, b, distSq, limitSq)
  {
    assert [b][..0] == [];
  }

  /** Removing the only entry leaves an empty list. */
  lemma WithoutOnly(x: int)
    ensures Without([x], x) == []
  {
    assert [x][..0] == [];
  }

  /** A linked pair that has drifted apart beyond the connection distance has
      no candidates for step 1 and is unlinked by the next tick. */
  lemma StretchedPairBreaks(conns: seq<seq<int>>, distSq: (int, int) -> real, limitSq: real)
    requires conns == [[1], [0]]
    requires distSq(1, 0) > limitSq
    ensures LinkGraph(conns, 1) && UnfullSatellites(conns, {}, 1) == []
    ensures TickState(conns, {}, 1, [], distSq, limitSq) == [[], []]
  {
    PairIsLinkGraph(conns);
    PairIsFull(conns);
    NothingProposed(Nearest(conns, {}, 1, distSq, limitSq), 2);
    PairIsEvicted(conns, distSq, limitSq);
    TickStateOf(conns, {}, 1, [], distSq, limitSq, {}, [], conns, [Link(0, 1)]);
  }

  /** With no marker nothing is proposed. */
  lemma {:induction false} NothingProposed(nearest: int -> seq<int>, n: nat)
    ensures Gather({}, nearest, n) == []
  {
    if n > 0 {
      NothingProposed(nearest, n - 1);
    }
  }
}

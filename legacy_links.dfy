/** The earlier link manager of src/satellite/communication.rs.

    Every fixed tick `connect_nearest` walks all unordered pairs of satellites
    and proposes up to eleven pairs whose two ends have no link yet and lie
    within 2000 units of each other; `handle_connection` then appends each
    proposed pair at both ends without looking at capacity again. Satellites are
    the integers 0 .. n-1, and the query's pair order is taken to be the
    lexicographic order of ids. */
module LegacyLinks {
  import opened LinkManager

  /** `CONNECTION_DIST`. */
  const ConnectionDist: real := 2000.0
  /** `CONNECTION_NUM`. */
  const ConnectionNum: nat := 1
  /** The loop stops once `counter > 10`, so at most this many proposals. */
  const MaxProposals: nat := 11

  /** A `ConnectTwo { a, b }` event. */
  datatype ConnectTwo = ConnectTwo(a: int, b: int)

  // ---------------------------------------------------------------------------
  // The pairs `iter_combinations_mut` yields

  /** The pairs `(i, j)` with `i` fixed and `i < j < n`, in ascending `j`. */
  function Row(i: int, n: int): (r: seq<(int, int)>)
    requires 0 <= i <= n
    ensures |r| == n - 1 - i || (i == n && r == [])
    ensures forall k :: 0 <= k < |r| ==> r[k] == (i, i + 1 + k)
  {
    if i + 1 >= n then [] else seq(n - 1 - i, k requires 0 <= k < n - 1 - i => (i, i + 1 + k))
  }

  /** The pairs `(i, j)` with `lo <= i < j < n`, in lexicographic order. */
  function PairsFrom(lo: int, n: int): seq<(int, int)>
    requires 0 <= lo <= n
    decreases n - lo
  {
    if lo == n then [] else Row(lo, n) + PairsFrom(lo + 1, n)
  }

  /** Every unordered pair of distinct satellites, once each. */
  function Pairs(n: nat): (r: seq<(int, int)>)
    ensures forall p :: p in r ==> 0 <= p.0 < p.1 < n
  {
    PairsFromSpec(0, n);
    PairsFrom(0, n)
  }

  /** `p` comes strictly before `q` in lexicographic order. */
  predicate Before(p: (int, int), q: (int, int))
  {
    p.0 < q.0 || (p.0 == q.0 && p.1 < q.1)
  }

  lemma {:induction false} PairsFromSpec(lo: int, n: int)
    requires 0 <= lo <= n
    ensures forall p :: p in PairsFrom(lo, n) <==> lo <= p.0 < p.1 < n
    ensures forall k, l :: 0 <= k < l < |PairsFrom(lo, n)| ==> Before(PairsFrom(lo, n)[k], PairsFrom(lo, n)[l])
    decreases n - lo
  {
    if lo < n {
      PairsFromSpec(lo + 1, n);
      var row := Row(lo, n);
      var rest := PairsFrom(lo + 1, n);
      forall p: (int, int) | lo <= p.0 < p.1 < n
        ensures p in PairsFrom(lo, n)
      {
        if p.0 == lo {
          assert row[p.1 - lo - 1] == p;
        } else {
          assert p in rest;
        }
      }
      forall k, l | 0 <= k < l < |row + rest|
        ensures Before((row + rest)[k], (row + rest)[l])
      {
        if l >= |row| && k < |row| {
          assert (row + rest)[l] in rest;
        }
      }
    }
  }

  /** The pair stream covers exactly the unordered pairs `i < j` of satellites,
      in strictly increasing order, so no pair comes twice and no satellite is
      paired with itself. */
  lemma PairsSpec(n: nat)
    ensures forall p :: p in Pairs(n) <==> 0 <= p.0 < p.1 < n
    ensures forall k, l :: 0 <= k < l < |Pairs(n)| ==> Before(Pairs(n)[k], Pairs(n)[l])
  {
    PairsFromSpec(0, n);
  }

  // ---------------------------------------------------------------------------
  // connect_nearest

  /** The test of lines 47 and 50: both ends below `CONNECTION_NUM` links and the
      squared distance strictly below `CONNECTION_DIST²`. */
  predicate Eligible(conns: seq<seq<int>>, distSq: (int, int) -> real, p: (int, int))
  {
    && 0 <= p.0 < |conns| && 0 <= p.1 < |conns|
    && |conns[p.0]| < ConnectionNum && |conns[p.1]| < ConnectionNum
    && distSq(p.0, p.1) < ConnectionDist * ConnectionDist
  }

  /** The eligible pairs of `pairs`, in order, as events. */
  function EligibleEvents(conns: seq<seq<int>>, distSq: (int, int) -> real, pairs: seq<(int, int)>): seq<ConnectTwo>
  {
    if pairs == [] then []
    else
      var last := pairs[|pairs| - 1];
      EligibleEvents(conns, distSq, pairs[..|pairs| - 1]) +
        (if Eligible(conns, distSq, last) then [ConnectTwo(last.0, last.1)] else [])
  }

  /** The events `connect_nearest` writes: the first `MaxProposals` eligible
      pairs of the pair stream. */
  function Proposed(conns: seq<seq<int>>, distSq: (int, int) -> real): (r: seq<ConnectTwo>)
    ensures forall e :: e in r ==> 0 <= e.a < e.b < |conns| && Eligible(conns, distSq, (e.a, e.b))
  {
    var all := EligibleEvents(conns, distSq, Pairs(|conns|));
    EligibleEventsMembers(conns, distSq, Pairs(|conns|));
    assert forall e :: e in all[..if |all| <= MaxProposals then |all| else MaxProposals] ==> e in all;
    if |all| <= MaxProposals then all else all[..MaxProposals]
  }

  /** Every event written names an eligible pair of the stream. */
  lemma {:induction false} EligibleEventsMembers(conns: seq<seq<int>>, distSq: (int, int) -> real, pairs: seq<(int, int)>)
    ensures forall e :: e in EligibleEvents(conns, distSq, pairs) ==> (e.a, e.b) in pairs && Eligible(conns, distSq, (e.a, e.b))
  {
    if pairs != [] {
      var init := pairs[..|pairs| - 1];
      EligibleEventsMembers(conns, distSq, init);
      assert forall p :: p in init ==> p in pairs;
    }
  }

  lemma {:induction false} EligibleEventsAppend(conns: seq<seq<int>>, distSq: (int, int) -> real,
                                                xs: seq<(int, int)>, ys: seq<(int, int)>)
    ensures EligibleEvents(conns, distSq, xs + ys) == EligibleEvents(conns, distSq, xs) + EligibleEvents(conns, distSq, ys)
    decreases |ys|
  {
    if ys == [] {
      assert xs + ys == xs;
    } else {
      assert (xs + ys)[..|xs + ys| - 1] == xs + ys[..|ys| - 1];
      assert (xs + ys)[|xs + ys| - 1] == ys[|ys| - 1];
      EligibleEventsAppend(conns, distSq, xs, ys[..|ys| - 1]);
    }
  }

  /** An event is written for a pair iff the pair is in the stream and
      eligible; events keep the stream's order. */
  lemma {:induction false} EligibleEventsSpec(conns: seq<seq<int>>, distSq: (int, int) -> real, pairs: seq<(int, int)>)
    requires forall k, l :: 0 <= k < l < |pairs| ==> Before(pairs[k], pairs[l])
    ensures var r := EligibleEvents(conns, distSq, pairs);
      && (forall e :: e in r <==> (e.a, e.b) in pairs && Eligible(conns, distSq, (e.a, e.b)))
      && (forall k, l :: 0 <= k < l < |r| ==> Before((r[k].a, r[k].b), (r[l].a, r[l].b)))
  {
    if pairs != [] {
      var init := pairs[..|pairs| - 1];
      var last := pairs[|pairs| - 1];
      EligibleEventsSpec(conns, distSq, init);
      var prev := EligibleEvents(conns, distSq, init);
      assert pairs == init + [last];
      forall k | 0 <= k < |prev|
        ensures Before((prev[k].a, prev[k].b), last)
      {
        assert prev[k] in prev;
        var i :| 0 <= i < |init| && init[i] == (prev[k].a, prev[k].b);
      }
    }
  }

  /** Every proposal joins two distinct satellites `a < b`, each with fewer than
      `CONNECTION_NUM` links and strictly closer than `CONNECTION_DIST`; no pair
      is proposed twice; at most eleven are proposed; and when fewer than eleven
      are proposed, every eligible pair is. */
  lemma ProposedSpec(conns: seq<seq<int>>, distSq: (int, int) -> real)
    ensures var ps := Proposed(conns, distSq);
      && |ps| <= MaxProposals
      && (forall e :: e in ps ==> 0 <= e.a < e.b < |conns| && Eligible(conns, distSq, (e.a, e.b)))
      && (forall k, l :: 0 <= k < l < |ps| ==> ps[k] != ps[l])
      && (|ps| < MaxProposals ==>
            forall a, b :: 0 <= a < b < |conns| && Eligible(conns, distSq, (a, b)) ==> ConnectTwo(a, b) in ps)
  {
    var pairs := Pairs(|conns|);
    PairsSpec(|conns|);
    var all := EligibleEvents(conns, distSq, pairs);
    EligibleEventsSpec(conns, distSq, pairs);
    var ps := Proposed(conns, distSq);
    assert |ps| < MaxProposals ==> ps == all;
    forall k, l | 0 <= k < l < |ps|
      ensures ps[k] != ps[l]
    {
      assert ps[k] == all[k] && ps[l] == all[l];
      assert Before((all[k].a, all[k].b), (all[l].a, all[l].b));
    }
    if |ps| < MaxProposals {
      forall a, b | 0 <= a < b < |conns| && Eligible(conns, distSq, (a, b))
        ensures ConnectTwo(a, b) in ps
      {
        assert (a, b) in pairs;
      }
    }
  }

  /** The events written before the walk stopped are the proposals: either the
      walk reached the end of the stream with at most eleven events, or it
      stopped with exactly eleven. */
  lemma ProposedOfPrefix(conns: seq<seq<int>>, distSq: (int, int) -> real, k: nat)
    requires k <= |Pairs(|conns|)|
    requires var ev := EligibleEvents(conns, distSq, Pairs(|conns|)[..k]);
      (k == |Pairs(|conns|)| && |ev| <= MaxProposals) || |ev| == MaxProposals
    ensures Proposed(conns, distSq) == EligibleEvents(conns, distSq, Pairs(|conns|)[..k])
  {
    var pairs := Pairs(|conns|);
    var ev := EligibleEvents(conns, distSq, pairs[..k]);
    if k == |pairs| {
      assert pairs[..k] == pairs;
    } else {
      var all := EligibleEvents(conns, distSq, pairs);
      assert pairs == pairs[..k] + pairs[k..];
      EligibleEventsAppend(conns, distSq, pairs[..k], pairs[k..]);
      assert all[..MaxProposals] == ev;
    }
  }

  /** One more pair of the stream adds its event exactly when it is eligible. */
  lemma EligibleEventsStep(conns: seq<seq<int>>, distSq: (int, int) -> real, pairs: seq<(int, int)>, k: nat)
    requires k < |pairs|
    ensures EligibleEvents(conns, distSq, pairs[..k + 1]) == EligibleEvents(conns, distSq, pairs[..k]) +
      (if Eligible(conns, distSq, pairs[k]) then [ConnectTwo(pairs[k].0, pairs[k].1)] else [])
  {
    assert pairs[..k + 1][..k] == pairs[..k];
  }

  // ---------------------------------------------------------------------------
  // handle_connection

  /** `handle_connection` on one event: `b` pushed onto `a`'s list, then `a`
      onto `b`'s, with no capacity test. */
  function Append(conns: seq<seq<int>>, e: ConnectTwo): (r: seq<seq<int>>)
    requires 0 <= e.a < |conns| && 0 <= e.b < |conns|
    ensures |r| == |conns|
  {
    AddPeer(AddPeer(conns, e.a, e.b), e.b, e.a)
  }

  function AppendAll(conns: seq<seq<int>>, es: seq<ConnectTwo>): (r: seq<seq<int>>)
    requires forall e :: e in es ==> 0 <= e.a < |conns| && 0 <= e.b < |conns|
    ensures |r| == |conns|
  {
    if es == [] then conns
    else
      assert forall e :: e in es[..|es| - 1] ==> e in es;
      Append(AppendAll(conns, es[..|es| - 1]), es[|es| - 1])
  }

  /** How many events of `es` name `x` at either end. */
  function Mentions(es: seq<ConnectTwo>, x: int): nat
  {
    if es == [] then 0
    else
      var e := es[|es| - 1];
      Mentions(es[..|es| - 1], x) + (if e.a == x then 1 else 0) + (if e.b == x then 1 else 0)
  }

  /** One unchecked append is a `Connect` whose capacity test cannot fail. */
  lemma AppendIsConnect(conns: seq<seq<int>>, e: ConnectTwo)
    requires 0 <= e.a < |conns| && 0 <= e.b < |conns|
    ensures Append(conns, e) == Connect(conns, |conns[e.a]| + 1, Link(e.b, e.a))
  {
  }

  /** The appends keep the lists symmetric, self-free and within the table. */
  lemma {:induction false} AppendAllKeepsShape(conns: seq<seq<int>>, es: seq<ConnectTwo>)
    requires PeersAreSatellites(conns) && NoSelfLinks(conns) && Symmetric(conns)
    requires forall e :: e in es ==> 0 <= e.a < |conns| && 0 <= e.b < |conns| && e.a != e.b
    ensures var r := AppendAll(conns, es);
      PeersAreSatellites(r) && NoSelfLinks(r) && Symmetric(r)
  {
    if es != [] {
      var init := es[..|es| - 1];
      var e := es[|es| - 1];
      assert e in es;
      assert forall q :: q in init ==> q in es;
      AppendAllKeepsShape(conns, init);
      var prev := AppendAll(conns, init);
      AppendIsConnect(prev, e);
      ConnectKeepsShape(prev, |prev[e.a]| + 1, Link(e.b, e.a));
    }
  }

  /** Each event adds exactly one entry at each of its two ends, so a list grows
      by the number of events naming its satellite. */
  lemma {:induction false} AppendAllLengths(conns: seq<seq<int>>, es: seq<ConnectTwo>, x: int)
    requires forall e :: e in es ==> 0 <= e.a < |conns| && 0 <= e.b < |conns| && e.a != e.b
    requires 0 <= x < |conns|
    ensures |AppendAll(conns, es)[x]| == |conns[x]| + Mentions(es, x)
  {
    if es != [] {
      var init := es[..|es| - 1];
      var e := es[|es| - 1];
      assert e in es;
      assert forall q :: q in init ==> q in es;
      AppendAllLengths(conns, init, x);
    }
  }

  /** The one-link bound holds after the tick exactly for the satellites whose
      links so far plus the proposals naming them number at most one. */
  lemma CapacityOnlyIfNamedOnce(conns: seq<seq<int>>, es: seq<ConnectTwo>, x: int)
    requires PeersAreSatellites(conns) && NoSelfLinks(conns) && Symmetric(conns)
    requires forall e :: e in es ==> 0 <= e.a < |conns| && 0 <= e.b < |conns| && e.a != e.b
    requires 0 <= x < |conns|
    ensures |AppendAll(conns, es)[x]| <= ConnectionNum <==> |conns[x]| + Mentions(es, x) <= ConnectionNum
  {
    AppendAllLengths(conns, es, x);
  }

  // ---------------------------------------------------------------------------
  // A capacity test at apply time

  /** One event applied only while both ends are still below
      `CONNECTION_NUM`. */
  function AppendChecked(conns: seq<seq<int>>, e: ConnectTwo): (r: seq<seq<int>>)
    requires 0 <= e.a < |conns| && 0 <= e.b < |conns|
    ensures |r| == |conns|
  {
    if |conns[e.a]| < ConnectionNum && |conns[e.b]| < ConnectionNum then Append(conns, e) else conns
  }

  function AppendAllChecked(conns: seq<seq<int>>, es: seq<ConnectTwo>): (r: seq<seq<int>>)
    requires forall e :: e in es ==> 0 <= e.a < |conns| && 0 <= e.b < |conns|
    ensures |r| == |conns|
  {
    if es == [] then conns
    else
      assert forall e :: e in es[..|es| - 1] ==> e in es;
      AppendChecked(AppendAllChecked(conns, es[..|es| - 1]), es[|es| - 1])
  }

  /** With the capacity test, any proposal list keeps the lists a valid link
      graph of capacity `CONNECTION_NUM`. */
  lemma {:induction false} AppendAllCheckedKeepsLinkGraph(conns: seq<seq<int>>, es: seq<ConnectTwo>)
    requires LinkGraph(conns, ConnectionNum)
    requires forall e :: e in es ==> 0 <= e.a < |conns| && 0 <= e.b < |conns| && e.a != e.b
    ensures LinkGraph(AppendAllChecked(conns, es), ConnectionNum)
  {
    if es != [] {
      var init := es[..|es| - 1];
      var e := es[|es| - 1];
      assert e in es;
      assert forall q :: q in init ==> q in es;
      AppendAllCheckedKeepsLinkGraph(conns, init);
      AppendCheckedKeepsLinkGraph(AppendAllChecked(conns, init), e);
    }
  }

  /** One event applied with the capacity test keeps a valid link graph. */
  lemma AppendCheckedKeepsLinkGraph(conns: seq<seq<int>>, e: ConnectTwo)
    requires LinkGraph(conns, ConnectionNum)
    requires 0 <= e.a < |conns| && 0 <= e.b < |conns| && e.a != e.b
    ensures LinkGraph(AppendChecked(conns, e), ConnectionNum)
  {
    if |conns[e.a]| < ConnectionNum && |conns[e.b]| < ConnectionNum {
      var p := Link(e.b, e.a);
      var r := Connect(conns, ConnectionNum, p);
      assert AppendChecked(conns, e) == r;
      ConnectKeepsShape(conns, ConnectionNum, p);
      assert WithinCapacity(r, ConnectionNum) by {
        forall x | 0 <= x < |r|
          ensures |r[x]| <= ConnectionNum
        {
          ConnectLengths(conns, ConnectionNum, p, x);
        }
      }
    }
  }

  // ---------------------------------------------------------------------------
  // Three satellites close together

  /** Three unlinked satellites pairwise within range: all three pairs are
      proposed, in stream order. */
  lemma ThreeCloseProposals(conns: seq<seq<int>>, distSq: (int, int) -> real)
    requires conns == [[], [], []]
    requires forall a, b :: 0 <= a < b < 3 ==> distSq(a, b) < ConnectionDist * ConnectionDist
    ensures Proposed(conns, distSq) == [ConnectTwo(0, 1), ConnectTwo(0, 2), ConnectTwo(1, 2)]
  {
    ThreePairs();
    var ps: seq<(int, int)> := [(0, 1), (0, 2), (1, 2)];
    assert ps[..2] == [(0, 1), (0, 2)] && ps[..2][..1] == [(0, 1)] && ps[..2][..1][..0] == [];
    assert EligibleEvents(conns, distSq, ps[..2][..1]) == [ConnectTwo(0, 1)];
    assert EligibleEvents(conns, distSq, ps[..2]) == [ConnectTwo(0, 1), ConnectTwo(0, 2)];
  }

  /** The pair stream of three satellites. */
  lemma ThreePairs()
    ensures Pairs(3) == [(0, 1), (0, 2), (1, 2)]
  {
    assert Row(0, 3) == [(0, 1), (0, 2)];
    assert Row(1, 3) == [(1, 2)];
    assert Row(2, 3) == [];
  }

  /** As written, the tick on three close satellites links satellite 0 to both
      others: two links where `CONNECTION_NUM` is one. */
  lemma ThreeCloseOverCapacity(conns: seq<seq<int>>, distSq: (int, int) -> real)
    requires conns == [[], [], []]
    requires forall a, b :: 0 <= a < b < 3 ==> distSq(a, b) < ConnectionDist * ConnectionDist
    ensures var r := AppendAll(conns, Proposed(conns, distSq));
      |r[0]| == 2 && |r[0]| > ConnectionNum
  {
    ThreeCloseProposals(conns, distSq);
    var es := [ConnectTwo(0, 1), ConnectTwo(0, 2), ConnectTwo(1, 2)];
    assert es[..2] == [ConnectTwo(0, 1), ConnectTwo(0, 2)] && es[..2][..1] == [ConnectTwo(0, 1)];
    assert es[..2][..1][..0] == [];
    assert Mentions(es[..2][..1], 0) == 1;
    assert Mentions(es[..2], 0) == 2;
    assert Mentions(es, 0) == 2;
    AppendAllLengths(conns, es, 0);
  }

  /** With the capacity test the same tick links only the first pair. */
  lemma ThreeCloseChecked(conns: seq<seq<int>>, distSq: (int, int) -> real)
    requires conns == [[], [], []]
    requires forall a, b :: 0 <= a < b < 3 ==> distSq(a, b) < ConnectionDist * ConnectionDist
    ensures AppendAllChecked(conns, Proposed(conns, distSq)) == [[1], [0], []]
  {
    ThreeCloseProposals(conns, distSq);
    var es := [ConnectTwo(0, 1), ConnectTwo(0, 2), ConnectTwo(1, 2)];
    assert es[..2] == [ConnectTwo(0, 1), ConnectTwo(0, 2)] && es[..2][..1] == [ConnectTwo(0, 1)];
    assert es[..2][..1][..0] == [];
    assert AppendAllChecked(conns, es[..2][..1][..0]) == conns;
    assert AppendChecked(conns, ConnectTwo(0, 1)) == Append(conns, ConnectTwo(0, 1));
    assert conns[0] + [1] == [1];
    assert AddPeer(conns, 0, 1) == [[1], [], []];
    var c: seq<seq<int>> := [[1], [], []];
    assert c[1] + [0] == [0];
    assert AddPeer(c, 1, 0) == [[1], [0], []];
    assert AppendAllChecked(conns, es[..2][..1]) == [[1], [0], []];
    assert AppendAllChecked(conns, es[..2]) == [[1], [0], []];
  }

  // ---------------------------------------------------------------------------
  // The ECS state

  class LegacyConstellation {
    /** `connections[a]` is the `Connections.connections` vector of satellite `a`. */
    var connections: seq<seq<int>>

    ghost predicate Valid()
      reads this
    {
      PeersAreSatellites(connections) && NoSelfLinks(connections) && Symmetric(connections)
    }

    /** `setup`: every one of the `n` satellites gets an empty list. */
    constructor Setup(n: nat)
      ensures Valid()
      ensures |connections| == n && forall a :: 0 <= a < n ==> connections[a] == []
    {
      connections := seq(n, _ => []);
    }

    /** `connect_nearest`: walks the pair stream with a counter and stops once
        more than ten proposals were written. */
    method ConnectNearest(distSq: (int, int) -> real) returns (events: seq<ConnectTwo>)
      ensures events == Proposed(connections, distSq)
    {
      var k;
      events, k := WalkPairs(connections, distSq, Pairs(|connections|));
      ProposedOfPrefix(connections, distSq, k);
    }

    /** The loop of `connect_nearest` over the pair stream `pairs`: returns the
        events written and how many pairs were looked at before the walk ended
        or the counter passed ten. */
    static method WalkPairs(conns: seq<seq<int>>, distSq: (int, int) -> real, pairs: seq<(int, int)>)
      returns (events: seq<ConnectTwo>, k: nat)
      requires forall p :: p in pairs ==> 0 <= p.0 < |conns| && 0 <= p.1 < |conns|
      ensures k <= |pairs| && events == EligibleEvents(conns, distSq, pairs[..k])
      ensures (k == |pairs| && |events| <= MaxProposals) || |events| == MaxProposals
    {
      events := [];
      var counter := 0;
      k := 0;
      while k < |pairs|
        invariant 0 <= k <= |pairs|
        invariant events == EligibleEvents(conns, distSq, pairs[..k])
        invariant counter == |events| <= MaxProposals
      {
        if counter > 10 {
          break;
        }
        var (sat1, sat2) := pairs[k];
        assert pairs[k] in pairs;
        EligibleEventsStep(conns, distSq, pairs, k);
        if |conns[sat1]| < ConnectionNum && |conns[sat2]| < ConnectionNum {
          if distSq(sat1, sat2) < ConnectionDist * ConnectionDist {
            events := events + [ConnectTwo(sat1, sat2)];
            counter := counter + 1;
          }
        }
        k := k + 1;
      }
    }

    /** `handle_connection`: every event appends at both ends. */
    method HandleConnection(events: seq<ConnectTwo>)
      requires Valid()
      requires forall e :: e in events ==> 0 <= e.a < |connections| && 0 <= e.b < |connections| && e.a != e.b
      modifies this
      ensures Valid()
      ensures connections == AppendAll(old(connections), events)
    {
      ghost var start := connections;
      var i := 0;
      while i < |events|
        invariant 0 <= i <= |events|
        invariant |connections| == |start|
        invariant connections == AppendAll(start, events[..i])
      {
        assert events[..i + 1][..i] == events[..i];
        assert events[i] in events;
        ConnectBoth(events[i]);
        i := i + 1;
      }
      assert events[..i] == events;
      AppendAllKeepsShape(start, events);
    }

    /** `handle_connection` with the capacity test at apply time: an event is
        applied only while both ends are below `CONNECTION_NUM`, so the lists
        stay within capacity whatever the proposals. */
    method HandleConnectionChecked(events: seq<ConnectTwo>)
      requires LinkGraph(connections, ConnectionNum)
      requires forall e :: e in events ==> 0 <= e.a < |connections| && 0 <= e.b < |connections| && e.a != e.b
      modifies this
      ensures LinkGraph(connections, ConnectionNum)
      ensures connections == AppendAllChecked(old(connections), events)
    {
      ghost var start := connections;
      var i := 0;
      while i < |events|
        invariant 0 <= i <= |events|
        invariant |connections| == |start|
        invariant connections == AppendAllChecked(start, events[..i])
      {
        assert events[..i + 1][..i] == events[..i];
        assert events[i] in events;
        ConnectBothChecked(events[i]);
        i := i + 1;
      }
      assert events[..i] == events;
      AppendAllCheckedKeepsLinkGraph(start, events);
    }

    /** The body of the loop of `handle_connection` on one event: `b` pushed
        onto `a`'s list, then `a` onto `b`'s. */
    method ConnectBoth(e: ConnectTwo)
      requires 0 <= e.a < |connections| && 0 <= e.b < |connections|
      modifies this
      ensures connections == Append(old(connections), e)
    {
      var a, b := e.a, e.b;
      connections := connections[a := connections[a] + [b]];
      connections := connections[b := connections[b] + [a]];
    }

    /** `ConnectBoth` guarded by the capacity test on both ends. */
    method ConnectBothChecked(e: ConnectTwo)
      requires 0 <= e.a < |connections| && 0 <= e.b < |connections|
      modifies this
      ensures connections == AppendChecked(old(connections), e)
    {
      if |connections[e.a]| < ConnectionNum && |connections[e.b]| < ConnectionNum {
        ConnectBoth(e);
      }
    }

    /** One fixed tick with the capacity test: propose, then apply with the
        test; the one-link bound holds after every tick. */
    method TickChecked(distSq: (int, int) -> real)
      requires LinkGraph(connections, ConnectionNum)
      modifies this
      ensures LinkGraph(connections, ConnectionNum)
      ensures connections == AppendAllChecked(old(connections), Proposed(old(connections), distSq))
    {
      var events := ConnectNearest(distSq);
      ProposedSpec(connections, distSq);
      HandleConnectionChecked(events);
    }

    /** One fixed tick: propose, then apply. */
    method Tick(distSq: (int, int) -> real)
      requires Valid()
      modifies this
      ensures Valid()
      ensures connections == AppendAll(old(connections), Proposed(old(connections), distSq))
    {
      var events := ConnectNearest(distSq);
      ProposedSpec(connections, distSq);
      HandleConnection(events);
    }
  }
}

/** Maximum bipartite matching by augmenting paths, as the unordered-elements
    matcher of the vendored Google Mock computes it.

    Left nodes are elements, right nodes are matchers.  A search that fails
    leaves behind a set of right nodes that is closed under the residual graph;
    the union of these sets is what later bounds every other matching. */
module BipartiteMatching {

  /** The connectivity matrix: `matched[ilhs][irhs]` says whether element
      `ilhs` satisfies matcher `irhs`. */
  datatype MatchMatrix = MatchMatrix(lhsSize: nat, rhsSize: nat, matched: seq<seq<bool>>) {
    ghost predicate Valid() {
      && |matched| == lhsSize
      && forall l :: 0 <= l < lhsSize ==> |matched[l]| == rhsSize
    }

    predicate HasEdge(l: int, r: int)
      requires Valid()
    {
      0 <= l < lhsSize && 0 <= r < rhsSize && matched[l][r]
    }
  }

  type Pair = (nat, nat)

  const UNUSED: int := -1

  // ----- What a matching is -----

  /** A set of edges no two of which share an end. */
  ghost predicate IsMatching(g: MatchMatrix, m: set<Pair>)
    requires g.Valid()
  {
    && (forall e :: e in m ==> g.HasEdge(e.0, e.1))
    && (forall e, f :: e in m && f in m && (e.0 == f.0 || e.1 == f.1) ==> e == f)
  }

  /** Every neighbour of left node `l` lies in `t`. */
  ghost predicate NeighboursIn(g: MatchMatrix, l: int, t: set<int>)
    requires g.Valid()
  {
    forall r :: g.HasEdge(l, r) ==> r in t
  }

  /** `t` is a set of matched right nodes, and the search cannot leave it:
      the partners of `t` have all their neighbours in `t`. */
  ghost predicate Closed(g: MatchMatrix, right: seq<int>, t: set<int>)
    requires g.Valid() && |right| == g.rhsSize
  {
    forall r :: r in t ==>
      0 <= r < g.rhsSize && right[r] != UNUSED && NeighboursIn(g, right[r], t)
  }

  /** `left` and `right` use only edges and refer to each other; right node
      `hole` is exempt, because a search below it is about to move its partner. */
  ghost predicate Linked(g: MatchMatrix, left: seq<int>, right: seq<int>, hole: int)
    requires g.Valid()
  {
    && |left| == g.lhsSize && |right| == g.rhsSize
    && (forall l :: 0 <= l < |left| && left[l] != UNUSED ==>
          g.HasEdge(l, left[l]) && right[left[l]] == l)
    && (forall r :: 0 <= r < |right| && right[r] != UNUSED ==>
          g.HasEdge(right[r], r) && (r != hole ==> left[right[r]] == r))
  }

  // ----- The state machine -----

  class MaxBipartiteMatchState {
    const graph: MatchMatrix
    var left: seq<int>
    var right: seq<int>

    ghost predicate Valid()
      reads this
    {
      graph.Valid() && Linked(graph, left, right, UNUSED)
    }

    constructor (g: MatchMatrix)
      requires g.Valid()
      ensures Valid() && graph == g
      ensures forall l :: 0 <= l < |left| ==> left[l] == UNUSED
      ensures forall r :: 0 <= r < |right| ==> right[r] == UNUSED
    {
      graph := g;
      left := seq(g.lhsSize, _ => UNUSED);
      right := seq(g.rhsSize, _ => UNUSED);
    }

    /** Depth-first search from `ilhs` for an unmatched right node.

        `closed` is any closed set of right nodes: a successful search neither
        starts below such a set nor changes the partner of one of its nodes.  A
        failed search changes nothing, and what it has newly marked is a closed
        set in the making: all marked nodes are matched to left nodes whose
        neighbours are marked. */
    method TryAugment(ilhs: nat, seen: array<bool>, ghost closed: set<int>) returns (found: bool)
      requires Valid() && ilhs < graph.lhsSize
      requires seen.Length == graph.rhsSize
      requires left[ilhs] != UNUSED ==> seen[left[ilhs]]
      requires Closed(graph, right, closed)
      modifies this, seen
      ensures Linked(graph, left, right, if found then old(left[ilhs]) else UNUSED)
      ensures forall r :: 0 <= r < |right| && old(seen[r]) ==> seen[r] && right[r] == old(right[r])
      ensures found ==> left[ilhs] != UNUSED && !old(seen[..])[left[ilhs]]
      ensures found ==> forall l :: 0 <= l < |left| && l != ilhs ==>
                          (left[l] == UNUSED <==> old(left[l]) == UNUSED)
      ensures found ==> !NeighboursIn(graph, ilhs, closed) && Closed(graph, right, closed)
      ensures !found ==> left == old(left) && right == old(right)
      ensures !found ==> forall r :: graph.HasEdge(ilhs, r) ==> seen[r]
      ensures !found ==> Explored(graph, right, old(seen[..]), seen[..])
      decreases Unseen(seen[..])
    {
      hide Closed, NeighboursIn, Explored;
      NothingExplored(graph, right, seen[..]);
      for irhs := 0 to graph.rhsSize
        invariant left == old(left) && right == old(right)
        invariant forall r :: 0 <= r < |right| && old(seen[r]) ==> seen[r]
        invariant forall r :: 0 <= r < irhs && graph.HasEdge(ilhs, r) ==> seen[r]
        invariant Explored(graph, right, old(seen[..]), seen[..])
      {
        if seen[irhs] {
          continue;
        }
        if !graph.HasEdge(ilhs, irhs) {
          continue;
        }
        MarkingShrinksUnseen(old(seen[..]), seen[..], irhs);
        ghost var before := seen[..];
        seen[irhs] := true;
        assert seen[..] == before[irhs := true];
        var free := right[irhs] == UNUSED;
        if !free {
          free := TryAugment(right[irhs], seen, closed);
        }
        if free {
          GivenOutsideClosed(graph, right, closed, irhs, ilhs);
          Reassigned(graph, left, right, ilhs, irhs);
          left := left[ilhs := irhs];
          right := right[irhs := ilhs];
          return true;
        }
        ExploredFurther(graph, right, old(seen[..]), before, seen[..], irhs);
      }
      return false;
    }

    /** Tries every left node once, then lists the pairs found in left order. */
    method Compute() returns (result: seq<Pair>)
      requires Valid()
      requires forall l :: 0 <= l < |left| ==> left[l] == UNUSED
      requires forall r :: 0 <= r < |right| ==> right[r] == UNUSED
      modifies this
      ensures Valid()
      ensures |PairSet(result)| == |result|
      ensures forall l, r :: (l, r) in result <==> 0 <= l < |left| && left[l] == r != UNUSED
      ensures IsMatching(graph, PairSet(result))
      ensures forall m :: IsMatching(graph, m) ==> |m| <= |result|
    {
      ghost var closed: set<int> := {};
      for ilhs := 0 to graph.lhsSize
        invariant Valid()
        invariant Closed(graph, right, closed)
        invariant forall l :: 0 <= l < ilhs && left[l] == UNUSED ==> NeighboursIn(graph, l, closed)
        invariant forall l :: ilhs <= l < |left| ==> left[l] == UNUSED
      {
        assert left[ilhs] == UNUSED;  // the check the source makes at run time
        var seen := new bool[graph.rhsSize](_ => false);
        var found := TryAugment(ilhs, seen, closed);
        if !found {
          closed := closed + set r | 0 <= r < graph.rhsSize && seen[r];
        }
      }
      result := [];
      for ilhs := 0 to |left|
        invariant forall l, r :: (l, r) in result <==> 0 <= l < ilhs && left[l] == r != UNUSED
        invariant |PairSet(result)| == |result|
        invariant forall e :: e in PairSet(result) <==> e in result
      {
        var irhs := left[ilhs];
        if irhs == UNUSED {
          continue;
        }
        assert PairSet(result + [(ilhs, irhs)]) == PairSet(result) + {(ilhs, irhs)};
        result := result + [(ilhs, irhs)];
      }
      forall m | IsMatching(graph, m)
        ensures |m| <= |result|
      {
        ClosedSetBoundsMatching(graph, left, right, closed, m, PairSet(result));
      }
    }
  }

  /** Each node marked in between is matched to a left node whose neighbours are marked. */
  ghost predicate Explored(g: MatchMatrix, right: seq<int>, before: seq<bool>, now: seq<bool>)
    requires g.Valid() && |right| == g.rhsSize == |before| == |now|
  {
    forall r :: 0 <= r < |right| && now[r] && !before[r] ==>
      right[r] != UNUSED && forall s :: g.HasEdge(right[r], s) ==> now[s]
  }

  lemma NothingExplored(g: MatchMatrix, right: seq<int>, seen: seq<bool>)
    requires g.Valid() && |right| == g.rhsSize == |seen|
    ensures Explored(g, right, seen, seen)
  {
  }

  lemma ExploredFurther(g: MatchMatrix, right: seq<int>, start: seq<bool>, before: seq<bool>, now: seq<bool>, r: nat)
    requires g.Valid() && |right| == g.rhsSize == |start| == |before| == |now| && r < |right| && right[r] != UNUSED
    requires Explored(g, right, start, before) && Explored(g, right, before[r := true], now)
    requires forall s :: 0 <= s < |now| && before[s] ==> now[s]
    requires forall s :: g.HasEdge(right[r], s) ==> now[s]
    ensures Explored(g, right, start, now)
  {
  }

  /** A right node that is free, or whose partner could move away, is in no closed set. */
  lemma GivenOutsideClosed(g: MatchMatrix, right: seq<int>, t: set<int>, irhs: nat, ilhs: nat)
    requires g.Valid() && |right| == g.rhsSize && g.HasEdge(ilhs, irhs) && Closed(g, right, t)
    requires right[irhs] == UNUSED || !NeighboursIn(g, right[irhs], t)
    ensures !NeighboursIn(g, ilhs, t) && Closed(g, right[irhs := ilhs], t)
  {
    assert irhs !in t;
    assert !NeighboursIn(g, ilhs, t);
    hide NeighboursIn;
  }

  /** The partner of right node `irhs` has moved away, so it can be given to `ilhs`. */
  lemma Reassigned(g: MatchMatrix, left: seq<int>, right: seq<int>, ilhs: nat, irhs: nat)
    requires g.Valid() && g.HasEdge(ilhs, irhs)
    requires Linked(g, left, right, irhs) || Linked(g, left, right, UNUSED)
    requires right[irhs] == UNUSED || left[right[irhs]] != irhs
    ensures Linked(g, left[ilhs := irhs], right[irhs := ilhs], left[ilhs])
  {
  }

  method FindMaxBipartiteMatching(g: MatchMatrix) returns (pairs: seq<Pair>)
    requires g.Valid()
    ensures |PairSet(pairs)| == |pairs| && IsMatching(g, PairSet(pairs))
    ensures forall m :: IsMatching(g, m) ==> |m| <= |pairs|
  {
    var state := new MaxBipartiteMatchState(g);
    pairs := state.Compute();
  }

  /** `pick[r]` is the element that matcher `r` gets: its own, and one it accepts. */
  ghost predicate PairsEveryMatcher(g: MatchMatrix, pick: seq<nat>)
    requires g.Valid()
  {
    && |pick| == g.rhsSize
    && (forall r :: 0 <= r < |pick| ==> g.HasEdge(pick[r], r))
    && (forall r, s :: 0 <= r < s < |pick| ==> pick[r] != pick[s])
  }

  /** The verdict; the explanation written to the listener is not modelled. */
  method FindPairing(matrix: MatchMatrix) returns (result: bool)
    requires matrix.Valid()
    ensures result <==> exists pick :: PairsEveryMatcher(matrix, pick)
  {
    var matches := FindMaxBipartiteMatching(matrix);
    var maxFlow := |matches|;
    result := maxFlow == matrix.rhsSize;
    FullMatchingIsPairing(matrix, PairSet(matches));
    if pick :| PairsEveryMatcher(matrix, pick) {
      MatchingNotLargerThanRhs(matrix, PairSet(matches));
      PairingIsFullMatching(matrix, pick);
    }
  }

  lemma MatchingNotLargerThanRhs(g: MatchMatrix, m: set<Pair>)
    requires g.Valid() && IsMatching(g, m)
    ensures |m| <= g.rhsSize
  {
    InjectionBoundsSize(m, Below(g.rhsSize), map e | e in m :: e.1);
  }

  ghost function Below(n: nat): (b: set<nat>)
    ensures |b| == n && forall r :: r in b <==> 0 <= r < n
  {
    if n == 0 then {} else Below(n - 1) + {n - 1}
  }

  lemma PairingIsFullMatching(g: MatchMatrix, pick: seq<nat>)
    requires g.Valid() && PairsEveryMatcher(g, pick)
    ensures exists m :: IsMatching(g, m) && |m| == g.rhsSize
  {
    PairsAreMatching(g, pick);
    PairsAreMany(pick);
    MatchingNotLargerThanRhs(g, PairsOf(pick));
    hide IsMatching, PairsOf;
    assert IsMatching(g, PairsOf(pick));
  }

  ghost function PairsOf(pick: seq<nat>): set<Pair> {
    set r | r in Below(|pick|) :: (pick[r], r)
  }

  lemma PairsAreMatching(g: MatchMatrix, pick: seq<nat>)
    requires g.Valid() && PairsEveryMatcher(g, pick)
    ensures IsMatching(g, PairsOf(pick))
  {
    hide MatchMatrix.Valid, MatchMatrix.HasEdge, Below;
  }

  lemma PairsAreMany(pick: seq<nat>)
    ensures |PairsOf(pick)| >= |pick|
  {
    var rights := Below(|pick|);
    InjectionBoundsSize(rights, PairsOf(pick), map r | r in rights :: (pick[r], r));
  }

  lemma FullMatchingUsesEveryRight(g: MatchMatrix, m: set<Pair>, r: nat) returns (l: nat)
    requires g.Valid() && IsMatching(g, m) && |m| == g.rhsSize && r < g.rhsSize
    ensures (l, r) in m
  {
    if i: nat :| (i, r) in m {
      l := i;
    } else {
      InjectionBoundsSize(m, Below(g.rhsSize) - {r}, map e | e in m :: e.1);
    }
  }

  lemma {:induction false} FullMatchingPicks(g: MatchMatrix, m: set<Pair>, n: nat) returns (pick: seq<nat>)
    requires g.Valid() && IsMatching(g, m) && |m| == g.rhsSize && n <= g.rhsSize
    ensures |pick| == n && forall r :: 0 <= r < n ==> (pick[r], r) in m
  {
    pick := [];
    if n > 0 {
      pick := FullMatchingPicks(g, m, n - 1);
      var l := FullMatchingUsesEveryRight(g, m, n - 1);
      pick := pick + [l];
    }
  }

  lemma FullMatchingIsPairing(g: MatchMatrix, m: set<Pair>)
    requires g.Valid() && IsMatching(g, m)
    ensures |m| == g.rhsSize ==> exists pick :: PairsEveryMatcher(g, pick)
  {
    if |m| == g.rhsSize {
      var pick := FullMatchingPicks(g, m, g.rhsSize);
      assert PairsEveryMatcher(g, pick);
    }
  }

  ghost function PairSet(pairs: seq<Pair>): set<Pair> {
    set e | e in pairs
  }

  // ----- Why one visit per left node is enough -----

  /** If every unmatched left node has all its neighbours in a closed set, no
      matching has more edges than the one at hand: an edge of `m` ending in the
      closed set is charged to the partner of that end, every other edge to its
      own left node. */
  lemma ClosedSetBoundsMatching(g: MatchMatrix, left: seq<int>, right: seq<int>, closed: set<int>,
                                m: set<Pair>, current: set<Pair>)
    requires g.Valid() && Linked(g, left, right, UNUSED) && Closed(g, right, closed)
    requires forall l :: 0 <= l < |left| && left[l] == UNUSED ==> NeighboursIn(g, l, closed)
    requires IsMatching(g, m)
    requires forall l, r :: (l, r) in current <==> 0 <= l < |left| && left[l] == r != UNUSED
    ensures |m| <= |current|
  {
    var charge := map e | e in m :: if e.1 in closed then (right[e.1], e.1) else (e.0, left[e.0]);
    InjectionBoundsSize(m, current, charge);
  }

  lemma {:induction false} InjectionBoundsSize<A, B>(a: set<A>, b: set<B>, f: map<A, B>)
    requires forall x :: x in a ==> x in f && f[x] in b
    requires forall x, y :: x in a && y in a && f[x] == f[y] ==> x == y
    ensures |a| <= |b|
  {
    if a != {} {
      var x :| x in a;
      InjectionBoundsSize(a - {x}, b - {f[x]}, f);
    }
  }

  // ----- Termination: every call marks another right node -----

  ghost function Unseen(seen: seq<bool>): nat {
    if seen == [] then 0 else Unseen(seen[1..]) + if seen[0] then 0 else 1
  }

  lemma {:induction false} MarkingShrinksUnseen(before: seq<bool>, now: seq<bool>, i: nat)
    requires |before| == |now| && i < |now| && !now[i]
    requires forall k :: 0 <= k < |now| && before[k] ==> now[k]
    ensures Unseen(now[i := true]) < Unseen(before)
  {
    if i == 0 {
      UnseenMonotone(before[1..], now[1..]);
      assert now[0 := true][1..] == now[1..];
    } else {
      MarkingShrinksUnseen(before[1..], now[1..], i - 1);
      assert now[i := true][1..] == now[1..][i - 1 := true];
    }
  }

  lemma {:induction false} UnseenMonotone(before: seq<bool>, now: seq<bool>)
    requires |before| == |now|
    requires forall k :: 0 <= k < |now| && before[k] ==> now[k]
    ensures Unseen(now) <= Unseen(before)
  {
    if before != [] {
      UnseenMonotone(before[1..], now[1..]);
    }
  }
}

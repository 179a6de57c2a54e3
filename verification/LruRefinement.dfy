/** The cache's time stamps implement least-recently-used replacement: every set mirrors
    a recency list, as long as the tick neither wraps nor is reset. */
module LruRefinement {
  import opened Words
  import opened CacheOps
  import opened CacheView
  import opened LruStack

  // ---- One set ----

  predicate WaysOf(ways: seq<Line>, order: seq<nat>) {
    forall p | 0 <= p < |order| :: order[p] < |ways|
  }

  predicate NewestToOldest(ways: seq<Line>, order: seq<nat>)
    requires WaysOf(ways, order)
  {
    forall p, q | 0 <= p < q < |order| :: ways[order[p]].lru > ways[order[q]].lru
  }

  /** The valid ways, newest stamp first. */
  ghost predicate Ranked(ways: seq<Line>, order: seq<nat>) {
    && NoDup(order) && WaysOf(ways, order) && NewestToOldest(ways, order)
    && (forall p | 0 <= p < |order| :: ways[order[p]].valid)
    && (forall w | 0 <= w < |ways| && ways[w].valid :: w in order)
  }

  function TagsOf(ways: seq<Line>, order: seq<nat>): (tags: seq<uint32>)
    requires WaysOf(ways, order)
    ensures |tags| == |order|
  {
    if order == [] then [] else [ways[order[0]].tag] + TagsOf(ways, order[1..])
  }

  lemma {:induction false} TagAt(ways: seq<Line>, order: seq<nat>, p: nat)
    requires WaysOf(ways, order) && p < |order|
    ensures TagsOf(ways, order)[p] == ways[order[p]].tag
  {
    if p > 0 {
      TagAt(ways, order[1..], p - 1);
    }
  }

  lemma {:induction false} SameTags(ways: seq<Line>, ways': seq<Line>, order: seq<nat>)
    requires WaysOf(ways, order) && |ways| == |ways'|
    requires forall p | 0 <= p < |order| :: ways[order[p]].tag == ways'[order[p]].tag
    ensures TagsOf(ways, order) == TagsOf(ways', order)
  {
    if order != [] {
      SameTags(ways, ways', order[1..]);
    }
  }

  lemma {:induction false} TagsOfPrefix(ways: seq<Line>, order: seq<nat>, n: nat)
    requires WaysOf(ways, order) && n <= |order|
    ensures TagsOf(ways, order[..n]) == TagsOf(ways, order)[..n]
  {
    if n > 0 {
      TagsOfPrefix(ways, order[1..], n - 1);
      assert order[..n][1..] == order[1..][..n - 1];
    }
  }

  ghost predicate MirrorsBy(ways: seq<Line>, order: seq<nat>, l: seq<uint32>) {
    Ranked(ways, order) && TagsOf(ways, order) == l
  }

  /** The set holds the listed tags, and its stamps rank them as listed. */
  ghost predicate Mirrors(ways: seq<Line>, l: seq<uint32>) {
    exists order :: MirrorsBy(ways, order, l)
  }

  lemma ListedIffHeld(ways: seq<Line>, l: seq<uint32>, tag: uint32)
    requires Mirrors(ways, l)
    ensures tag in l <==> FindLine(ways, tag) >= 0
  {
    var order :| MirrorsBy(ways, order, l);
    if tag in l {
      var p :| 0 <= p < |l| && l[p] == tag;
      TagAt(ways, order, p);
      assert Holds(ways[order[p]], tag);
    }
    var w := FindLine(ways, tag);
    if w >= 0 {
      var p :| 0 <= p < |order| && order[p] == w;
      TagAt(ways, order, p);
    }
  }

  /** The list is shorter than the set exactly while some way is invalid. */
  lemma ListLength(ways: seq<Line>, order: seq<nat>)
    requires Ranked(ways, order)
    ensures |order| <= |ways|
    ensures |order| == |ways| <==> forall w | 0 <= w < |ways| :: ways[w].valid
  {
    NoDupSize(order);
    var all := Below(|ways|);
    assert Elements(order) <= all;
    SubsetSize(Elements(order), all);
    forall w | 0 <= w < |ways| && |order| == |ways| ensures ways[w].valid {
      assert w in all;
    }
    if forall w | 0 <= w < |ways| :: ways[w].valid {
      assert forall w | w in all :: w in order;
      assert Elements(order) == all;
    }
  }

  /** Removing a way from the order removes its tag from the list. */
  lemma {:induction false} TagsWithout(ways: seq<Line>, order: seq<nat>, w: nat)
    requires WaysOf(ways, order) && w < |ways|
    requires forall p | 0 <= p < |order| && order[p] != w :: ways[order[p]].tag != ways[w].tag
    ensures WaysOf(ways, Without(order, w))
    ensures TagsOf(ways, Without(order, w)) == Without(TagsOf(ways, order), ways[w].tag)
  {
    if order != [] {
      TagsWithout(ways, order[1..], w);
      if order[0] != w {
        var rest := Without(order[1..], w);
        assert ([order[0]] + rest)[1..] == rest;
      }
    }
  }

  /** Every way left is older than the first. */
  lemma OlderThanFirst(ways: seq<Line>, order: seq<nat>, w: nat, rest: seq<nat>, p: nat)
    requires order != [] && WaysOf(ways, order) && NewestToOldest(ways, order)
    requires rest == Without(order[1..], w) && p < |rest|
    ensures rest[p] < |ways| && ways[order[0]].lru > ways[rest[p]].lru
  {
    assert rest[p] in order[1..];
    var q :| 0 <= q < |order[1..]| && order[1..][q] == rest[p];
    assert order[q + 1] == rest[p];
  }

  lemma ConsKeepsOrder(ways: seq<Line>, x: nat, rest: seq<nat>)
    requires x < |ways| && WaysOf(ways, rest) && NewestToOldest(ways, rest)
    requires forall p | 0 <= p < |rest| :: ways[x].lru > ways[rest[p]].lru
    ensures WaysOf(ways, [x] + rest) && NewestToOldest(ways, [x] + rest)
  {
  }

  lemma {:induction false} WithoutKeepsOrder(ways: seq<Line>, order: seq<nat>, w: nat)
    requires WaysOf(ways, order) && NewestToOldest(ways, order)
    ensures WaysOf(ways, Without(order, w)) && NewestToOldest(ways, Without(order, w))
  {
    if order != [] {
      var rest := Without(order[1..], w);
      WithoutKeepsOrder(ways, order[1..], w);
      forall p | 0 <= p < |rest|
        ensures ways[order[0]].lru > ways[rest[p]].lru
      {
        OlderThanFirst(ways, order, w, rest, p);
      }
      ConsKeepsOrder(ways, order[0], rest);
    }
  }

  /** The ways other than w, ranked, all older than the given stamp. */
  ghost predicate RankedBefore(ways: seq<Line>, rest: seq<nat>, w: nat, stamp: uint32) {
    && NoDup(rest) && w !in rest && WaysOf(ways, rest) && NewestToOldest(ways, rest)
    && (forall p | 0 <= p < |rest| :: ways[rest[p]].valid && ways[rest[p]].lru < stamp)
    && (forall v | 0 <= v < |ways| && ways[v].valid && v != w :: v in rest)
  }

  /** Replacing way w by a line with the newest stamp puts it in front of the other ways. */
  lemma NewestFirst(ways: seq<Line>, rest: seq<nat>, w: nat, line: Line)
    requires w < |ways| && line.valid && RankedBefore(ways, rest, w, line.lru)
    ensures MirrorsBy(ways[w := line], [w] + rest, [line.tag] + TagsOf(ways, rest))
  {
    var ways', order' := ways[w := line], [w] + rest;
    forall p | 0 <= p < |rest|
      ensures rest[p] != w
    {
      assert rest[p] in rest;
    }
    SameTags(ways, ways', rest);
    assert order'[0] == w && order'[1..] == rest;
    NewestRanked(ways, rest, w, line);
  }

  lemma NewestRanked(ways: seq<Line>, rest: seq<nat>, w: nat, line: Line)
    requires w < |ways| && line.valid && RankedBefore(ways, rest, w, line.lru)
    requires forall p | 0 <= p < |rest| :: rest[p] != w
    ensures Ranked(ways[w := line], [w] + rest)
  {
    var ways', order' := ways[w := line], [w] + rest;
    forall v | 0 <= v < |ways'| && ways'[v].valid ensures v in order' {
      if v == w {
        assert order'[0] == w;
      } else {
        assert v in rest;
      }
    }
  }

  lemma WithoutRanked(ways: seq<Line>, order: seq<nat>, w: nat, stamp: uint32)
    requires Ranked(ways, order) && w < |ways|
    requires forall v | 0 <= v < |ways| && ways[v].valid :: ways[v].lru < stamp
    ensures RankedBefore(ways, Without(order, w), w, stamp)
  {
    WithoutFacts(order, w);
    WithoutKeepsOrder(ways, order, w);
    var rest := Without(order, w);
    forall p | 0 <= p < |rest|
      ensures ways[rest[p]].valid
    {
      assert rest[p] in order;
    }
  }

  lemma DistinctTags(ways: seq<Line>, order: seq<nat>, w: nat)
    requires UniqueTags(ways) && Ranked(ways, order) && w < |ways| && ways[w].valid
    ensures forall p | 0 <= p < |order| && order[p] != w :: ways[order[p]].tag != ways[w].tag
  {
  }

  /** A hit moves the tag to the front. */
  lemma HitMirrors(ways: seq<Line>, l: seq<uint32>, w: nat, line: Line)
    requires UniqueTags(ways) && Mirrors(ways, l) && w < |ways| && ways[w].valid
    requires line.valid && line.tag == ways[w].tag
    requires forall v | 0 <= v < |ways| && ways[v].valid :: ways[v].lru < line.lru
    ensures Mirrors(ways[w := line], [line.tag] + Without(l, line.tag))
  {
    var order :| MirrorsBy(ways, order, l);
    DistinctTags(ways, order, w);
    TagsWithout(ways, order, w);
    WithoutRanked(ways, order, w, line.lru);
    NewestFirst(ways, Without(order, w), w, line);
  }

  lemma StampsOrder(ways: seq<Line>, order: seq<nat>, p: nat, q: nat)
    requires WaysOf(ways, order) && NewestToOldest(ways, order) && p <= q < |order|
    ensures ways[order[p]].lru >= ways[order[q]].lru
    ensures ways[order[p]].lru == ways[order[q]].lru ==> p == q
  {
  }

  /** In a full set the victim is the last ranked way. */
  lemma VictimIsLast(ways: seq<Line>, order: seq<nat>)
    requires |ways| > 0 && Ranked(ways, order) && ways[VictimWay(ways)].valid
    ensures order != [] && order[|order| - 1] == VictimWay(ways)
  {
    var v := VictimWay(ways);
    assert v in order;
    var p :| 0 <= p < |order| && order[p] == v;
    StampsOrder(ways, order, p, |order| - 1);
  }

  lemma AllButLast(ways: seq<Line>, order: seq<nat>, stamp: uint32)
    requires Ranked(ways, order) && order != []
    requires forall v | 0 <= v < |ways| && ways[v].valid :: ways[v].lru < stamp
    ensures RankedBefore(ways, order[..|order| - 1], order[|order| - 1], stamp)
  {
    var last := |order| - 1;
    forall u | 0 <= u < |ways| && ways[u].valid && u != order[last] ensures u in order[..last] {
      assert u in order;
      var q :| 0 <= q < |order| && order[q] == u;
      assert order[..last][q] == u;
    }
  }

  lemma FillInvalid(ways: seq<Line>, order: seq<nat>, v: nat, line: Line)
    requires Ranked(ways, order) && v < |ways| && !ways[v].valid && line.valid
    requires forall u | 0 <= u < |ways| && ways[u].valid :: ways[u].lru < line.lru
    ensures MirrorsBy(ways[v := line], [v] + order, [line.tag] + TagsOf(ways, order))
  {
    assert v !in order;
    NewestFirst(ways, order, v, line);
  }

  lemma FillFull(ways: seq<Line>, order: seq<nat>, line: Line)
    requires |ways| > 0 && Ranked(ways, order) && ways[VictimWay(ways)].valid && line.valid
    requires forall u | 0 <= u < |ways| && ways[u].valid :: ways[u].lru < line.lru
    ensures order != []
    ensures MirrorsBy(ways[VictimWay(ways) := line], [VictimWay(ways)] + order[..|order| - 1],
                      [line.tag] + TagsOf(ways, order)[..|order| - 1])
  {
    VictimIsLast(ways, order);
    AllButLast(ways, order, line.lru);
    NewestFirst(ways, order[..|order| - 1], VictimWay(ways), line);
    TagsOfPrefix(ways, order, |order| - 1);
  }

  lemma FullIff(ways: seq<Line>, order: seq<nat>)
    requires |ways| > 0 && Ranked(ways, order)
    ensures |order| <= |ways|
    ensures |order| == |ways| <==> ways[VictimWay(ways)].valid
  {
    ListLength(ways, order);
  }

  /** A fill of the victim puts the new tag in front and drops the last one if the set is full. */
  lemma FillMirrors(ways: seq<Line>, l: seq<uint32>, line: Line)
    requires |ways| > 0 && Mirrors(ways, l) && line.valid
    requires forall v | 0 <= v < |ways| && ways[v].valid :: ways[v].lru < line.lru
    ensures Mirrors(ways[VictimWay(ways) := line],
                    [line.tag] + if |l| < |ways| then l else l[..|ways| - 1])
  {
    var order :| MirrorsBy(ways, order, l);
    FillMirrorsBy(ways, order, line);
  }

  lemma FillMirrorsBy(ways: seq<Line>, order: seq<nat>, line: Line)
    requires |ways| > 0 && Ranked(ways, order) && line.valid
    requires forall v | 0 <= v < |ways| && ways[v].valid :: ways[v].lru < line.lru
    ensures var l := TagsOf(ways, order);
            Mirrors(ways[VictimWay(ways) := line], [line.tag] + if |l| < |ways| then l else l[..|ways| - 1])
  {
    FullIff(ways, order);
    var v, l := VictimWay(ways), TagsOf(ways, order);
    if |order| < |ways| {
      FillInvalid(ways, order, v, line);
      SomeOrder(ways[v := line], [v] + order, [line.tag] + l);
    } else {
      FillFull(ways, order, line);
      SomeOrder(ways[v := line], [v] + order[..|order| - 1], [line.tag] + l[..|order| - 1]);
    }
  }

  lemma SomeOrder(ways: seq<Line>, order: seq<nat>, l: seq<uint32>)
    requires MirrorsBy(ways, order, l)
    ensures Mirrors(ways, l)
  {
  }
}

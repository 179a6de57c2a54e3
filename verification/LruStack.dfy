/** Least-recently-used replacement on recency lists, newest first, with the cache's
    policy: reads allocate, write misses do not, and write hits count as touches. */
module LruStack {
  import opened Words

  datatype Ref = Ref(write: bool, tag: uint32)

  function Without<T(==,!new)>(l: seq<T>, x: T): (r: seq<T>)
    ensures |r| <= |l|
    ensures forall y :: y in r <==> y in l && y != x
  {
    if l == [] then [] else if l[0] == x then Without(l[1..], x) else [l[0]] + Without(l[1..], x)
  }

  /** One reference to a set of the given number of ways. */
  function StackStep(l: seq<uint32>, ways: nat, r: Ref): seq<uint32>
    requires ways > 0
  {
    if r.tag in l then [r.tag] + Without(l, r.tag)
    else if r.write then l
    else [r.tag] + if |l| < ways then l else l[..ways - 1]
  }

  function Stack(ways: nat, refs: seq<Ref>): seq<uint32>
    requires ways > 0
  {
    if refs == [] then [] else StackStep(Stack(ways, refs[..|refs| - 1]), ways, refs[|refs| - 1])
  }

  lemma {:induction false} WithoutFacts<T(!new)>(l: seq<T>, x: T)
    requires NoDup(l)
    ensures NoDup(Without(l, x))
    ensures x in l ==> |Without(l, x)| == |l| - 1
    ensures x !in l ==> Without(l, x) == l
  {
    if l != [] {
      WithoutFacts(l[1..], x);
      assert l == [l[0]] + l[1..] && l[0] !in l[1..];
    }
  }

  lemma StepShape(l: seq<uint32>, ways: nat, r: Ref)
    requires ways > 0 && NoDup(l) && |l| <= ways
    ensures NoDup(StackStep(l, ways, r)) && |StackStep(l, ways, r)| <= ways
  {
    WithoutFacts(l, r.tag);
  }

  lemma {:induction false} StackShape(ways: nat, refs: seq<Ref>)
    requires ways > 0
    ensures NoDup(Stack(ways, refs)) && |Stack(ways, refs)| <= ways
  {
    if refs != [] {
      StackShape(ways, refs[..|refs| - 1]);
      StepShape(Stack(ways, refs[..|refs| - 1]), ways, refs[|refs| - 1]);
    }
  }

  // ---- Inclusion ----

  /** a is b with some elements left out. */
  predicate Subsequence(a: seq<uint32>, b: seq<uint32>) {
    if a == [] then true
    else if b == [] then false
    else if a[0] == b[0] then Subsequence(a[1..], b[1..])
    else Subsequence(a, b[1..])
  }

  lemma {:induction false} SubsequenceIncluded(a: seq<uint32>, b: seq<uint32>)
    requires Subsequence(a, b)
    ensures |a| <= |b| && forall x :: x in a ==> x in b
    ensures |a| == |b| ==> a == b
    decreases b
  {
    if a != [] {
      assert a == [a[0]] + a[1..] && b == [b[0]] + b[1..];
      if a[0] == b[0] {
        SubsequenceIncluded(a[1..], b[1..]);
      } else {
        SubsequenceIncluded(a, b[1..]);
      }
    }
  }

  /** Dropping the last element of a keeps a subsequence, also when b drops its last. */
  lemma {:induction false} SubsequenceDropLast(a: seq<uint32>, b: seq<uint32>)
    requires Subsequence(a, b) && a != []
    ensures b != [] && Subsequence(a[..|a| - 1], b) && Subsequence(a[..|a| - 1], b[..|b| - 1])
    decreases b
  {
    var a', b' := a[..|a| - 1], b[..|b| - 1];
    if a[0] == b[0] {
      if |a| > 1 {
        SubsequenceDropLast(a[1..], b[1..]);
        assert a'[1..] == a[1..][..|a[1..]| - 1];
        assert b'[1..] == b[1..][..|b[1..]| - 1];
      }
    } else {
      SubsequenceDropLast(a, b[1..]);
      assert b'[1..] == b[1..][..|b[1..]| - 1];
    }
  }

  /** Removing x from b, and from a as well if a has it, keeps a subsequence. */
  lemma {:induction false} SubsequenceWithout(a: seq<uint32>, b: seq<uint32>, x: uint32)
    requires Subsequence(a, b) && NoDup(b)
    ensures Subsequence(Without(a, x), Without(b, x))
    decreases b
  {
    if a == [] {
    } else {
      assert a == [a[0]] + a[1..] && b == [b[0]] + b[1..];
      if a[0] == b[0] {
        SubsequenceWithout(a[1..], b[1..], x);
        if b[0] != x {
          assert ([a[0]] + Without(a[1..], x))[1..] == Without(a[1..], x);
          assert ([b[0]] + Without(b[1..], x))[1..] == Without(b[1..], x);
        }
      } else {
        SubsequenceWithout(a, b[1..], x);
        if b[0] != x {
          SubsequenceSkip(Without(a, x), b[0], Without(b[1..], x));
        }
      }
    }
  }

  lemma SubsequenceSkip(a: seq<uint32>, y: uint32, b: seq<uint32>)
    requires Subsequence(a, b) && y !in b
    ensures Subsequence(a, [y] + b)
  {
    assert ([y] + b)[1..] == b;
    SubsequenceIncluded(a, b);
    if a != [] {
      assert a[0] in a;
    }
  }

  lemma SubsequenceFront(x: uint32, a: seq<uint32>, b: seq<uint32>)
    requires Subsequence(a, b)
    ensures Subsequence([x] + a, [x] + b)
  {
    assert ([x] + a)[1..] == a && ([x] + b)[1..] == b;
  }

  /** What holds between a small and a large set on the same trace: the small list is a
      subsequence of the large one, and it is full unless the two are equally long. */
  ghost predicate Included(a: seq<uint32>, ways: nat, b: seq<uint32>) {
    Subsequence(a, b) && NoDup(a) && NoDup(b) && |a| <= ways && (|a| == ways || |a| == |b|)
  }

  lemma InclusionStep(a: seq<uint32>, ways: nat, b: seq<uint32>, ways': nat, r: Ref)
    requires 0 < ways <= ways' && Included(a, ways, b) && |b| <= ways'
    ensures Included(StackStep(a, ways, r), ways, StackStep(b, ways', r))
    ensures r.tag !in b ==> r.tag !in a
  {
    var x := r.tag;
    StepShape(a, ways, r);
    StepShape(b, ways', r);
    SubsequenceIncluded(a, b);
    WithoutFacts(a, x);
    WithoutFacts(b, x);
    if x in a {
      SubsequenceWithout(a, b, x);
      SubsequenceFront(x, Without(a, x), Without(b, x));
    } else if x in b {
      SubsequenceWithout(a, b, x);
      if r.write {
        SubsequenceSkip(a, x, Without(b, x));
      } else {
        assert |a| == ways;
        SubsequenceDropLast(a, Without(b, x));
        SubsequenceFront(x, a[..ways - 1], Without(b, x));
      }
    } else if !r.write {
      if |a| < ways {
        SubsequenceFront(x, a, b);
      } else {
        SubsequenceDropLast(a, b);
        if |b| < ways' {
          SubsequenceFront(x, a[..ways - 1], b);
        } else {
          SubsequenceFront(x, a[..ways - 1], b[..ways' - 1]);
        }
      }
    }
  }

  // ---- Residency ----

  /** The reference touches a line: a hit, or a read that allocates. */
  predicate Touches(ways: nat, before: seq<Ref>, r: Ref)
    requires ways > 0
  {
    r.tag in Stack(ways, before) || !r.write
  }

  /** Some reference has touched the line. */
  predicate EverTouched(ways: nat, refs: seq<Ref>, x: uint32)
    requires ways > 0
  {
    if refs == [] then false else
      var before, r := refs[..|refs| - 1], refs[|refs| - 1];
      (Touches(ways, before, r) && r.tag == x) || EverTouched(ways, before, x)
  }

  /** The distinct other lines touched since x was last touched. */
  function TouchedSince(ways: nat, refs: seq<Ref>, x: uint32): set<uint32>
    requires ways > 0
  {
    if refs == [] then {} else
      var before, r := refs[..|refs| - 1], refs[|refs| - 1];
      if !Touches(ways, before, r) then TouchedSince(ways, before, x)
      else if r.tag == x then {}
      else TouchedSince(ways, before, x) + {r.tag}
  }

  /** The lines in front of a resident line are those touched since its last touch; a line
      that was touched and is gone has seen as many as there are ways. */
  ghost predicate Explained(ways: nat, refs: seq<Ref>, x: uint32)
    requires ways > 0
  {
    var l := Stack(ways, refs);
    && (forall p | 0 <= p < |l| && l[p] == x :: TouchedSince(ways, refs, x) == Elements(l[..p]))
    && (EverTouched(ways, refs, x) && x !in l ==> |TouchedSince(ways, refs, x)| >= ways)
    && (x in l ==> EverTouched(ways, refs, x))
  }

  /** Where an element of l stands after another is removed, and what stands before it. */
  lemma {:induction false} WithoutPrefix(l: seq<uint32>, y: uint32, p: nat) returns (m: nat)
    requires NoDup(l) && p < |l| && l[p] != y
    ensures m < |Without(l, y)| && Without(l, y)[m] == l[p]
    ensures Elements(Without(l, y)[..m]) == Elements(l[..p]) - {y}
  {
    if p == 0 {
      m := 0;
    } else {
      var n := WithoutPrefix(l[1..], y, p - 1);
      assert l[..p] == [l[0]] + l[1..][..p - 1];
      if l[0] == y {
        m := n;
        assert y !in l[1..];
      } else {
        m := n + 1;
        assert Without(l, y)[..m] == [l[0]] + Without(l[1..], y)[..n];
        assert Elements(Without(l, y)[..m]) == {l[0]} + Elements(Without(l[1..], y)[..n]);
      }
      assert Elements(l[..p]) == {l[0]} + Elements(l[1..][..p - 1]);
    }
  }

  lemma UniquePosition(l: seq<uint32>, p: nat, q: nat)
    requires NoDup(l) && p < |l| && q < |l| && l[p] == l[q]
    ensures p == q
  {
  }

  /** A touch of y moves x one place back, or keeps it, but always puts y in front of it. */
  lemma TouchMoves(l: seq<uint32>, ways: nat, r: Ref, p: nat) returns (m: nat)
    requires ways > 0 && NoDup(l) && |l| <= ways && p < |l| && l[p] != r.tag
    requires r.tag in l || !r.write
    requires r.tag in l || p < ways - 1
    ensures var l' := StackStep(l, ways, r);
            m < |l'| && l'[m] == l[p] && Elements(l'[..m]) == Elements(l[..p]) + {r.tag}
  {
    var y, l' := r.tag, StackStep(l, ways, r);
    if y in l {
      var n := WithoutPrefix(l, y, p);
      m := n + 1;
      assert l'[..m] == [y] + Without(l, y)[..n];
      assert Elements(l'[..m]) == {y} + Elements(Without(l, y)[..n]);
    } else {
      m := p + 1;
      assert l'[..m] == [y] + l[..p];
      assert Elements(l'[..m]) == {y} + Elements(l[..p]);
    }
  }

  lemma ResidentExplained(ways: nat, before: seq<Ref>, r: Ref, x: uint32, p: nat)
    requires ways > 0 && x != r.tag && Touches(ways, before, r)
    requires p < |Stack(ways, before)| && Stack(ways, before)[p] == x && Explained(ways, before, x)
    ensures Explained(ways, before + [r], x)
  {
    var refs := before + [r];
    assert refs[..|refs| - 1] == before;
    var l, l' := Stack(ways, before), Stack(ways, refs);
    StackShape(ways, before);
    StackShape(ways, refs);
    if r.tag in l || p < ways - 1 {
      var m := TouchMoves(l, ways, r, p);
      forall q | 0 <= q < |l'| && l'[q] == x
        ensures TouchedSince(ways, refs, x) == Elements(l'[..q])
      {
        UniquePosition(l', m, q);
      }
    } else {
      NoDupSize(l[..p]);
      assert forall z :: z in Elements(l[..p]) ==> z in l;
      assert l' == [r.tag] + l[..p];
      assert x !in l[..p];
    }
  }

  lemma {:induction false} StackExplains(ways: nat, refs: seq<Ref>, x: uint32)
    requires ways > 0
    ensures Explained(ways, refs, x)
  {
    if refs != [] {
      var before, r := refs[..|refs| - 1], refs[|refs| - 1];
      assert refs == before + [r];
      StackExplains(ways, before, x);
      var l := Stack(ways, before);
      StackShape(ways, before);
      StackShape(ways, refs);
      if Touches(ways, before, r) {
        if r.tag == x {
          assert Stack(ways, refs)[0] == x;
          assert Elements(Stack(ways, refs)[..0]) == {};
        } else if x in l {
          var p :| 0 <= p < |l| && l[p] == x;
          ResidentExplained(ways, before, r, x, p);
        } else {
          SubsetSize(TouchedSince(ways, before, x), TouchedSince(ways, refs, x));
        }
      }
    }
  }

  /** A line that was ever touched is resident exactly while fewer distinct other lines of
      its set than there are ways were read or hit since its last touch. */
  lemma ResidentIff(ways: nat, refs: seq<Ref>, x: uint32)
    requires ways > 0 && EverTouched(ways, refs, x)
    ensures x in Stack(ways, refs) <==> |TouchedSince(ways, refs, x)| < ways
  {
    StackExplains(ways, refs, x);
    StackShape(ways, refs);
    var l := Stack(ways, refs);
    if x in l {
      var p :| 0 <= p < |l| && l[p] == x;
      NoDupSize(l[..p]);
    }
  }
}

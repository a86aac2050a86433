/** The whole trimming pass over a list with one region laid over it, case by case along the list. */
module RegionPasses {
  import opened MemoryRegions
  import opened RegionOverlay

  /** The pass leaves n: disjoint exactly without a clash, and then with the higher-ranked type at every address. */
  ghost predicate Outcome(n: seq<Region>, lo: nat, r: Region, t: seq<Region>, clash: bool) {
    && n != [] && n[0].location == lo && NonEmpty(n) && (SortedDisjoint(n) <==> !clash)
    && (!clash ==> forall x :: At(n, x) == Laid(r, t, x))
  }

  /** The pass from |pre| on turns s into n, and k is the most places it needs on the way. */
  ghost predicate Passes(pre: seq<Region>, s: seq<Region>, n: seq<Region>, k: nat) {
    TrimAll(pre + s, |pre|) == pre + n && Peak(pre + s, |pre|) == |pre| + k
  }

  lemma PassEnd(pre: seq<Region>, s: seq<Region>)
    requires |s| <= 1
    ensures Passes(pre, s, s, |s|)
  {
  }

  lemma PassMerge(pre: seq<Region>, a: Region, b: Region, t: seq<Region>, u: Region, n: seq<Region>, k: nat)
    requires Resolve(a, b) == Resolution([u], [], 0) && Passes(pre, [u] + t, n, k)
    ensures Passes(pre, [a, b] + t, n, Max(2 + |t|, k))
  {
    hide Resolve, TrimAll, Peak;
    StepMerge(pre, a, b, t, u);
    Assoc(pre, [a, b], t);
    Assoc(pre, [u], t);
  }

  lemma PassAdvance(pre: seq<Region>, a: Region, b: Region, t: seq<Region>, c: Region, d: Region, n: seq<Region>,
      k: nat)
    requires Resolve(a, b) == Resolution([c, d], [], 1) && Passes(pre + [c], [d] + t, n, k)
    ensures Passes(pre, [a, b] + t, [c] + n, k + 1)
  {
    hide Resolve, TrimAll, Peak;
    StepAdvance(pre, a, b, t, c, d);
    Assoc(pre, [a, b], t);
    Assoc(pre + [c], [d], t);
    Assoc(pre, [c], n);
  }

  /** The rest is inserted behind c and d, and the pass goes on behind them. */
  lemma PassSplit(pre: seq<Region>, a: Region, b: Region, t: seq<Region>, mid: seq<Region>, rest: Region,
                  c: Region, d: Region, s: seq<Region>, n: seq<Region>, k: nat)
    requires Resolve(a, b) == Resolution(mid, [rest], 2) && (forall e :: e in pre + mid ==> e.location < rest.location)
    requires mid + Insert(t, rest) == [c, d] + s && Passes(pre + [c, d], s, n, k)
    ensures Passes(pre, [a, b] + t, [c, d] + n, k + 2)
  {
    hide Resolve, TrimAll, Peak, Insert;
    StepSplit(pre, a, b, t, mid, rest);
    Assoc(pre, [a, b], t);
    Assoc(pre, mid, Insert(t, rest));
    Assoc(pre, [c, d], s);
    Assoc(pre, [c, d], n);
  }

  lemma Assoc(a: seq<Region>, b: seq<Region>, c: seq<Region>)
    ensures a + b + c == a + (b + c)
  {
  }

  /** Nothing overlaps: touching regions of one type are joined and nothing else happens. */
  lemma {:induction false} DoneRun(pre: seq<Region>, t: seq<Region>) returns (n: seq<Region>)
    requires Clean(t)
    ensures Passes(pre, t, n, |t|) && Clean(n) && |n| <= |t| && (t == [] <==> n == [])
    ensures t != [] ==> n[0].location == t[0].location
    ensures forall x :: At(n, x) == At(t, x)
    decreases |t|
  {
    hide Passes, Resolve, At;
    if |t| <= 1 {
      PassEnd(pre, t);
      n := t;
    } else {
      var a, b, u := t[0], t[1], t[2..];
      CleanTail(t);
      CleanTail(t[1..]);
      assert t == [a, b] + u && t[1..] == [b] + u;
      DoneStep(a, b);
      if a.kind == b.kind && a.End() == b.location {
        JoinedClean(a, b, u);
        n := DoneRun(pre, [Union(a, b)] + u);
        PassMerge(pre, a, b, u, Union(a, b), n, 1 + |u|);
        forall x ensures At(n, x) == At(t, x) {
          JoinedAt(a, b, u, x);
        }
      } else {
        n := DoneRun(pre + [a], [b] + u);
        PassAdvance(pre, a, b, u, a, b, n, 1 + |u|);
        CleanCons(a, n);
        forall x ensures At([a] + n, x) == At(t, x) {
          AtCons(a, n, x);
          AtCons(a, [b] + u, x);
          assert t == [a] + ([b] + u);
        }
        n := [a] + n;
      }
    }
  }

  lemma DoneStep(a: Region, b: Region)
    requires a.size > 0 && b.size > 0 && a.End() <= b.location
    ensures Resolve(a, b) == if a.kind == b.kind && a.End() == b.location
      then Resolution([Union(a, b)], [], 0) else Resolution([a, b], [], 1)
  {
  }

  lemma JoinedClean(a: Region, b: Region, u: seq<Region>)
    requires Clean([a, b] + u) && a.End() == b.location
    ensures Clean([Union(a, b)] + u) && Union(a, b).location == a.location
  {
    var t := [a, b] + u;
    assert t[0] == a && t[1] == b && t[2..] == u;
    CleanTail(t);
    CleanTail(t[1..]);
    assert t[1..][1..] == u;
    CleanCons(Union(a, b), u);
  }

  lemma JoinedAt(a: Region, b: Region, u: seq<Region>, x: nat)
    requires a.kind == b.kind && a.End() == b.location
    ensures At([Union(a, b)] + u, x) == At([a, b] + u, x)
  {
    AtCons(Union(a, b), u, x);
    AtCons(b, u, x);
    AtCons(a, [b] + u, x);
    assert [a, b] + u == [a] + ([b] + u);
  }

  /** x is in c, or else as r laid over t says. */
  ghost function Before(c: Region, r: Region, t: seq<Region>, x: nat): Maybe {
    if c.Holds(x) then Just(c.kind) else Laid(r, t, x)
  }

  ghost predicate SameLaid(q: Region, u: seq<Region>, r: Region, t: seq<Region>, x: nat) {
    Laid(q, u, x) == Laid(r, t, x)
  }

  lemma OutcomeSame(n: seq<Region>, lo: nat, q: Region, u: seq<Region>, r: Region, t: seq<Region>, clash: bool,
      was: bool)
    requires Outcome(n, lo, q, u, was) && was == clash && forall x :: SameLaid(q, u, r, t, x)
    ensures Outcome(n, lo, r, t, clash)
  {
    hide Laid;
    forall x ensures !clash ==> At(n, x) == Laid(r, t, x) {
      assert SameLaid(q, u, r, t, x);
    }
  }

  ghost predicate SameBefore(c: Region, q: Region, u: seq<Region>, r: Region, t: seq<Region>, x: nat) {
    Before(c, q, u, x) == Laid(r, t, x)
  }

  lemma OutcomeCons(c: Region, n: seq<Region>, lo: nat, q: Region, u: seq<Region>, r: Region, t: seq<Region>,
      clash: bool, was: bool)
    requires Outcome(n, lo, q, u, was) && was == clash && c.size > 0 && c.End() <= lo
    requires forall x :: SameBefore(c, q, u, r, t, x)
    ensures Outcome([c] + n, c.location, r, t, clash)
  {
    hide Laid;
    CleanCons(c, n);
    forall x ensures !clash ==> At([c] + n, x) == Laid(r, t, x) {
      AtCons(c, n, x);
      assert SameBefore(c, q, u, r, t, x);
    }
  }

  ghost predicate SameAt(u: seq<Region>, r: Region, t: seq<Region>, x: nat) {
    At(u, x) == Laid(r, t, x)
  }

  /** A clean list that already has the right types needs no more. */
  lemma OutcomeDone(n: seq<Region>, u: seq<Region>, r: Region, t: seq<Region>)
    requires Clean(n) && n != [] && (forall x :: At(n, x) == At(u, x)) && forall x :: SameAt(u, r, t, x)
    ensures Outcome(n, n[0].location, r, t, false)
  {
    hide Laid;
    forall x ensures At(n, x) == Laid(r, t, x) {
      assert SameAt(u, r, t, x);
    }
  }

  lemma AtPair(b: Region, u: seq<Region>, x: nat)
    requires Clean([b] + u)
    ensures At([b] + u, x) == if b.Holds(x) then Just(b.kind) else At(u, x)
    ensures x < b.End() ==> At(u, x) == Nothing
    ensures Clean(u) && b.size > 0 && (u != [] ==> b.End() <= u[0].location)
  {
    AtCons(b, u, x);
    assert ([b] + u)[0] == b && ([b] + u)[1..] == u;
    CleanTail([b] + u);
    if x < b.End() {
      AtBelow(u, x);
    }
  }

  // r before b: what each resolution means.

  lemma MergeMeans(r: Region, b: Region, u: seq<Region>, x: nat)
    requires Over(r, [b] + u) && r.kind == b.kind && b.location <= r.End()
    ensures SameLaid(Union(r, b), u, r, [b] + u, x)
  {
    AtPair(b, u, x);
    assert ([b] + u)[0] == b;
  }

  lemma CoverMeans(r: Region, b: Region, u: seq<Region>, x: nat)
    requires Over(r, [b] + u) && r.kind.Rank() > b.kind.Rank() && b.End() <= r.End()
    ensures SameLaid(r, u, r, [b] + u, x)
  {
    AtPair(b, u, x);
    assert ([b] + u)[0] == b;
  }

  lemma ApartMeans(r: Region, b: Region, u: seq<Region>, x: nat)
    requires Over(r, [b] + u) && r.End() <= b.location
    ensures SameAt([r] + ([b] + u), r, [b] + u, x)
  {
    AtPair(b, u, x);
    AtCons(r, [b] + u, x);
    assert ([b] + u)[0] == b;
  }

  lemma CutRightMeans(r: Region, b: Region, u: seq<Region>, x: nat)
    requires Over(r, [b] + u) && r.kind.Rank() > b.kind.Rank() && b.location < r.End() < b.End()
    ensures SameAt([r] + ([From(b, r.End())] + u), r, [b] + u, x)
  {
    AtPair(b, u, x);
    AtCons(From(b, r.End()), u, x);
    AtCons(r, [From(b, r.End())] + u, x);
    assert ([b] + u)[0] == b;
  }

  lemma InsideMeans(r: Region, b: Region, u: seq<Region>, x: nat)
    requires Over(r, [b] + u) && Outranks(b, r) && b.Contains(r)
    ensures SameAt([b] + u, r, [b] + u, x)
  {
    AtPair(b, u, x);
  }

  lemma CutLeftMeans(r: Region, b: Region, u: seq<Region>, x: nat)
    requires Over(r, [b] + u) && Outranks(b, r) && r.location < b.location < r.End() <= b.End()
    ensures SameAt([r.(size := b.location - r.location)] + ([b] + u), r, [b] + u, x)
  {
    AtPair(b, u, x);
    AtCons(r.(size := b.location - r.location), [b] + u, x);
    assert ([b] + u)[0] == b;
  }

  /** b splits r: the part before it, then b with the rest of r behind it. */
  lemma SplitMeans(r: Region, b: Region, u: seq<Region>, x: nat)
    requires Over(r, [b] + u) && Outranks(b, r) && r.location < b.location && b.End() < r.End()
    ensures SameBefore(b, From(r, b.End()), u, From(r, b.location), [b] + u, x)
    ensures SameBefore(r.(size := b.location - r.location), From(r, b.location), [b] + u, r, [b] + u, x)
  {
    AtPair(b, u, x);
    assert ([b] + u)[0] == b;
  }

  /** b begins with r: what is left of r stands behind it. */
  lemma FlushMeans(r: Region, b: Region, u: seq<Region>, x: nat)
    requires Over(r, [b] + u) && Outranks(b, r) && r.location == b.location && b.End() < r.End()
    requires u != [] ==> r.End() <= u[0].location
    ensures SameAt([b] + ([From(r, b.End())] + u), r, [b] + u, x)
  {
    AtPair(b, u, x);
    AtCons(From(r, b.End()), u, x);
    AtCons(b, [From(r, b.End())] + u, x);
    if x < r.End() {
      AtBelow(u, x);
    }
  }

  // l before r: what each resolution means.

  lemma UnionMeans(l: Region, r: Region, t: seq<Region>, x: nat)
    requires Under(l, r, t) && l.kind == r.kind && r.location <= l.End()
    ensures SameLaid(Union(l, r), t, r, [l] + t, x)
  {
    AtPair(l, t, x);
  }

  lemma BehindMeans(l: Region, r: Region, t: seq<Region>, x: nat)
    requires Under(l, r, t) && l.End() <= r.location
    ensures SameBefore(l, r, t, r, [l] + t, x)
  {
    AtPair(l, t, x);
  }

  lemma SwallowedMeans(l: Region, r: Region, t: seq<Region>, x: nat)
    requires Under(l, r, t) && Outranks(l, r) && r.End() <= l.End()
    ensures SameAt([l] + t, r, [l] + t, x)
  {
    AtPair(l, t, x);
  }

  lemma ShortenedMeans(l: Region, r: Region, t: seq<Region>, x: nat)
    requires Under(l, r, t) && Outranks(l, r) && r.location < l.End() < r.End()
    ensures SameBefore(l, From(r, l.End()), t, r, [l] + t, x)
  {
    AtPair(l, t, x);
  }

  lemma ReplacedMeans(l: Region, r: Region, t: seq<Region>, x: nat)
    requires Under(l, r, t) && Outranks(r, l) && l.location == r.location
    ensures SameLaid(r, t, r, [l] + t, x)
  {
    AtPair(l, t, x);
  }

  lemma TrimmedMeans(l: Region, r: Region, t: seq<Region>, x: nat)
    requires Under(l, r, t) && Outranks(r, l) && l.location < r.location < l.End() <= r.End()
    ensures SameBefore(l.(size := r.location - l.location), r, t, r, [l] + t, x)
  {
    AtPair(l, t, x);
  }

  lemma AroundMeans(l: Region, r: Region, t: seq<Region>, x: nat)
    requires Under(l, r, t) && Outranks(r, l) && l.location < r.location && r.End() < l.End()
    ensures SameAt([l.(size := r.location - l.location)] + ([r] + ([From(l, r.End())] + t)), r, [l] + t, x)
  {
    AtPair(l, t, x);
    AtCons(From(l, r.End()), t, x);
    AtCons(r, [From(l, r.End())] + t, x);
    AtCons(l.(size := r.location - l.location), [r] + ([From(l, r.End())] + t), x);
  }

  // Clashes and growth, step by step.

  lemma AfterCons(a: Region, b: Region, v: seq<Region>, r: Region, t: seq<Region>)
    ensures ExtraAfter([a, b] + v, r, t) ==
      if a.kind == b.kind && a.End() == b.location then Fewer(ExtraAfter([Union(a, b)] + v, r, t))
      else ExtraAfter([b] + v, r, t)
  {
    var head := [a, b] + v;
    assert head[0] == a && head[1] == b && head[2..] == v && head[1..] == [b] + v;
  }

  lemma ChainedCons(r: Region, b: Region, u: seq<Region>)
    ensures Chained(r, [b] + u) <==> Chained(r, u) || (|u| >= 3 && Trio(r, b, u[0], u[1], u[2]))
    ensures Holes(r, [b] + u) == (if Outranks(b, r) && r.location < b.location && b.End() < r.End() then 1
      else 0) + Holes(r, u)
  {
    assert ([b] + u)[1..] == u;
  }

  /** A region that does not outrank r starts no clash. */
  lemma LowerStarts(r: Region, b: Region, u: seq<Region>)
    requires Over(r, [b] + u) && !Outranks(b, r)
    ensures Clash(r, [b] + u) == Chained(r, u) && Holes(r, [b] + u) == Holes(r, u)
    ensures Clean(u) && (u != [] ==> r.location < u[0].location && b.End() <= u[0].location) && !Flush(r, u)
  {
    ChainedCons(r, b, u);
    AtPair(b, u, 0);
    assert ([b] + u)[0] == b;
  }

  lemma MergeClash(r: Region, b: Region, u: seq<Region>)
    requires Over(r, [b] + u) && r.kind == b.kind && b.location <= r.End()
    ensures Over(Union(r, b), u) && Clash(Union(r, b), u) == Clash(r, [b] + u)
    ensures Holes(Union(r, b), u) == Holes(r, [b] + u)
  {
    LowerStarts(r, b, u);
    assert ([b] + u)[0] == b;
    var q := Union(r, b);
    if b.End() > r.End() {
      ChainedBeyond(r, u);
      ChainedBeyond(q, u);
    } else {
      ChainedSame(r, q, u);
      HolesSame(r, q, u);
    }
  }

  /** A region that r does not reach past starts no clash. */
  lemma LastClash(r: Region, b: Region, u: seq<Region>)
    requires Over(r, [b] + u) && r.End() <= b.End()
    ensures !Clash(r, [b] + u) && Clean(u) && (u != [] ==> b.End() <= u[0].location)
  {
    AtPair(b, u, 0);
    ChainedBeyond(r, u);
    ChainedCons(r, b, u);
    assert ([b] + u)[0] == b;
  }

  /** Splitting around b with the rest in front of what follows. */
  lemma SplitClash(r: Region, b: Region, u: seq<Region>)
    requires Over(r, [b] + u) && Outranks(b, r) && r.location < b.location && b.End() < r.End()
    requires u != [] ==> From(r, b.End()).Less(u[0])
    ensures Over(From(r, b.End()), u) && Clash(From(r, b.End()), u) == Clash(r, [b] + u)
    ensures Holes(From(r, b.End()), u) + 1 <= Holes(r, [b] + u)
  {
    ChainedCons(r, b, u);
    AtPair(b, u, 0);
    assert ([b] + u)[0] == b;
    var q := From(r, b.End());
    ChainedSame(r, q, u);
    HolesShrink(r, q, u);
    if |u| > 1 {
      CleanTail(u);
      assert u[0].End() <= u[1].location;
    }
  }

  /** Splitting around b with the rest behind the first region that follows. */
  lemma SplitClashBehind(r: Region, b: Region, u: seq<Region>)
    requires Over(r, [b] + u) && Outranks(b, r) && r.location < b.location && b.End() < r.End()
    requires u != [] && !From(r, b.End()).Less(u[0])
    ensures u[0].location == b.End() && Under(u[0], From(r, b.End()), u[1..])
    ensures ClashUnder(u[0], From(r, b.End()), u[1..]) == Clash(r, [b] + u)
    ensures Holes(From(r, b.End()), u[1..]) + 1 <= Holes(r, [b] + u)
  {
    AtPair(b, u, 0);
    CleanTail(u);
    assert ([b] + u)[0] == b;
    var q, c, v := From(r, b.End()), u[0], u[1..];
    assert u == [c] + v;
    ChainedCons(r, b, u);
    ChainedCons(r, c, v);
    ChainedSame(r, q, v);
    HolesShrink(r, q, v);
    BehindClash(r, b, c, v);
  }

  /** The clash at the second of two touching regions is a flush cut at the third. */
  lemma BehindClash(r: Region, b: Region, c: Region, v: seq<Region>)
    requires Clean([b] + ([c] + v)) && Outranks(b, r) && r.location < b.location && b.End() == c.location
    requires c.End() <= r.End()
    ensures ClashUnder(c, From(r, b.End()), v) == (Chained(r, v)
      || (|v| >= 3 && Trio(r, c, v[0], v[1], v[2])) || (|v| >= 2 && Trio(r, b, c, v[0], v[1])))
  {
    AtPair(b, [c] + v, 0);
    AtPair(c, v, 0);
    var q := From(r, b.End());
    ChainedSame(r, q, v);
    if Outranks(c, r) && c.End() < r.End() {
      ChainedSame(r, From(q, c.End()), v);
      if |v| > 1 {
        CleanTail(v);
      }
    } else if c.End() == r.End() {
      ChainedBeyond(r, v);
    }
  }

  /** How a pair with its regions in order is resolved. */
  lemma ResolveCases(a: Region, b: Region)
    requires a.size > 0 && b.size > 0 && a.location <= b.location
    ensures a.kind == b.kind && b.location <= a.End() ==> Resolve(a, b) == Resolution([Union(a, b)], [], 0)
    ensures a.End() <= b.location && !(a.kind == b.kind && a.End() == b.location) ==>
        Resolve(a, b) == Resolution([a, b], [], 1)
    ensures Outranks(a, b) && b.location < a.End() && b.End() <= a.End() ==> Resolve(a, b) == Resolution([a], [], 0)
    ensures Outranks(a, b) && b.location < a.End() < b.End() ==>
        Resolve(a, b) == Resolution([a, From(b, a.End())], [], 1)
    ensures Outranks(b, a) && a.location == b.location && a.End() <= b.End() ==> Resolve(a, b) == Resolution([b], [], 0)
    ensures Outranks(b, a) && a.location < b.location < a.End() <= b.End() ==>
      Resolve(a, b) == Resolution([a.(size := b.location - a.location), b], [], 1)
    ensures Outranks(b, a) && a.location < b.location && b.End() < a.End() ==>
      Resolve(a, b) == Resolution([a.(size := b.location - a.location), b], [From(a, b.End())], 2)
    ensures Outranks(b, a) && a.location == b.location && b.End() < a.End() ==>
      Resolve(a, b) == Resolution([b], [From(a, b.End())], 2)
  {
  }

  ghost predicate AllBefore(pre: seq<Region>, lo: nat) {
    forall e :: e in pre ==> e.location <= lo
  }

  /** The cases that end the overlap, with r before b. */
  lemma OverEnds(pre: seq<Region>, r: Region, b: Region, u: seq<Region>) returns (n: seq<Region>)
    requires Over(r, [b] + u) && (r.kind == b.kind ==> r.End() < b.location)
    requires r.End() <= b.location || r.End() < b.End() || (Outranks(b, r) && r.End() == b.End())
    ensures Passes(pre, [r, b] + u, n, 2 + |u|) && Outcome(n, r.location, r, [b] + u, Clash(r, [b] + u))
  {
    hide Passes, Outcome, At, Resolve, Clash;
    assert ([b] + u)[0] == b;
    LastClash(r, b, u);
    ResolveCases(r, b);
    if r.End() <= b.location {
      n := EndsApart(pre, r, b, u);
    } else if r.kind.Rank() > b.kind.Rank() {
      n := EndsCutRight(pre, r, b, u);
    } else {
      RankInjective(r.kind, b.kind);
      if r.location == b.location {
        n := DoneRun(pre, [b] + u);
        PassMerge(pre, r, b, u, b, n, 1 + |u|);
        forall x ensures SameAt([b] + u, r, [b] + u, x) {
          InsideMeans(r, b, u, x);
        }
        OutcomeDone(n, [b] + u, r, [b] + u);
      } else {
        n := EndsCutLeft(pre, r, b, u);
      }
    }
  }

  lemma RankInjective(a: MemoryType, b: MemoryType)
    ensures a.Rank() == b.Rank() ==> a == b
  {
  }

  lemma ConsDone(c: Region, n: seq<Region>, u: seq<Region>)
    requires c.size > 0 && Clean(n) && n != [] && c.End() <= n[0].location && forall x :: At(n, x) == At(u, x)
    ensures Clean([c] + n) && forall x :: At([c] + n, x) == At([c] + u, x)
  {
    CleanCons(c, n);
    forall x ensures At([c] + n, x) == At([c] + u, x) {
      AtCons(c, n, x);
      AtCons(c, u, x);
    }
  }

  lemma EndsApart(pre: seq<Region>, r: Region, b: Region, u: seq<Region>) returns (n: seq<Region>)
    requires Over(r, [b] + u) && r.End() <= b.location && (r.kind == b.kind ==> r.End() < b.location)
    ensures Passes(pre, [r, b] + u, n, 2 + |u|) && Outcome(n, r.location, r, [b] + u, false)
  {
    hide Passes, Outcome, At, Resolve;
    assert ([b] + u)[0] == b;
    ResolveCases(r, b);
    n := DoneRun(pre + [r], [b] + u);
    PassAdvance(pre, r, b, u, r, b, n, 1 + |u|);
    ConsDone(r, n, [b] + u);
    n := [r] + n;
    forall x ensures SameAt([r] + ([b] + u), r, [b] + u, x) {
      ApartMeans(r, b, u, x);
    }
    OutcomeDone(n, [r] + ([b] + u), r, [b] + u);
  }

  lemma EndsCutRight(pre: seq<Region>, r: Region, b: Region, u: seq<Region>) returns (n: seq<Region>)
    requires Over(r, [b] + u) && Outranks(r, b) && b.location < r.End() < b.End()
    ensures Passes(pre, [r, b] + u, n, 2 + |u|) && Outcome(n, r.location, r, [b] + u, false)
  {
    hide Passes, Outcome, At, Resolve;
    assert ([b] + u)[0] == b;
    ResolveCases(r, b);
    var c := From(b, r.End());
    AtPair(b, u, 0);
    CleanCons(c, u);
    n := DoneRun(pre + [r], [c] + u);
    PassAdvance(pre, r, b, u, r, c, n, 1 + |u|);
    ConsDone(r, n, [c] + u);
    n := [r] + n;
    forall x ensures SameAt([r] + ([c] + u), r, [b] + u, x) {
      CutRightMeans(r, b, u, x);
    }
    OutcomeDone(n, [r] + ([c] + u), r, [b] + u);
  }

  lemma EndsCutLeft(pre: seq<Region>, r: Region, b: Region, u: seq<Region>) returns (n: seq<Region>)
    requires Over(r, [b] + u) && Outranks(b, r) && r.location < b.location < r.End() <= b.End()
    ensures Passes(pre, [r, b] + u, n, 2 + |u|) && Outcome(n, r.location, r, [b] + u, false)
  {
    hide Passes, Outcome, At, Resolve;
    assert ([b] + u)[0] == b;
    ResolveCases(r, b);
    var c := r.(size := b.location - r.location);
    n := DoneRun(pre + [c], [b] + u);
    PassAdvance(pre, r, b, u, c, b, n, 1 + |u|);
    ConsDone(c, n, [b] + u);
    n := [c] + n;
    forall x ensures SameAt([c] + ([b] + u), r, [b] + u, x) {
      CutLeftMeans(r, b, u, x);
    }
    OutcomeDone(n, [c] + ([b] + u), r, [b] + u);
  }

  /** A split around b: the part of r before it and b itself go in front of what the rest makes of u. */
  lemma SplitOutcome(r: Region, b: Region, u: seq<Region>, n: seq<Region>, clash: bool)
    requires Over(r, [b] + u) && Outranks(b, r) && r.location < b.location && b.End() < r.End()
    requires Outcome(n, b.End(), From(r, b.End()), u, clash)
    ensures Outcome([r.(size := b.location - r.location), b] + n, r.location, r, [b] + u, clash)
  {
    hide Outcome, Laid;
    var c, q := r.(size := b.location - r.location), From(r, b.location);
    AtPair(b, u, 0);
    forall x ensures SameBefore(b, From(r, b.End()), u, q, [b] + u, x) && SameBefore(c, q, [b] + u, r, [b] + u, x) {
      SplitMeans(r, b, u, x);
    }
    OutcomeCons(b, n, b.End(), From(r, b.End()), u, q, [b] + u, clash, clash);
    OutcomeCons(c, [b] + n, b.location, q, [b] + u, r, [b] + u, clash, clash);
    assert [c, b] + n == [c] + ([b] + n);
  }

  /** b begins with r and ends before it: a clash exactly when r reaches the next region. */
  lemma FlushClash(r: Region, b: Region, u: seq<Region>)
    requires Over(r, [b] + u) && Outranks(b, r) && r.location == b.location && b.End() < r.End()
    ensures Clash(r, [b] + u) <==> u != [] && u[0].location < r.End()
    ensures Clean(u) && (u != [] ==> b.End() <= u[0].location)
  {
    AtPair(b, u, 0);
    ChainedCons(r, b, u);
    if u != [] && u[0].location >= r.End() {
      ChainedBeyond(r, u);
    }
  }

  lemma FlushFront(pre: seq<Region>, r: Region, b: Region, u: seq<Region>) returns (n: seq<Region>)
    requires Over(r, [b] + u) && Outranks(b, r) && r.location == b.location && b.End() < r.End()
    requires AllBefore(pre, r.location)
    requires u != [] ==> From(r, b.End()).Less(u[0])
    ensures Passes(pre, [r, b] + u, n, 2 + |u|) && Outcome(n, r.location, r, [b] + u, Clash(r, [b] + u))
  {
    hide Passes, At, Resolve, Clash, Insert, Laid;
    assert ([b] + u)[0] == b;
    FlushClash(r, b, u);
    ResolveCases(r, b);
    var rest := From(r, b.End());
    InsertFront(u, rest);
    var n' := DoneRun(pre + [b, rest], u);
    assert [b] + ([rest] + u) == [b, rest] + u;
    PassSplit(pre, r, b, u, [b], rest, b, rest, u, n', |u|);
    n := [b, rest] + n';
    CleanCons(rest, n');
    CleanCons(b, [rest] + n');
    assert n == [b] + ([rest] + n');
    if !Clash(r, [b] + u) {
      forall x ensures At(n, x) == Laid(r, [b] + u, x) {
        FlushMeans(r, b, u, x);
        AtCons(rest, n', x);
        AtCons(rest, u, x);
        AtCons(b, [rest] + n', x);
        AtCons(b, [rest] + u, x);
      }
    }
  }

  /** The part of r that is inserted anew lands behind the next region and is not compared with it. */
  lemma FlushBehind(r: Region, b: Region, u: seq<Region>, n: seq<Region>)
    requires Over(r, [b] + u) && Outranks(b, r) && r.location == b.location && b.End() < r.End()
    requires u != [] && !From(r, b.End()).Less(u[0]) && n != [] && n[0].location == b.End() && NonEmpty(n)
    ensures Outcome([b, u[0]] + n, r.location, r, [b] + u, Clash(r, [b] + u))
  {
    hide At, Clash, Laid, SortedDisjoint;
    FlushClash(r, b, u);
    CleanTail(u);
    CleanCons(u[0], n);
    CleanCons(b, [u[0]] + n);
    assert [b, u[0]] + n == [b] + ([u[0]] + n);
  }

  lemma FlushBehindPass(pre: seq<Region>, r: Region, b: Region, u: seq<Region>, n: seq<Region>, k: nat)
    requires r.size > 0 && b.size > 0 && Clean(u) && Outranks(b, r) && r.location == b.location && b.End() < r.End()
    requires AllBefore(pre, r.location) && u != [] && !From(r, b.End()).Less(u[0]) && u[0].location == b.End()
    requires Passes(pre + [b, u[0]], [From(r, b.End())] + u[1..], n, k)
    ensures Passes(pre, [r, b] + u, [b, u[0]] + n, k + 2)
  {
    hide Passes, Resolve, Insert, SortedDisjoint;
    var rest := From(r, b.End());
    ResolveCases(r, b);
    InsertSecond(u, rest);
    BuildFive(b, u[0], rest, u[1..]);
    PassSplit(pre, r, b, u, [b], rest, b, u[0], [rest] + u[1..], n, k);
  }

  lemma BuildFive(b: Region, c: Region, rest: Region, v: seq<Region>)
    ensures [b] + ([c, rest] + v) == [b, c] + ([rest] + v)
  {
  }

  lemma FlushHoles(r: Region, b: Region, u: seq<Region>)
    requires r.location == b.location && b.End() < r.End() && b.size > 0 && u != []
    ensures Holes(From(r, b.End()), u[1..]) <= Holes(r, [b] + u)
  {
    ChainedCons(r, b, u);
    assert u == [u[0]] + u[1..];
    ChainedCons(r, u[0], u[1..]);
    HolesShrink(r, From(r, b.End()), u[1..]);
  }

  /** r before b and past its end, b outranking it and beginning later. */
  lemma SplitPass(pre: seq<Region>, r: Region, b: Region, u: seq<Region>, s: seq<Region>, n: seq<Region>,
      clash: bool, k: nat)
    requires Over(r, [b] + u) && Outranks(b, r) && r.location < b.location && b.End() < r.End()
    requires AllBefore(pre, r.location)
    requires Insert(u, From(r, b.End())) == s && Outcome(n, b.End(), From(r, b.End()), u, clash)
    requires Passes(pre + [r.(size := b.location - r.location), b], s, n, k)
    ensures var c := r.(size := b.location - r.location);
      Passes(pre, [r, b] + u, [c, b] + n, k + 2) && Outcome([c, b] + n, r.location, r, [b] + u, clash)
  {
    hide Passes, Outcome, Resolve, Insert;
    assert ([b] + u)[0] == b;
    ResolveCases(r, b);
    var c := r.(size := b.location - r.location);
    PassSplit(pre, r, b, u, [c, b], From(r, b.End()), c, b, s, n, k);
    SplitOutcome(r, b, u, n, clash);
  }

  /** The pass from a region laid before those it may overlap. */
  lemma {:induction false} OverRun(pre: seq<Region>, r: Region, t: seq<Region>) returns (n: seq<Region>)
    requires Over(r, t) && AllBefore(pre, r.location)
    ensures Passes(pre, [r] + t, n, 1 + |t| + Extra(r, t)) && Outcome(n, r.location, r, t, Clash(r, t))
    decreases 3 * |t| + 2
  {
    hide Passes, Outcome, Resolve, Clash, Insert, Laid, AllBefore, NonEmpty, SortedDisjoint;
    if t == [] {
      n := [r];
      SingleOutcome(r);
      PassEnd(pre, [r]);
      assert [r] + t == [r];
    } else {
      var b, u := t[0], t[1..];
      CleanTail(t);
      assert t == [b] + u && [r] + t == [r, b] + u;
      ResolveCases(r, b);
      RankInjective(r.kind, b.kind);
      if r.kind == b.kind && b.location <= r.End() {
        MergeClash(r, b, u);
        n := OverRun(pre, Union(r, b), u);
        PassMerge(pre, r, b, u, Union(r, b), n, 1 + |u| + Extra(Union(r, b), u));
        forall x ensures SameLaid(Union(r, b), u, r, t, x) {
          MergeMeans(r, b, u, x);
        }
        OutcomeSame(n, r.location, Union(r, b), u, r, t, Clash(r, t), Clash(Union(r, b), u));
      } else if r.kind.Rank() > b.kind.Rank() && b.End() <= r.End() && b.location < r.End() {
        n := OverCovers(pre, r, b, u);
      } else if Outranks(b, r) && b.End() < r.End() {
        n := OverSplits(pre, r, b, u);
      } else {
        n := OverEnds(pre, r, b, u);
      }
    }
  }

  lemma SingleOutcome(r: Region)
    requires r.size > 0
    ensures Outcome([r], r.location, r, [], Clash(r, []))
  {
  }

  lemma {:induction false} OverCovers(pre: seq<Region>, r: Region, b: Region, u: seq<Region>) returns (n: seq<Region>)
    requires Over(r, [b] + u) && Outranks(r, b) && b.location < r.End() && b.End() <= r.End()
    requires AllBefore(pre, r.location)
    ensures Passes(pre, [r, b] + u, n, 2 + |u| + Extra(r, [b] + u))
    ensures Outcome(n, r.location, r, [b] + u, Clash(r, [b] + u))
    decreases 3 * |u| + 4
  {
    hide Passes, Outcome, Resolve, Insert, Laid, AllBefore, NonEmpty, SortedDisjoint;
    assert ([b] + u)[0] == b;
    AtPair(b, u, 0);
    LowerStarts(r, b, u);
    ResolveCases(r, b);
    n := OverRun(pre, r, u);
    PassMerge(pre, r, b, u, r, n, 1 + |u| + Extra(r, u));
    forall x ensures SameLaid(r, u, r, [b] + u, x) {
      CoverMeans(r, b, u, x);
    }
    OutcomeSame(n, r.location, r, u, r, [b] + u, Clash(r, [b] + u), Clash(r, u));
  }

  lemma {:induction false} OverSplits(pre: seq<Region>, r: Region, b: Region, u: seq<Region>) returns (n: seq<Region>)
    requires Over(r, [b] + u) && Outranks(b, r) && b.End() < r.End() && AllBefore(pre, r.location)
    ensures Passes(pre, [r, b] + u, n, 2 + |u| + Extra(r, [b] + u))
    ensures Outcome(n, r.location, r, [b] + u, Clash(r, [b] + u))
    decreases 3 * |u| + 4
  {
    hide Passes, Outcome, Resolve, Insert, Laid, AllBefore, NonEmpty, SortedDisjoint, Clash;
    assert ([b] + u)[0] == b;
    AtPair(b, u, 0);
    var rest, c := From(r, b.End()), r.(size := Gap(r, b));
    if r.location < b.location {
      SplitBefore(pre, r, b);
      if u == [] || rest.Less(u[0]) {
        SplitClash(r, b, u);
        InsertFront(u, rest);
        n := OverRun(pre + [c, b], rest, u);
        SplitPass(pre, r, b, u, [rest] + u, n, Clash(rest, u), 1 + |u| + Extra(rest, u));
        n := [c, b] + n;
      } else {
        SplitClashBehind(r, b, u);
        InsertSecond(u, rest);
        CleanTail(u);
        n := UnderRun(pre + [c, b], u[0], rest, u[1..]);
        assert [u[0]] + u[1..] == u && [u[0], rest] + u[1..] == Insert(u, rest);
        SplitPass(pre, r, b, u, Insert(u, rest), n, ClashUnder(u[0], rest, u[1..]),
                  1 + |u| + ExtraUnder(u[0], rest, u[1..]));
        n := [c, b] + n;
      }
    } else if u == [] || rest.Less(u[0]) {
      n := FlushFront(pre, r, b, u);
    } else {
      CleanTail(u);
      FlushOver(pre, r, b, u);
      n := OverRun(pre + [b, u[0]], rest, u[1..]);
      OutcomeShape(n, rest.location, rest, u[1..], Clash(rest, u[1..]));
      FlushBehind(r, b, u, n);
      FlushBehindPass(pre, r, b, u, n, |u| + Extra(rest, u[1..]));
      n := [b, u[0]] + n;
    }
  }

  lemma OutcomeShape(n: seq<Region>, lo: nat, r: Region, t: seq<Region>, clash: bool)
    requires Outcome(n, lo, r, t, clash)
    ensures n != [] && n[0].location == lo && NonEmpty(n)
  {
  }

  lemma SplitBefore(pre: seq<Region>, r: Region, b: Region)
    requires AllBefore(pre, r.location) && r.location < b.location && b.size > 0
    ensures AllBefore(pre + [r.(size := Gap(r, b)), b], b.End())
  {
  }

  lemma FlushOver(pre: seq<Region>, r: Region, b: Region, u: seq<Region>)
    requires Over(r, [b] + u) && r.location == b.location && b.End() < r.End() && AllBefore(pre, r.location)
    requires u != [] && !From(r, b.End()).Less(u[0])
    ensures Over(From(r, b.End()), u[1..]) && u[0].location == b.End() && AllBefore(pre + [b, u[0]], b.End())
  {
    AtPair(b, u, 0);
    CleanTail(u);
  }

  /** The pass from a region that stands before the one laid over it. */
  lemma {:induction false} UnderRun(pre: seq<Region>, l: Region, r: Region, t: seq<Region>) returns (n: seq<Region>)
    requires Under(l, r, t) && AllBefore(pre, l.location)
    ensures Passes(pre, [l, r] + t, n, 2 + |t| + ExtraUnder(l, r, t))
    ensures Outcome(n, l.location, r, [l] + t, ClashUnder(l, r, t))
    decreases 3 * |t| + 6
  {
    hide Passes, Outcome, Resolve, Clash, Insert, Laid, AllBefore, NonEmpty, SortedDisjoint;
    AtPair(l, t, 0);
    ResolveCases(l, r);
    RankInjective(l.kind, r.kind);
    UnderOver(pre, l, r, t);
    if l.kind == r.kind && r.location <= l.End() {
      UnionClash(l, r, t);
      n := OverRun(pre, Union(l, r), t);
      PassMerge(pre, l, r, t, Union(l, r), n, 1 + |t| + Extra(Union(l, r), t));
      forall x ensures SameLaid(Union(l, r), t, r, [l] + t, x) {
        UnionMeans(l, r, t, x);
      }
      OutcomeSame(n, l.location, Union(l, r), t, r, [l] + t, ClashUnder(l, r, t), Clash(Union(l, r), t));
    } else if l.End() <= r.location {
      n := OverRun(pre + [l], r, t);
      AheadClash(r, t);
      PassAdvance(pre, l, r, t, l, r, n, 1 + |t| + Extra(r, t));
      forall x ensures SameBefore(l, r, t, r, [l] + t, x) {
        BehindMeans(l, r, t, x);
      }
      OutcomeCons(l, n, r.location, r, t, r, [l] + t, ClashUnder(l, r, t), Clash(r, t));
      n := [l] + n;
    } else if Outranks(l, r) {
      n := UnderYields(pre, l, r, t);
    } else {
      n := UnderLoses(pre, l, r, t);
    }
  }

  /** Where r can stand once l is dealt with. */
  lemma UnderOver(pre: seq<Region>, l: Region, r: Region, t: seq<Region>)
    requires Under(l, r, t) && AllBefore(pre, l.location)
    ensures Over(r, t) && AllBefore(pre + [l], r.location) && AllBefore(pre, r.location) && Clean(t)
    ensures t != [] ==> l.End() <= t[0].location
    ensures l.End() < r.End() && r.location <= l.End() ==> Over(From(r, l.End()), t) && AllBefore(pre + [l], l.End())
  {
    AtPair(l, t, 0);
  }

  lemma AheadClash(r: Region, t: seq<Region>)
    requires Over(r, t) && (t != [] ==> r.Less(t[0]))
    ensures !Flush(r, t) && Clash(r, t) == Chained(r, t)
  {
  }

  lemma UnionClash(l: Region, r: Region, t: seq<Region>)
    requires Under(l, r, t) && l.kind == r.kind && r.location <= l.End()
    ensures Over(Union(l, r), t) && Clash(Union(l, r), t) == ClashUnder(l, r, t) && Holes(Union(l, r), t) <= Holes(r, t)
  {
    AtPair(l, t, 0);
    var q := Union(l, r);
    if l.End() > r.End() {
      ChainedBeyond(r, t);
      ChainedBeyond(q, t);
    } else {
      ChainedSame(r, q, t);
      UnionHoles(r, q, t);
    }
  }

  /** Extending r to the left counts nothing new: what begins with r ends after it. */
  lemma {:induction false} UnionHoles(r: Region, q: Region, t: seq<Region>)
    requires Clean(t) && q.kind == r.kind && q.End() == r.End() && q.location <= r.location
    requires (t != [] ==> r.Less(t[0]))
    ensures Holes(q, t) <= Holes(r, t)
  {
    if t != [] {
      CleanTail(t);
      UnionHoles(r, q, t[1..]);
    }
  }

  lemma {:induction false} UnderYields(pre: seq<Region>, l: Region, r: Region, t: seq<Region>) returns (n: seq<Region>)
    requires Under(l, r, t) && AllBefore(pre, l.location) && Outranks(l, r) && r.location < l.End()
    ensures Passes(pre, [l, r] + t, n, 2 + |t| + ExtraUnder(l, r, t)) && Outcome(n, l.location, r, [l] + t, ClashUnder(l, r, t))
    decreases 3 * |t| + 5
  {
    hide Passes, Outcome, Resolve, Clash, Insert, Laid, AllBefore, NonEmpty, SortedDisjoint;
    AtPair(l, t, 0);
    ResolveCases(l, r);
    UnderOver(pre, l, r, t);
    if r.End() <= l.End() {
      n := DoneRun(pre, [l] + t);
      PassMerge(pre, l, r, t, l, n, 1 + |t|);
      forall x ensures SameAt([l] + t, r, [l] + t, x) {
        SwallowedMeans(l, r, t, x);
      }
      OutcomeDone(n, [l] + t, r, [l] + t);
    } else {
      var q := From(r, l.End());
      n := OverRun(pre + [l], q, t);
      PassAdvance(pre, l, r, t, l, q, n, 1 + |t| + Extra(q, t));
      forall x ensures SameBefore(l, q, t, r, [l] + t, x) {
        ShortenedMeans(l, r, t, x);
      }
      OutcomeCons(l, n, l.End(), q, t, r, [l] + t, ClashUnder(l, r, t), Clash(q, t));
      n := [l] + n;
    }
  }

  lemma {:induction false} UnderLoses(pre: seq<Region>, l: Region, r: Region, t: seq<Region>) returns (n: seq<Region>)
    requires Under(l, r, t) && AllBefore(pre, l.location) && Outranks(r, l) && r.location < l.End()
    ensures Passes(pre, [l, r] + t, n, 2 + |t| + ExtraUnder(l, r, t))
    ensures Outcome(n, l.location, r, [l] + t, ClashUnder(l, r, t))
    decreases 3 * |t| + 5
  {
    hide Passes, Outcome, Resolve, Clash, Chained, Insert, Laid, AllBefore, NonEmpty, SortedDisjoint, Extra;
    if l.location == r.location {
      n := UnderReplaced(pre, l, r, t);
    } else if l.End() <= r.End() {
      n := UnderTrimmed(pre, l, r, t);
    } else {
      n := UnderAround(pre, l, r, t);
    }
  }

  /** The old region begins with the one laid over it and is covered. */
  lemma {:induction false} UnderReplaced(pre: seq<Region>, l: Region, r: Region,
      t: seq<Region>) returns (n: seq<Region>)
    requires Under(l, r, t) && AllBefore(pre, l.location) && Outranks(r, l) && l.location == r.location
    ensures Passes(pre, [l, r] + t, n, 2 + |t| + Fewer(Extra(r, t)))
    ensures Outcome(n, l.location, r, [l] + t, ClashUnder(l, r, t))
    decreases 3 * |t| + 4
  {
    hide Passes, Outcome, Resolve, Clash, Insert, Laid, AllBefore, NonEmpty, SortedDisjoint, Extra;
    AtPair(l, t, 0);
    ResolveCases(l, r);
    UnderOver(pre, l, r, t);
    AheadClash(r, t);
    n := OverRun(pre, r, t);
    PassMerge(pre, l, r, t, r, n, 1 + |t| + Extra(r, t));
    forall x ensures SameLaid(r, t, r, [l] + t, x) {
      ReplacedMeans(l, r, t, x);
    }
    OutcomeSame(n, l.location, r, t, r, [l] + t, ClashUnder(l, r, t), Clash(r, t));
  }

  /** The old region is cut where the one laid over it begins. */
  lemma {:induction false} UnderTrimmed(pre: seq<Region>, l: Region, r: Region,
      t: seq<Region>) returns (n: seq<Region>)
    requires Under(l, r, t) && AllBefore(pre, l.location) && Outranks(r, l)
    requires l.location < r.location < l.End() <= r.End()
    ensures Passes(pre, [l, r] + t, n, 2 + |t| + Extra(r, t))
    ensures Outcome(n, l.location, r, [l] + t, ClashUnder(l, r, t))
    decreases 3 * |t| + 4
  {
    hide Passes, Outcome, Resolve, Clash, Insert, Laid, AllBefore, NonEmpty, SortedDisjoint, Extra;
    AtPair(l, t, 0);
    ResolveCases(l, r);
    UnderOver(pre, l, r, t);
    AheadClash(r, t);
    var c := l.(size := r.location - l.location);
    CutBefore(pre, l, c, r);
    n := OverRun(pre + [c], r, t);
    PassAdvance(pre, l, r, t, c, r, n, 1 + |t| + Extra(r, t));
    forall x ensures SameBefore(c, r, t, r, [l] + t, x) {
      TrimmedMeans(l, r, t, x);
    }
    OutcomeCons(c, n, r.location, r, t, r, [l] + t, ClashUnder(l, r, t), Clash(r, t));
    n := [c] + n;
  }

  lemma CutBefore(pre: seq<Region>, l: Region, c: Region, r: Region)
    requires AllBefore(pre, l.location) && c.location == l.location <= r.location
    ensures AllBefore(pre + [c], r.location)
  {
  }

  /** The old region is split around the one laid over it. */
  lemma UnderAround(pre: seq<Region>, l: Region, r: Region, t: seq<Region>) returns (n: seq<Region>)
    requires Under(l, r, t) && AllBefore(pre, l.location) && Outranks(r, l) && l.location < r.location
    requires r.End() < l.End()
    ensures Passes(pre, [l, r] + t, n, 3 + |t|) && Outcome(n, l.location, r, [l] + t, ClashUnder(l, r, t))
  {
    hide Passes, Outcome, At, Resolve, Insert, Laid;
    AtPair(l, t, 0);
    ResolveCases(l, r);
    ChainedBeyond(r, t);
    var c, rest := l.(size := r.location - l.location), From(l, r.End());
    InsertFront(t, rest);
    CleanCons(rest, t);
    var n' := DoneRun(pre + [c, r], [rest] + t);
    PassSplit(pre, l, r, t, [c, r], rest, c, r, [rest] + t, n', 1 + |t|);
    ConsDone(r, n', [rest] + t);
    ConsDone(c, [r] + n', [r] + ([rest] + t));
    n := [c, r] + n';
    assert n == [c] + ([r] + n');
    forall x ensures SameAt([c] + ([r] + ([rest] + t)), r, [l] + t, x) {
      AroundMeans(l, r, t, x);
    }
    OutcomeDone(n, [c] + ([r] + ([rest] + t)), r, [l] + t);
  }

  // The old regions before r.

  ghost predicate Behind(head: seq<Region>, r: Region, t: seq<Region>) {
    && head != [] && r.size > 0 && Clean(head + t) && (t != [] ==> r.Less(t[0]))
    && (forall a :: 0 <= a < |head| ==> !r.Less(head[a]))
  }

  lemma BehindOne(head: seq<Region>, r: Region, t: seq<Region>)
    requires Behind(head, r, t) && |head| == 1
    ensures head == [head[0]] && Under(head[0], r, t)
  {
    assert head == [head[0]];
    AtPair(head[0], t, 0);
  }

  /** Two old regions at the front: both end before r begins. */
  lemma BehindTwo(a: Region, b: Region, v: seq<Region>, r: Region, t: seq<Region>)
    requires Behind([a, b] + v, r, t)
    ensures a.size > 0 && b.size > 0 && a.End() <= b.location <= r.location
    ensures Clean([a, b] + (v + t)) && Behind([b] + v, r, t)
  {
    var head := [a, b] + v;
    assert head[0] == a && head[1] == b;
    assert head + t == [a, b] + (v + t);
    AtPairOf(a, [b] + (v + t), head + t);
    assert [b] + v + t == [b] + (v + t);
    forall c | 0 <= c < |[b] + v| ensures !r.Less(([b] + v)[c]) {
      assert head[c + 1] == ([b] + v)[c];
    }
    AtPair(b, v + t, 0);
  }

  lemma AtPairOf(b: Region, u: seq<Region>, s: seq<Region>)
    requires Clean(s) && s == [b] + u
    ensures Clean(u) && b.size > 0 && (u != [] ==> b.End() <= u[0].location)
  {
    AtPair(b, u, 0);
  }

  lemma BehindUnion(a: Region, b: Region, v: seq<Region>, r: Region, t: seq<Region>)
    requires Behind([a, b] + v, r, t) && a.kind == b.kind && a.End() == b.location
    ensures Behind([Union(a, b)] + v, r, t)
  {
    BehindTwo(a, b, v, r, t);
    JoinedClean(a, b, v + t);
    var head := [Union(a, b)] + v;
    assert head + t == [Union(a, b)] + (v + t);
    forall c | 0 <= c < |head| ensures !r.Less(head[c]) {
      if c > 0 {
        assert head[c] == ([a, b] + v)[c + 1];
      }
    }
  }

  lemma UnionMeansSame(a: Region, b: Region, v: seq<Region>, r: Region, t: seq<Region>, x: nat)
    requires a.kind == b.kind && a.End() == b.location
    ensures SameLaid(r, [Union(a, b)] + v + t, r, [a, b] + v + t, x)
  {
    JoinedAt(a, b, v + t, x);
    assert [Union(a, b)] + v + t == [Union(a, b)] + (v + t) && [a, b] + v + t == [a, b] + (v + t);
  }

  lemma FirstMeans(a: Region, b: Region, v: seq<Region>, r: Region, t: seq<Region>, x: nat)
    requires a.End() <= r.location
    ensures SameBefore(a, r, [b] + v + t, r, [a, b] + v + t, x)
  {
    AtCons(a, [b] + v + t, x);
    assert [a, b] + v + t == [a] + ([b] + v + t);
  }

  /** The pass from the old regions before r. */
  lemma {:induction false} OldRun(pre: seq<Region>, head: seq<Region>, r: Region,
      t: seq<Region>) returns (n: seq<Region>)
    requires head != [] && Behind(head, r, t) && AllBefore(pre, head[0].location)
    ensures Passes(pre, head + [r] + t, n, |head| + 1 + |t| + ExtraAfter(head, r, t))
    ensures Outcome(n, head[0].location, r, head + t, ClashUnder(head[|head| - 1], r, t))
    decreases 2 * |head|
  {
    hide Passes, Outcome, Behind, Laid, AllBefore, ClashUnder, Resolve, ExtraUnder;
    if |head| == 1 {
      BehindOne(head, r, t);
      n := UnderRun(pre, head[0], r, t);
      assert head + [r] + t == [head[0], r] + t;
    } else {
      var a, b, v := head[0], head[1], head[2..];
      assert head == [a, b] + v;
      BehindTwo(a, b, v, r, t);
      n := OldStep(pre, a, b, v, r, t);
    }
  }

  lemma {:induction false} OldStep(pre: seq<Region>, a: Region, b: Region, v: seq<Region>, r: Region,
      t: seq<Region>) returns (n: seq<Region>)
    requires Behind([a, b] + v, r, t) && AllBefore(pre, a.location)
    ensures Passes(pre, [a, b] + v + [r] + t, n, |v| + 3 + |t| + ExtraAfter([a, b] + v, r, t))
    ensures Outcome(n, a.location, r, [a, b] + v + t, ClashUnder(([a, b] + v)[|v| + 1], r, t))
    decreases 2 * |v| + 3
  {
    hide Passes, Outcome, Behind, Laid, AllBefore, Resolve, ClashUnder, ExtraAfter;
    BehindTwo(a, b, v, r, t);
    DoneStep(a, b);
    var u := v + [r] + t;
    AfterCons(a, b, v, r, t);
    assert [a, b] + v + [r] + t == [a, b] + u;
    if a.kind == b.kind && a.End() == b.location {
      var w := Union(a, b);
      BehindUnion(a, b, v, r, t);
      n := OldRun(pre, [w] + v, r, t);
      assert [w] + v + [r] + t == [w] + u;
      PassMerge(pre, a, b, u, w, n, |v| + 2 + |t| + ExtraAfter([w] + v, r, t));
      LastSame(a, b, v, r, t);
      forall x ensures SameLaid(r, [w] + v + t, r, [a, b] + v + t, x) {
        UnionMeansSame(a, b, v, r, t, x);
      }
      OutcomeSame(n, a.location, r, [w] + v + t, r, [a, b] + v + t,
                  ClashUnder(([a, b] + v)[|v| + 1], r, t), ClashUnder(([w] + v)[|v|], r, t));
    } else {
      CutBefore(pre, a, a, b);
      n := OldRun(pre + [a], [b] + v, r, t);
      assert [b] + v + [r] + t == [b] + u;
      PassAdvance(pre, a, b, u, a, b, n, |v| + 2 + |t| + ExtraAfter([b] + v, r, t));
      forall x ensures SameBefore(a, r, [b] + v + t, r, [a, b] + v + t, x) {
        FirstMeans(a, b, v, r, t, x);
      }
      assert ([a, b] + v)[|v| + 1] == ([b] + v)[|v|];
      OutcomeCons(a, n, b.location, r, [b] + v + t, r, [a, b] + v + t,
                  ClashUnder(([a, b] + v)[|v| + 1], r, t), ClashUnder(([b] + v)[|v|], r, t));
      n := [a] + n;
    }
  }

  /** Joining two regions leaves the kind and the end of the last one. */
  lemma LastSame(a: Region, b: Region, v: seq<Region>, r: Region, t: seq<Region>)
    requires a.kind == b.kind && a.End() == b.location
    ensures ClashUnder(([a, b] + v)[|v| + 1], r, t) == ClashUnder(([Union(a, b)] + v)[|v|], r, t)
  {
    if v != [] {
      assert ([a, b] + v)[|v| + 1] == ([Union(a, b)] + v)[|v|];
    }
  }

  // How far the list can grow.

  /** By no more than one for each higher-ranked region strictly inside. */
  lemma {:induction false} ExtraBound(r: Region, t: seq<Region>)
    requires Over(r, t)
    ensures Extra(r, t) <= Holes(r, t)
    decreases |t|, 0
  {
    hide Chained, Flush;
    if t != [] {
      var b, u := t[0], t[1..];
      CleanTail(t);
      assert t == [b] + u;
      if r.kind == b.kind && b.location <= r.End() {
        MergeClash(r, b, u);
        ExtraBound(Union(r, b), u);
      } else if Outranks(r, b) && b.location < r.End() && b.End() <= r.End() {
        LowerStarts(r, b, u);
        ExtraBound(r, u);
      } else if Outranks(b, r) && b.End() < r.End() {
        SplitBound(r, b, u);
      }
    }
  }

  lemma {:induction false} SplitBound(r: Region, b: Region, u: seq<Region>)
    requires Over(r, [b] + u) && Outranks(b, r) && b.End() < r.End()
    ensures Extra(r, [b] + u) <= Holes(r, [b] + u)
    decreases |u|, 2
  {
    hide Chained, Flush;
    assert ([b] + u)[0] == b && ([b] + u)[1..] == u;
    AtPair(b, u, 0);
    var rest := From(r, b.End());
    if r.location < b.location {
      if u == [] || rest.Less(u[0]) {
        SplitClash(r, b, u);
        ExtraBound(rest, u);
      } else {
        SplitClashBehind(r, b, u);
        UnderBound(u[0], rest, u[1..]);
      }
    } else if u != [] && !rest.Less(u[0]) {
      FlushOver([], r, b, u);
      FlushHoles(r, b, u);
      ExtraBound(rest, u[1..]);
    }
  }

  lemma {:induction false} UnderBound(l: Region, r: Region, t: seq<Region>)
    requires Under(l, r, t)
    ensures ExtraUnder(l, r, t) <= if l.location < r.location then Max(1, Holes(r, t)) else Holes(r, t)
    decreases |t|, 1
  {
    hide Chained, Flush, Extra, Holes;
    UnderOver([], l, r, t);
    ExtraBound(r, t);
    if l.kind == r.kind && r.location <= l.End() {
      UnionClash(l, r, t);
      ExtraBound(Union(l, r), t);
    } else if l.End() > r.location && Outranks(l, r) && l.End() < r.End() {
      ExtraBound(From(r, l.End()), t);
      HolesShrink(r, From(r, l.End()), t);
    }
  }

  /** ...or by one for a split around r. */
  lemma {:induction false} AfterBound(head: seq<Region>, r: Region, t: seq<Region>)
    requires Behind(head, r, t)
    ensures ExtraAfter(head, r, t) <= Max(1, Holes(r, t))
    decreases |head|
  {
    hide ExtraUnder, Holes;
    if |head| == 1 {
      BehindOne(head, r, t);
      UnderBound(head[0], r, t);
    } else {
      var a, b, v := head[0], head[1], head[2..];
      assert head == [a, b] + v;
      BehindTwo(a, b, v, r, t);
      AfterCons(a, b, v, r, t);
      if a.kind == b.kind && a.End() == b.location {
        BehindUnion(a, b, v, r, t);
        AfterBound([Union(a, b)] + v, r, t);
      } else {
        AfterBound([b] + v, r, t);
      }
    }
  }
}

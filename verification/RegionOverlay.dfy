/** What trimming does to a sorted list with one region laid over it, of whatever rank: either the list ends up
disjoint with the higher-ranked type everywhere, or a pair is stepped over and stays overlapping, and it is known
which. */
module RegionOverlay {
  import opened MemoryRegions

  ghost predicate Outranks(a: Region, r: Region) {
    a.kind.Rank() > r.kind.Rank()
  }

  /** The type of an address when r is laid over t: the higher-ranked of the two. */
  ghost function Laid(r: Region, t: seq<Region>, x: nat): Maybe {
    var o := At(t, x);
    if r.Holds(x) && !(o.Just? && o.kind.Rank() > r.kind.Rank()) then Just(r.kind) else o
  }

  /** Which of two types an address keeps: defective memory stays so, then device memory, then unavailable memory. */
  function Winner(a: MemoryType, b: MemoryType): MemoryType {
    if a == Defective || b == Defective then Defective
    else if a == Mmio || b == Mmio then Mmio
    else if a == Unavailable || b == Unavailable then Unavailable
    else Available
  }

  /** The type of x after a region of this kind was placed over t. */
  ghost function Overlaid(kind: MemoryType, location: nat, size: nat, t: seq<Region>, x: nat): Maybe {
    if !(location <= x < location + size) then At(t, x)
    else if At(t, x) == Nothing then Just(kind)
    else Just(Winner(kind, At(t, x).kind))
  }

  lemma LaidWins(kind: MemoryType, location: nat, size: nat, t: seq<Region>, x: nat)
    ensures Laid(Region(kind, location, size), t, x) == Overlaid(kind, location, size, t, x)
  {
  }

  ghost predicate Clean(t: seq<Region>) {
    NonEmpty(t) && SortedDisjoint(t)
  }

  /** r stands before the regions it may overlap. */
  ghost predicate Over(r: Region, t: seq<Region>) {
    r.size > 0 && Clean(t) && (t != [] ==> r.location <= t[0].location)
  }

  /** r stands behind one region it may overlap, in the order of insertion. */
  ghost predicate Under(l: Region, r: Region, t: seq<Region>) {
    && l.size > 0 && r.size > 0 && Clean([l] + t)
    && (l.location < r.location || (l.location == r.location && l.End() <= r.End()))
    && (t != [] ==> r.Less(t[0]))
  }

  /** r begins with a higher-ranked region and reaches past it into the next one: the part of r that is inserted anew
  is then stepped over. */
  ghost predicate Flush(r: Region, t: seq<Region>) {
    |t| >= 2 && t[0].location == r.location && Outranks(t[0], r) && t[0].End() < r.End() && t[1].location < r.End()
  }

  /** Three touching higher-ranked regions inside r and a fourth one that r reaches: r is cut flush at the third. */
  ghost predicate Chained(r: Region, t: seq<Region>) {
    |t| >= 4 && (Chained(r, t[1..]) || Trio(r, t[0], t[1], t[2], t[3]))
  }

  ghost predicate Trio(r: Region, a: Region, b: Region, c: Region, d: Region) {
    && Outranks(a, r) && Outranks(b, r) && Outranks(c, r) && a.End() == b.location && b.End() == c.location
    && c.End() < r.End() && d.location < r.End()
  }

  ghost predicate Clash(r: Region, t: seq<Region>) {
    Flush(r, t) || Chained(r, t)
  }

  /** What is left of r behind an end. */
  function From(r: Region, e: nat): Region
    requires r.location <= e <= r.End()
  {
    Region(r.kind, e, r.End() - e)
  }

  ghost predicate ClashUnder(l: Region, r: Region, t: seq<Region>) {
    if l.End() > r.location && Outranks(l, r)
    then r.location <= l.End() < r.End() && Clash(From(r, l.End()), t)
    else Chained(r, t)
  }

  /** How many higher-ranked regions lie strictly inside r. */
  ghost function Holes(r: Region, t: seq<Region>): nat {
    if t == [] then 0
    else (if Outranks(t[0], r) && r.location < t[0].location && t[0].End() < r.End() then 1 else 0) + Holes(r, t[1..])
  }

  /** One less, if anything is left. */
  function Fewer(e: nat): nat {
    if e == 0 then 0 else e - 1
  }

  /** How far the list grows while a region laid before t is trimmed: by one for each split, and every join or removal
  before a split leaves a place for it. */
  ghost function Extra(r: Region, t: seq<Region>): nat
    decreases |t|, 0
  {
    if t == [] then 0
    else
      var b, u := t[0], t[1..];
      if r.kind == b.kind && b.location <= r.End() then Fewer(Extra(Union(r, b), u))
      else if Outranks(r, b) && b.location < r.End() && b.End() <= r.End() then Fewer(Extra(r, u))
      else if Outranks(b, r) && r.location < b.location && b.End() < r.End() then
        var rest := From(r, b.End());
        1 + if u == [] || rest.Less(u[0]) then Extra(rest, u) else ExtraUnder(u[0], rest, u[1..])
      else if Outranks(b, r) && r.location == b.location && b.End() < r.End() then
        var rest := From(r, b.End());
        if u == [] || rest.Less(u[0]) then 0 else Extra(rest, u[1..])
      else 0
  }

  /** The same from a region l that stands before the one laid over it. */
  ghost function ExtraUnder(l: Region, r: Region, t: seq<Region>): nat
    decreases |t|, 1
  {
    if l.kind == r.kind && r.location <= l.End() then Fewer(Extra(Union(l, r), t))
    else if l.End() <= r.location then Extra(r, t)
    else if Outranks(l, r) then if r.End() <= l.End() then 0 else Extra(From(r, l.End()), t)
    else if l.location == r.location then Fewer(Extra(r, t))
    else if l.End() <= r.End() then Extra(r, t)
    else 1
  }

  /** The same from the old regions before r. */
  ghost function ExtraAfter(head: seq<Region>, r: Region, t: seq<Region>): nat
    requires head != []
    decreases |head|
  {
    if |head| == 1 then ExtraUnder(head[0], r, t)
    else if head[0].kind == head[1].kind && head[0].End() == head[1].location then
      Fewer(ExtraAfter([Union(head[0], head[1])] + head[2..], r, t))
    else ExtraAfter(head[1..], r, t)
  }

  // Lists by their heads.

  lemma AtCons(a: Region, t: seq<Region>, x: nat)
    ensures At([a] + t, x) == if a.Holds(x) then Just(a.kind) else At(t, x)
  {
    assert ([a] + t)[1..] == t;
  }

  lemma CleanCons(a: Region, t: seq<Region>)
    requires NonEmpty(t) && a.size > 0
    ensures NonEmpty([a] + t)
    ensures SortedDisjoint([a] + t) <==> SortedDisjoint(t) && (t != [] ==> a.End() <= t[0].location)
  {
    var s := [a] + t;
    assert forall i :: 0 <= i < |t| ==> s[i + 1] == t[i];
    if SortedDisjoint(t) && (t != [] ==> a.End() <= t[0].location) {
      forall i, j | 0 <= i < j < |s| ensures s[i].End() <= s[j].location {
        if i == 0 && j > 1 {
          assert t[0].End() <= t[j - 1].location;
        }
      }
    }
    if SortedDisjoint(s) {
      forall i, j | 0 <= i < j < |t| ensures t[i].End() <= t[j].location {
        assert s[i + 1].End() <= s[j + 1].location;
      }
      assert t != [] ==> s[0].End() <= s[1].location;
    }
  }

  lemma CleanTail(t: seq<Region>)
    requires Clean(t) && t != []
    ensures Clean(t[1..]) && t == [t[0]] + t[1..] && t[0].size > 0
    ensures |t| > 1 ==> t[0].End() <= t[1..][0].location && t[1..][0] == t[1]
  {
  }

  /** A clean list says nothing below its first region. */
  lemma {:induction false} AtBelow(t: seq<Region>, x: nat)
    requires Clean(t) && (t != [] ==> x < t[0].location)
    ensures At(t, x) == Nothing
  {
    if t != [] {
      CleanTail(t);
      AtBelow(t[1..], x);
    }
  }

  lemma {:induction false} ChainedBeyond(r: Region, t: seq<Region>)
    requires Clean(t) && (t != [] ==> r.End() <= t[0].location)
    ensures !Chained(r, t) && !Flush(r, t) && Holes(r, t) == 0
  {
    if t != [] {
      CleanTail(t);
      ChainedBeyond(r, t[1..]);
    }
  }

  /** Only the kind and the end of r matter to a chain. */
  lemma {:induction false} ChainedSame(r: Region, q: Region, t: seq<Region>)
    requires r.kind == q.kind && r.End() == q.End()
    ensures Chained(r, t) == Chained(q, t)
  {
    if |t| >= 4 {
      ChainedSame(r, q, t[1..]);
    }
  }

  lemma {:induction false} HolesShrink(r: Region, q: Region, t: seq<Region>)
    requires q.kind == r.kind && r.location <= q.location && q.End() <= r.End()
    ensures Holes(q, t) <= Holes(r, t)
  {
    if t != [] {
      HolesShrink(r, q, t[1..]);
    }
  }

  lemma {:induction false} HolesSame(r: Region, q: Region, t: seq<Region>)
    requires q.kind == r.kind && q.End() == r.End() && Clean(t)
    requires t != [] ==> r.location < t[0].location && q.location < t[0].location
    ensures Holes(q, t) == Holes(r, t)
  {
    if t != [] {
      CleanTail(t);
      HolesSame(r, q, t[1..]);
    }
  }

  // One step of the pass, as lists.

  lemma Continue(m: seq<Region>, i: nat)
    requires Trim(m, i).1 >= 0
    ensures TrimAll(m, i) == TrimAll(Trim(m, i).0, Trim(m, i).1)
    ensures Peak(m, i) == Max(|m|, Peak(Trim(m, i).0, Trim(m, i).1))
  {
    hide Trim;
  }

  /** A trim rewrites the pair at its index and inserts the rest. */
  lemma TrimAt(pre: seq<Region>, a: Region, b: Region, t: seq<Region>, p: Resolution)
    requires Resolve(a, b) == p
    ensures p.rest == [] ==> Trim(pre + [a, b] + t, |pre|).0 == pre + p.mid + t
    ensures p.rest != [] ==> Trim(pre + [a, b] + t, |pre|).0 == Insert(pre + p.mid + t, p.rest[0])
    ensures Trim(pre + [a, b] + t, |pre|).1 == |pre| + p.step
  {
    hide Resolve, Insert;
    var m := pre + [a, b] + t;
    assert m[|pre|] == a && m[|pre| + 1] == b && m[..|pre|] == pre && m[|pre| + 2..] == t;
  }

  lemma StepMerge(pre: seq<Region>, a: Region, b: Region, t: seq<Region>, u: Region)
    requires Resolve(a, b) == Resolution([u], [], 0)
    ensures TrimAll(pre + [a, b] + t, |pre|) == TrimAll(pre + [u] + t, |pre|)
    ensures Peak(pre + [a, b] + t, |pre|) == Max(|pre| + 2 + |t|, Peak(pre + [u] + t, |pre|))
  {
    hide Resolve, Trim, TrimAll, Peak;
    TrimAt(pre, a, b, t, Resolution([u], [], 0));
    Continue(pre + [a, b] + t, |pre|);
  }

  lemma StepAdvance(pre: seq<Region>, a: Region, b: Region, t: seq<Region>, c: Region, d: Region)
    requires Resolve(a, b) == Resolution([c, d], [], 1)
    ensures TrimAll(pre + [a, b] + t, |pre|) == TrimAll((pre + [c]) + [d] + t, |pre| + 1)
    ensures Peak(pre + [a, b] + t, |pre|) == Max(|pre| + 2 + |t|, Peak((pre + [c]) + [d] + t, |pre| + 1))
  {
    hide Resolve, Trim, TrimAll, Peak;
    TrimAt(pre, a, b, t, Resolution([c, d], [], 1));
    assert pre + [c, d] + t == (pre + [c]) + [d] + t;
    Continue(pre + [a, b] + t, |pre|);
  }

  lemma StepSplit(pre: seq<Region>, a: Region, b: Region, t: seq<Region>, mid: seq<Region>, rest: Region)
    requires Resolve(a, b) == Resolution(mid, [rest], 2)
    requires forall e :: e in pre + mid ==> !rest.Less(e)
    ensures var n := pre + mid + Insert(t, rest);
      && TrimAll(pre + [a, b] + t, |pre|) == TrimAll(n, |pre| + 2)
      && Peak(pre + [a, b] + t, |pre|) == Max(|pre| + 2 + |t|, Peak(n, |pre| + 2))
  {
    hide Resolve, Trim, TrimAll, Peak, Insert;
    TrimAt(pre, a, b, t, Resolution(mid, [rest], 2));
    InsertBehind(pre + mid, t, rest);
    Continue(pre + [a, b] + t, |pre|);
  }

  lemma {:induction false} InsertBehind(pre: seq<Region>, t: seq<Region>, r: Region)
    requires forall e :: e in pre ==> !r.Less(e)
    ensures Insert(pre + t, r) == pre + Insert(t, r)
  {
    if pre == [] {
      assert pre + t == t;
    } else {
      assert (pre + t)[0] == pre[0] && (pre + t)[1..] == pre[1..] + t;
      assert !r.Less(pre[0]);
      InsertBehind(pre[1..], t, r);
    }
  }

  /** A region less than the first one of a clean list goes to its front. */
  lemma {:induction false} InsertFront(t: seq<Region>, r: Region)
    requires Clean(t) && (t != [] ==> r.Less(t[0]))
    ensures Insert(t, r) == [r] + t
  {
    if t != [] {
      CleanTail(t);
      InsertFront(t[1..], t[0]);
    }
  }

  lemma InsertSecond(t: seq<Region>, r: Region)
    requires Clean(t) && t != [] && !r.Less(t[0]) && r.location == t[0].location
    ensures Insert(t, r) == [t[0], r] + t[1..]
  {
    CleanTail(t);
    InsertFront(t[1..], r);
  }

  /** The insertion loop puts a region before the first greater one. */
  lemma InsertPlaces(m: seq<Region>, r: Region, p: nat)
    requires Clean(m) && p <= |m|
    requires forall a :: 0 <= a < p ==> !r.Less(m[a])
    requires p < |m| ==> r.Less(m[p])
    ensures Insert(m, r) == m[..p] + [r] + m[p..] && Clean(m[p..])
  {
    assert m == m[..p] + m[p..];
    forall e | e in m[..p] ensures !r.Less(e) {
    }
    InsertBehind(m[..p], m[p..], r);
    InsertFront(m[p..], r);
  }
}

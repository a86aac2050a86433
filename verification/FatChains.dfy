/** Cluster chains in a FAT and their growth, over the sequence of FAT entry values. */
module FatChains {
  import opened Sequences

  datatype EntryType = End | Free | Reserved | Allocated | Defective

  const EndMark: nat := 0xFFFF_FFFF

  /** What a 32-bit entry value stands for on a volume of so many clusters; all but the end mark and the allocation
  bound look at the low 28 bits only. */
  function TypeOf(val: nat, clusters: nat): EntryType {
    if val == EndMark then End
    else if val % 0x1000_0000 == 0 then Free
    else if val % 0x1000_0000 == 0xFFF_FFFE then Defective
    else if val < clusters then Allocated
    else Reserved
  }

  /** A walk goes on at a value exactly when it is a cluster number. */
  lemma GoesOn(val: nat, clusters: nat)
    requires clusters <= 0x1000_0000 - 16
    ensures TypeOf(val, clusters) == Allocated <==> 0 < val < clusters
  {
  }

  ghost predicate Terminal(val: nat, clusters: nat) {
    TypeOf(val, clusters) != Allocated && TypeOf(val, clusters) != Free
  }

  /** cs is a whole chain of the table: linked entry by entry and ended. */
  ghost predicate Chain(fat: seq<nat>, clusters: nat, cs: seq<nat>) {
    && cs != []
    && (forall i :: 0 <= i < |cs| ==> cs[i] < |fat| && TypeOf(cs[i], clusters) == Allocated)
    && (forall i :: 0 <= i < |cs| - 1 ==> fat[cs[i]] == cs[i + 1])
    && Terminal(fat[cs[|cs| - 1]], clusters)
  }

  /** The entries from a start on, up to one whose value is not a cluster number. */
  ghost predicate Path(fat: seq<nat>, clusters: nat, cs: seq<nat>) {
    && cs != [] && cs[0] < |fat|
    && (forall i :: 1 <= i < |cs| ==> cs[i] < |fat| && TypeOf(cs[i], clusters) == Allocated)
    && (forall i :: 0 <= i < |cs| - 1 ==> fat[cs[i]] == cs[i + 1])
    && TypeOf(fat[cs[|cs| - 1]], clusters) != Allocated
  }

  /** A chain followed by its end value is no chain. */
  lemma EndValueSpoils(fat: seq<nat>, clusters: nat, cs: seq<nat>)
    requires Chain(fat, clusters, cs)
    ensures !Chain(fat, clusters, cs + [fat[cs[|cs| - 1]]])
  {
    var list := cs + [fat[cs[|cs| - 1]]];
    assert TypeOf(list[|cs|], clusters) != Allocated;
  }

  /** Equal clusters at two places of a chain have equal continuations, so one of them could not end. */
  lemma {:induction false} SameTail(fat: seq<nat>, clusters: nat, cs: seq<nat>, i: nat, j: nat)
    requires Chain(fat, clusters, cs) && i < j < |cs| && cs[i] == cs[j]
    ensures false
    decreases |cs| - j
  {
    assert TypeOf(cs[i + 1], clusters) == Allocated && fat[cs[i]] == cs[i + 1];
    if j + 1 < |cs| {
      assert fat[cs[j]] == cs[j + 1];
      SameTail(fat, clusters, cs, i + 1, j + 1);
    }
  }

  /** A chain visits no cluster twice. */
  lemma ChainAcyclic(fat: seq<nat>, clusters: nat, cs: seq<nat>)
    requires Chain(fat, clusters, cs)
    ensures Distinct(cs)
  {
    forall i, j | 0 <= i < j < |cs| ensures cs[i] != cs[j] {
      if cs[i] == cs[j] {
        SameTail(fat, clusters, cs, i, j);
      }
    }
  }

  /** The first free entry from 2 on below the limit, or 0. */
  function FirstFree(fat: seq<nat>, clusters: nat, limit: nat): (f: nat)
    requires limit <= |fat|
    ensures f == 0 <==> forall i :: 2 <= i < limit ==> TypeOf(fat[i], clusters) != Free
    ensures f != 0 ==> 2 <= f < limit && TypeOf(fat[f], clusters) == Free
    ensures f != 0 ==> forall i :: 2 <= i < f ==> TypeOf(fat[i], clusters) != Free
  {
    FirstFreeFrom(fat, clusters, limit, 2)
  }

  function FirstFreeFrom(fat: seq<nat>, clusters: nat, limit: nat, k: nat): (f: nat)
    requires limit <= |fat| && k >= 2
    ensures f == 0 <==> forall i :: k <= i < limit ==> TypeOf(fat[i], clusters) != Free
    ensures f != 0 ==> k <= f < limit && TypeOf(fat[f], clusters) == Free
    ensures f != 0 ==> forall i :: k <= i < f ==> TypeOf(fat[i], clusters) != Free
    decreases limit - k
  {
    if k >= limit then 0
    else if TypeOf(fat[k], clusters) == Free then k
    else FirstFreeFrom(fat, clusters, limit, k + 1)
  }

  datatype Growth = Growth(fat: seq<nat>, list: seq<nat>, done: bool)

  /** The rounds of cluster allocation from the entry cur on, and the end mark on the last pick. */
  function Rounds(fat: seq<nat>, clusters: nat, limit: nat, cur: nat, list: seq<nat>, n: nat): (g: Growth)
    requires limit <= |fat| && cur < |fat|
    ensures |g.fat| == |fat|
    decreases n
  {
    var f := FirstFree(fat, clusters, limit);
    if n == 0 then Growth(fat[cur := EndMark], list, true)
    else if f == 0 then Growth(fat[cur := EndMark], list, false)
    else Rounds(fat[cur := f], clusters, limit, f, list + [f], n - 1)
  }

  /** Every value the search can return is a valid cluster number. */
  ghost predicate Searchable(fat: seq<nat>, clusters: nat, limit: nat) {
    limit <= clusters <= |fat| && clusters <= 0x1000_0000 - 16
  }

  lemma PickAllocated(f: nat, clusters: nat)
    requires 2 <= f < clusters <= 0x1000_0000 - 16
    ensures TypeOf(f, clusters) == Allocated
  {
  }

  /** One round appends a cluster that was free to the chain, and no other chain changes. */
  lemma RoundExtends(fat: seq<nat>, clusters: nat, cs: seq<nat>, f: nat)
    requires Chain(fat, clusters, cs) && 2 <= f < |fat| && f < clusters <= 0x1000_0000 - 16
    requires TypeOf(fat[f], clusters) == Free
    ensures Chain(fat[cs[|cs| - 1] := f][f := EndMark], clusters, cs + [f])
  {
    ChainAcyclic(fat, clusters, cs);
    PickAllocated(f, clusters);
    FreeOutside(fat, clusters, cs, f);
    var l, g, ds := cs[|cs| - 1], fat[cs[|cs| - 1] := f][f := EndMark], cs + [f];
    forall i | 0 <= i < |ds| - 1 ensures g[ds[i]] == ds[i + 1] {
      assert ds[i] == cs[i];
    }
    assert g[ds[|ds| - 1]] == EndMark;
  }

  /** A free entry lies on no chain. */
  lemma FreeOutside(fat: seq<nat>, clusters: nat, cs: seq<nat>, f: nat)
    requires Chain(fat, clusters, cs) && f < |fat| && TypeOf(fat[f], clusters) == Free
    ensures f !in cs
  {
    forall i | 0 <= i < |cs| ensures TypeOf(fat[cs[i]], clusters) != Free {
      if i < |cs| - 1 {
        assert fat[cs[i]] == cs[i + 1];
      }
    }
  }

  /** A chain is untouched by writes outside of it. */
  lemma OtherChain(fat: seq<nat>, g: seq<nat>, clusters: nat, ds: seq<nat>)
    requires Chain(fat, clusters, ds) && |g| == |fat| && forall i :: 0 <= i < |ds| ==> g[ds[i]] == fat[ds[i]]
    ensures Chain(g, clusters, ds)
  {
  }

  /** The cluster lists of all files: each empty or a whole chain, no two sharing a cluster. */
  ghost predicate Files(fat: seq<nat>, clusters: nat, files: seq<seq<nat>>) {
    && (forall a :: 0 <= a < |files| ==> files[a] == [] || Chain(fat, clusters, files[a]))
    && Disjoint(files)
  }

  ghost predicate Disjoint(files: seq<seq<nat>>) {
    forall a, b :: 0 <= a < |files| && 0 <= b < |files| && a != b ==> Apart(files[a], files[b])
  }

  ghost predicate Apart(cs: seq<nat>, ds: seq<nat>) {
    forall i :: 0 <= i < |cs| ==> cs[i] !in ds
  }

  /** Appending a cluster on no list keeps the lists disjoint. */
  lemma AppendDisjoint(files: seq<seq<nat>>, a: nat, f: nat)
    requires Disjoint(files) && a < |files| && forall b :: 0 <= b < |files| && b != a ==> f !in files[b]
    ensures Disjoint(files[a := files[a] + [f]])
  {
    var after := files[a := files[a] + [f]];
    forall b, c | 0 <= b < |files| && 0 <= c < |files| && b != c ensures Apart(after[b], after[c]) {
      assert Apart(files[b], files[c]);
    }
  }

  /** Allocating clusters for a file: a first one when it has none, then the rounds. */
  function Allocate(fat: seq<nat>, clusters: nat, limit: nat, list: seq<nat>, n: nat): (g: Growth)
    requires limit <= |fat| && n > 0 && (list != [] ==> list[|list| - 1] < |fat|)
    ensures |g.fat| == |fat|
  {
    if list != [] then Rounds(fat, clusters, limit, list[|list| - 1], list, n)
    else
      var f := FirstFree(fat, clusters, limit);
      if f == 0 then Growth(fat, list, false) else Rounds(fat[f := EndMark], clusters, limit, f, [f], n - 1)
  }

  /** Whatever the list is, no cluster is appended when none is free, and asking for one appends the first free one. */
  lemma FirstRound(fat: seq<nat>, clusters: nat, limit: nat, list: seq<nat>, n: int)
    requires limit <= |fat|
    ensures var f := FirstFree(fat, clusters, limit);
      && (n > 0 && (list != [] ==> list[|list| - 1] < |fat|) ==>
            var g := Allocate(fat, clusters, limit, list, n);
            (f == 0 ==> !g.done && g.list == list) && (n == 1 && f != 0 ==> g.done && g.list == list + [f]))
      && (n > 0 ==>
            var g := AllocateBehindEnd(fat, clusters, limit, list, n);
            (f == 0 ==> !g.done && g.list == list) && (n == 1 && f != 0 ==> g.done && g.list == list + [f]))
  {
    hide FirstFree;
    var f := FirstFree(fat, clusters, limit);
    if n == 1 && f != 0 && f < |fat| {
      if list != [] && list[|list| - 1] < |fat| {
        assert Rounds(fat[list[|list| - 1] := f], clusters, limit, f, list + [f], 0).done;
      }
    }
  }

  /** Allocating one cluster either fails with every chain as it was, or appends a cluster that was free; entries
  other than the old last one and the new one keep their values. */
  lemma AllocateOne(fat: seq<nat>, clusters: nat, limit: nat, list: seq<nat>)
    requires Searchable(fat, clusters, limit) && (list == [] || Chain(fat, clusters, list))
    ensures var g := Allocate(fat, clusters, limit, list, 1); var f := FirstFree(fat, clusters, limit);
      && (g.done <==> f != 0)
      && g.list == (if g.done then list + [f] else list)
      && (g.list == [] || Chain(g.fat, clusters, g.list))
      && (forall i :: 0 <= i < |fat| && i != f && (list == [] || i != list[|list| - 1]) ==> g.fat[i] == fat[i])
      && (list != [] && TypeOf(fat[list[|list| - 1]], clusters) == End && !g.done ==> g.fat == fat)
  {
    var f := FirstFree(fat, clusters, limit);
    if list == [] {
      if f != 0 {
        PickAllocated(f, clusters);
        assert fat[f := EndMark][f := EndMark] == fat[f := EndMark];
      }
    } else {
      ChainAcyclic(fat, clusters, list);
      if f == 0 {
        EndOnly(fat, clusters, list);
      } else {
        RoundExtends(fat, clusters, list, f);
        var l := list[|list| - 1];
        assert Rounds(fat[l := f], clusters, limit, f, list + [f], 0).fat == fat[l := f][f := EndMark];
      }
    }
  }

  lemma EndOnly(fat: seq<nat>, clusters: nat, cs: seq<nat>)
    requires Chain(fat, clusters, cs)
    ensures Chain(fat[cs[|cs| - 1] := EndMark], clusters, cs)
  {
    ChainAcyclic(fat, clusters, cs);
  }

  /** Growing any file by one keeps all chains whole, acyclic and pairwise disjoint. */
  lemma AllocateKeepsFiles(fat: seq<nat>, clusters: nat, limit: nat, files: seq<seq<nat>>, a: nat)
    requires Searchable(fat, clusters, limit) && Files(fat, clusters, files) && a < |files|
    ensures var g := Allocate(fat, clusters, limit, files[a], 1); Files(g.fat, clusters, files[a := g.list])
  {
    hide Allocate, FirstFree, Disjoint;
    var g := Allocate(fat, clusters, limit, files[a], 1);
    var f := FirstFree(fat, clusters, limit);
    AllocateOne(fat, clusters, limit, files[a]);
    forall b | 0 <= b < |files| && b != a ensures f !in files[b] && (files[b] == [] || Chain(g.fat, clusters,
        files[b])) {
      if files[b] != [] {
        OthersKept(fat, clusters, limit, files, a, b);
      }
    }
    if g.done {
      AppendDisjoint(files, a, f);
    } else {
      assert files[a := g.list] == files;
    }
  }

  lemma OthersKept(fat: seq<nat>, clusters: nat, limit: nat, files: seq<seq<nat>>, a: nat, b: nat)
    requires Searchable(fat, clusters, limit) && Files(fat, clusters, files) && a < |files| && b < |files| && a != b
    requires files[b] != []
    ensures var f := FirstFree(fat, clusters, limit); f !in files[b]
    ensures Chain(Allocate(fat, clusters, limit, files[a], 1).fat, clusters, files[b])
  {
    hide Allocate, FirstFree;
    var f := FirstFree(fat, clusters, limit);
    AllocateOne(fat, clusters, limit, files[a]);
    assert Chain(fat, clusters, files[b]) && Apart(files[b], files[a]);
    hide Files, Disjoint;
    if f != 0 {
      FreeOutside(fat, clusters, files[b], f);
    }
    forall i | 0 <= i < |files[b]| ensures files[b][i] != f && (files[a] == []
        || files[b][i] != files[a][|files[a]| - 1]) {
      assert TypeOf(files[b][i], clusters) == Allocated;
    }
    OtherChain(fat, Allocate(fat, clusters, limit, files[a], 1).fat, clusters, files[b]);
  }

  /** The list only ever grows during the rounds. */
  lemma {:induction false} RoundsExtend(fat: seq<nat>, clusters: nat, limit: nat, cur: nat, list: seq<nat>, n: nat)
    requires limit <= |fat| && cur < |fat|
    ensures list <= Rounds(fat, clusters, limit, cur, list, n).list
    decreases n
  {
    var f := FirstFree(fat, clusters, limit);
    if n > 0 && f != 0 {
      RoundsExtend(fat[cur := f], clusters, limit, f, list + [f], n - 1);
    }
  }

  /** Asking for two rounds or more picks the same free cluster twice, because the first pick is not yet marked. */
  lemma SamePickTwice(fat: seq<nat>, clusters: nat, limit: nat, cur: nat, list: seq<nat>, n: nat)
    requires Searchable(fat, clusters, limit) && cur < |fat| && Terminal(fat[cur], clusters) && n >= 2
    requires FirstFree(fat, clusters, limit) != 0
    ensures var f := FirstFree(fat, clusters, limit); list + [f, f] <= Rounds(fat, clusters, limit, cur, list, n).list
  {
    var f := FirstFree(fat, clusters, limit);
    var g := fat[cur := f];
    PickAllocated(f, clusters);
    assert FirstFree(g, clusters, limit) == f by {
      assert g[f] == fat[f];
      assert forall i :: 2 <= i < f ==> TypeOf(g[i], clusters) != Free;
    }
    var h := g[f := f];
    RoundsExtend(h, clusters, limit, f, list + [f] + [f], n - 2);
    assert list + [f] + [f] == list + [f, f];
  }

  /** For a file that has clusters, asking for n more leaves its list a chain exactly when n is one or nothing is
  free. */
  lemma AllocateExact(fat: seq<nat>, clusters: nat, limit: nat, list: seq<nat>, n: nat)
    requires Searchable(fat, clusters, limit) && Chain(fat, clusters, list) && n > 0
    ensures var g := Allocate(fat, clusters, limit, list, n);
      Chain(g.fat, clusters, g.list) <==> n == 1 || FirstFree(fat, clusters, limit) == 0
  {
    var f := FirstFree(fat, clusters, limit);
    var g := Allocate(fat, clusters, limit, list, n);
    if f == 0 {
      EndOnly(fat, clusters, list);
    } else if n == 1 {
      AllocateOne(fat, clusters, limit, list);
    } else {
      SamePickTwice(fat, clusters, limit, list[|list| - 1], list, n);
      assert g.list[|list|] == (list + [f, f])[|list|] == g.list[|list| + 1];
      if Chain(g.fat, clusters, g.list) {
        ChainAcyclic(g.fat, clusters, g.list);
      }
    }
  }

  /** The same for a file without clusters, whose first one is marked at once: two are safe, three are not. */
  lemma AllocateFirstExact(fat: seq<nat>, clusters: nat, limit: nat, n: nat)
    requires Searchable(fat, clusters, limit) && n > 0 && FirstFree(fat, clusters, limit) != 0
    ensures var g := Allocate(fat, clusters, limit, [], n); var f := FirstFree(fat, clusters, limit);
      Chain(g.fat, clusters, g.list) <==> n <= 2 || FirstFree(fat[f := EndMark], clusters, limit) == 0
  {
    var f := FirstFree(fat, clusters, limit);
    AllocateOne(fat, clusters, limit, []);
    var one := fat[f := EndMark];
    assert one[f := EndMark] == one;
    assert Chain(one, clusters, [f]);
    if n > 1 {
      AllocateExact(one, clusters, limit, [f], n - 1);
    }
  }

  /** Growing a list that ends in the end value, read as -1: the first pick is written before the table, so no entry
  links to it, and only later picks are linked. */
  function AllocateBehindEnd(fat: seq<nat>, clusters: nat, limit: nat, list: seq<nat>, n: nat): (g: Growth)
    requires limit <= |fat| && n > 0
    ensures |g.fat| == |fat|
  {
    var f := FirstFree(fat, clusters, limit);
    if f == 0 then Growth(fat, list, false) else Rounds(fat, clusters, limit, f, list + [f], n - 1)
  }

  /** Growing a reopened file of two or more clusters by one: the cluster picked is marked as an end, but the file's
  chain on disk does not reach it. */
  lemma GrowthDetached(fat: seq<nat>, clusters: nat, limit: nat, cs: seq<nat>)
    requires Searchable(fat, clusters, limit) && Chain(fat, clusters, cs) && FirstFree(fat, clusters, limit) != 0
    ensures var f, g := FirstFree(fat, clusters, limit), AllocateBehindEnd(fat, clusters, limit, cs + [EndMark], 1);
      && g.done && g.list == cs + [EndMark, f] && g.fat == fat[f := EndMark] && f !in cs
      && Chain(g.fat, clusters, cs) && !Chain(g.fat, clusters, g.list)
  {
    var f, g := FirstFree(fat, clusters, limit), AllocateBehindEnd(fat, clusters, limit, cs + [EndMark], 1);
    FreeOutside(fat, clusters, cs, f);
    assert g.list == cs + [EndMark] + [f] == cs + [EndMark, f];
    OtherChain(fat, g.fat, clusters, cs);
    assert g.list[|cs|] == EndMark;
  }

  /** A table of five entries with one chain [2] and two free entries: asking for two more clusters lists cluster 3
  twice. */
  lemma TwoPicksCollide()
    ensures var fat: seq<nat> := [1, 1, EndMark, 0, 0];
      && Searchable(fat, 5, 5) && Chain(fat, 5, [2]) && Allocate(fat, 5, 5, [2], 2).list == [2, 3, 3]
      && !Chain(Allocate(fat, 5, 5, [2], 2).fat, 5, Allocate(fat, 5, 5, [2], 2).list)
  {
    var fat: seq<nat> := [1, 1, EndMark, 0, 0];
    var g := Allocate(fat, 5, 5, [2], 2);
    assert FirstFree(fat, 5, 5) == 3;
    SamePickTwice(fat, 5, 5, 2, [2], 2);
    RoundsLength(fat, 5, 5, 2, [2], 2);
    assert [2] + [3, 3] == [2, 3, 3];
    AllocateExact(fat, 5, 5, [2], 2);
  }

  lemma {:induction false} RoundsLength(fat: seq<nat>, clusters: nat, limit: nat, cur: nat, list: seq<nat>, n: nat)
    requires limit <= |fat| && cur < |fat|
    ensures |Rounds(fat, clusters, limit, cur, list, n).list| <= |list| + n
    decreases n
  {
    var f := FirstFree(fat, clusters, limit);
    if n > 0 && f != 0 {
      RoundsLength(fat[cur := f], clusters, limit, f, list + [f], n - 1);
    }
  }
}

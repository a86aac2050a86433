/** What callers of the page allocator can observe over whole runs: which blocks are free, which are reserved, and the
free-page counter. */
module BlockPools {
  import opened Powers
  import opened BuddyBlocks

  datatype Pool = Pool(free: Blocks, live: Blocks, count: nat)

  datatype Event =
    | Grant(index: nat, order: nat)
    | Refuse(order: nat)
    | Release(index: nat)

  /** Free blocks are canonical, reservations aligned and disjoint, and no page is both free and reserved. */
  ghost predicate Healthy(top: nat, s: Pool) {
    && Canonical(s.free, top) && Separate(s.live, top)
    && PageSet(s.free, top) !! PageSet(s.live, top)
  }

  ghost predicate Next(top: nat, s: Pool, e: Event, t: Pool) {
    match e
    case Grant(i, k) =>
      && Fits(i, k, top) && BlockPages(i, k) <= PageSet(s.free, top)
      && PageSet(t.free, top) == PageSet(s.free, top) - BlockPages(i, k)
      && i !in s.live && t.live == s.live[i := k]
      && t.count == s.count - Pow2(k)
    case Refuse(k) =>
      t == s && forall i :: i in s.free ==> s.free[i] < k
    case Release(i) =>
      && i in s.live && t.live == s.live - {i}
      && PageSet(t.free, top) == PageSet(s.free, top) + BlockPages(i, s.live[i])
      && t.count == s.count + Pow2(s.live[i])
  }

  /** A run of the allocator: every state is healthy and each event leads to the next state. */
  ghost predicate Run(top: nat, states: seq<Pool>, events: seq<Event>) {
    && |states| == |events| + 1
    && (forall n :: 0 <= n < |states| ==> Healthy(top, states[n]))
    && (forall n {:trigger events[n]} :: 0 <= n < |events| ==> Next(top, states[n], events[n], states[n + 1]))
  }

  /** The pages under the allocator's control. */
  ghost function Supply(top: nat, s: Pool): set<nat> {
    PageSet(s.free, top) + PageSet(s.live, top)
  }

  lemma StepKeepsSupply(top: nat, s: Pool, e: Event, t: Pool)
    requires Healthy(top, s) && Healthy(top, t) && Next(top, s, e, t)
    ensures Supply(top, t) == Supply(top, s)
    ensures t.count - |PageSet(t.free, top)| == s.count - |PageSet(s.free, top)|
  {
    hide Canonical, Separate, Fits, PageSet, BlockPages;
    match e
    case Grant(i, k) =>
      AddSeparateSafe(s, top, i, k);
      CountBlock(PageSet(t.free, top), i, k);
      MovePages(PageSet(t.free, top), PageSet(s.free, top), PageSet(s.live, top), PageSet(t.live, top), BlockPages(i,
          k));
    case Refuse(k) =>
    case Release(i) =>
      FreedLeavesLive(s.live, top, PageSet(s.free, top), i);
      CountBlock(PageSet(s.free, top), i, s.live[i]);
  }

  /** Pages that leave the free ones and join the live ones stay in the sum. */
  lemma MovePages(free: set<nat>, before: set<nat>, live: set<nat>, after: set<nat>, block: set<nat>)
    requires free == before - block && block <= before && after == live + block
    ensures free + block == before && free + after == before + live
  {
  }

  lemma AddSeparateSafe(s: Pool, top: nat, i: nat, k: nat)
    requires Healthy(top, s) && Fits(i, k, top) && BlockPages(i, k) <= PageSet(s.free, top)
    ensures PageSet(s.live[i := k], top) == PageSet(s.live, top) + BlockPages(i, k)
  {
    hide Canonical, Separate, Fits, PageSet, BlockPages;
    AddSeparate(s.live, top, i, k);
  }

  /** Over every run no page is lost or gained, and the counter stays the same distance ahead of the number of pages
  that are really free. */
  lemma {:induction false} RunConserves(top: nat, states: seq<Pool>, events: seq<Event>, n: nat)
    requires Run(top, states, events) && n < |states|
    ensures Supply(top, states[n]) == Supply(top, states[0])
    ensures states[n].count - |PageSet(states[n].free, top)| == states[0].count - |PageSet(states[0].free, top)|
  {
    hide Healthy, Next, Supply, PageSet;
    if n > 0 {
      RunConserves(top, states, events, n - 1);
      StepKeepsSupply(top, states[n - 1], events[n - 1], states[n]);
    }
  }

  /** The free blocks depend on the live reservations alone: whatever two runs from the same start did, and in
  whatever order they freed, equal reservations leave equal free blocks and equal counters. */
  lemma FreeDeterminedByLive(top: nat, states: seq<Pool>, events: seq<Event>, n: nat, m: nat,
                             states': seq<Pool>, events': seq<Event>)
    requires Run(top, states, events) && n < |states|
    requires Run(top, states', events') && m < |states'|
    requires states[0] == states'[0] && states[n].live == states'[m].live
    ensures states[n] == states'[m]
  {
    RunConserves(top, states, events, n);
    RunConserves(top, states', events', m);
    var s, t := states[n], states'[m];
    assert Healthy(top, s) && Healthy(top, t);
    assert PageSet(s.free, top) == PageSet(t.free, top) by {
      SamePart(PageSet(s.free, top), PageSet(t.free, top), PageSet(s.live, top));
    }
    SamePagesSameBlocks(s.free, t.free, top);
  }

  lemma SamePart(a: set<nat>, b: set<nat>, rest: set<nat>)
    requires a !! rest && b !! rest && a + rest == b + rest
    ensures a == b
  {
    assert forall x :: x in a <==> x in a + rest && x !in rest;
    assert forall x :: x in b <==> x in b + rest && x !in rest;
  }

  /** Freeing what was just reserved restores the allocator's blocks, reservations and counter. */
  lemma ReserveThenFree(top: nat, s: Pool, t: Pool, u: Pool, i: nat, k: nat)
    requires Healthy(top, s) && Healthy(top, t) && Healthy(top, u)
    requires Next(top, s, Grant(i, k), t) && Next(top, t, Release(i), u)
    ensures u == s
  {
    var states, events := [s, t, u], [Grant(i, k), Release(i)];
    assert Run(top, states, events);
    assert Run(top, [s], []);
    assert u.live == s.live;
    FreeDeterminedByLive(top, states, events, 2, 0, [s], []);
  }

  /** A reservation of order k fails only when no aligned run of 2^k pages is free, and it cannot fail otherwise. */
  lemma FailsOnlyWhenFragmented(top: nat, s: Pool, k: nat)
    requires Healthy(top, s)
    ensures Next(top, s, Refuse(k), s) <==> !exists b :: Fits(b, k, top) && BlockPages(b, k) <= PageSet(s.free, top)
  {
    BlockIffRun(s.free, top, k);
  }
}

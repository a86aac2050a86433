/** Three-level translation tables (4 KiB granule, 39-bit halves) and the window through which the kernel sees its own
tables: slot 511 of each top table points back to that table. */
module PageTables {

  datatype Half = User | Kernel

  /** A descriptor: `table` is its type bit (table or page, against block), `out` its output address without the page
  offset. */
  datatype Entry = Entry(present: bool, table: bool, el0: bool, readOnly: bool, xn: bool, af: bool, out: nat)

  const ZERO := Entry(false, false, false, false, false, false, 0)

  const PAGE := 0x1000
  const SLOTS := 512
  const HALF := 0x80_0000_0000
  const PAGES := 0x800_0000
  const HIGH_MEM := 0xFFFF_FF80_0000_0000
  const OUT_LIMIT := 0x100_0000_0000

  /** The 40-bit output address field. */
  function OutField(address: nat): nat {
    (address / PAGE) % OUT_LIMIT
  }

  function Physical(e: Entry): nat {
    e.out * PAGE
  }

  function TableDescriptor(next: nat): Entry {
    ZERO.(present := true, table := true, af := true, out := OutField(next))
  }

  predicate Flag(flags: nat, bit: nat)
    requires bit > 0
  {
    (flags / bit) % 2 == 1
  }

  function PageDescriptor(frame: nat, flags: nat): Entry {
    BlockDescriptor(frame, flags).(table := true)
  }

  /** Flag bits: 1 writable, 2 user, 4 executable. */
  function BlockDescriptor(frame: nat, flags: nat): Entry {
    Entry(true, false, Flag(flags, 2), !Flag(flags, 1), !Flag(flags, 4), true, OutField(frame))
  }

  /** An entry that maps an address with the rights of flag bit 0 (write), 1 (user) and 2 (execute), as a page or a
  block. */
  ghost predicate Maps(e: Entry, page: bool, address: nat, flags: nat) {
    && e.present && e.table == page && e.af && e.out == address / 0x1000 % 0x100_0000_0000
    && (e.el0 <==> flags / 2 % 2 == 1) && (e.readOnly <==> flags % 2 == 0) && (e.xn <==> flags / 4 % 2 == 0)
  }

  lemma DescriptorsMap(frame: nat, flags: nat)
    ensures Maps(PageDescriptor(frame, flags), true, frame, flags)
    ensures Maps(BlockDescriptor(frame, flags), false, frame, flags)
  {
    assert flags / 1 == flags;
  }

  /** An entry that refers to a table and restricts nothing below it. */
  ghost predicate Refers(e: Entry, address: nat) {
    && e.present && e.table && e.af && e.out == address / 0x1000 % 0x100_0000_0000
    && !e.el0 && !e.readOnly && !e.xn
  }

  datatype Slot = Slot(frame: nat, index: nat)

  /** Physical memory seen as descriptors; words not listed are zero. */
  type Memory = map<Slot, Entry>

  datatype Space = Space(mem: Memory, user: nat, kernel: nat) {
    function Root(h: Half): nat {
      if h == User then user else kernel
    }

    function Read(frame: nat, index: nat): Entry {
      if Slot(frame, index) in mem then mem[Slot(frame, index)] else ZERO
    }

    function Write(frame: nat, index: nat, e: Entry): Space {
      this.(mem := mem[Slot(frame, index) := e])
    }
  }

  /** Table indices of a page number. */
  function I1(p: nat): nat { p / (SLOTS * SLOTS) }
  function I2(p: nat): nat { (p / SLOTS) % SLOTS }
  function I3(p: nat): nat { p % SLOTS }

  datatype Walk = Fault(level: nat) | Block(level: nat, out: nat) | Page(out: nat)

  function E1(s: Space, h: Half, p: nat): Entry {
    s.Read(s.Root(h), I1(p))
  }

  function E2(s: Space, h: Half, p: nat): Entry {
    s.Read(E1(s, h, p).out, I2(p))
  }

  function E3(s: Space, h: Half, p: nat): Entry {
    s.Read(E2(s, h, p).out, I3(p))
  }

  predicate IsTable(e: Entry) {
    e.present && e.table
  }

  /** The hardware walk of VMSAv8-64: at level 3 only a descriptor with the type bit set is a page. */
  function Translate(s: Space, h: Half, p: nat): Walk {
    if !E1(s, h, p).present then Fault(1)
    else if !E1(s, h, p).table then Block(1, E1(s, h, p).out)
    else if !E2(s, h, p).present then Fault(2)
    else if !E2(s, h, p).table then Block(2, E2(s, h, p).out)
    else if !IsTable(E3(s, h, p)) then Fault(3)
    else Page(E3(s, h, p).out)
  }

  /** The frame a page refers to by its own entries, or 0. */
  function FrameOf(s: Space, h: Half, p: nat): nat {
    if !E1(s, h, p).present then 0
    else if !E1(s, h, p).table then Physical(E1(s, h, p))
    else if !E2(s, h, p).present then 0
    else if !E2(s, h, p).table then Physical(E2(s, h, p))
    else if !E3(s, h, p).present then 0
    else Physical(E3(s, h, p))
  }

  /** The upper two levels of a page's path are tables. */
  predicate HasTables(s: Space, h: Half, p: nat) {
    IsTable(E1(s, h, p)) && IsTable(E2(s, h, p))
  }

  ghost predicate SelfMapped(s: Space, h: Half) {
    var e := s.Read(s.Root(h), SLOTS - 1);
    IsTable(e) && e.out == s.Root(h)
  }

  /** First address of the window that shows the entries of table level t (0 top, 2 leaf). */
  function WindowBase(h: Half, t: nat): nat {
    (if h == User then 0 else HIGH_MEM)
    + (if t == 0 then 0x7F_FFFF_F000 else if t == 1 then 0x7F_FFE0_0000 else 0x7F_C000_0000)
  }

  function EntryAddress(h: Half, t: nat, index: nat): nat {
    WindowBase(h, t) + 8 * index
  }

  function PageNumber(va: nat): nat {
    (va % HALF) / PAGE
  }

  function WordIndex(va: nat): nat {
    (va % PAGE) / 8
  }

  /** How many pages one entry of table level t spans. */
  function Span(t: nat): nat {
    if t == 0 then SLOTS * SLOTS else if t == 1 then SLOTS else 1
  }

  lemma HalfOffset(h: Half, low: nat, va: nat)
    requires low < HALF && va == (if h == User then 0 else HIGH_MEM) + low
    ensures va % HALF == low && va % PAGE == low % PAGE
  {
    if h == Kernel {
      assert HIGH_MEM == 0x1FF_FFFF * HALF && HIGH_MEM == 0xF_FFFF_F800_0000 * PAGE;
      assert va == 0x1FF_FFFF * HALF + low;
      assert va == 0xF_FFFF_F800_0000 * PAGE + low;
    }
  }

  lemma Digits(p: nat, a: nat, b: nat, c: nat)
    requires a < SLOTS && b < SLOTS && c < SLOTS && p == (a * SLOTS + b) * SLOTS + c
    ensures I1(p) == a && I2(p) == b && I3(p) == c
  {
    assert p / SLOTS == a * SLOTS + b;
    assert p / (SLOTS * SLOTS) == a;
  }

  /** Where an entry's window address falls: the entry index shifts the walk down by one table. */
  lemma WindowIndices(h: Half, t: nat, p: nat)
    requires t <= 2 && p < PAGES
    ensures var va := EntryAddress(h, t, p / Span(t)); var q := PageNumber(va);
      && I1(q) == SLOTS - 1
      && I2(q) == (if t == 2 then I1(p) else SLOTS - 1)
      && I3(q) == (if t == 2 then I2(p) else if t == 1 then I1(p) else SLOTS - 1)
      && WordIndex(va) == (if t == 2 then I3(p) else if t == 1 then I2(p) else I1(p))
  {
    if t == 2 {
      LeafWindow(h, p);
    } else if t == 1 {
      MiddleWindow(h, p);
    } else {
      TopWindow(h, p);
    }
  }

  lemma PageOfOffset(q: nat, w: nat)
    requires w < SLOTS
    ensures (q * PAGE + 8 * w) / PAGE == q && ((q * PAGE + 8 * w) % PAGE) / 8 == w
  {
  }

  lemma LeafWindow(h: Half, p: nat)
    requires p < PAGES
    ensures var va := EntryAddress(h, 2, p); var q := PageNumber(va);
      I1(q) == SLOTS - 1 && I2(q) == I1(p) && I3(q) == I2(p) && WordIndex(va) == I3(p)
  {
    var a, b, c, n := I1(p), I2(p), I3(p), SLOTS - 1;
    assert p == (a * SLOTS + b) * SLOTS + c;
    HalfOffset(h, ((n * SLOTS + a) * SLOTS + b) * PAGE + 8 * c, EntryAddress(h, 2, p));
    Digits((n * SLOTS + a) * SLOTS + b, n, a, b);
    PageOfOffset((n * SLOTS + a) * SLOTS + b, c);
  }

  lemma MiddleWindow(h: Half, p: nat)
    requires p < PAGES
    ensures var va := EntryAddress(h, 1, p / SLOTS); var q := PageNumber(va);
      I1(q) == SLOTS - 1 && I2(q) == SLOTS - 1 && I3(q) == I1(p) && WordIndex(va) == I2(p)
  {
    var a, b, n := I1(p), I2(p), SLOTS - 1;
    var low := ((n * SLOTS + n) * SLOTS + a) * PAGE + 8 * b;
    assert p / SLOTS == a * SLOTS + b && a < SLOTS && b < SLOTS;
    HalfOffset(h, low, EntryAddress(h, 1, p / SLOTS));
    Digits((n * SLOTS + n) * SLOTS + a, n, n, a);
    PageOfOffset((n * SLOTS + n) * SLOTS + a, b);
  }

  lemma TopWindow(h: Half, p: nat)
    requires p < PAGES
    ensures var va := EntryAddress(h, 0, I1(p)); var q := PageNumber(va);
      I1(q) == SLOTS - 1 && I2(q) == SLOTS - 1 && I3(q) == SLOTS - 1 && WordIndex(va) == I1(p)
  {
    var n := SLOTS - 1;
    HalfOffset(h, ((n * SLOTS + n) * SLOTS + n) * PAGE + 8 * I1(p), EntryAddress(h, 0, I1(p)));
    Digits((n * SLOTS + n) * SLOTS + n, n, n, n);
  }

  /** What the hardware does with the window address of page p's entry at table level t: it reaches that entry's own
  table, or reports the level at which page p's path is missing. */
  function WindowWalk(s: Space, h: Half, t: nat, p: nat): Walk {
    if t == 0 then Page(s.Root(h))
    else if t == 1 then
      if IsTable(E1(s, h, p)) then Page(E1(s, h, p).out) else Fault(3)
    else if !E1(s, h, p).present then Fault(2)
    else if !E1(s, h, p).table then Block(2, E1(s, h, p).out)
    else if IsTable(E2(s, h, p)) then Page(E2(s, h, p).out)
    else Fault(3)
  }

  function PathIndex(t: nat, p: nat): nat {
    if t == 0 then I1(p) else if t == 1 then I2(p) else I3(p)
  }

  /** The recursive slot makes the flat window agree with the three-level walk. */
  lemma WindowAgrees(s: Space, h: Half, t: nat, p: nat)
    requires t <= 2 && p < PAGES && SelfMapped(s, h)
    ensures var va := EntryAddress(h, t, p / Span(t));
      && Translate(s, h, PageNumber(va)) == WindowWalk(s, h, t, p)
      && WordIndex(va) == PathIndex(t, p)
  {
    WindowIndices(h, t, p);
  }

  /** A page outside the window that shows the tables themselves. */
  ghost predicate Outside(p: nat) {
    p < PAGES && I1(p) < SLOTS - 1
  }

  datatype Role = Top(h: Half) | Middle(h: Half, i1: nat) | Leaf(h: Half, i1: nat, i2: nat)

  /** Every table frame has one role, so no table is shared between two paths. */
  ghost predicate Unshared(s: Space, owner: map<nat, Role>) {
    && (forall h :: SelfMapped(s, h) && s.Root(h) in owner && owner[s.Root(h)] == Top(h))
    && (forall h, p :: Outside(p) && IsTable(E1(s, h, p)) ==>
          E1(s, h, p).out in owner && owner[E1(s, h, p).out] == Middle(h, I1(p)))
    && (forall h, p :: Outside(p) && HasTables(s, h, p) ==>
          E2(s, h, p).out in owner && owner[E2(s, h, p).out] == Leaf(h, I1(p), I2(p)))
  }

  lemma SameIndicesSamePage(p: nat, q: nat)
    requires I1(p) == I1(q) && I2(p) == I2(q) && I3(p) == I3(q)
    ensures p == q
  {
    assert p == p / SLOTS * SLOTS + p % SLOTS;
    assert q == q / SLOTS * SLOTS + q % SLOTS;
    assert p / SLOTS == p / SLOTS / SLOTS * SLOTS + p / SLOTS % SLOTS;
    assert q / SLOTS == q / SLOTS / SLOTS * SLOTS + q / SLOTS % SLOTS;
  }

  /** Writing one page's leaf entry changes that entry alone. */
  lemma LeafWrite(s: Space, owner: map<nat, Role>, h: Half, p: nat, e: Entry, g: Half, q: nat)
    requires Unshared(s, owner) && Outside(p) && HasTables(s, h, p) && Outside(q)
    ensures var t := s.Write(E2(s, h, p).out, I3(p), e);
      && E1(t, g, q) == E1(s, g, q)
      && (IsTable(E1(s, g, q)) ==> E2(t, g, q) == E2(s, g, q))
      && (HasTables(s, g, q) ==> E3(t, g, q) == if g == h && q == p then e else E3(s, g, q))
  {
    if HasTables(s, g, q) && E2(s, g, q).out == E2(s, h, p).out && I3(q) == I3(p) {
      SameIndicesSamePage(p, q);
    }
  }

  lemma LeafWriteKeeps(s: Space, owner: map<nat, Role>, h: Half, p: nat, e: Entry)
    requires Unshared(s, owner) && Outside(p) && HasTables(s, h, p)
    ensures var t := s.Write(E2(s, h, p).out, I3(p), e);
      && Unshared(t, owner)
      && (forall g, q :: Outside(q) ==> (HasTables(t, g, q) <==> HasTables(s, g, q)))
      && (forall g, q :: Outside(q) && (g != h || q != p) ==> FrameOf(t, g, q) == FrameOf(s, g, q))
      && FrameOf(t, h, p) == if e.present then Physical(e) else 0
  {
    var t := s.Write(E2(s, h, p).out, I3(p), e);
    forall g, q | Outside(q)
      ensures E1(t, g, q) == E1(s, g, q)
      ensures IsTable(E1(s, g, q)) ==> E2(t, g, q) == E2(s, g, q)
      ensures HasTables(t, g, q) <==> HasTables(s, g, q)
      ensures HasTables(s, g, q) ==> E3(t, g, q) == if g == h && q == p then e else E3(s, g, q)
    {
      LeafWrite(s, owner, h, p, e, g, q);
    }
    forall g ensures SelfMapped(t, g) && t.Root(g) in owner && owner[t.Root(g)] == Top(g) {
      assert SelfMapped(s, g);
    }
  }

  /** Where page p's entry at table level i lives, given the tables above it. */
  function PathSlot(s: Space, h: Half, p: nat, i: nat): Slot {
    if i == 0 then Slot(s.Root(h), I1(p))
    else if i == 1 then Slot(E1(s, h, p).out, I2(p))
    else Slot(E2(s, h, p).out, I3(p))
  }

  /** Linking new tables into page p's path at levels i, i + 1, ... below t. */
  function Fill(s: Space, h: Half, p: nat, i: nat, t: nat, frames: seq<nat>): Space
    requires i <= t && |frames| >= t - i
    decreases t - i
  {
    if i == t then s
    else
      var slot := PathSlot(s, h, p, i);
      Fill(s.Write(slot.frame, slot.index, TableDescriptor(frames[0])), h, p, i + 1, t, frames[1..])
  }

  /** The table level whose entry is missing when the walk of a level-t window address faults. */
  function FirstMissing(t: nat, faultLevel: nat): int {
    t + faultLevel - 4
  }

  /** Frames, as physical addresses, that hold no table yet. */
  ghost predicate Fresh(frames: seq<nat>, owner: map<nat, Role>) {
    && (forall i :: 0 <= i < |frames| ==>
          frames[i] % PAGE == 0 && frames[i] / PAGE < OUT_LIMIT && frames[i] / PAGE !in owner)
    && (forall i, j :: 0 <= i < j < |frames| ==> frames[i] != frames[j])
  }

  /** A fault on a window address names exactly the first level of the path that is not a table. */
  lemma FaultNamesMissing(s: Space, h: Half, t: nat, p: nat)
    requires 1 <= t <= 2 && p < PAGES && SelfMapped(s, h) && WindowWalk(s, h, t, p).Fault?
    ensures var i := FirstMissing(t, WindowWalk(s, h, t, p).level);
      && 0 <= i < t
      && (i == 1 ==> IsTable(E1(s, h, p)))
      && !IsTable(if i == 0 then E1(s, h, p) else E2(s, h, p))
  {
  }

  /** A frame that no existing path uses can be linked into the path without disturbing any other path. */
  lemma LinkTable(s: Space, owner: map<nat, Role>, h: Half, p: nat, i: nat, address: nat, g: Half, q: nat)
    requires Unshared(s, owner) && Outside(p) && Outside(q) && i <= 1 && HasTables(s, g, q)
    requires i == 1 ==> IsTable(E1(s, h, p))
    requires !IsTable(if i == 0 then E1(s, h, p) else E2(s, h, p))
    ensures var slot := PathSlot(s, h, p, i);
      var t := s.Write(slot.frame, slot.index, TableDescriptor(address));
      E1(t, g, q) == E1(s, g, q) && E2(t, g, q) == E2(s, g, q) && E3(t, g, q) == E3(s, g, q)
  {
  }

  /** What filling in the missing levels achieves: the retried walk reaches the target entry's table, every page that
  had its tables keeps all three of its entries, and only the missing entries are written. */
  lemma FillReachesTarget(s: Space, owner: map<nat, Role>, h: Half, p: nat, i: nat, t: nat, frames: seq<nat>)
    requires Unshared(s, owner) && Outside(p) && i < t <= 2 && |frames| >= t - i && Fresh(frames, owner)
    requires i == 1 ==> IsTable(E1(s, h, p))
    requires !IsTable(if i == 0 then E1(s, h, p) else E2(s, h, p))
    ensures var u := Fill(s, h, p, i, t, frames);
      && SelfMapped(u, h)
      && WindowWalk(u, h, t, p) == Page(frames[t - i - 1] / PAGE)
      && (forall g, q :: Outside(q) && HasTables(s, g, q) ==>
            E1(u, g, q) == E1(s, g, q) && E2(u, g, q) == E2(s, g, q) && E3(u, g, q) == E3(s, g, q))
      && (forall x :: x != PathSlot(s, h, p, i) && x != Slot(frames[0] / PAGE, I2(p)) ==>
            u.Read(x.frame, x.index) == s.Read(x.frame, x.index))
      && (t - i == 1 ==> forall x :: x != PathSlot(s, h, p, i) ==> u.Read(x.frame, x.index) == s.Read(x.frame, x.index))
  {
    var slot := PathSlot(s, h, p, i);
    var f := frames[0] / PAGE;
    var v := s.Write(slot.frame, slot.index, TableDescriptor(frames[0]));
    assert OutField(frames[0]) == f;
    assert SelfMapped(s, h);
    assert s.Root(h) in owner && f != s.Root(h);
    if i == 1 {
      assert E1(s, h, p).out in owner && E1(s, h, p).out != s.Root(h);
    }
    assert E1(v, h, p) == (if i == 0 then TableDescriptor(frames[0]) else E1(s, h, p));
    if t - i == 1 {
      assert Fill(v, h, p, i + 1, t, frames[1..]) == v;
    } else {
      var f2 := frames[1] / PAGE;
      assert OutField(frames[1]) == f2;
      var w := v.Write(f, I2(p), TableDescriptor(frames[1]));
      assert Fill(v, h, p, i + 1, t, frames[1..]) == w;
      assert E1(w, h, p) == E1(v, h, p);
    }
    forall g, q | Outside(q) && HasTables(s, g, q)
      ensures var u := Fill(s, h, p, i, t, frames);
        E1(u, g, q) == E1(s, g, q) && E2(u, g, q) == E2(s, g, q) && E3(u, g, q) == E3(s, g, q)
    {
      LinkTable(s, owner, h, p, i, frames[0], g, q);
      assert E1(s, g, q).out in owner && E2(s, g, q).out in owner && s.Root(g) in owner;
    }
  }
}

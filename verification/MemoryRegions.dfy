/** Regions of the physical address space, and the in-place passes that keep a list of them sorted. */
module MemoryRegions {

  datatype MemoryType = Available | Unavailable | Mmio | Defective {
    /** The enumerator's value: a higher one overwrites a lower one. */
    function Rank(): nat {
      match this
      case Available => 1
      case Unavailable => 2
      case Mmio => 3
      case Defective => 4
    }
  }

  datatype Region = Region(kind: MemoryType, location: nat, size: nat) {
    function End(): nat {
      location + size
    }

    predicate Holds(x: nat) {
      location <= x < End()
    }

    predicate Less(other: Region) {
      if location == other.location then size < other.size else location < other.location
    }

    predicate Overlaps(other: Region) {
      if other.location < location then other.End() > location else other.location < End()
    }

    predicate Contains(other: Region) {
      other.location >= location && other.End() <= End()
    }
  }

  /** In ascending order with no two regions sharing an address. */
  ghost predicate SortedDisjoint(m: seq<Region>) {
    forall i, j :: 0 <= i < j < |m| ==> m[i].End() <= m[j].location
  }

  ghost predicate NonEmpty(m: seq<Region>) {
    forall i :: 0 <= i < |m| ==> m[i].size > 0
  }

  datatype Maybe = Nothing | Just(kind: MemoryType)

  /** The type of address x: that of the first region holding it. */
  function At(m: seq<Region>, x: nat): Maybe {
    if m == [] then Nothing else if m[0].Holds(x) then Just(m[0].kind) else At(m[1..], x)
  }

  /** The insertion loop: the carried region is exchanged with the first greater one, and so on to the end. */
  function Insert(m: seq<Region>, r: Region): (n: seq<Region>)
    ensures |n| == |m| + 1
  {
    if m == [] then [r]
    else if r.Less(m[0]) then [r] + Insert(m[1..], m[0])
    else [m[0]] + Insert(m[1..], r)
  }

  function RemoveAt(m: seq<Region>, i: nat): (n: seq<Region>)
    requires i < |m|
    ensures |n| == |m| - 1
  {
    m[..i] + m[i + 1..]
  }

  function Max(a: nat, b: nat): nat {
    if a > b then a else b
  }

  function Gap(left: Region, right: Region): nat {
    if right.location > left.location then right.location - left.location else 0
  }

  /** Subtraction of 64-bit words. */
  function Sub(a: nat, b: nat): nat {
    if a >= b then a - b else (a - b) % 0x1_0000_0000_0000_0000
  }

  /** Both regions as one, up to the later end. */
  function Union(left: Region, right: Region): Region {
    left.(size := Max(right.End(), left.End()) - left.location)
  }

  /** What a trim makes of a pair: the regions in its place, a rest to be inserted anew, and how far to go on. */
  datatype Resolution = Resolution(mid: seq<Region>, rest: seq<Region>, step: nat)

  function Resolve(left: Region, right: Region): (p: Resolution)
    ensures 1 <= |p.mid| <= 2 && |p.rest| <= 1 && |p.mid| + |p.rest| <= p.step + 1 && p.step <= |p.mid| + |p.rest|
  {
    var under := left.Overlaps(right) && left.kind.Rank() < right.kind.Rank();
    var cut := left.(size := Gap(left, right));
    if left.Overlaps(right) && left.kind == right.kind then Resolution([Union(left, right)], [], 0)
    else if under && right.Contains(left) then Resolution([right], [], 0)
    else if under && left.End() <= right.End() then Resolution([cut, right], [], 1)
    else if under then
      var rest := Region(left.kind, right.End(), left.End() - right.End());
      Resolution(if cut.size == 0 then [right] else [cut, right], [rest], 2)
    else if left.Overlaps(right) && left.Contains(right) then Resolution([left], [], 0)
    else if left.Overlaps(right) then
      Resolution([left, Region(right.kind, left.End(), Sub(right.End(), left.End()))], [], 1)
    else if left.End() == right.location && left.kind == right.kind then
      Resolution([left.(size := right.End() - left.location)], [], 0)
    else Resolution([left, right], [], 1)
  }

  /** One trim at index i: the new list and the index to go on from. */
  function Trim(m: seq<Region>, i: nat): (r: (seq<Region>, int))
    ensures r.1 >= 0 ==> i + 1 < |m| && |r.0| - r.1 < |m| - i && r.1 <= |r.0|
    ensures |r.0| <= |m| + 1
  {
    if i + 1 >= |m| then (m, -1)
    else
      var p := Resolve(m[i], m[i + 1]);
      var n := m[..i] + p.mid + m[i + 2..];
      (if p.rest == [] then n else Insert(n, p.rest[0]), i + p.step)
  }

  /** Trimming until the end of the list. It ends for any contents: the distance to the end shrinks. */
  function TrimAll(m: seq<Region>, i: nat): seq<Region>
    decreases |m| - i
  {
    var (n, next) := Trim(m, i);
    if next < 0 then n else TrimAll(n, next)
  }

  /** The greatest length of the list while it is trimmed. */
  ghost function Peak(m: seq<Region>, i: nat): (k: nat)
    ensures k >= |m|
    decreases |m| - i
  {
    var (n, next) := Trim(m, i);
    if next < 0 then |m| else Max(|m|, Peak(n, next))
  }
}

/** Decomposition of an address range into naturally aligned power-of-two regions between 32 KiB and
    4 GiB, as the range is handed to a memory-attribute unit with few region registers. */
module RegionCover {

  const MIN: nat := 0x8000
  const MAX: nat := 0x1_0000_0000
  const TWO64: nat := 0x1_0000_0000_0000_0000

  datatype Region = Region(start: nat, size: nat)

  /** The powers of two from `MIN` on. */
  predicate PowerSize(s: nat) {
    s == MIN || (s > MIN && s % 2 == 0 && PowerSize(s / 2))
  }

  predicate RegionSize(s: nat) { s <= MAX && PowerSize(s) }

  predicate Aligned(start: nat, s: nat)
    requires s > 0
  {
    start % s == 0
  }

  lemma {:induction false} NoPowerBetween(t: nat, s: nat)
    requires PowerSize(t) && PowerSize(s) && s < 2 * t && t <= s
    ensures t == s
    decreases s
  {
    if t > MIN && s > MIN {
      NoPowerBetween(t / 2, s / 2);
    }
  }

  lemma MaxIsPower()
    ensures PowerSize(MAX)
  {
    assert PowerSize(0x1_0000);
    assert PowerSize(0x4_0000);
    assert PowerSize(0x10_0000);
    assert PowerSize(0x40_0000);
    assert PowerSize(0x100_0000);
    assert PowerSize(0x400_0000);
    assert PowerSize(0x1000_0000);
    assert PowerSize(0x4000_0000);
  }

  /** The eighteen sizes from 32 KiB to 4 GiB. */
  lemma {:induction false} RegionSizes(s: nat)
    ensures RegionSize(s) <==> s in {0x8000, 0x1_0000, 0x2_0000, 0x4_0000, 0x8_0000, 0x10_0000, 0x20_0000, 0x40_0000,
                                     0x80_0000, 0x100_0000, 0x200_0000, 0x400_0000, 0x800_0000, 0x1000_0000,
                                     0x2000_0000, 0x4000_0000, 0x8000_0000, 0x1_0000_0000}
  {
    MaxIsPower();
    if 0x8000 < s <= 0x1_0000_0000 {
      RegionSizes(s / 2);
    }
  }

  // ---- The size of a region ----

  /** A region of size `s` fits at the start of a range. */
  predicate Fits(start: nat, size: nat, s: nat) {
    RegionSize(s) && s <= size && Aligned(start, s)
  }

  /** Nothing larger than `r` fits. */
  ghost predicate Largest(start: nat, size: nat, r: nat) {
    forall t :: r < t && RegionSize(t) ==> !Fits(start, size, t)
  }

  /** The largest size that fits; the smallest size if none does. */
  ghost predicate IsPick(start: nat, size: nat, r: nat) {
    RegionSize(r) && (r == MIN || Fits(start, size, r)) && Largest(start, size, r)
  }

  lemma PickUnique(start: nat, size: nat, r: nat, r': nat)
    requires IsPick(start, size, r) && IsPick(start, size, r')
    ensures r == r'
  {
    assert r < r' ==> !Fits(start, size, r');
    assert r' < r ==> !Fits(start, size, r);
  }

  /** The loop over halves. */
  method PickSize(start: nat, size: nat) returns (r: nat)
    ensures IsPick(start, size, r)
  {
    MaxIsPower();
    r := MAX;
    while r > MIN
      invariant RegionSize(r)
      invariant Largest(start, size, r)
    {
      if r <= size && Aligned(start, r) {
        break;
      }
      forall t | r / 2 < t && RegionSize(t)
        ensures !Fits(start, size, t)
      {
        if t <= r { NoPowerBetween(t, r); }
      }
      r := r / 2;
    }
  }

  // ---- The list of regions ----

  /** `rs` is what the loop emits for the range when it has room for `n` regions, and `left` is what
      it then leaves uncovered.  Addresses are unsigned 64-bit numbers and wrap around. */
  ghost predicate Emitted(start: nat, size: nat, n: nat, rs: seq<Region>, left: nat)
    decreases n
  {
    if n == 0 then rs == [] && left == size
    else
      && rs != [] && rs[0].start == start && IsPick(start, size, rs[0].size)
      && if size <= rs[0].size then |rs| == 1 && left == 0
         else Emitted((start + rs[0].size) % TWO64, size - rs[0].size, n - 1, rs[1..], left)
  }

  function Total(rs: seq<Region>): nat {
    if rs == [] then 0 else Total(rs[..|rs| - 1]) + rs[|rs| - 1].size
  }

  lemma TotalSnoc(rs: seq<Region>, r: Region)
    ensures Total(rs + [r]) == Total(rs) + r.size
  {
    assert (rs + [r])[..|rs|] == rs;
  }

  /** Regions emitted so far, followed by what is emitted for the rest of the range. */
  ghost predicate Joins(start: nat, size: nat, n: nat, done: seq<Region>, addr: nat, rest: nat, m: nat) {
    forall more, left :: Emitted(addr, rest, m, more, left) ==> Emitted(start, size, n, done + more, left)
  }

  lemma JoinsOneMore(start: nat, size: nat, n: nat, done: seq<Region>, addr: nat, rest: nat, m: nat, r: Region)
    requires Joins(start, size, n, done, addr, rest, m)
    requires m > 0 && r.start == addr && IsPick(addr, rest, r.size)
    ensures rest <= r.size ==> Emitted(start, size, n, done + [r], 0)
    ensures rest > r.size ==> Joins(start, size, n, done + [r], (addr + r.size) % TWO64, rest - r.size, m - 1)
  {
    if rest <= r.size {
      assert Emitted(addr, rest, m, [r], 0);
    } else {
      forall more, left | Emitted((addr + r.size) % TWO64, rest - r.size, m - 1, more, left)
        ensures Emitted(start, size, n, done + [r] + more, left)
      {
        assert ([r] + more)[1..] == more;
        assert Emitted(addr, rest, m, [r] + more, left);
        assert done + ([r] + more) == done + [r] + more;
      }
    }
  }

  lemma Finished(start: nat, size: nat, n: nat, done: seq<Region>, addr: nat, rest: nat)
    requires Joins(start, size, n, done, addr, rest, 0)
    ensures Emitted(start, size, n, done, rest)
  {
    assert Emitted(addr, rest, 0, [], rest);
    assert done + [] == done;
  }

  lemma Begun(start: nat, size: nat, n: nat)
    ensures Joins(start, size, n, [], start, size, n)
  {
    assert forall more: seq<Region> :: [] + more == more;
  }

  /** Fills `table` from the front.  `used` regions are written; `left` is the size reported as left
      untouched and `extra` the bytes reported as mapped beyond the range. */
  method GenerateMemMap(start: nat, size: nat, table: array<Region>) returns (used: nat, left: nat, extra: nat)
    requires start < TWO64 && size < TWO64
    modifies table
    ensures used <= table.Length
    ensures Emitted(start, size, table.Length, table[..used], left)
    ensures forall k :: used <= k < table.Length ==> table[k] == old(table[k])
    ensures Total(table[..used]) + left == size + extra
    ensures extra > 0 ==> left == 0
  {
    var addr: nat, rest: nat := start, size;
    left, extra, used := 0, 0, 0;
    ghost var emitted: seq<Region> := [];
    ghost var n := table.Length;
    Begun(start, size, n);
    while used < table.Length
      invariant 0 <= used <= n
      invariant Total(emitted) + rest == size
      invariant table[..used] == emitted
      invariant forall k :: used <= k < n ==> table[k] == old(table[k])
      invariant Joins(start, size, n, emitted, addr, rest, n - used)
    {
      var r := PickSize(addr, rest);
      var region := Region(addr, r);
      table[used] := region;
      TotalSnoc(emitted, region);
      JoinsOneMore(start, size, n, emitted, addr, rest, n - used, region);
      emitted := emitted + [region];
      used := used + 1;
      assert table[..used] == emitted;
      if rest <= r {
        extra := r - rest;
        return;
      }
      addr := (addr + r) % TWO64;
      rest := rest - r;
    }
    Finished(start, size, n, emitted, addr, rest);
    left := rest;
  }
}

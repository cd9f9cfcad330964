/** The greedy decomposition is a partition, uses the fewest regions possible of all covers, overlapping
    ones included, and is the only one that does. */
module RegionOptimality {
  import opened RegionCover

  /** Adjacent regions, each a power of two in size and aligned to its size, from `a` to `b`. */
  ghost predicate Tiling(rs: seq<Region>, a: nat, b: nat) {
    if rs == [] then a == b
    else
      && rs[0].start == a && RegionSize(rs[0].size) && Aligned(a, rs[0].size)
      && Tiling(rs[1..], a + rs[0].size, b)
  }

  // ---- Multiples ----

  lemma MultipleBounds(k: int, s: int)
    requires s >= 0
    ensures k >= 1 ==> k * s >= s
    ensures k <= -1 ==> k * s <= -s
  {
  }

  lemma MultipleIsAligned(s: nat, k: nat)
    requires s > 0
    ensures Aligned(k * s, s)
  {
    var x := k * s;
    var q, r := x / s, x % s;
    assert x == q * s + r;
    assert r == k * s - q * s == (k - q) * s;
    MultipleBounds(k - q, s);
  }

  lemma AlignedSum(x: nat, y: nat, s: nat)
    requires s > 0 && Aligned(x, s) && Aligned(y, s)
    ensures Aligned(x + y, s)
  {
    var i, j := x / s, y / s;
    assert x == i * s && y == j * s;
    assert (i + j) * s == i * s + j * s;
    MultipleIsAligned(s, i + j);
  }

  lemma AlignedDifference(x: nat, y: nat, s: nat)
    requires s > 0 && Aligned(x, s) && Aligned(y, s) && y <= x
    ensures Aligned(x - y, s)
  {
    var i, j := x / s, y / s;
    assert x == i * s && y == j * s;
    assert (i - j) * s == i * s - j * s;
    MultipleBounds(i - j, s);
    MultipleIsAligned(s, i - j);
  }

  lemma AlignedTransitive(x: nat, t: nat, s: nat)
    requires s > 0 && t > 0 && Aligned(x, t) && Aligned(t, s)
    ensures Aligned(x, s)
  {
    var i, j := x / t, t / s;
    assert x == i * t && t == j * s;
    assert i * t == (i * j) * s;
    MultipleIsAligned(s, i * j);
  }

  /** Two multiples of `s` that are less than `s` apart are equal. */
  lemma MultiplesApart(x: nat, y: nat, s: nat)
    requires s > 0 && Aligned(x, s) && Aligned(y, s) && x < y
    ensures x + s <= y
  {
    AlignedDifference(y, x, s);
    var d := y - x;
    assert d == (d / s) * s;
    MultipleBounds(d / s, s);
  }

  lemma {:induction false} PowerDivides(s: nat, t: nat)
    requires PowerSize(s) && PowerSize(t) && s <= t
    ensures Aligned(t, s)
    decreases t
  {
    if s == t {
      assert t == 1 * s;
      MultipleIsAligned(s, 1);
    } else {
      if t / 2 < s { NoPowerBetween(s, t); }
      PowerDivides(s, t / 2);
      AlignedSum(t / 2, t / 2, s);
    }
  }

  /** Aligned blocks are nested or disjoint: one that starts inside a larger one ends inside it, and
      one that starts inside a smaller one starts where that starts. */
  lemma BlocksNest(a: nat, g: nat, x: nat, p: nat)
    requires PowerSize(g) && PowerSize(p) && Aligned(a, g) && Aligned(x, p)
    requires a <= x < a + g
    ensures p <= g ==> x + p <= a + g
    ensures p > g ==> x == a
  {
    if p <= g {
      PowerDivides(p, g);
      AlignedTransitive(a, g, p);
      AlignedSum(a, g, p);
      MultiplesApart(x, a + g, p);
    } else {
      PowerDivides(g, p);
      AlignedTransitive(x, p, g);
      if a < x { MultiplesApart(a, x, g); }
    }
  }

  // ---- The greedy decomposition is a tiling ----

  lemma PickFitsWhenAligned(start: nat, size: nat, r: nat)
    requires IsPick(start, size, r)
    requires Aligned(start, MIN) && Aligned(size, MIN) && size > 0
    ensures r <= size && Aligned(start, r) && Aligned(start + r, MIN) && Aligned(size - r, MIN)
  {
    PowerDivides(MIN, r);
    AlignedSum(start, r, MIN);
    AlignedDifference(size, r, MIN);
  }

  lemma TilingCons(rs: seq<Region>, a: nat, b: nat)
    requires rs != [] && rs[0].start == a && RegionSize(rs[0].size) && Aligned(a, rs[0].size)
    requires Tiling(rs[1..], a + rs[0].size, b)
    ensures Tiling(rs, a, b)
  {
  }

  /** What the loop does with its first region, when the range is a whole number of units. */
  lemma EmittedFirst(start: nat, size: nat, n: nat, rs: seq<Region>, left: nat)
    requires Emitted(start, size, n, rs, left) && n > 0
    requires Aligned(start, MIN) && Aligned(size, MIN) && size > 0
    ensures rs != [] && rs[0].start == start && IsPick(start, size, rs[0].size)
    ensures var r := rs[0].size;
      r <= size && Aligned(start, r) && Aligned(start + r, MIN) && Aligned(size - r, MIN)
  {
    PickFitsWhenAligned(start, size, rs[0].size);
  }

  lemma EmittedRest(start: nat, size: nat, n: nat, rs: seq<Region>, left: nat, r: nat)
    requires Emitted(start, size, n, rs, left) && n > 0
    requires start + size <= 0x1_0000_0000_0000_0000
    requires rs != [] && rs[0].size == r && 0 < r <= size
    ensures r == size ==> rs[1..] == [] && left == 0
    ensures r < size ==> Emitted(start + r, size - r, n - 1, rs[1..], left)
  {
    assert r < size ==> (start + r) % TWO64 == start + r;
  }

  /** The regions emitted are adjacent, disjoint, naturally aligned powers of two, and cover exactly
      the range but for the part reported as left over; something is left over only when the table
      is full. */
  lemma {:induction false} EmittedTiles(start: nat, size: nat, n: nat, rs: seq<Region>, left: nat)
    requires Emitted(start, size, n, rs, left)
    requires Aligned(start, MIN) && Aligned(size, MIN) && size > 0 && start + size <= 0x1_0000_0000_0000_0000
    ensures left <= size && Aligned(left, MIN)
    ensures Tiling(rs, start, start + size - left)
    ensures left > 0 ==> |rs| == n
    ensures |rs| <= n
    decreases n
  {
    if n > 0 {
      EmittedFirst(start, size, n, rs, left);
      var r := rs[0].size;
      EmittedRest(start, size, n, rs, left, r);
      if r < size {
        EmittedTiles(start + r, size - r, n - 1, rs[1..], left);
      }
      TilingCons(rs, start, start + size - left);
    }
  }

  // ---- Optimality ----

  /** A region the hardware accepts, within the range. */
  predicate Within(r: Region, a: nat, b: nat) {
    RegionSize(r.size) && Aligned(r.start, r.size) && a <= r.start && r.start + r.size <= b
  }

  predicate Contains(r: Region, x: nat) { r.start <= x < r.start + r.size }

  ghost predicate Reached(s: set<Region>, x: nat) { exists r :: r in s && Contains(r, x) }

  /** Regions whose union is the range.  They may overlap. */
  ghost predicate Cover(s: set<Region>, a: nat, b: nat) {
    && (forall r :: r in s ==> Within(r, a, b))
    && (forall x: nat :: a <= x < b ==> Reached(s, x))
  }

  function Below(s: set<Region>, m: nat): set<Region> { set r | r in s && r.start < m }

  function From(s: set<Region>, m: nat): set<Region> { set r | r in s && r.start >= m }

  lemma Parts(s: set<Region>, m: nat)
    ensures |s| == |Below(s, m)| + |From(s, m)| && s == Below(s, m) + From(s, m)
  {
    assert s == Below(s, m) + From(s, m);
  }

  /** A region that starts in the greedy one also ends in it: otherwise it would have been picked. */
  lemma InsidePick(a: nat, g: nat, b: nat, r: Region)
    requires g > 0 && a + g <= b && Aligned(a, g) && IsPick(a, b - a, g)
    requires Within(r, a, b) && r.start < a + g
    ensures r.start + r.size <= a + g
  {
    var size: nat := b - a;
    var fits := Fits(a, size, r.size);
    assert Largest(a, size, g);
    BlocksNest(a, g, r.start, r.size);
  }

  /** What is left of a cover behind the greedy region covers what is left of the range. */
  lemma RestCovered(s: set<Region>, a: nat, g: nat, b: nat)
    requires g > 0 && a + g <= b && Aligned(a, g) && IsPick(a, b - a, g) && Cover(s, a, b)
    ensures Cover(From(s, a + g), a + g, b)
  {
    var rest := From(s, a + g);
    forall x: nat | a + g <= x < b
      ensures Reached(rest, x)
    {
      assert Reached(s, x);
      var r :| r in s && Contains(r, x);
      if r.start < a + g { InsidePick(a, g, b, r); }
      assert r in rest;
    }
  }

  /** Some region of the cover lies in the greedy one; if only one does, it is the greedy one. */
  lemma PickCovered(s: set<Region>, a: nat, g: nat, b: nat)
    requires g > 0 && a + g <= b && Aligned(a, g) && IsPick(a, b - a, g) && Cover(s, a, b)
    ensures |Below(s, a + g)| >= 1
    ensures |Below(s, a + g)| == 1 ==> Below(s, a + g) == {Region(a, g)}
  {
    assert Reached(s, a) && Reached(s, a + g - 1);
    var first :| first in s && Contains(first, a);
    var last :| last in s && Contains(last, a + g - 1);
    var near := Below(s, a + g);
    assert first in near && last in near;
    assert near - {first} + {first} == near;
    if |near| == 1 {
      assert near - {first} == {};
      InsidePick(a, g, b, first);
      assert first == last == Region(a, g);
    }
  }

  /** Behind the greedy region a smaller cover is left; smaller by just one only if the greedy region is
      itself in the cover. */
  lemma CoverShrinks(s: set<Region>, a: nat, g: nat, b: nat, rest: set<Region>)
    requires g > 0 && a + g <= b && Aligned(a, g) && IsPick(a, b - a, g) && Cover(s, a, b)
    requires rest == From(s, a + g)
    ensures Cover(rest, a + g, b) && |s| >= 1 + |rest|
    ensures |s| == 1 + |rest| ==> s == {Region(a, g)} + rest
  {
    Parts(s, a + g);
    PickCovered(s, a, g, b);
    RestCovered(s, a, g, b);
  }

  lemma NothingToCover(s: set<Region>, a: nat)
    requires Cover(s, a, a)
    ensures s == {}
  {
    assert forall r :: r in s ==> Within(r, a, a) && r.size > 0;
  }

  function Elements(rs: seq<Region>): set<Region> { set r | r in rs }

  lemma ElementsCons(rs: seq<Region>)
    requires rs != []
    ensures Elements(rs) == {rs[0]} + Elements(rs[1..])
  {
    assert rs == [rs[0]] + rs[1..];
  }

  predicate WholeUnits(start: nat, size: nat) {
    Aligned(start, MIN) && Aligned(size, MIN) && size > 0 && start + size <= 0x1_0000_0000_0000_0000
  }

  lemma GreedyRegion(start: nat, size: nat, end: nat, n: nat, rs: seq<Region>, left: nat, r: nat)
    requires Emitted(start, size, n, rs, left) && n > 0 && WholeUnits(start, size)
    requires end == start + size && r == rs[0].size
    ensures rs[0] == Region(start, r) && 0 < r <= size && Aligned(start, r) && IsPick(start, end - start, r)
    ensures r == size ==> rs[1..] == [] && left == 0
    ensures r < size ==> WholeUnits(start + r, size - r) && Emitted(start + r, size - r, n - 1, rs[1..], left)
  {
    EmittedFirst(start, size, n, rs, left);
    EmittedRest(start, size, n, rs, left, r);
  }

  /** The first region the loop emits, and what it makes of a cover of the range. */
  lemma GreedyStep(start: nat, size: nat, end: nat, n: nat, rs: seq<Region>, left: nat, s: set<Region>)
      returns (r: nat, rest: set<Region>)
    requires Emitted(start, size, n, rs, left) && n > 0 && WholeUnits(start, size)
    requires end == start + size && Cover(s, start, end)
    ensures rs != [] && rs[0] == Region(start, r) && 0 < r <= size
    ensures |s| >= 1 + |rest| && (|s| == 1 + |rest| ==> s == {rs[0]} + rest)
    ensures r == size ==> rs[1..] == [] && left == 0 && rest == {}
    ensures r < size ==>
      && WholeUnits(start + r, size - r) && Emitted(start + r, size - r, n - 1, rs[1..], left)
      && Cover(rest, start + r, end)
  {
    r := rs[0].size;
    rest := From(s, start + r);
    GreedyRegion(start, size, end, n, rs, left, r);
    CoverShrinks(s, start, r, end, rest);
    if r == size {
      NothingToCover(rest, start + r);
    }
  }

  lemma OneMore(rs: seq<Region>, s: set<Region>, rest: set<Region>)
    requires rs != [] && |s| >= 1 + |rest| && (|s| == 1 + |rest| ==> s == {rs[0]} + rest)
    requires |rs[1..]| <= |rest| && (|rs[1..]| == |rest| ==> rest == Elements(rs[1..]))
    ensures |rs| <= |s| && (|rs| == |s| ==> s == Elements(rs))
  {
    ElementsCons(rs);
  }

  /** When the greedy loop covers the whole range, no set of aligned regions with that union has fewer
      members, and one with as few is the greedy one. */
  lemma {:induction false} GreedyIsOptimal(start: nat, size: nat, end: nat, n: nat, rs: seq<Region>, s: set<Region>)
    requires Emitted(start, size, n, rs, 0) && WholeUnits(start, size)
    requires end == start + size && Cover(s, start, end)
    ensures |rs| <= |s|
    ensures |rs| == |s| ==> s == Elements(rs)
    decreases n
  {
    var r, rest := GreedyStep(start, size, end, n, rs, 0, s);
    if size > r {
      GreedyIsOptimal(start + r, size - r, end, n - 1, rs[1..], rest);
    } else {
      assert Elements(rs[1..]) == {};
    }
    OneMore(rs, s, rest);
  }

  lemma NotEmpty(s: set<Region>, a: nat, b: nat)
    requires Cover(s, a, b) && a < b
    ensures |s| > 0
  {
    assert Reached(s, a);
  }

  lemma {:induction false} CoversWhenPossible(start: nat, size: nat, end: nat, n: nat, rs: seq<Region>, left: nat,
                                              s: set<Region>)
    requires Emitted(start, size, n, rs, left) && WholeUnits(start, size)
    requires end == start + size && Cover(s, start, end) && |s| <= n
    ensures left == 0
    decreases n
  {
    NotEmpty(s, start, end);
    var r, rest := GreedyStep(start, size, end, n, rs, left, s);
    if size > r {
      CoversWhenPossible(start + r, size - r, end, n - 1, rs[1..], left, rest);
    }
  }

  /** A region in front of a cover of the rest makes a cover. */
  lemma CoverCons(r: Region, s: set<Region>, a: nat, b: nat)
    requires r.start == a && RegionSize(r.size) && Aligned(a, r.size) && a + r.size <= b
    requires Cover(s, a + r.size, b)
    ensures Cover({r} + s, a, b)
  {
    forall x: nat | a <= x < b
      ensures Reached({r} + s, x)
    {
      if x < a + r.size {
        assert r in {r} + s && Contains(r, x);
      } else {
        assert Reached(s, x);
        var q :| q in s && Contains(q, x);
        assert q in {r} + s;
      }
    }
  }

  /** A tiling is a cover. */
  lemma {:induction false} TilingCovers(rs: seq<Region>, a: nat, b: nat)
    requires Tiling(rs, a, b)
    ensures a <= b && Cover(Elements(rs), a, b) && |Elements(rs)| <= |rs|
    decreases |rs|
  {
    if rs != [] {
      TilingCovers(rs[1..], a + rs[0].size, b);
      ElementsCons(rs);
      CoverCons(rs[0], Elements(rs[1..]), a, b);
    }
  }

  /** The table covers the whole range exactly when some set of that many aligned regions does. */
  lemma CoveredExactlyWhenPossible(start: nat, size: nat, n: nat, rs: seq<Region>, left: nat)
    requires Emitted(start, size, n, rs, left) && WholeUnits(start, size)
    ensures left == 0 <==> exists s :: Cover(s, start, start + size) && |s| <= n
  {
    EmittedTiles(start, size, n, rs, left);
    TilingCovers(rs, start, start + size - left);
    if s :| Cover(s, start, start + size) && |s| <= n {
      CoversWhenPossible(start, size, start + size, n, rs, left, s);
    }
  }

  // ---- Ranges that are not a whole number of units ----

  lemma {:induction false} TotalAligned(rs: seq<Region>)
    requires forall i :: 0 <= i < |rs| ==> RegionSize(rs[i].size)
    ensures Aligned(Total(rs), MIN)
  {
    if rs != [] {
      var front, last := rs[..|rs| - 1], rs[|rs| - 1].size;
      TotalAligned(front);
      PowerDivides(MIN, last);
      AlignedSum(Total(front), last, MIN);
    }
  }

  lemma TotalCons(r: Region, rs: seq<Region>)
    ensures Total([r] + rs) == r.size + Total(rs)
  {
    if rs == [] {
      assert [r] + rs == [] + [r];
      TotalSnoc([], r);
    } else {
      var front, last := rs[..|rs| - 1], rs[|rs| - 1];
      TotalCons(r, front);
      TotalSnoc([r] + front, last);
      assert [r] + rs == [r] + front + [last];
    }
  }

  /** What is emitted maps at least the range, whatever its alignment. */
  lemma {:induction false} EmittedSizes(start: nat, size: nat, n: nat, rs: seq<Region>, left: nat)
    requires Emitted(start, size, n, rs, left)
    ensures forall i :: 0 <= i < |rs| ==> RegionSize(rs[i].size)
    ensures Total(rs) + left >= size
    ensures left > 0 ==> Total(rs) + left == size
    ensures n > 0 ==> Total(rs) >= MIN
    decreases n
  {
    if n > 0 {
      var r := rs[0].size;
      assert rs == [rs[0]] + rs[1..];
      TotalCons(rs[0], rs[1..]);
      if r < size {
        EmittedSizes((start + r) % TWO64, size - r, n - 1, rs[1..], left);
      }
    }
  }

  lemma {:induction false} NoExtraInWholeUnits(start: nat, size: nat, n: nat, rs: seq<Region>)
    requires Emitted(start, size, n, rs, 0) && n > 0
    requires Aligned(size, MIN) && size > 0
    ensures Total(rs) == size
    decreases n
  {
    var r := rs[0].size;
    PowerDivides(MIN, r);
    AlignedDifference(size, r, MIN);
    assert rs == [rs[0]] + rs[1..];
    TotalCons(rs[0], rs[1..]);
    if r < size {
      NoExtraInWholeUnits((start + r) % TWO64, size - r, n - 1, rs[1..]);
    }
  }

  /** Nothing beyond the range is mapped if and only if the table is full before the range ends, or the
      range is a positive whole number of units.  So a table with room maps memory beyond an empty range,
      or beyond one that ends in a part of a unit. */
  lemma NoExtraExactly(start: nat, size: nat, n: nat, rs: seq<Region>, left: nat)
    requires Emitted(start, size, n, rs, left)
    ensures Total(rs) + left == size <==> n == 0 || left > 0 || (size > 0 && Aligned(size, MIN))
  {
    EmittedSizes(start, size, n, rs, left);
    TotalAligned(rs);
    if n > 0 && left == 0 && size > 0 && Aligned(size, MIN) {
      NoExtraInWholeUnits(start, size, n, rs);
    }
  }

  /** The size of a range without the part of a unit at its end. */
  function Units(size: nat): (u: nat)
    ensures u <= size < u + MIN && Aligned(u, MIN)
  {
    size - size % MIN
  }

  lemma UnitsLess(size: nat, r: nat)
    requires RegionSize(r) && r <= size
    ensures r <= Units(size) && Units(size - r) == Units(size) - r
    ensures Aligned(size - r, MIN) <==> Aligned(size, MIN)
  {
    PowerDivides(MIN, r);
  }

  /** The part of a unit at the end of a range does not change what is picked before it. */
  lemma PickOfUnits(start: nat, size: nat, r: nat)
    requires IsPick(start, size, r) && Aligned(start, MIN) && Units(size) > 0
    ensures r <= Units(size) && Aligned(start, r) && Aligned(start + r, MIN) && IsPick(start, Units(size), r)
  {
    PowerDivides(MIN, r);
    UnitsLess(size, r);
    AlignedSum(start, r, MIN);
    forall t | r < t && RegionSize(t)
      ensures !Fits(start, Units(size), t)
    {
      assert !Fits(start, size, t);
    }
  }

  /** A range that ends in a part of a unit, or is empty. */
  predicate Ragged(start: nat, size: nat) {
    Aligned(start, MIN) && start + size <= 0x1_0000_0000_0000_0000 && (size == 0 || !Aligned(size, MIN))
  }

  lemma RaggedRest(start: nat, size: nat, r: nat)
    requires Ragged(start, size) && IsPick(start, size, r) && Units(size) > 0
    ensures r <= Units(size) && Aligned(start, r) && IsPick(start, Units(size), r)
    ensures size > r && (start + r) % TWO64 == start + r
    ensures Ragged(start + r, size - r) && Units(size - r) == Units(size) - r
  {
    PickOfUnits(start, size, r);
    UnitsLess(size, r);
  }

  lemma PartOfUnit(start: nat, size: nat, r: nat)
    requires Ragged(start, size) && IsPick(start, size, r) && Units(size) == 0
    ensures r == MIN && size <= r
  {
    if r <= size { UnitsLess(size, r); }
  }

  lemma RaggedFirst(start: nat, size: nat, n: nat, rs: seq<Region>, left: nat, r: nat)
    requires Ragged(start, size) && Emitted(start, size, n, rs, left) && n > 0 && r == rs[0].size
    ensures rs[0] == Region(start, r) && RegionSize(r) && r > 0 && Aligned(start, r)
    ensures Units(size) == 0 ==> |rs| == 1 && left == 0
    ensures Units(size) > 0 ==>
      && r <= Units(size) && IsPick(start, Units(size), r) && Units(size - r) == Units(size) - r
      && Ragged(start + r, size - r) && Emitted(start + r, size - r, n - 1, rs[1..], left)
  {
    if Units(size) > 0 {
      RaggedRest(start, size, r);
    } else {
      PartOfUnit(start, size, r);
    }
  }

  lemma FrontTiles(rs: seq<Region>, rest: seq<Region>, start: nat, r: nat, end: nat)
    requires |rs| >= 2 && rs[0] == Region(start, r) && rest == rs[1..] && RegionSize(r) && Aligned(start, r)
    requires Tiling(rest[..|rest| - 1], start + r, end)
    ensures Tiling(rs[..|rs| - 1], start, end)
  {
    assert rs[..|rs| - 1][1..] == rest[..|rest| - 1];
  }

  lemma NotFull(start: nat, size: nat, n: nat, rs: seq<Region>, left: nat)
    requires Emitted(start, size, n, rs, left) && left < size
    ensures n > 0 && rs != []
  {
  }

  lemma BeyondStep(start: nat, size: nat, n: nat, rs: seq<Region>) returns (r: nat, rest: seq<Region>)
    requires Ragged(start, size) && Emitted(start, size, n, rs, 0) && n > 0 && Units(size) > 0
    ensures |rs| == 1 + |rest| && rest == rs[1..] && rest != [] && n > 1 && rs[0] == Region(start, r)
    ensures r <= size && RegionSize(r) && Aligned(start, r) && start + Units(size) == start + r + Units(size - r)
    ensures Ragged(start + r, size - r) && Emitted(start + r, size - r, n - 1, rest, 0)
  {
    r, rest := rs[0].size, rs[1..];
    RaggedFirst(start, size, n, rs, 0, r);
    NotFull(start + r, size - r, n - 1, rest, 0);
  }

  lemma BeyondEnd(start: nat, size: nat, n: nat, rs: seq<Region>)
    requires Ragged(start, size) && Emitted(start, size, n, rs, 0) && n > 0 && Units(size) == 0
    ensures |rs| == 1 && Tiling(rs[..|rs| - 1], start, start + Units(size))
  {
    RaggedFirst(start, size, n, rs, 0, rs[0].size);
    assert rs[..|rs| - 1] == [];
  }

  /** When all of a ragged range is covered, the last region is the one that reaches beyond it. */
  lemma {:induction false} LastReachesBeyond(start: nat, size: nat, n: nat, rs: seq<Region>)
    requires Ragged(start, size) && Emitted(start, size, n, rs, 0) && n > 0
    ensures 0 < |rs| <= n && Tiling(rs[..|rs| - 1], start, start + Units(size))
    decreases n
  {
    if Units(size) > 0 {
      var r, rest := BeyondStep(start, size, n, rs);
      LastReachesBeyond(start + r, size - r, n - 1, rest);
      FrontTiles(rs, rest, start, r, start + Units(size));
    } else {
      BeyondEnd(start, size, n, rs);
    }
  }

  lemma RaggedStep(start: nat, size: nat, end: nat, n: nat, rs: seq<Region>, left: nat, s: set<Region>)
      returns (r: nat, rest: set<Region>)
    requires Ragged(start, size) && Emitted(start, size, n, rs, left) && Units(size) > 0
    requires end == start + Units(size) && Cover(s, start, end) && |s| < n
    ensures 0 < r <= size && |rest| < n - 1 && Ragged(start + r, size - r) && end == start + r + Units(size - r)
    ensures Emitted(start + r, size - r, n - 1, rs[1..], left) && Cover(rest, start + r, end)
  {
    r := rs[0].size;
    rest := From(s, start + r);
    RaggedFirst(start, size, n, rs, left, r);
    CoverShrinks(s, start, r, end, rest);
  }

  /** With room for one region more than cover the whole units, all of the range is covered. */
  lemma {:induction false} RoomForOneMore(start: nat, size: nat, end: nat, n: nat, rs: seq<Region>, left: nat,
                                          s: set<Region>)
    requires Ragged(start, size) && Emitted(start, size, n, rs, left)
    requires end == start + Units(size) && Cover(s, start, end) && |s| < n
    ensures left == 0
    decreases n
  {
    if Units(size) > 0 {
      var r, rest := RaggedStep(start, size, end, n, rs, left, s);
      RoomForOneMore(start + r, size - r, end, n - 1, rs[1..], left, rest);
    } else {
      RaggedFirst(start, size, n, rs, left, rs[0].size);
    }
  }

  /** Memory beyond a range that starts on a unit is mapped if and only if the range is empty or ends in a
      part of a unit, and fewer regions than the table holds can cover its whole units. */
  lemma ExtraExactly(start: nat, size: nat, n: nat, rs: seq<Region>, left: nat)
    requires Emitted(start, size, n, rs, left) && Aligned(start, MIN) && start + size <= 0x1_0000_0000_0000_0000
    ensures Total(rs) + left > size <==>
      Ragged(start, size) && exists s :: Cover(s, start, start + Units(size)) && |s| < n
  {
    NoExtraExactly(start, size, n, rs, left);
    EmittedSizes(start, size, n, rs, left);
    if Ragged(start, size) {
      if n > 0 && left == 0 {
        LastReachesBeyond(start, size, n, rs);
        TilingCovers(rs[..|rs| - 1], start, start + Units(size));
      } else if s :| Cover(s, start, start + Units(size)) && |s| < n {
        RoomForOneMore(start, size, start + Units(size), n, rs, left, s);
      }
    }
  }

  lemma SmallestPicked(size: nat)
    requires size < 2 * MIN
    ensures IsPick(0, size, MIN)
  {
    assert PowerSize(MIN) && Aligned(0, MIN);
    forall t | MIN < t && RegionSize(t)
      ensures !Fits(0, size, t)
    {
      if t <= size { NoPowerBetween(MIN, t); }
    }
  }

  /** A table of one region: ranges of no bytes and of one byte are both mapped by a whole unit; of a
    unit and one byte the last byte is left. */
  lemma ExtraMapped()
    ensures var rs := [Region(0, MIN)];
      && Emitted(0, 0, 1, rs, 0) && Emitted(0, 1, 1, rs, 0) && Emitted(0, MIN + 1, 1, rs, 1)
      && Total(rs) == MIN
  {
    var rs := [Region(0, MIN)];
    SmallestPicked(0);
    SmallestPicked(1);
    SmallestPicked(MIN + 1);
    assert rs == [] + rs && Total([]) == 0;
    TotalSnoc([], rs[0]);
    assert Emitted(MIN, 1, 0, rs[1..], 1);
  }
}

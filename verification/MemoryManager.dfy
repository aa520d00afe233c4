/**
 * The bump allocator of the LLVM memory manager. One call rounds the request up, advances the
 * position of its 256 MiB region and commits the pages the new block reaches: quarters of a
 * page inside the first page, whole pages after it. `committed` records the commit calls the
 * system granted, as offsets in the region.
 */
module MemoryManager {
  import opened Align
  import opened Arithmetic

  const MAX: nat := 0x1000_0000
  const PAGE: nat := 0x20_0000
  const QUARTER: nat := 0x8_0000

  datatype Span = Span(start: nat, end: nat)

  datatype Result = Null | OutOfMemory | CommitFailed | Block(offset: nat)

  /** x - y on a u64. */
  function Sub(x: U64, y: U64): U64 {
    if x >= y then x - y else x + WRAP - y
  }

  function Alignment(align: U64): U64 {
    if align == 0 then 16 else align
  }

  predicate Supported(size: U64, a: U64) {
    0 < size <= MAX && a <= PAGE
  }

  function Start(pos: U64, a: U64): U64
    requires a > 0
  {
    AlignUp(pos, a)
  }

  function End(pos: U64, size: U64, a: U64): nat
    requires a > 0
  {
    AlignUp(pos, a) + AlignUp(size, a)
  }

  predicate Aligned(x: nat, a: nat)
    requires a > 0
  {
    x % a == 0
  }

  /** How far the region is committed when the position is pos. */
  function Frontier(pos: U64): U64 {
    if pos <= PAGE then AlignUp(pos, QUARTER) else AlignUp(pos, PAGE)
  }

  // -- The commits of one call ----------------------------------------------------------

  /** The commit that takes the pages of this size from pos to end, if they reach a new one. */
  function Pages(pos: U64, end: U64, page: U64): (spans: seq<Span>)
    requires page > 0
    ensures |spans| <= 1
  {
    var p := AlignUp(pos, page);
    if Sub(end, 1) / page == Sub(pos, 1) / page then []
    else [Span(p % MAX, p % MAX + AlignUp(Sub(end, p), page))]
  }

  function QuarterPages(pos: U64, end: U64, a: U64): (spans: seq<Span>)
    ensures |spans| <= 1
  {
    if pos < PAGE && a < QUARTER then Pages(pos, Min(end, PAGE), QUARTER) else []
  }

  /** Where the second commit starts: past the quarters, if any were committed. */
  function Advanced(pos: U64, end: U64, a: U64): U64 {
    var p := AlignUp(pos, QUARTER);
    if QuarterPages(pos, end, a) == [] then pos
    else (p + AlignUp(Sub(Min(end, PAGE), p), QUARTER)) % WRAP
  }

  function Commits(pos: U64, end: U64, a: U64): (spans: seq<Span>) {
    QuarterPages(pos, end, a) + Pages(Advanced(pos, end, a), end, PAGE)
  }

  /** The spans follow one another from x to y without gap or overlap. */
  predicate Joins(spans: seq<Span>, x: nat, y: nat) {
    if spans == [] then x == y
    else spans[0].start == x < spans[0].end && Joins(spans[1..], spans[0].end, y)
  }

  predicate Covered(spans: seq<Span>, b: nat) {
    exists i :: 0 <= i < |spans| && spans[i].start <= b < spans[i].end
  }

  lemma {:induction false} JoinsConcat(s: seq<Span>, t: seq<Span>, x: nat, y: nat, z: nat)
    requires Joins(s, x, y) && Joins(t, y, z)
    ensures Joins(s + t, x, z)
  {
    if s == [] {
      assert s + t == t;
    } else {
      JoinsConcat(s[1..], t, s[0].end, y, z);
      assert (s + t)[1..] == s[1..] + t;
    }
  }

  /** Spans that join cover exactly the range between the ends. */
  lemma {:induction false} JoinsCovers(s: seq<Span>, x: nat, y: nat, b: nat)
    requires Joins(s, x, y)
    ensures x <= y && (Covered(s, b) <==> x <= b < y)
  {
    if s != [] {
      var t := s[1..];
      JoinsCovers(t, s[0].end, y, b);
      if Covered(t, b) {
        var i :| 0 <= i < |t| && t[i].start <= b < t[i].end;
        assert s[i + 1] == t[i];
      }
      if Covered(s, b) {
        var i :| 0 <= i < |s| && s[i].start <= b < s[i].end;
        assert i > 0 ==> t[i - 1] == s[i];
      }
    }
  }

  /** No byte is in two of the spans. */
  lemma {:induction false} JoinsApart(s: seq<Span>, x: nat, y: nat, i: nat, j: nat)
    requires Joins(s, x, y) && i < j < |s|
    ensures x <= s[i].start && s[i].end <= s[j].start && s[j].end <= y
  {
    var t := s[1..];
    assert s[j] == t[j - 1];
    if i > 0 {
      assert s[i] == t[i - 1];
      JoinsApart(t, s[0].end, y, i - 1, j - 1);
    } else {
      JoinsEnds(t, s[0].end, y, j - 1);
    }
  }

  lemma {:induction false} JoinsEnds(s: seq<Span>, x: nat, y: nat, j: nat)
    requires Joins(s, x, y) && j < |s|
    ensures x <= s[j].start < s[j].end <= y
  {
    var t := s[1..];
    JoinsCovers(t, s[0].end, y, 0);
    if j > 0 {
      assert s[j] == t[j - 1];
      JoinsEnds(t, s[0].end, y, j - 1);
    }
  }

  // -- What the commits cover -----------------------------------------------------------

  lemma PagesJoin(pos: nat, end: nat, page: nat)
    requires 0 < page <= PAGE && pos < end <= MAX
    ensures Joins(Pages(pos, end, page), AlignUp(pos, page), AlignUp(end, page))
    ensures Pages(pos, end, page) == [] <==> AlignUp(pos, page) >= end
    ensures pos <= AlignUp(pos, page) && end <= AlignUp(end, page) < end + page
  {
    hide AlignUp;
    Crosses(pos, end, page);
    AlignUpSpec(pos, page);
    AlignUpSpec(end, page);
    var p := AlignUp(pos, page);
    if p < end {
      AlignUpFrom(p, end, page);
      JoinsOne(p, AlignUp(end, page));
    } else {
      AlignUpMonotone(pos, end, page);
      Gap(page, p, AlignUp(end, page));
    }
  }

  lemma JoinsOne(x: nat, y: nat)
    requires x < y
    ensures Joins([Span(x, y)], x, y)
  {
    assert [Span(x, y)][1..] == [];
  }

  /** Where the commits of a call start and end. */
  function Low(pos: U64, a: U64): U64 {
    if a < QUARTER then Frontier(pos) else AlignUp(pos, PAGE)
  }

  function High(end: U64, a: U64): U64 {
    if a < QUARTER then Frontier(end) else AlignUp(end, PAGE)
  }

  /** One call commits one run of pages, without gap or overlap. */
  lemma CommitsJoin(pos: nat, end: nat, a: nat)
    requires pos < end <= MAX && a < WRAP
    ensures Joins(Commits(pos, end, a), Low(pos, a), High(end, a))
  {
    hide Pages, Joins;
    if pos < PAGE && a < QUARTER {
      NarrowCommitsJoin(pos, end, a);
    } else {
      PagesJoin(pos, end, PAGE);
      assert [] + Pages(pos, end, PAGE) == Pages(pos, end, PAGE);
      assert pos == PAGE ==> AlignUp(pos, QUARTER) == AlignUp(pos, PAGE);
    }
  }

  lemma FirstPage(x: nat, y: nat)
    requires 0 < x <= PAGE && 0 < y <= PAGE
    ensures Pages(x, y, PAGE) == [] && AlignUp(x, PAGE) == PAGE
    ensures x <= AlignUp(x, QUARTER) <= PAGE
  {
    hide AlignUp;
    AlignUpFixed(PAGE, PAGE);
    AlignUpFixed(PAGE, QUARTER);
    AlignUpMonotone(x, PAGE, QUARTER);
    AlignUpSpec(x, QUARTER);
    AlignUpSpec(x, PAGE);
    AlignUpMonotone(x, PAGE, PAGE);
    if AlignUp(x, PAGE) < PAGE {
      Gap(PAGE, 0, AlignUp(x, PAGE));
    }
  }

  lemma NarrowCommitsJoin(pos: nat, end: nat, a: nat)
    requires pos < end <= MAX && pos < PAGE && a < QUARTER
    ensures Joins(Commits(pos, end, a), Frontier(pos), Frontier(end))
  {
    hide Pages, Joins, AlignUp;
    var m, p := Min(end, PAGE), AlignUp(pos, QUARTER);
    var first, next := QuarterPages(pos, end, a), Advanced(pos, end, a);
    PagesJoin(pos, m, QUARTER);
    AlignUpFixed(0, QUARTER);
    AlignUpFixed(PAGE, QUARTER);
    AlignUpFixed(PAGE, PAGE);
    FirstPage(m, m);
    if p < m {
      AlignUpSpec(pos, QUARTER);
      AlignUpFrom(p, m, QUARTER);
      assert next == AlignUp(m, QUARTER);
    } else {
      assert next == pos;
      FirstPage(pos, pos);
    }
    if end <= PAGE {
      FirstPage(next, end);
      assert first + [] == first;
    } else {
      PagesJoin(next, end, PAGE);
      JoinsConcat(first, Pages(next, end, PAGE), p, PAGE, AlignUp(end, PAGE));
    }
  }

  // -- One request ----------------------------------------------------------------------

  /** The size check of the source refuses exactly the requests that are not supported. */
  lemma SupportedExactly(size: U64, a: U64)
    requires PowerOfTwo(a) && a > 0
    ensures var sizea := AlignUp(size, a);
            size == 0 || a > PAGE || sizea > MAX || sizea < size <==> !Supported(size, a)
  {
    hide PowerOfTwo, AlignUp;
    if size + a - 1 >= WRAP {
      AlignUpWrapped(size, a);
    } else {
      AlignUpSpec(size, a);
      if size <= MAX && a <= PAGE {
        RoundedWithin(size, a);
      }
    }
  }

  lemma Divides(a: nat)
    requires PowerOfTwo(a) && 0 < a <= PAGE
    ensures MAX % a == 0
  {
    Powers();
    PowersDivide(a, MAX);
  }

  lemma RoundedWithin(size: nat, a: nat)
    requires PowerOfTwo(a) && 0 < a <= PAGE && size <= MAX
    ensures AlignUp(size, a) <= MAX
  {
    hide PowerOfTwo, AlignUp;
    Divides(a);
    AlignUpMonotone(size, MAX, a);
    AlignUpFixed(MAX, a);
  }

  predicate Request(pos: U64, size: U64, a: U64) {
    pos <= 2 * MAX && PowerOfTwo(a) && a > 0 && Supported(size, a)
  }

  /** A request is placed at the first aligned address from the position on, and the position
      moves to the next aligned address after it. */
  lemma Placed(pos: U64, size: U64, a: U64)
    requires Request(pos, size, a)
    ensures pos <= Start(pos, a) < pos + a && Start(pos, a) % a == 0
    ensures Start(pos, a) + size <= End(pos, size, a) < Start(pos, a) + size + a
    ensures End(pos, size, a) % a == 0 && End(pos, size, a) <= Start(pos, a) + MAX
  {
    hide PowerOfTwo, AlignUp;
    AlignUpSpec(pos, a);
    AlignUpSpec(size, a);
    RoundedWithin(size, a);
    SumMultiple(a, AlignUp(pos, a), AlignUp(size, a));
  }

  /** A request is refused for want of memory only past twice the region, yet the block lies in
      the region and past the blocks before it exactly when the new position is within the region. */
  lemma FitsExactly(pos: U64, size: U64, a: U64)
    requires Request(pos, size, a) && End(pos, size, a) <= 2 * MAX
    ensures var offset := Start(pos, a) % MAX;
            pos <= offset && offset + size <= MAX <==> End(pos, size, a) <= MAX
    ensures Aligned(Start(pos, a) % MAX, a)
  {
    hide PowerOfTwo, Start, End, Aligned;
    Bounded(pos, size, a);
    Overhangs(pos, size, a);
    OffsetAligned(pos, size, a);
  }

  lemma Bounded(pos: U64, size: U64, a: U64)
    requires Request(pos, size, a)
    ensures pos <= Start(pos, a) < pos + a && Start(pos, a) + size <= End(pos, size, a)
  {
    hide PowerOfTwo, Start, End;
    Placed(pos, size, a);
  }

  /** A block that starts in the region and moves the position past it runs over its end. */
  lemma Overhangs(pos: U64, size: U64, a: U64)
    requires Request(pos, size, a)
    ensures Start(pos, a) < MAX < End(pos, size, a) ==> Start(pos, a) + size > MAX
  {
    hide PowerOfTwo, Start, End;
    Placed(pos, size, a);
    Divides(a);
    if MAX < End(pos, size, a) < MAX + a {
      Gap(a, MAX, End(pos, size, a));
    }
  }

  lemma OffsetAligned(pos: U64, size: U64, a: U64)
    requires Request(pos, size, a) && Start(pos, a) < 2 * MAX
    ensures Aligned(Start(pos, a) % MAX, a)
  {
    hide PowerOfTwo, Start, End;
    Placed(pos, size, a);
    Divides(a);
    if Start(pos, a) >= MAX {
      DifferenceMultiple(a, Start(pos, a), MAX);
    }
  }

  lemma DifferenceMultiple(a: nat, x: nat, y: nat)
    requires a > 0 && x % a == 0 && y % a == 0 && y <= x
    ensures (x - y) % a == 0
  {
    var p, q := x / a, y / a;
    assert x - y == a * (p - q) by {
      assert a * (p - q) == a * p - a * q;
    }
    Multiple(a, p - q);
  }

  // -- All requests ---------------------------------------------------------------------

  ghost predicate Covers(spans: seq<Span>, x: int, y: int) {
    forall b: nat :: x <= b < y ==> Covered(spans, b)
  }

  /** The pages the position has reached are committed up to the frontier. In the first page
      nothing else is, unless the first request was aligned to a quarter page or more, which
      committed the whole page. */
  ghost predicate Backed(pos: nat, committed: seq<Span>, wideFirst: bool)
    requires pos <= MAX
  {
    && Covers(committed, pos, Frontier(pos))
    && (wideFirst ==> pos > 0 && Covers(committed, 0, PAGE))
    && (!wideFirst && pos < PAGE ==> forall b: nat :: Covered(committed, b) ==> b < Frontier(pos))
  }

  lemma CoveredConcat(s: seq<Span>, t: seq<Span>, b: nat)
    ensures Covered(s + t, b) <==> Covered(s, b) || Covered(t, b)
  {
    if Covered(s, b) {
      var i :| 0 <= i < |s| && s[i].start <= b < s[i].end;
      assert (s + t)[i] == s[i];
    }
    if Covered(t, b) {
      var i :| 0 <= i < |t| && t[i].start <= b < t[i].end;
      assert (s + t)[|s| + i] == t[i];
    }
  }

  /** After a call, exactly the bytes committed before and those of its own run are committed. */
  lemma CommitsCover(committed: seq<Span>, pos: nat, end: nat, a: nat, b: nat)
    requires pos < end <= MAX && a < WRAP
    ensures Covered(committed + Commits(pos, end, a), b)
       <==> Covered(committed, b) || Low(pos, a) <= b < High(end, a)
  {
    hide Commits, Low, High, Covered;
    CommitsJoin(pos, end, a);
    JoinsCovers(Commits(pos, end, a), Low(pos, a), High(end, a), b);
    CoveredConcat(committed, Commits(pos, end, a), b);
  }

  lemma FrontierSpec(pos: nat)
    requires pos <= MAX
    ensures pos <= Frontier(pos) <= AlignUp(pos, PAGE) < pos + PAGE
    ensures pos <= PAGE ==> Frontier(pos) % QUARTER == 0 && Frontier(pos) < pos + QUARTER
    ensures pos <= PAGE ==> Frontier(pos) <= PAGE
    ensures pos >= PAGE ==> Frontier(pos) == AlignUp(pos, PAGE) >= PAGE
    ensures 0 < pos <= PAGE ==> AlignUp(pos, PAGE) == PAGE
    ensures pos == 0 ==> AlignUp(pos, PAGE) == 0
  {
  }

  lemma FrontierGrows(x: nat, y: nat)
    requires x <= y <= MAX
    ensures Frontier(x) <= Frontier(y)
  {
    hide AlignUp;
    FrontierSpec(x);
    FrontierSpec(y);
    AlignUpMonotone(x, y, QUARTER);
    AlignUpMonotone(x, y, PAGE);
  }

  /** A request aligned to a quarter page or more ends on a quarter, and starts at the frontier
      or past it. */
  lemma WideOnQuarters(pos: U64, size: U64, a: U64)
    requires Request(pos, size, a) && a >= QUARTER && pos <= PAGE
    ensures Frontier(pos) <= Start(pos, a)
    ensures End(pos, size, a) <= PAGE ==> Frontier(End(pos, size, a)) == End(pos, size, a)
  {
    hide PowerOfTwo, Start, End, Frontier;
    WideEnds(pos, size, a);
    QuartersFrom(pos, Start(pos, a));
    if End(pos, size, a) <= PAGE {
      QuartersFrom(End(pos, size, a), End(pos, size, a));
    }
  }

  lemma WideEnds(pos: U64, size: U64, a: U64)
    requires Request(pos, size, a) && a >= QUARTER
    ensures pos <= Start(pos, a) && Start(pos, a) % QUARTER == 0 && End(pos, size, a) % QUARTER == 0
  {
    hide PowerOfTwo, Start, End;
    Placed(pos, size, a);
    WideMultiple(a, Start(pos, a));
    WideMultiple(a, End(pos, size, a));
  }

  lemma QuartersFrom(pos: nat, x: nat)
    requires pos <= PAGE && pos <= x && x % QUARTER == 0
    ensures pos <= Frontier(pos) <= x
  {
    FrontierSpec(pos);
    if x < Frontier(pos) {
      Gap(QUARTER, x, Frontier(pos));
    }
  }

  lemma WideMultiple(a: nat, x: nat)
    requires PowerOfTwo(a) && QUARTER <= a <= PAGE && x % a == 0
    ensures x % QUARTER == 0
  {
    hide PowerOfTwo;
    WideAlignments(a);
    if a == QUARTER {
    } else if a == 2 * QUARTER {
      assert x % (2 * QUARTER) == 0;
    } else {
      assert x % (4 * QUARTER) == 0;
    }
  }

  lemma WideAlignments(a: nat)
    requires PowerOfTwo(a) && QUARTER <= a <= PAGE
    ensures a == QUARTER || a == 2 * QUARTER || a == 4 * QUARTER
  {
    Powers();
    Product(2, QUARTER);
    if a < 2 * QUARTER {
      PowersApart(a, QUARTER);
    } else if a < 4 * QUARTER {
      PowersApart(a, 2 * QUARTER);
    }
  }

  /** What the commits of a request add, next to where it is placed. */
  lemma Served(pos: U64, committed: seq<Span>, size: U64, a: U64)
    requires Request(pos, size, a) && End(pos, size, a) <= MAX
    ensures var start, end := Start(pos, a), End(pos, size, a);
            && pos <= start < start + size <= end && start < pos + a
            && pos <= Frontier(pos) <= Frontier(end) && end <= Frontier(end) <= AlignUp(end, PAGE)
            && (a >= QUARTER && pos < PAGE ==> Frontier(pos) <= start)
            && (a >= QUARTER && end <= PAGE ==> Frontier(end) == end)
            && forall b: nat :: Covered(committed + Commits(pos, end, a), b)
                 <==> Covered(committed, b) || Low(pos, a) <= b < High(end, a)
  {
    hide Commits, PowerOfTwo, Start, End, Covered, Frontier, AlignUp;
    var end := End(pos, size, a);
    Placed(pos, size, a);
    FrontierSpec(pos);
    FrontierSpec(end);
    FrontierGrows(pos, end);
    if a >= QUARTER && pos <= PAGE {
      WideOnQuarters(pos, size, a);
    }
    forall b: nat
      ensures Covered(committed + Commits(pos, end, a), b)
         <==> Covered(committed, b) || Low(pos, a) <= b < High(end, a)
    {
      CommitsCover(committed, pos, end, a, b);
    }
  }

  /** Every served request keeps the region backed, whatever its alignment. */
  lemma BackedStep(pos: U64, committed: seq<Span>, wideFirst: bool, size: U64, a: U64)
    requires Request(pos, size, a) && End(pos, size, a) <= MAX && pos <= MAX
    requires Backed(pos, committed, wideFirst)
    ensures var end := End(pos, size, a);
            Backed(end, committed + Commits(pos, end, a), if pos == 0 then a >= QUARTER else wideFirst)
  {
    hide Commits, PowerOfTwo, Start, End, Covered, Frontier, AlignUp;
    var end := End(pos, size, a);
    Served(pos, committed, size, a);
    FrontierSpec(pos);
    FrontierSpec(end);
  }

  /** The block of a served request is wholly committed if its alignment is below a quarter page,
      and otherwise exactly if it is the first, starts past the first page, or follows a first
      request of such an alignment. */
  lemma CommittedExactly(pos: U64, committed: seq<Span>, wideFirst: bool, size: U64, a: U64)
    requires Request(pos, size, a) && End(pos, size, a) <= MAX && pos <= MAX
    requires Backed(pos, committed, wideFirst)
    ensures var start := Start(pos, a);
            Covers(committed + Commits(pos, End(pos, size, a), a), start, start + size)
            <==> (a < QUARTER || pos == 0 || start >= PAGE || wideFirst)
  {
    hide Commits, PowerOfTwo, Start, End, Covered, Frontier, AlignUp;
    var start, end := Start(pos, a), End(pos, size, a);
    Served(pos, committed, size, a);
    FrontierSpec(pos);
    FrontierSpec(end);
    assert Covers(committed + Commits(pos, end, a), start, start + size)
      ==> Covered(committed + Commits(pos, end, a), start);
  }

  /** A first request of lesser alignment, then one aligned to a quarter page or more that starts in
      the first page, say 16 bytes aligned to 16 and 16 bytes aligned to 512 KiB: its block is not
      committed. */
  lemma WideAfterNarrow(size: U64, a: U64, next: U64, b: U64)
    requires Request(0, size, a) && a < QUARTER && End(0, size, a) <= MAX
    requires var end := End(0, size, a);
             Request(end, next, b) && b >= QUARTER && Start(end, b) < PAGE && End(end, next, b) <= MAX
    ensures var end := End(0, size, a);
            var start, committed := Start(end, b), Commits(0, end, a);
            !Covers(committed + Commits(end, End(end, next, b), b), start, start + next)
  {
    hide AlignUp, PowerOfTwo, Commits, Covered, Covers, Frontier, Start, End;
    var end := End(0, size, a);
    StartBacked();
    Placed(0, size, a);
    BackedStep(0, [], false, size, a);
    assert [] + Commits(0, end, a) == Commits(0, end, a);
    CommittedExactly(end, Commits(0, end, a), false, next, b);
  }

  lemma FirstRounded(n: nat, a: nat)
    requires n <= a && 0 < a <= PAGE
    ensures AlignUp(n, a) == if n == 0 then 0 else a
  {
    hide AlignUp;
    if n == 0 {
      AlignUpFixed(n, a);
    } else {
      AlignUpSpec(n, a);
      Divided(a, a, 1, 0);
      if AlignUp(n, a) < a {
        Gap(a, 0, AlignUp(n, a));
      } else {
        Gap(a, a, AlignUp(n, a));
      }
    }
  }

  /** The inputs of the comment above. */
  lemma WideExample(x: U64, q: U64)
    requires x == 16 && q == QUARTER
    ensures Request(0, x, x) && Request(x, x, q) && End(0, x, x) == x && Start(x, q) == q && End(x, x, q) == q + q
    ensures !Covers(Commits(0, x, x) + Commits(x, q + q, q), q, q + x)
  {
    hide AlignUp, PowerOfTwo, Commits, Covers, Start, End;
    ExampleRequests(x, q);
    ExamplePlaces(0, x, q);
    WideAfterNarrow(x, x, x, q);
  }

  lemma ExampleRequests(x: U64, q: U64)
    requires x == 16 && q == QUARTER
    ensures Request(0, x, x) && Request(x, x, q)
  {
    Powers();
    Sixteen();
  }

  lemma ExamplePlaces(z: U64, x: U64, q: U64)
    requires z == 0 < x <= q <= PAGE
    ensures End(z, x, x) == x && Start(x, q) == q && End(x, x, q) == q + q
  {
    hide AlignUp;
    FirstRounded(z, x);
    FirstRounded(x, x);
    FirstRounded(x, q);
  }

  lemma StartBacked()
    ensures Backed(0, [], false)
  {
  }

  /** A request at the end of the region is put at its start. */
  lemma RegionExample()
    ensures End(MAX, 16, 16) <= 2 * MAX && Start(MAX, 16) % MAX == 0
  {
    hide AlignUp;
    FirstRounded(16, 16);
    AlignUpFixed(MAX, 16);
  }

  /** Without such alignments the region is committed from its start to the frontier, each byte by
      one commit. */
  lemma JoinedStep(pos: U64, committed: seq<Span>, size: U64, a: U64)
    requires Request(pos, size, a) && a < QUARTER && pos < End(pos, size, a) <= MAX
    requires Joins(committed, 0, Frontier(pos))
    ensures Joins(committed + Commits(pos, End(pos, size, a), a), 0, Frontier(End(pos, size, a)))
  {
    hide Commits, Frontier, End, Joins;
    var end := End(pos, size, a);
    CommitsJoin(pos, end, a);
    JoinsConcat(committed, Commits(pos, end, a), 0, Frontier(pos), Frontier(end));
  }

  /** The position moves before the commit is tried. When the commit is refused, later requests
      that stay within the same quarter commit nothing and get the pages that are missing. */
  lemma FailedCommitIsNotRetried(pos: nat, committed: seq<Span>, end: nat, a: nat, next: nat, b: nat)
    requires pos < end < next <= PAGE && next <= AlignUp(end, QUARTER) && a < QUARTER
    requires Backed(pos, committed, false) && Frontier(pos) <= end <= b < next
    ensures Covered(committed + Commits(pos, end, a), b)
    ensures Commits(end, next, a) == [] && !Covered(committed + Commits(end, next, a), b)
  {
    hide Commits, Covered, AlignUp;
    FrontierSpec(pos);
    FrontierSpec(end);
    FrontierSpec(next);
    CommitsCover(committed, pos, end, a, b);
    CommitsCover(committed, end, next, a, b);
    CommitsNothing(end, next, a);
  }

  /** The smallest case: 16 bytes whose commit is refused, and 16 more that are served without it. */
  lemma FailedCommitExample(z: U64, x: U64, y: U64)
    requires z == 0 && x == 16 && y == x + x
    ensures Start(x, x) == x && End(z, x, x) == x && End(x, x, x) == y
    ensures Commits(x, y, x) == [] && !Covered(Commits(x, y, x), x)
    ensures Covered(Commits(z, x, x), x)
  {
    hide AlignUp, Commits, Covered, Backed, Start, End, Frontier;
    SmallPlaces(z, x);
    StartBacked();
    FirstRounded(x, QUARTER);
    NoFrontier(z);
    FailedCommitIsNotRetried(z, [], x, x, y, x);
    assert [] + Commits(z, x, x) == Commits(z, x, x) && [] + Commits(x, y, x) == Commits(x, y, x);
  }

  lemma SmallPlaces(z: U64, x: U64)
    requires z == 0 < x <= PAGE
    ensures Start(x, x) == x && End(z, x, x) == x && End(x, x, x) == x + x
  {
    hide AlignUp;
    FirstRounded(z, x);
    FirstRounded(x, x);
    SumMultiple(x, x, x);
    AlignUpFixed(x + x, x);
  }

  lemma NoFrontier(z: nat)
    requires z == 0
    ensures Frontier(z) == 0
  {
    hide AlignUp;
    FrontierSpec(z);
  }

  lemma CommitsNothing(pos: nat, end: nat, a: nat)
    requires 0 < pos < end <= PAGE && end <= AlignUp(pos, QUARTER) && a < QUARTER
    ensures Commits(pos, end, a) == []
  {
    hide Pages, AlignUp;
    PagesJoin(pos, end, QUARTER);
    FirstPage(pos, end);
  }

  // -- Commits the system refuses -------------------------------------------------------

  /** The spans asked for that were granted, or that were not. */
  function Those(asked: seq<Span>, granted: seq<bool>, which: bool): (spans: seq<Span>)
    requires |asked| == |granted|
  {
    if asked == [] then []
    else (if granted[0] == which then [asked[0]] else []) + Those(asked[1..], granted[1..], which)
  }

  lemma {:induction false} ThoseConcat(s: seq<Span>, g: seq<bool>, t: seq<Span>, h: seq<bool>, which: bool)
    requires |s| == |g| && |t| == |h|
    ensures Those(s + t, g + h, which) == Those(s, g, which) + Those(t, h, which)
  {
    if s == [] {
      assert s + t == t && g + h == h;
    } else {
      var first := if g[0] == which then [s[0]] else [];
      var rest, more := Those(s[1..], g[1..], which), Those(t, h, which);
      ThoseConcat(s[1..], g[1..], t, h, which);
      assert (s + t)[1..] == s[1..] + t && (g + h)[1..] == g[1..] + h;
      assert Those(s + t, g + h, which) == first + (rest + more);
      assert first + (rest + more) == (first + rest) + more;
    }
  }

  /** A call is granted the first k of its commits. */
  function FirstOf(n: nat, k: nat): (g: seq<bool>)
    ensures |g| == n
  {
    seq(n, i => i < k)
  }

  lemma {:induction false} ThoseFirst(s: seq<Span>, k: nat)
    requires k <= |s|
    ensures Those(s, FirstOf(|s|, k), true) == s[..k] && Those(s, FirstOf(|s|, k), false) == s[k..]
  {
    if s != [] {
      var rest, j := s[1..], if k == 0 then 0 else k - 1;
      assert FirstOf(|s|, k)[1..] == FirstOf(|rest|, j);
      ThoseFirst(rest, j);
      assert k > 0 ==> s[..k] == [s[0]] + rest[..j] && s[k..] == rest[j..];
      assert k == 0 ==> s[..0] == [] && s[0..] == [s[0]] + rest[0..];
    }
  }

  /** Every byte asked for is in a span granted or in one refused. */
  lemma {:induction false} ThoseCover(asked: seq<Span>, granted: seq<bool>, b: nat)
    requires |asked| == |granted|
    ensures Covered(asked, b) <==> Covered(Those(asked, granted, true), b) || Covered(Those(asked, granted, false), b)
  {
    if asked != [] {
      var first, rest, g := [asked[0]], asked[1..], granted[1..];
      ThoseCover(rest, g, b);
      assert asked == first + rest;
      hide Covered;
      CoveredConcat(first, rest, b);
      CoveredConcat(first, Those(rest, g, granted[0]), b);
      assert [] + Those(rest, g, !granted[0]) == Those(rest, g, !granted[0]);
    }
  }

  /** When the spans join, no byte is in both. */
  lemma {:induction false} ThoseApart(asked: seq<Span>, granted: seq<bool>, x: nat, y: nat, b: nat)
    requires |asked| == |granted| && Joins(asked, x, y)
    ensures !(Covered(Those(asked, granted, true), b) && Covered(Those(asked, granted, false), b))
  {
    if asked != [] {
      var first, rest, g := [asked[0]], asked[1..], granted[1..];
      ThoseApart(rest, g, asked[0].end, y, b);
      JoinsCovers(rest, asked[0].end, y, b);
      ThoseCover(rest, g, b);
      CoveredOne(asked[0], b);
      hide Covered;
      CoveredConcat(first, Those(rest, g, granted[0]), b);
      assert [] + Those(rest, g, !granted[0]) == Those(rest, g, !granted[0]);
    }
  }

  lemma CoveredOne(span: Span, b: nat)
    ensures Covered([span], b) <==> span.start <= b < span.end
  {
    assert [span][0] == span;
  }

  /** No byte from x to y is in a span that was refused, unless another one had it. */
  ghost predicate NoneMissing(asked: seq<Span>, granted: seq<bool>, x: int, y: int)
    requires |asked| == |granted|
  {
    forall b: nat | x <= b < y ::
      Covered(Those(asked, granted, false), b) ==> Covered(Those(asked, granted, true), b)
  }

  /** No byte from x to y is in a span that was refused. */
  ghost predicate NoneRefused(asked: seq<Span>, granted: seq<bool>, x: int, y: int)
    requires |asked| == |granted|
  {
    forall b: nat | x <= b < y :: !Covered(Those(asked, granted, false), b)
  }

  lemma CommittedOfAsked(asked: seq<Span>, granted: seq<bool>, x: int, y: int)
    requires |asked| == |granted|
    ensures Covers(Those(asked, granted, true), x, y) <==> Covers(asked, x, y) && NoneMissing(asked, granted, x, y)
  {
    hide Covered, Those;
    forall b: nat
      ensures Covered(asked, b) <==> Covered(Those(asked, granted, true), b) || Covered(Those(asked, granted, false), b)
    {
      ThoseCover(asked, granted, b);
    }
  }

  lemma MissingIsRefused(asked: seq<Span>, granted: seq<bool>, end: nat, x: int, y: int)
    requires |asked| == |granted| && Joins(asked, 0, end)
    ensures NoneMissing(asked, granted, x, y) <==> NoneRefused(asked, granted, x, y)
  {
    hide Covered, Those, Joins;
    forall b: nat
      ensures !(Covered(Those(asked, granted, true), b) && Covered(Those(asked, granted, false), b))
    {
      ThoseApart(asked, granted, 0, end, b);
    }
  }

  // -- The allocator --------------------------------------------------------------------

  /** The blocks handed out are in order, do not overlap and end at or before the position. */
  ghost predicate Ordered(blocks: seq<Span>, pos: nat) {
    && (forall i :: 0 <= i < |blocks| ==> blocks[i].start < blocks[i].end <= pos)
    && forall i, j :: 0 <= i < j < |blocks| ==> blocks[i].end <= blocks[j].start
  }

  /** What holds of a region whatever was requested and whatever was granted: the blocks, the pages
      asked for, and whether all requests were aligned to less than a quarter page or the first was
      not. */
  ghost predicate Inv(pos: U64, asked: seq<Span>, blocks: seq<Span>, narrow: bool, wideFirst: bool) {
    && pos <= 2 * MAX
    && (narrow ==> !wideFirst)
    && (pos <= MAX ==> Ordered(blocks, pos))
    && (pos <= MAX ==> Backed(pos, asked, wideFirst))
    && (pos <= MAX && narrow ==> Joins(asked, 0, Frontier(pos)))
  }

  function WideFirst(pos: U64, a: U64, wideFirst: bool): bool {
    if pos == 0 then a >= QUARTER else wideFirst
  }

  /** A request keeps this; the block is handed out if its pages were granted. */
  lemma InvTaken(pos: U64, asked: seq<Span>, blocks: seq<Span>, narrow: bool, wideFirst: bool,
                 size: U64, a: U64, ok: bool)
    requires Inv(pos, asked, blocks, narrow, wideFirst)
    requires Request(pos, size, a) && End(pos, size, a) <= 2 * MAX
    ensures var end, offset := End(pos, size, a), Start(pos, a) % MAX;
            Inv(end, asked + Commits(pos, end, a), if ok then blocks + [Span(offset, offset + size)] else blocks,
                narrow && a < QUARTER, WideFirst(pos, a, wideFirst))
  {
    hide Commits, PowerOfTwo, Start, End, Frontier, AlignUp, Joins, Backed, Ordered, Aligned;
    var end := End(pos, size, a);
    Bounded(pos, size, a);
    if end <= MAX {
      BlockAdded(pos, blocks, size, a);
      BackedStep(pos, asked, wideFirst, size, a);
      if narrow && a < QUARTER {
        JoinedStep(pos, asked, size, a);
      }
    }
  }

  lemma BlockAdded(pos: U64, blocks: seq<Span>, size: U64, a: U64)
    requires Request(pos, size, a) && End(pos, size, a) <= MAX && Ordered(blocks, pos)
    ensures var end, offset := End(pos, size, a), Start(pos, a) % MAX;
            Ordered(blocks, end) && Ordered(blocks + [Span(offset, offset + size)], end)
  {
    hide PowerOfTwo, Start, End, Aligned;
    Bounded(pos, size, a);
    FitsExactly(pos, size, a);
  }

  /** The block of a served request, whatever was refused before: it is wholly committed exactly if
      the condition of CommittedExactly holds and none of its bytes is in a refused span that no
      granted one makes up for; with alignments below a quarter page, exactly if none is in a refused
      span. */
  lemma ServedCommittedExactly(pos: U64, asked: seq<Span>, granted: seq<bool>, blocks: seq<Span>,
                               narrow: bool, wideFirst: bool, size: U64, a: U64)
    requires Inv(pos, asked, blocks, narrow, wideFirst) && |asked| == |granted|
    requires Request(pos, size, a) && End(pos, size, a) <= MAX
    ensures var commits, offset := Commits(pos, End(pos, size, a), a), Start(pos, a) % MAX;
            var all, got := asked + commits, granted + FirstOf(|commits|, |commits|);
            && (Covers(Those(all, got, true), offset, offset + size) <==>
                && (a < QUARTER || pos == 0 || offset >= PAGE || WideFirst(pos, a, wideFirst))
                && NoneMissing(all, got, offset, offset + size))
            && (narrow && a < QUARTER ==>
                (Covers(Those(all, got, true), offset, offset + size) <==>
                 NoneRefused(all, got, offset, offset + size)))
  {
    hide PowerOfTwo, Start, End, Covers, Commits, Backed, Those, NoneMissing, NoneRefused, Joins, FirstOf, Ordered;
    Placed(pos, size, a);
    var commits, offset := Commits(pos, End(pos, size, a), a), Start(pos, a) % MAX;
    var all, got := asked + commits, granted + FirstOf(|commits|, |commits|);
    CommittedExactly(pos, asked, wideFirst, size, a);
    CommittedOfAsked(all, got, offset, offset + size);
    if narrow && a < QUARTER {
      JoinedStep(pos, asked, size, a);
      MissingIsRefused(all, got, Frontier(End(pos, size, a)), offset, offset + size);
    }
  }

  /** The test of the source throws exactly past twice the region. */
  lemma OutOfMemoryExactly(pos: U64, end: U64)
    requires pos < end <= 4 * MAX && pos <= 2 * MAX
    ensures Sub(end, 1) / MAX != Sub(pos, 1) / MAX && Sub(end, 1) / MAX > 1 <==> end > 2 * MAX
  {
  }

  /** One region: its position, and the commits the system granted. The ghost fields record the
      blocks handed out, the commits asked for and which were granted, and what the requests so far
      were like. */
  class Region {
    var pos: U64
    var committed: seq<Span>
    ghost var blocks: seq<Span>
    ghost var asked: seq<Span>
    ghost var granted: seq<bool>
    ghost var narrow: bool
    ghost var wideFirst: bool

    ghost predicate Valid()
      reads this
    {
      && |asked| == |granted| && committed == Those(asked, granted, true)
      && Inv(pos, asked, blocks, narrow, wideFirst)
    }

    constructor ()
      ensures Valid() && pos == 0 && committed == [] && blocks == [] && asked == [] && narrow && !wideFirst
    {
      pos, committed, blocks, narrow, wideFirst := 0, [], [], true, false;
      asked, granted := [], [];
    }

    method TryCommit(start: nat, size: nat, granted: bool) returns (ok: bool)
      modifies `committed
      ensures ok == granted
      ensures committed == old(committed) + if granted then [Span(start, start + size)] else []
    {
      if granted {
        committed := committed + [Span(start, start + size)];
      }
      return granted;
    }

    /** The two commits of a call; each is granted or refused by the system. */
    method CommitPages(oldp: U64, newp: U64, a: U64, grantQuarters: bool, grantPages: bool) returns (ok: bool)
      modifies `committed
      ensures ok <==>
              && (QuarterPages(oldp, newp, a) == [] || grantQuarters)
              && (Pages(Advanced(oldp, newp, a), newp, PAGE) == [] || grantPages)
      ensures ok ==> committed == old(committed) + Commits(oldp, newp, a)
      ensures !ok ==> old(committed) <= committed < old(committed) + Commits(oldp, newp, a)
    {
      hide AlignUp;
      var from := oldp;
      if oldp < PAGE && a < QUARTER && Sub(Min(newp, PAGE), 1) / QUARTER != Sub(oldp, 1) / QUARTER {
        var pagea := AlignUp(oldp, QUARTER);
        var psize := AlignUp(Sub(Min(newp, PAGE), pagea), QUARTER);
        ok := TryCommit(pagea % MAX, psize, grantQuarters);
        if !ok {
          return;
        }
        from := (pagea + psize) % WRAP;
      }
      if Sub(newp, 1) / PAGE != Sub(from, 1) / PAGE {
        var pagea := AlignUp(from, PAGE);
        var psize := AlignUp(Sub(newp, pagea), PAGE);
        ok := TryCommit(pagea % MAX, psize, grantPages);
        return;
      }
      return true;
    }

    /** The rest of a request that is neither refused nor out of memory: the position moves, the
        pages are asked for, and unless that fails the block is handed out. The block is inside the
        region and past all others exactly while the position stays in the region, and then it is
        committed exactly as ServedCommittedExactly says. */
    method Take(size: U64, a: U64, grantQuarters: bool, grantPages: bool) returns (r: Result)
      requires Valid() && Request(pos, size, a) && End(pos, size, a) <= 2 * MAX
      modifies this
      ensures Valid() && (r.CommitFailed? || r.Block?)
      ensures pos == End(old(pos), size, a)
      ensures narrow == (old(narrow) && a < QUARTER) && wideFirst == WideFirst(old(pos), a, old(wideFirst))
      ensures r.CommitFailed? <==>
              || (QuarterPages(old(pos), pos, a) != [] && !grantQuarters)
              || (Pages(Advanced(old(pos), pos, a), pos, PAGE) != [] && !grantPages)
      ensures asked == old(asked) + Commits(old(pos), pos, a) && old(granted) <= granted
      ensures r.CommitFailed? ==>
                && blocks == old(blocks)
                && old(committed) <= committed < old(committed) + Commits(old(pos), pos, a)
      ensures r.Block? ==>
                && committed == old(committed) + Commits(old(pos), pos, a)
                && r.offset == Start(old(pos), a) % MAX && Aligned(r.offset, a)
                && blocks == old(blocks) + [Span(r.offset, r.offset + size)]
                && (old(pos) <= r.offset && r.offset + size <= MAX <==> pos <= MAX)
      ensures r.Block? && pos <= MAX ==>
                (Covers(committed, r.offset, r.offset + size) <==>
                 && (a < QUARTER || old(pos) == 0 || r.offset >= PAGE || wideFirst)
                 && NoneMissing(asked, granted, r.offset, r.offset + size))
      ensures r.Block? && pos <= MAX && narrow ==>
                (Covers(committed, r.offset, r.offset + size) <==> NoneRefused(asked, granted, r.offset, r.offset + size))
    {
      hide Inv, Commits, Covers, AlignUp, PowerOfTwo, Pages, QuarterPages, Advanced, WideFirst, Aligned,
        Those, FirstOf, NoneMissing, NoneRefused;
      var oldp, olda := pos, AlignUp(pos, a);
      var newp := olda + AlignUp(size, a);
      pos := newp;
      var ok := CommitPages(oldp, newp, a, grantQuarters, grantPages);
      ghost var commits, k := Commits(oldp, newp, a), |committed| - |old(committed)|;
      narrow, wideFirst := narrow && a < QUARTER, WideFirst(oldp, a, wideFirst);
      asked, granted := asked + commits, granted + FirstOf(|commits|, k);
      assert committed == old(committed) + commits[..k];
      ThoseFirst(commits, k);
      ThoseConcat(old(asked), old(granted), commits, FirstOf(|commits|, k), true);
      InvTaken(oldp, old(asked), old(blocks), old(narrow), old(wideFirst), size, a, ok);
      if !ok {
        return CommitFailed;
      }
      r := Block(olda % MAX);
      blocks := blocks + [Span(r.offset, r.offset + size)];
      FitsExactly(oldp, size, a);
      if newp <= MAX {
        ServedCommittedExactly(oldp, old(asked), old(granted), old(blocks), old(narrow), old(wideFirst), size, a);
      }
    }

    /** One request. It is refused when it is not supported, and throws when it ends past twice the
        region; nothing changes then. Otherwise it is served as Take says. */
    method Allocate(size: U64, align: U64, grantQuarters: bool, grantPages: bool) returns (r: Result)
      requires Valid() && (align == 0 || PowerOfTwo(align))
      modifies this
      ensures Valid()
      ensures r.Null? <==> !Supported(size, Alignment(align))
      ensures r.OutOfMemory? <==>
              Supported(size, Alignment(align)) && End(old(pos), size, Alignment(align)) > 2 * MAX
      ensures r.Null? || r.OutOfMemory? ==> unchanged(this)
      ensures r.CommitFailed? || r.Block? ==>
                && pos == End(old(pos), size, Alignment(align))
                && blocks == old(blocks) + if r.Block? then [Span(r.offset, r.offset + size)] else []
      ensures r.Block? && pos <= MAX ==>
                (Covers(committed, r.offset, r.offset + size) <==>
                 && (Alignment(align) < QUARTER || old(pos) == 0 || r.offset >= PAGE || wideFirst)
                 && NoneMissing(asked, granted, r.offset, r.offset + size))
      ensures r.Block? && pos <= MAX && narrow ==>
                (Covers(committed, r.offset, r.offset + size) <==> NoneRefused(asked, granted, r.offset, r.offset + size))
    {
      hide Inv, Commits, Covers, AlignUp, PowerOfTwo, Pages, QuarterPages, Advanced, Sub, WideFirst, Aligned,
        Those, NoneMissing, NoneRefused;
      var a := if align == 0 then 16 else align;
      assert PowerOfTwo(a) by {
        Sixteen();
      }
      var sizea := AlignUp(size, a);
      SupportedExactly(size, a);
      if size == 0 || a > PAGE || sizea > MAX || sizea < size {
        return Null;
      }
      var oldp := pos;
      var olda := AlignUp(oldp, a);
      Bounds(this);
      Placed(oldp, size, a);
      assert olda >= oldp && olda < WRAP - 1 - sizea;
      var newp := olda + sizea;
      OutOfMemoryExactly(oldp, newp);
      if Sub(newp, 1) / MAX != Sub(oldp, 1) / MAX {
        if Sub(newp, 1) / MAX > 1 {
          return OutOfMemory;
        }
      }
      r := Take(size, a, grantQuarters, grantPages);
    }
  }

  lemma Sixteen()
    ensures PowerOfTwo(16)
  {
  }

  lemma Bounds(region: Region)
    requires region.Valid()
    ensures region.pos <= 2 * MAX
  {
  }
}

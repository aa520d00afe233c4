/**
 * A set of addresses kept as a vector of inclusive ranges, some of which may be invalid slots
 * waiting for reuse. `top` is the largest address; neighbours of an address wrap around it.
 */
module AddressRange {
  import opened Arithmetic

  /** Valid when start <= end. */
  datatype Range = Range(start: nat, end: nat) {
    predicate Valid() {
      start <= end
    }

    predicate Has(a: nat) {
      start <= a <= end
    }
  }

  type Ranges = seq<Range>

  function Max(x: nat, y: nat): nat {
    if x > y then x else y
  }

  function Next(x: nat, top: nat): nat {
    if x == top then 0 else x + 1
  }

  function Prev(x: nat, top: nat): nat {
    if x == 0 then top else x - 1
  }

  predicate Overlaps(r: Range, o: Range) {
    r.start <= o.end && o.start <= r.end
  }

  /** The test of the source: an overlap or side by side, the last address being next to the first. */
  predicate Touches(r: Range, o: Range, top: nat) {
    Overlaps(r, o) || o.start == Next(r.end, top) || o.end == Prev(r.start, top)
  }

  /** Range over both, invalid operands ignored. */
  function MinMax(r: Range, o: Range, top: nat): Range {
    Range(Min(if r.Valid() then r.start else top, if o.Valid() then o.start else top),
          Max(if r.Valid() then r.end else 0, if o.Valid() then o.end else 0))
  }

  /** A valid operand is all that counts, and with none the result is not valid either. */
  lemma MinMaxIgnoresInvalid(r: Range, o: Range, top: nat)
    requires top > 0 && r.start <= top && r.end <= top && o.start <= top && o.end <= top && !o.Valid()
    ensures MinMax(r, o, top) == MinMax(o, r, top) == if r.Valid() then r else Invalid(top)
  {
  }

  function Invalid(top: nat): Range {
    Range(top, 0)
  }

  // -- What a vector means --------------------------------------------------------------

  ghost predicate In(s: Ranges, a: nat) {
    exists i :: 0 <= i < |s| && s[i].Has(a)
  }

  /** Overlapping or side by side, without wrapping: together they make one range. */
  predicate Near(r: Range, o: Range) {
    r.start <= o.end + 1 && o.start <= r.end + 1
  }

  predicate Apart(r: Range, o: Range) {
    r.Valid() && o.Valid() ==> !Near(r, o)
  }

  predicate Separated(s: Ranges) {
    forall i, j :: 0 <= i < j < |s| ==> Apart(s[i], s[j])
  }

  predicate Within(s: Ranges, top: nat) {
    forall r <- s :: r.start <= top && r.end <= top
  }

  /** The ranges touch only because one holds the last address and the other the first. */
  predicate WrapOnly(r: Range, o: Range, top: nat) {
    && r.Valid() && o.Valid() && !Near(r, o)
    && ((r.start == 0 && o.end == top) || (r.end == top && o.start == 0))
  }

  lemma TouchesExactly(r: Range, o: Range, top: nat)
    requires r.Valid() && o.Valid() && r.end <= top && o.end <= top && top > 0
    ensures Touches(r, o, top) <==> Near(r, o) || WrapOnly(r, o, top)
  {
  }

  lemma Disjoint(s: Ranges, i: int, j: int, a: nat)
    requires Separated(s) && 0 <= i < |s| && 0 <= j < |s| && s[i].Has(a) && s[j].Has(a)
    ensures i == j
  {
  }

  /** Putting part of a range in its slot. */
  lemma Shrunk(s: Ranges, n: nat, r: Range)
    requires Separated(s) && n < |s| && s[n].Valid()
    requires r.Valid() ==> s[n].start <= r.start && r.end <= s[n].end
    ensures Separated(s[n := r])
    ensures forall a: nat :: In(s[n := r], a) <==> (In(s, a) && !s[n].Has(a)) || r.Has(a)
  {
    var t := s[n := r];
    forall i, j | 0 <= i < j < |t|
      ensures Apart(t[i], t[j])
    {
      assert Apart(s[i], s[j]);
    }
    forall a: nat
      ensures In(t, a) <==> (In(s, a) && !s[n].Has(a)) || r.Has(a)
    {
      if In(s, a) && !s[n].Has(a) {
        var i :| 0 <= i < |s| && s[i].Has(a);
        assert t[i] == s[i];
      }
      if r.Has(a) {
        assert t[n] == r;
      }
      if In(t, a) && !r.Has(a) {
        var i :| 0 <= i < |t| && t[i].Has(a);
        assert t[i] == s[i];
        if s[n].Has(a) {
          Disjoint(s, i, n, a);
        }
      }
    }
  }

  /** s with r put in the slot k, or added at the end. */
  function Put(s: Ranges, k: nat, r: Range): Ranges
    requires k <= |s|
  {
    if k < |s| then s[k := r] else s + [r]
  }

  /** Putting a range in an unused slot. */
  lemma AddedIn(s: Ranges, k: nat, r: Range)
    requires k <= |s| && (k < |s| ==> !s[k].Valid())
    ensures Union(Put(s, k, r), s, r)
  {
    var t := Put(s, k, r);
    forall a: nat
      ensures In(t, a) <==> In(s, a) || r.Has(a)
    {
      if In(s, a) {
        var i :| 0 <= i < |s| && s[i].Has(a);
        assert t[i] == s[i];
      }
      assert t[k] == r;
      if In(t, a) && !r.Has(a) {
        var i :| 0 <= i < |t| && t[i].Has(a);
        assert t[i] == s[i];
      }
    }
  }

  /** If it is apart from all others, they stay separated. */
  lemma Added(s: Ranges, k: nat, r: Range)
    requires Separated(s) && k <= |s| && (k < |s| ==> !s[k].Valid())
    requires forall i :: 0 <= i < |s| ==> Apart(s[i], r)
    ensures Separated(Put(s, k, r))
    ensures forall a: nat :: In(Put(s, k, r), a) <==> In(s, a) || r.Has(a)
  {
    AddedIn(s, k, r);
    hide In;
    var t := Put(s, k, r);
    forall i, j | 0 <= i < j < |t|
      ensures Apart(t[i], t[j])
    {
      assert j < |s| ==> Apart(s[i], s[j]);
    }
  }

  // -- What merging makes of the ranges that touch ----------------------------------------

  predicate Hit(r: Range, new': Range, top: nat) {
    r.Valid() && Touches(r, new', top)
  }

  /** The range over new' and the ranges among the first n that touch it. */
  function Hull(s: Ranges, new': Range, n: nat, top: nat): Range
    requires n <= |s|
  {
    if n == 0 then new'
    else if Hit(s[n - 1], new', top) then MinMax(Hull(s, new', n - 1, top), s[n - 1], top)
    else Hull(s, new', n - 1, top)
  }

  ghost predicate HitHas(s: Ranges, new': Range, n: nat, top: nat, a: nat)
    requires n <= |s|
  {
    exists i :: 0 <= i < n && Hit(s[i], new', top) && s[i].Has(a)
  }

  ghost predicate Wraps(s: Ranges, new': Range, top: nat) {
    exists i :: 0 <= i < |s| && WrapOnly(s[i], new', top)
  }

  lemma {:induction false} HullBounds(s: Ranges, new': Range, n: nat, top: nat)
    requires n <= |s| && new'.Valid()
    ensures var h := Hull(s, new', n, top);
            && h.Valid() && h.start <= new'.start && new'.end <= h.end
            && forall i :: 0 <= i < n && Hit(s[i], new', top) ==> h.start <= s[i].start && s[i].end <= h.end
  {
    if n > 0 {
      HullBounds(s, new', n - 1, top);
    }
  }

  lemma {:induction false} HullWithin(s: Ranges, new': Range, n: nat, top: nat)
    requires n <= |s| && Within(s, top) && new'.Valid() && new'.end <= top
    ensures var h := Hull(s, new', n, top); h.start <= top && h.end <= top
  {
    if n > 0 {
      HullWithin(s, new', n - 1, top);
      assert s[n - 1] in s;
    }
  }

  /** Unless a range touches by wrapping only, the hull holds just what its parts hold. */
  lemma {:induction false} HullExact(s: Ranges, new': Range, n: nat, top: nat, a: nat)
    requires n <= |s| && Within(s, top) && new'.Valid() && new'.end <= top && top > 0
    requires !Wraps(s, new', top)
    ensures Hull(s, new', n, top).Has(a) <==> new'.Has(a) || HitHas(s, new', n, top, a)
  {
    if n > 0 {
      var r, h := s[n - 1], Hull(s, new', n - 1, top);
      HullExact(s, new', n - 1, top, a);
      HullBounds(s, new', n - 1, top);
      assert r in s;
      if Hit(r, new', top) {
        TouchesExactly(r, new', top);
        assert !WrapOnly(r, new', top);
        assert MinMax(h, r, top).Has(a) <==> h.Has(a) || r.Has(a);
      }
    }
  }

  /** t is s with the hull in the slot f of one of the ranges that touch, and the others dropped. */
  ghost predicate Merged(s: Ranges, t: Ranges, f: nat, new': Range, n: nat, top: nat) {
    && f < n <= |s| == |t|
    && Hit(s[f], new', top)
    && t[f] == Hull(s, new', n, top)
    && (forall i :: 0 <= i < n && i != f && Hit(s[i], new', top) ==> t[i] == Invalid(top))
    && forall i :: 0 <= i < |s| && (i >= n || !Hit(s[i], new', top)) ==> t[i] == s[i]
  }

  lemma MergedCover(s: Ranges, t: Ranges, f: nat, new': Range, top: nat, a: nat)
    requires Merged(s, t, f, new', |s|, top) && Within(s, top)
    requires new'.Valid() && new'.end <= top && top > 0 && !Wraps(s, new', top)
    ensures In(t, a) <==> In(s, a) || new'.Has(a)
  {
    HullExact(s, new', |s|, top, a);
    if In(s, a) {
      var i :| 0 <= i < |s| && s[i].Has(a);
      if Hit(s[i], new', top) {
        assert t[f].Has(a);
      } else {
        assert t[i].Has(a);
      }
    }
    if new'.Has(a) {
      assert t[f].Has(a);
    }
    if In(t, a) {
      var i :| 0 <= i < |t| && t[i].Has(a);
      if i == f && !new'.Has(a) {
        assert HitHas(s, new', |s|, top, a);
        var j :| 0 <= j < |s| && Hit(s[j], new', top) && s[j].Has(a);
        assert In(s, a);
      } else if i != f {
        assert s[i].Has(a);
      }
    }
  }

  /** Ranges that are near share an address or have one next to the other. */
  lemma NearWitness(h: Range, r: Range) returns (a: nat)
    requires h.Valid() && r.Valid() && Near(h, r)
    ensures h.Has(a) && r.start <= a + 1 && a <= r.end + 1
  {
    a := if h.start >= r.start then h.start else if h.end >= r.start then r.start else h.end;
  }

  lemma HullApart(s: Ranges, new': Range, top: nat, k: nat)
    requires Separated(s) && Within(s, top) && k < |s| && !Hit(s[k], new', top)
    requires new'.Valid() && new'.end <= top && top > 0 && !Wraps(s, new', top)
    ensures Apart(Hull(s, new', |s|, top), s[k])
  {
    var h, r := Hull(s, new', |s|, top), s[k];
    HullBounds(s, new', |s|, top);
    if r.Valid() && Near(h, r) {
      assert r in s;
      TouchesExactly(r, new', top);
      var a := NearWitness(h, r);
      HullExact(s, new', |s|, top, a);
    }
  }

  lemma MergedSeparated(s: Ranges, t: Ranges, f: nat, new': Range, top: nat)
    requires Merged(s, t, f, new', |s|, top) && Within(s, top) && Separated(s)
    requires new'.Valid() && new'.end <= top && top > 0 && !Wraps(s, new', top)
    ensures Separated(t)
  {
    hide Hull;
    forall i, j | 0 <= i < j < |t|
      ensures Apart(t[i], t[j])
    {
      assert Apart(s[i], s[j]);
      if i == f && !Hit(s[j], new', top) {
        HullApart(s, new', top, j);
      } else if j == f && !Hit(s[i], new', top) {
        HullApart(s, new', top, i);
      }
    }
  }

  /** A range that touches by wrapping only leaves an address between that is in neither. */
  lemma WrapGap(s: Ranges, new': Range, top: nat) returns (a: nat)
    requires Separated(s) && Within(s, top) && new'.end <= top && Wraps(s, new', top)
    ensures a <= top && !In(s, a) && !new'.Has(a)
  {
    var i :| 0 <= i < |s| && WrapOnly(s[i], new', top);
    a := if s[i].end == top && new'.start == 0 then s[i].start - 1 else s[i].end + 1;
    assert s[i] in s;
    forall j | 0 <= j < |s|
      ensures !s[j].Has(a)
    {
      if j < i {
        assert Apart(s[j], s[i]);
      } else if i < j {
        assert Apart(s[i], s[j]);
      }
    }
  }

  /** The smallest such case: the first address merged into the last. */
  lemma WrapExample(top: nat)
    requires top >= 2
    ensures Wraps([Range(top, top)], Range(0, 0), top)
  {
    assert WrapOnly([Range(top, top)][0], Range(0, 0), top);
  }

  /** Then the hull is the whole space. */
  lemma MergedWraps(s: Ranges, t: Ranges, f: nat, new': Range, top: nat, a: nat)
    requires Merged(s, t, f, new', |s|, top) && Within(s, top) && top > 0
    requires new'.Valid() && new'.end <= top && Wraps(s, new', top) && a <= top
    ensures In(t, a)
  {
    HullBounds(s, new', |s|, top);
    HullWithin(s, new', |s|, top);
    var i :| 0 <= i < |s| && WrapOnly(s[i], new', top);
    assert s[i] in s;
    TouchesExactly(s[i], new', top);
    assert t[f].Has(a);
  }

  /** The loop adds one slot to those merged. */
  lemma MergedStep(s: Ranges, t: Ranges, f: nat, new': Range, n: nat, top: nat)
    requires Merged(s, t, f, new', n, top) && n < |s|
    ensures Merged(s, if Hit(s[n], new', top) then t[f := MinMax(t[f], t[n], top)][n := Invalid(top)] else t,
                   f, new', n + 1, top)
  {
  }

  // -- The vector -----------------------------------------------------------------------

  ghost predicate Union(t: Ranges, s: Ranges, r: Range) {
    forall a: nat :: In(t, a) <==> In(s, a) || r.Has(a)
  }

  ghost predicate Difference(t: Ranges, s: Ranges, r: Range) {
    forall a: nat :: In(t, a) <==> In(s, a) && !r.Has(a)
  }

  lemma MergedOutcome(s: Ranges, t: Ranges, f: nat, new': Range, top: nat)
    requires Merged(s, t, f, new', |s|, top) && Within(s, top) && top > 0
    requires new'.Valid() && new'.end <= top
    ensures Within(t, top)
    ensures !Wraps(s, new', top) ==> Union(t, s, new') && (Separated(s) ==> Separated(t))
    ensures Wraps(s, new', top) ==> Whole(t, top) && (Separated(s) ==> !Union(t, s, new'))
  {
    hide Hull, In;
    HullWithin(s, new', |s|, top);
    forall i | 0 <= i < |t|
      ensures t[i].start <= top && t[i].end <= top
    {
      assert s[i] in s;
    }
    if Wraps(s, new', top) {
      forall a: nat | a <= top
        ensures In(t, a)
      {
        MergedWraps(s, t, f, new', top, a);
      }
      if Separated(s) {
        var b := WrapGap(s, new', top);
        assert In(t, b);
      }
    } else {
      forall a: nat
        ensures In(t, a) <==> In(s, a) || new'.Has(a)
      {
        MergedCover(s, t, f, new', top, a);
      }
      if Separated(s) {
        MergedSeparated(s, t, f, new', top);
      }
    }
  }

  lemma AddedOutcome(s: Ranges, k: nat, new': Range, top: nat)
    requires Within(s, top) && top > 0 && new'.Valid() && new'.end <= top
    requires k <= |s| && (k < |s| ==> !s[k].Valid())
    requires forall i :: 0 <= i < |s| ==> !Hit(s[i], new', top)
    ensures !Wraps(s, new', top)
    ensures var t := Put(s, k, new'); Within(t, top) && Union(t, s, new') && (Separated(s) ==> Separated(t))
  {
    forall i | 0 <= i < |s|
      ensures Apart(s[i], new') && !WrapOnly(s[i], new', top)
    {
      assert s[i] in s;
      if s[i].Valid() {
        TouchesExactly(s[i], new', top);
      }
    }
    AddedIn(s, k, new');
    if Separated(s) {
      Added(s, k, new');
    }
  }

  // -- When it wraps, in terms of addresses -----------------------------------------------

  ghost predicate Whole(s: Ranges, top: nat) {
    forall a: nat :: a <= top ==> In(s, a)
  }

  /** The new range holds one end of the space, the vector the other, and something is in neither. */
  ghost predicate ClosesRound(s: Ranges, new': Range, top: nat) {
    && new'.Valid() && ((new'.start == 0 && In(s, top)) || (new'.end == top && In(s, 0)))
    && exists a: nat :: a <= top && !In(s, a) && !new'.Has(a)
  }

  /** A separated vector wraps exactly then. */
  lemma WrapsExactly(s: Ranges, new': Range, top: nat)
    requires Separated(s) && Within(s, top) && new'.end <= top
    ensures Wraps(s, new', top) <==> ClosesRound(s, new', top)
  {
    if Wraps(s, new', top) {
      var i :| 0 <= i < |s| && WrapOnly(s[i], new', top);
      assert s[i].Has(s[i].start) && s[i].Has(s[i].end);
      var a := WrapGap(s, new', top);
    }
    if ClosesRound(s, new', top) {
      var a: nat :| a <= top && !In(s, a) && !new'.Has(a);
      var e := if new'.start == 0 && In(s, top) then top else 0;
      var i :| 0 <= i < |s| && s[i].Has(e);
      assert s[i] in s && !s[i].Has(a);
      assert WrapOnly(s[i], new', top);
    }
  }

  class AddressRangeVector {
    const top: nat
    var data: Ranges

    predicate Valid()
      reads this
    {
      top > 0 && Within(data, top) && Separated(data)
    }

    constructor (top: nat)
      requires top > 0
      ensures Valid() && data == [] && this.top == top
    {
      this.top, data := top, [];
    }

    /** Adds a range. The vector then means the union and stays separated, unless a range of it
        touches the new one by wrapping only: exactly then the set comes out wrong, as the whole
        space. Ranges that do not touch stay in their slots, and the vector grows only when no
        range touches and no slot is free. */
    method Merge(new': Range)
      requires top > 0 && Within(data, top) && new'.start <= top && new'.end <= top
      modifies `data
      ensures !new'.Valid() ==> data == old(data)
      ensures !Wraps(old(data), new', top) ==> Union(data, old(data), new') && (Separated(old(data)) ==> Valid())
      ensures Wraps(old(data), new', top) ==> Whole(data, top) && (Separated(old(data)) ==> !Union(data, old(data), new'))
      ensures |old(data)| <= |data| && Within(data, top)
      ensures forall i :: 0 <= i < |old(data)| && old(data)[i].Valid() && !Hit(old(data)[i], new', top)
                          ==> data[i] == old(data)[i]
      ensures new'.Valid() ==>
                |data| == |old(data)| + if forall r <- old(data) :: r.Valid() && !Hit(r, new', top) then 1 else 0
      ensures Separated(old(data)) ==>
                (Consistent(data, top) <==>
                 if Wraps(old(data), new', top) then AllTouch(old(data), new', top) else !StaysOpen(old(data), new', top))
    {
      if !new'.Valid() {
        UnionPasses(data, data, new', top);
        return;
      }
      var found, invalid := -1, -1;
      ghost var s := data;
      for n := 0 to |data|
        invariant |data| == |s|
        invariant -1 <= found < n && -1 <= invalid < n
        invariant invalid == -1 ==> forall i :: 0 <= i < n ==> s[i].Valid()
        invariant invalid >= 0 ==> !s[invalid].Valid()
        invariant found == -1 ==> data == s && forall i :: 0 <= i < n ==> !Hit(s[i], new', top)
        invariant found >= 0 ==> Merged(s, data, found, new', n, top)
      {
        hide Hull;
        if !data[n].Valid() {
          invalid := n;
          assert !Hit(s[n], new', top);
          if found >= 0 {
            MergedStep(s, data, found, new', n, top);
          }
        } else if Touches(data[n], new', top) {
          if found >= 0 {
            MergedStep(s, data, found, new', n, top);
            data := data[found := MinMax(data[found], data[n], top)];
            data := data[n := Invalid(top)];
          } else {
            FirstHit(s, new', n, top);
            data := data[n := MinMax(data[n], new', top)];
            found := n;
          }
        } else if found >= 0 {
          MergedStep(s, data, found, new', n, top);
        }
      }
      if found >= 0 {
        MergedOutcome(s, data, found, new', top);
        MergedPasses(s, data, found, new', top);
        return;
      }
      AddedOutcome(s, if invalid >= 0 then invalid else |s|, new', top);
      if invalid >= 0 {
        data := data[invalid := new'];
      } else {
        data := data + [new'];
      }
      UnionPasses(s, data, new', top);
    }

    /** Merges the ranges of another vector in order. The result is the union exactly if no range, when
        its turn comes, closes the space round, or the union is the whole space anyway. */
    method MergeAll(other: Ranges)
      requires Valid() && Within(other, top)
      modifies `data
      ensures Within(data, top)
      ensures (forall n | 0 <= n < |other| :: !ClosesRound(old(data) + other[..n], other[n], top)) ==> Valid()
      ensures (forall a: nat :: In(data, a) <==> In(old(data) + other, a)) <==>
              || Whole(old(data) + other, top)
              || forall n | 0 <= n < |other| :: !ClosesRound(old(data) + other[..n], other[n], top)
      ensures (forall n | 0 <= n < |other| :: !ClosesRound(old(data) + other[..n], other[n], top)) ==>
                var all := old(data) + other;
                Consistent(data, top) <==> !(In(all, 0) && In(all, top) && !Whole(all, top))
    {
      hide In, Separated, Whole, ClosesRound, Within, Consistent, StaysOpen;
      ghost var s := data;
      ghost var closed := false;
      assert s + other[..0] == s;
      for n := 0 to |other|
        invariant top > 0 && Within(data, top)
        invariant closed ==> Whole(data, top) && exists k :: 0 <= k < n && ClosesRound(s + other[..k], other[k], top)
        invariant !closed ==> Separated(data) && SameSet(data, s + other[..n])
        invariant !closed ==> forall k | 0 <= k < n :: !ClosesRound(s + other[..k], other[k], top)
      {
        RangeWithin(other, n, top);
        ghost var before := data;
        Merge(other[n]);
        if closed {
          StaysWhole(before, data, other[n], top);
        } else {
          WrapsExactly(before, other[n], top);
          SameCloses(before, s + other[..n], other[n], top);
          if ClosesRound(s + other[..n], other[n], top) {
            closed := true;
          } else {
            JoinedSet(s, other, n, before, data);
          }
        }
      }
      assert other[..|other|] == other;
      WithinConcat(s, other, top);
      MergeAllMeans(data, s + other, top, closed);
      if !closed {
        SamePasses(data, s + other, top);
      }
    }

    /** What Exclude does to a range that overlaps: drops it, shortens it, or cuts it in two. */
    method CutSlot(n: nat, free: int, exclusion: Range) returns (invalid: int)
      requires n < |data| && -1 <= free < n && (free >= 0 ==> !data[free].Valid())
      modifies `data
      ensures data == Cut(old(data), n, if free >= 0 then free else |old(data)|, exclusion, top)
      ensures |old(data)| <= |data|
      ensures -1 <= invalid <= n && (invalid >= 0 ==> invalid < |data| && (invalid != n ==> data[invalid] == old(data)[invalid]))
      ensures invalid == n ==> data[n] == Invalid(top)
      ensures invalid == n || invalid == free || invalid == -1
    {
      invalid := free;
      var existing := data[n];
      var headExcluded := exclusion.Has(existing.start);
      var tailExcluded := exclusion.Has(existing.end);
      if headExcluded && tailExcluded {
        data := data[n := Invalid(top)];
        invalid := n;
      } else if headExcluded {
        data := data[n := Range(Next(exclusion.end, top), existing.end)];
      } else if tailExcluded {
        data := data[n := Range(existing.start, Prev(exclusion.start, top))];
      } else {
        var tail := Range(Next(exclusion.end, top), existing.end);
        data := data[n := Range(existing.start, Prev(exclusion.start, top))];
        if invalid >= 0 {
          data := data[invalid := tail];
          invalid := -1;
        } else {
          data := data + [tail];
        }
      }
    }

    /** Removes a range: the vector then means the difference, and stays separated. The tail of a
        range cut in the middle goes to a free slot met before it, or to the end. */
    method Exclude(exclusion: Range)
      requires Valid() && exclusion.start <= top && exclusion.end <= top
      modifies `data
      ensures Valid()
      ensures Difference(data, old(data), exclusion)
      ensures |old(data)| <= |data|
      ensures forall i :: 0 <= i < |old(data)| && old(data)[i].Valid() && !Overlaps(old(data)[i], exclusion)
                          ==> data[i] == old(data)[i]
      ensures Consistent(data, top) <==> !CutsOpen(old(data), exclusion, top)
    {
      hide In, Separated, Within, Cut, Progress, Difference, Consistent, CutsOpen;
      if !exclusion.Valid() {
        NothingExcluded(data, exclusion);
        ExcludePasses(data, data, exclusion, top);
        return;
      }
      var invalid := -1;
      ghost var s := data;
      Untouched(s, exclusion);
      for n := 0 to |data|
        invariant Valid() && Progress(s, data, n, exclusion)
        invariant |s| <= |data| && -1 <= invalid < n && (invalid >= 0 ==> !data[invalid].Valid())
      {
        Slots(s, data, n, exclusion);
        ghost var k := if invalid >= 0 then invalid else |data|;
        var existing := data[n];
        if !existing.Valid() {
          Skip(s, data, n, exclusion);
          invalid := n;
        } else if !Overlaps(existing, exclusion) {
          Skip(s, data, n, exclusion);
        } else {
          CutOutcome(data, n, k, exclusion, top);
          CutStep(s, data, n, k, exclusion, top);
          invalid := CutSlot(n, invalid, exclusion);
        }
      }
      Done(s, data, exclusion);
      ExcludePasses(data, s, exclusion, top);
    }

    /** Excludes the ranges of another vector in order. */
    method ExcludeAll(other: Ranges)
      requires Valid() && Within(other, top)
      modifies `data
      ensures Valid()
      ensures forall a: nat :: In(data, a) <==> In(old(data), a) && !In(other, a)
      ensures Consistent(data, top) <==>
              !(In(old(data), 0) && In(old(data), top) && !In(other, 0) && !In(other, top)
                && exists a: nat :: a <= top && (In(old(data), a) ==> In(other, a)))
    {
      ghost var s := data;
      for n := 0 to |other|
        invariant Valid()
        invariant forall a: nat :: In(data, a) <==> In(s, a) && !In(other[..n], a)
      {
        hide In, Separated;
        assert other[n] in other;
        Exclude(other[n]);
        forall a: nat
          ensures In(other[..n + 1], a) <==> In(other[..n], a) || other[n].Has(a)
        {
          Snoc(other, n, a);
        }
      }
      assert other[..|other|] == other;
      DifferencePasses(data, s, other, top);
    }

    /** Looks for two ranges that touch; ConsistentExactly says what the answer means. */
    method CheckConsistency() returns (ok: bool)
      ensures ok <==> Consistent(data, top)
    {
      for i := 0 to |data|
        invariant forall k, j :: 0 <= k < i && k < j < |data| ==> !Clash(data[k], data[j], top)
      {
        var r1 := data[i];
        if !r1.Valid() {
          continue;
        }
        for j := i + 1 to |data|
          invariant forall k :: i < k < j ==> !Clash(r1, data[k], top)
        {
          var r2 := data[j];
          if !r2.Valid() {
            continue;
          }
          if Touches(r1, r2, top) {
            assert Clash(data[i], data[j], top);
            return false;
          }
        }
      }
      return true;
    }
  }

  predicate Clash(r: Range, o: Range, top: nat) {
    r.Valid() && o.Valid() && Touches(r, o, top)
  }

  ghost predicate Consistent(s: Ranges, top: nat) {
    forall i, j :: 0 <= i < j < |s| ==> !Clash(s[i], s[j], top)
  }

  /** One range starts at the first address and another ends at the last. */
  ghost predicate Ends(s: Ranges, top: nat) {
    exists i, j :: 0 <= i < |s| && 0 <= j < |s| && i != j && Edge(s[i], s[j], top)
  }

  predicate Edge(r: Range, o: Range, top: nat) {
    r.Valid() && o.Valid() && r.start == 0 && o.end == top
  }

  /** A vector passes check_consistency exactly when it is separated and not at both ends of the space in
      different ranges. */
  lemma ConsistentExactly(s: Ranges, top: nat)
    requires Within(s, top) && top > 0
    ensures Consistent(s, top) <==> Separated(s) && !Ends(s, top)
  {
    forall i, j | 0 <= i < j < |s|
      ensures Clash(s[i], s[j], top) <==> !Apart(s[i], s[j]) || Edge(s[i], s[j], top) || Edge(s[j], s[i], top)
    {
      assert s[i] in s && s[j] in s;
      if s[i].Valid() && s[j].Valid() {
        TouchesExactly(s[i], s[j], top);
      }
    }
    if Ends(s, top) {
      var i, j :| 0 <= i < |s| && 0 <= j < |s| && i != j && Edge(s[i], s[j], top);
      assert i < j ==> Clash(s[i], s[j], top);
      assert j < i ==> Clash(s[j], s[i], top);
    }
  }

  // -- Which operations leave a vector that passes ------------------------------------------

  /** A separated vector is at both ends in different ranges exactly if its set has both ends and not
      everything between. */
  lemma EndsExactly(s: Ranges, top: nat)
    requires Separated(s) && Within(s, top)
    ensures Ends(s, top) <==> In(s, 0) && In(s, top) && !Whole(s, top)
  {
    if Ends(s, top) {
      var a := EndsGap(s, top);
    }
    if In(s, 0) && In(s, top) && !Whole(s, top) {
      var i :| 0 <= i < |s| && s[i].Has(0);
      var j :| 0 <= j < |s| && s[j].Has(top);
      var a: nat :| a <= top && !In(s, a);
      assert s[j] in s && !s[i].Has(a);
      assert Edge(s[i], s[j], top);
    }
  }

  lemma EndsGap(s: Ranges, top: nat) returns (a: nat)
    requires Separated(s) && Within(s, top) && Ends(s, top)
    ensures In(s, 0) && In(s, top) && a <= top && !In(s, a)
  {
    var i, j :| 0 <= i < |s| && 0 <= j < |s| && i != j && Edge(s[i], s[j], top);
    assert s[i].Has(0) && s[j].Has(top);
    a := s[i].end + 1;
    forall k | 0 <= k < |s| && k != i
      ensures s[k].Valid() ==> a < s[k].start
    {
      assert k < i ==> Apart(s[k], s[i]);
      assert i < k ==> Apart(s[i], s[k]);
    }
  }

  lemma PassesExactly(s: Ranges, top: nat)
    requires Separated(s) && Within(s, top) && top > 0
    ensures Consistent(s, top) <==> !(In(s, 0) && In(s, top) && !Whole(s, top))
  {
    hide In, Whole, Ends;
    ConsistentExactly(s, top);
    EndsExactly(s, top);
  }

  lemma SamePasses(t: Ranges, s: Ranges, top: nat)
    requires Separated(t) && Within(t, top) && top > 0 && SameSet(t, s)
    ensures Consistent(t, top) <==> !(In(s, 0) && In(s, top) && !Whole(s, top))
  {
    hide In, Consistent;
    PassesExactly(t, top);
  }

  /** Excluding x from s opens a gap in a set that keeps both ends of the space. */
  ghost predicate CutsOpen(s: Ranges, x: Range, top: nat) {
    && In(s, 0) && In(s, top) && !x.Has(0) && !x.Has(top)
    && (x.Valid() || !Whole(s, top))
  }

  lemma ExcludePasses(t: Ranges, s: Ranges, x: Range, top: nat)
    requires Separated(t) && Within(t, top) && top > 0 && Difference(t, s, x) && x.end <= top
    ensures Consistent(t, top) <==> !CutsOpen(s, x, top)
  {
    hide In, Consistent;
    PassesExactly(t, top);
    if CutsOpen(s, x, top) && x.Valid() {
      assert x.Has(x.start) && !In(t, x.start);
    }
  }

  lemma NothingExcluded(s: Ranges, x: Range)
    requires !x.Valid()
    ensures Difference(s, s, x)
  {
  }

  lemma DifferencePasses(t: Ranges, s: Ranges, other: Ranges, top: nat)
    requires Separated(t) && Within(t, top) && top > 0
    requires forall a: nat :: In(t, a) <==> In(s, a) && !In(other, a)
    ensures Consistent(t, top) <==>
            !(In(s, 0) && In(s, top) && !In(other, 0) && !In(other, top)
              && exists a: nat :: a <= top && (In(s, a) ==> In(other, a)))
  {
    hide In, Consistent;
    PassesExactly(t, top);
    if a: nat :| a <= top && !In(t, a) {
      assert In(s, a) ==> In(other, a);
    }
    if a: nat :| a <= top && (In(s, a) ==> In(other, a)) {
      assert !In(t, a);
    }
  }

  /** The set has both ends of the space, and merging x leaves a gap in it. */
  ghost predicate StaysOpen(s: Ranges, x: Range, top: nat) {
    In(s, 0) && In(s, top) && exists a: nat :: a <= top && !In(s, a) && !x.Has(a)
  }

  lemma MergePasses(t: Ranges, s: Ranges, x: Range, top: nat)
    requires Separated(t) && Within(t, top) && top > 0 && Union(t, s, x)
    requires Separated(s) && Within(s, top) && x.end <= top && !Wraps(s, x, top)
    ensures Consistent(t, top) <==> !StaysOpen(s, x, top)
  {
    hide In, Consistent, Wraps;
    PassesExactly(t, top);
    WrapsExactly(s, x, top);
    if a: nat :| a <= top && !In(t, a) {
      assert !In(s, a) && !x.Has(a);
    }
    if StaysOpen(s, x, top) {
      var a: nat :| a <= top && !In(s, a) && !x.Has(a);
      assert !In(t, a);
    }
  }

  /** Every range of s touches x. */
  predicate AllTouch(s: Ranges, x: Range, top: nat) {
    forall i :: 0 <= i < |s| && s[i].Valid() ==> Hit(s[i], x, top)
  }

  lemma UnionPasses(s: Ranges, t: Ranges, x: Range, top: nat)
    requires Within(s, top) && Within(t, top) && top > 0 && x.end <= top && !Wraps(s, x, top)
    requires Union(t, s, x) && (Separated(s) ==> Separated(t))
    ensures Separated(s) ==> (Consistent(t, top) <==> !StaysOpen(s, x, top))
  {
    hide In, Consistent, Wraps, Separated;
    if Separated(s) {
      MergePasses(t, s, x, top);
    }
  }

  lemma MergedPasses(s: Ranges, t: Ranges, f: nat, x: Range, top: nat)
    requires Merged(s, t, f, x, |s|, top) && Within(s, top) && Within(t, top) && top > 0 && x.Valid() && x.end <= top
    requires !Wraps(s, x, top) ==> Union(t, s, x) && (Separated(s) ==> Separated(t))
    ensures Separated(s) ==>
              (Consistent(t, top) <==> if Wraps(s, x, top) then AllTouch(s, x, top) else !StaysOpen(s, x, top))
  {
    hide In, Consistent, Wraps, Separated, Merged;
    if Wraps(s, x, top) {
      WrappedPasses(s, t, f, x, top);
    } else {
      UnionPasses(s, t, x, top);
    }
  }

  /** A merge that wraps makes one range the whole space: a range that was not merged lies in it. */
  lemma WrappedPasses(s: Ranges, t: Ranges, f: nat, x: Range, top: nat)
    requires Merged(s, t, f, x, |s|, top) && Within(s, top) && top > 0
    requires x.Valid() && x.end <= top && Wraps(s, x, top)
    ensures Consistent(t, top) <==> AllTouch(s, x, top)
  {
    hide Hull;
    WrappedHull(s, x, top);
    if !AllTouch(s, x, top) {
      var i :| 0 <= i < |s| && s[i].Valid() && !Hit(s[i], x, top);
      assert t[i] == s[i] && s[i] in s;
      assert i < f ==> Clash(t[i], t[f], top);
      assert f < i ==> Clash(t[f], t[i], top);
    }
  }

  lemma WrappedHull(s: Ranges, x: Range, top: nat)
    requires Within(s, top) && top > 0 && x.Valid() && x.end <= top && Wraps(s, x, top)
    ensures Hull(s, x, |s|, top) == Range(0, top)
  {
    HullBounds(s, x, |s|, top);
    HullWithin(s, x, |s|, top);
    var i :| 0 <= i < |s| && WrapOnly(s[i], x, top);
    assert s[i] in s;
    TouchesExactly(s[i], x, top);
  }

  /** Cutting the whole space in the middle leaves the right set, and a vector check_consistency rejects,
      as does every separated vector of that set. */
  lemma CutBreaksCheck(exclusion: Range, top: nat)
    requires 0 < exclusion.start <= exclusion.end < top
    ensures var whole := [Range(0, top)];
            && Separated(whole) && !Ends(whole, top) && Consistent(whole, top)
            && Ends(Cut(whole, 0, 1, exclusion, top), top)
            && forall t | Separated(t) && Within(t, top) && Difference(t, whole, exclusion) :: !Consistent(t, top)
  {
    var whole := [Range(0, top)];
    var t := Cut(whole, 0, 1, exclusion, top);
    assert Edge(t[0], t[1], top);
    assert whole[0].Has(0) && whole[0].Has(top);
    forall t | Separated(t) && Within(t, top) && Difference(t, whole, exclusion)
      ensures !Consistent(t, top)
    {
      ExcludePasses(t, whole, exclusion, top);
    }
  }

  /** t is s with the exclusion taken out of the first n slots. */
  ghost predicate Progress(s: Ranges, t: Ranges, n: nat, exclusion: Range) {
    && n <= |s| <= |t|
    && (forall i :: n <= i < |s| ==> t[i] == s[i])
    && (forall i :: 0 <= i < n && s[i].Valid() && !Overlaps(s[i], exclusion) ==> t[i] == s[i])
    && forall a: nat :: In(t, a) <==> In(s, a) && !(exclusion.Has(a) && In(s[..n], a))
  }

  lemma Untouched(s: Ranges, exclusion: Range)
    ensures Progress(s, s, 0, exclusion)
  {
  }

  lemma Done(s: Ranges, t: Ranges, exclusion: Range)
    requires Progress(s, t, |s|, exclusion)
    ensures Difference(t, s, exclusion) && |s| <= |t|
    ensures forall i :: 0 <= i < |s| && s[i].Valid() && !Overlaps(s[i], exclusion) ==> t[i] == s[i]
  {
    hide In;
    assert s[..|s|] == s;
  }

  lemma Slots(s: Ranges, t: Ranges, n: nat, exclusion: Range)
    requires Progress(s, t, n, exclusion)
    ensures n <= |s| <= |t| && forall i :: n <= i < |s| ==> t[i] == s[i]
  {
  }

  lemma Skip(s: Ranges, t: Ranges, n: nat, exclusion: Range)
    requires Progress(s, t, n, exclusion) && n < |s| && !(s[n].Valid() && Overlaps(s[n], exclusion))
    ensures Progress(s, t, n + 1, exclusion)
  {
    hide In;
    forall a: nat
      ensures In(s[..n + 1], a) <==> In(s[..n], a) || s[n].Has(a)
    {
      Snoc(s, n, a);
    }
  }

  lemma CutStep(s: Ranges, t: Ranges, n: nat, k: nat, exclusion: Range, top: nat)
    requires Progress(s, t, n, exclusion) && n < |s| && k <= |t| && (k < |t| ==> k < n && !t[k].Valid())
    requires forall a: nat ::
               In(Cut(t, n, k, exclusion, top), a) <==> In(t, a) && !(t[n].Has(a) && exclusion.Has(a))
    requires s[n].Valid() && Overlaps(s[n], exclusion)
    ensures Progress(s, Cut(t, n, k, exclusion, top), n + 1, exclusion)
  {
    hide In, Cut;
    CutSlots(t, n, k, exclusion, top);
    forall a: nat
      ensures In(s[..n + 1], a) <==> In(s[..n], a) || s[n].Has(a)
    {
      Snoc(s, n, a);
    }
  }

  lemma Snoc(s: Ranges, n: nat, a: nat)
    requires n < |s|
    ensures In(s[..n + 1], a) <==> In(s[..n], a) || s[n].Has(a)
  {
    if In(s[..n], a) {
      var i :| 0 <= i < n && s[i].Has(a);
      assert s[..n + 1][i].Has(a);
    }
    assert s[..n + 1][n] == s[n];
    if In(s[..n + 1], a) && !s[n].Has(a) {
      var i :| 0 <= i < n + 1 && s[i].Has(a);
      assert s[..n][i].Has(a);
    }
  }

  lemma JoinedSnoc(s: Ranges, t: Ranges, n: nat, a: nat)
    requires n < |t|
    ensures In(s + t[..n + 1], a) <==> In(s + t[..n], a) || t[n].Has(a)
  {
    var u := s + t[..n + 1];
    assert u[..|s| + n] == s + t[..n] && u[..|s| + n + 1] == u;
    Snoc(u, |s| + n, a);
  }

  /** The tail left by a cut is apart from the head and from every other range. */
  lemma TailApart(s: Ranges, n: nat, head: Range, tail: Range)
    requires Separated(s) && n < |s| && s[n].Valid()
    requires tail.Valid() && s[n].start <= tail.start && tail.end <= s[n].end && head.end + 1 < tail.start
    ensures var t := s[n := head]; forall i :: 0 <= i < |t| ==> Apart(t[i], tail)
  {
    var t := s[n := head];
    forall i | 0 <= i < |t|
      ensures Apart(t[i], tail)
    {
      assert i < n ==> Apart(s[i], s[n]);
      assert n < i ==> Apart(s[n], s[i]);
    }
  }

  function HeadOf(r: Range, exclusion: Range, top: nat): Range {
    Range(r.start, Prev(exclusion.start, top))
  }

  function TailOf(r: Range, exclusion: Range, top: nat): Range {
    Range(Next(exclusion.end, top), r.end)
  }

  /** s with the slot n cut, a tail going to the slot k. */
  function Cut(s: Ranges, n: nat, k: nat, exclusion: Range, top: nat): Ranges
    requires n < |s| && k <= |s|
  {
    var r := s[n];
    if exclusion.Has(r.start) && exclusion.Has(r.end) then s[n := Invalid(top)]
    else if exclusion.Has(r.start) then s[n := TailOf(r, exclusion, top)]
    else if exclusion.Has(r.end) then s[n := HeadOf(r, exclusion, top)]
    else Put(s[n := HeadOf(r, exclusion, top)], k, TailOf(r, exclusion, top))
  }

  lemma CutOutcome(s: Ranges, n: nat, k: nat, exclusion: Range, top: nat)
    requires Within(s, top) && Separated(s) && top > 0 && exclusion.Valid() && exclusion.end <= top
    requires n < |s| && k <= |s| && k != n && (k < |s| ==> !s[k].Valid())
    requires s[n].Valid() && Overlaps(s[n], exclusion)
    ensures var t := Cut(s, n, k, exclusion, top);
            && Within(t, top) && Separated(t)
            && forall a: nat :: In(t, a) <==> In(s, a) && !(s[n].Has(a) && exclusion.Has(a))
  {
    hide In, Separated;
    var r := s[n];
    var head, tail := HeadOf(r, exclusion, top), TailOf(r, exclusion, top);
    assert r in s;
    CutWithin(s, n, k, exclusion, top);
    assert forall a: nat :: r.Has(a) ==> In(s, a) by {
      Holds(s, n);
    }
    if exclusion.Has(r.start) && exclusion.Has(r.end) {
      Shrunk(s, n, Invalid(top));
    } else if exclusion.Has(r.start) {
      Shrunk(s, n, tail);
    } else if exclusion.Has(r.end) {
      Shrunk(s, n, head);
    } else {
      Shrunk(s, n, head);
      TailApart(s, n, head, tail);
      Added(s[n := head], k, tail);
    }
  }

  /** The slots a cut leaves alone, and the result spelled out. */
  lemma CutSlots(s: Ranges, n: nat, k: nat, exclusion: Range, top: nat)
    requires n < |s| && k <= |s|
    ensures var t, r := Cut(s, n, k, exclusion, top), s[n];
            var head, tail := HeadOf(r, exclusion, top), TailOf(r, exclusion, top);
            && |s| <= |t| && (forall i :: 0 <= i < |s| && i != n && i != k ==> t[i] == s[i])
            && (exclusion.Has(r.start) && exclusion.Has(r.end) ==> t == s[n := Invalid(top)])
            && (exclusion.Has(r.start) && !exclusion.Has(r.end) ==> t == s[n := tail])
            && (!exclusion.Has(r.start) && exclusion.Has(r.end) ==> t == s[n := head])
            && (!exclusion.Has(r.start) && !exclusion.Has(r.end) ==> t == Put(s[n := head], k, tail))
  {
  }

  lemma Holds(s: Ranges, n: nat)
    requires n < |s|
    ensures forall a: nat :: s[n].Has(a) ==> In(s, a)
  {
  }

  lemma CutWithin(s: Ranges, n: nat, k: nat, exclusion: Range, top: nat)
    requires Within(s, top) && exclusion.Valid() && exclusion.end <= top && n < |s| && k <= |s|
    ensures Within(Cut(s, n, k, exclusion, top), top)
  {
    var t := Cut(s, n, k, exclusion, top);
    forall i | 0 <= i < |t|
      ensures t[i].start <= top && t[i].end <= top
    {
      assert s[n] in s && (i < |s| ==> s[i] in s);
    }
  }

  ghost predicate SameSet(s: Ranges, t: Ranges) {
    forall a: nat :: In(s, a) <==> In(t, a)
  }

  lemma RangeWithin(other: Ranges, n: nat, top: nat)
    requires Within(other, top) && n < |other|
    ensures other[n].start <= top && other[n].end <= top
  {
    assert other[n] in other;
  }

  lemma WithinConcat(s: Ranges, t: Ranges, top: nat)
    requires Within(s, top) && Within(t, top)
    ensures Within(s + t, top)
  {
  }

  lemma StaysWhole(s: Ranges, t: Ranges, r: Range, top: nat)
    requires Whole(s, top) && (Union(t, s, r) || Whole(t, top))
    ensures Whole(t, top)
  {
  }

  lemma SameCloses(s: Ranges, t: Ranges, r: Range, top: nat)
    requires SameSet(s, t)
    ensures ClosesRound(s, r, top) <==> ClosesRound(t, r, top)
  {
    hide In;
  }

  lemma JoinedSet(s: Ranges, other: Ranges, n: nat, before: Ranges, after: Ranges)
    requires n < |other| && SameSet(before, s + other[..n]) && Union(after, before, other[n])
    ensures SameSet(after, s + other[..n + 1])
  {
    hide In;
    forall a: nat
      ensures In(after, a) <==> In(s + other[..n + 1], a)
    {
      JoinedSnoc(s, other, n, a);
    }
  }

  lemma MergeAllMeans(data: Ranges, union: Ranges, top: nat, closed: bool)
    requires Within(data, top) && (closed ==> Whole(data, top)) && (!closed ==> SameSet(data, union))
    ensures (forall a: nat :: In(data, a) <==> In(union, a)) ==> (!closed || Whole(union, top))
    ensures Within(union, top) && (!closed || Whole(union, top)) ==> forall a: nat :: In(data, a) <==> In(union, a)
  {
    if closed && Within(union, top) && Whole(union, top) {
      forall a: nat
        ensures In(data, a) <==> In(union, a)
      {
        BelowTop(data, top, a);
        BelowTop(union, top, a);
      }
    }
  }

  lemma BelowTop(s: Ranges, top: nat, a: nat)
    requires Within(s, top)
    ensures In(s, a) ==> a <= top
  {
    if In(s, a) {
      var i :| 0 <= i < |s| && s[i].Has(a);
      assert s[i] in s;
    }
  }

  lemma FirstHit(s: Ranges, new': Range, n: nat, top: nat)
    requires n < |s| && new'.Valid() && Hit(s[n], new', top)
    requires forall i :: 0 <= i < n ==> !Hit(s[i], new', top)
    ensures Merged(s, s[n := MinMax(s[n], new', top)], n, new', n + 1, top)
  {
    NoHull(s, new', n, top);
  }

  lemma {:induction false} NoHull(s: Ranges, new': Range, n: nat, top: nat)
    requires n <= |s| && forall i :: 0 <= i < n ==> !Hit(s[i], new', top)
    ensures Hull(s, new', n, top) == new'
  {
    if n > 0 {
      NoHull(s, new', n - 1, top);
    }
  }
}

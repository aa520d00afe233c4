/**
 * The stream that shows a list of files as one. It keeps, in order, the end offset of each
 * fragment with the index of its file, and serves a read by going through the fragments from
 * the one that holds the position.
 */
module GatherStream {
  import opened Arithmetic
  import Bits

  type Byte = Bits.Byte

  const S64 := 0x8000_0000_0000_0000

  /** A fragment: its bytes and its own read position. */
  datatype File = File(data: seq<Byte>, pos: nat)

  /** An entry of the ordered map from fragment end to file index. */
  datatype End = End(key: nat, index: nat)

  function Part(data: seq<Byte>, from: nat, count: nat): (bytes: seq<Byte>)
    ensures |bytes| <= count
  {
    if from < |data| then data[from..Min(from + count, |data|)] else []
  }

  // -- Fragments ------------------------------------------------------------------------

  /** A read back bytes before the end of a file. Moving goes through seek and read; a seek before
      the start fails and leaves the position. Otherwise it is a positional read, whose offset wraps
      past every byte when it is negative. */
  function Fetch(f: File, back: nat, count: nat, moving: bool): (r: (File, seq<Byte>))
    ensures |r.1| <= count && r.0.data == f.data
  {
    if moving then
      var g := if back <= |f.data| then f.(pos := |f.data| - back) else f;
      var bytes := Part(g.data, g.pos, count);
      (g.(pos := g.pos + |bytes|), bytes)
    else
      (f, if back <= |f.data| then Part(f.data, |f.data| - back, count) else [])
  }

  /** How many bytes the first n fragments hold. */
  function Offset(files: seq<File>, n: nat): nat
    requires n <= |files|
  {
    if n == 0 then 0 else Offset(files, n - 1) + |files[n - 1].data|
  }

  /** The bytes of the first n fragments. */
  function Content(files: seq<File>, n: nat): (bytes: seq<Byte>)
    requires n <= |files|
    ensures |bytes| == Offset(files, n)
  {
    if n == 0 then [] else Content(files, n - 1) + files[n - 1].data
  }

  /** The map after n fragments: an end already present is not entered again, and the index entered
      is the size of the map. */
  function Ends(files: seq<File>, n: nat): (ends: seq<End>)
    requires n <= |files|
    ensures |ends| <= n && (n > 0 ==> ends != [])
  {
    if n == 0 then []
    else
      var ends := Ends(files, n - 1);
      if ends != [] && ends[|ends| - 1].key == Offset(files, n) then ends
      else ends + [End(Offset(files, n), |ends|)]
  }

  predicate Sorted(ends: seq<End>) {
    forall i, j :: 0 <= i < j < |ends| ==> ends[i].key < ends[j].key
  }

  lemma {:induction false} EndsSorted(files: seq<File>, n: nat)
    requires n <= |files|
    ensures var ends := Ends(files, n);
            && Sorted(ends) && (ends != [] ==> ends[|ends| - 1].key == Offset(files, n))
            && forall i :: 0 <= i < |ends| ==> ends[i].index == i
  {
    if n > 0 {
      EndsSorted(files, n - 1);
      var ends, e := Ends(files, n - 1), Offset(files, n);
      assert Offset(files, n - 1) <= e;
      assert Ends(files, n) == if ends != [] && ends[|ends| - 1].key == e then ends else ends + [End(e, |ends|)];
      hide Sorted, Ends, Offset;
      if ends == [] || ends[|ends| - 1].key < e {
        Appended(ends, End(e, |ends|));
      }
    }
  }

  lemma Appended(ends: seq<End>, e: End)
    requires Sorted(ends) && (ends != [] ==> ends[|ends| - 1].key < e.key)
    ensures Sorted(ends + [e])
  {
    var t := ends + [e];
    forall i, j | 0 <= i < j < |t|
      ensures t[i].key < t[j].key
    {
      assert j == |ends| && i < |ends| - 1 ==> ends[i].key < ends[|ends| - 1].key;
    }
  }

  // -- Reading --------------------------------------------------------------------------

  /** The first entry past the position. */
  function UpperBound(ends: seq<End>, pos: nat, from: nat := 0): (it: nat)
    requires from <= |ends|
    ensures from <= it <= |ends| && (it < |ends| ==> pos < ends[it].key)
    ensures forall i :: from <= i < it ==> ends[i].key <= pos
    decreases |ends| - from
  {
    if from == |ends| || pos < ends[from].key then from else UpperBound(ends, pos, from + 1)
  }

  predicate Ready(files: seq<File>, ends: seq<End>, it: nat, pos: nat) {
    && Sorted(ends) && (forall i :: 0 <= i < |ends| ==> ends[i].index < |files|)
    && it <= |ends| && (it < |ends| ==> pos < ends[it].key)
  }

  /** The loop of a read: what the fragments from entry `it` on give for max bytes at pos. */
  function Gather(files: seq<File>, ends: seq<End>, it: nat, pos: nat, max: nat, moving: bool)
    : (r: (seq<File>, seq<Byte>))
    requires Ready(files, ends, it, pos)
    ensures |r.0| == |files| && |r.1| <= max
    decreases |ends| - it
  {
    if it == |ends| then (files, [])
    else
      var e := ends[it];
      var count := Min(e.key - pos, max);
      var (f, bytes) := Fetch(files[e.index], e.key - pos, count, moving);
      var moved := files[e.index := f];
      if |bytes| < count || count == max then (moved, bytes)
      else
        var (rest, more) := Gather(moved, ends, it + 1, pos + count, max - count, moving);
        (rest, bytes + more)
  }

  /** A whole read at pos: files, and bytes read. */
  function Serve(files: seq<File>, pos: nat, size: nat, moving: bool): (r: (seq<File>, seq<Byte>)) {
    var ends, end := Ends(files, |files|), Offset(files, |files|);
    if pos < end && Min(size, end - pos) > 0 then
      EndsSorted(files, |files|);
      Gather(files, ends, UpperBound(ends, pos), pos, Min(size, end - pos), moving)
    else
      (files, [])
  }

  lemma Served(files: seq<File>, pos: nat, size: nat, moving: bool)
    requires pos < Offset(files, |files|) && size > 0
    ensures var ends := Ends(files, |files|);
            var it, max := UpperBound(ends, pos), Min(size, Offset(files, |files|) - pos);
            && max > 0 && Ready(files, ends, it, pos)
            && Serve(files, pos, size, moving) == Gather(files, ends, it, pos, max, moving)
  {
    hide Gather, Ends, Offset, UpperBound;
    EndsSorted(files, |files|);
  }

  // -- When it is the concatenation -----------------------------------------------------

  /** No empty fragment but the first comes before one that is not empty. */
  predicate Regular(files: seq<File>) {
    forall i, j :: 1 <= i < j < |files| && |files[i].data| == 0 ==> |files[j].data| == 0
  }

  lemma {:induction false} OffsetGrows(files: seq<File>, i: nat, j: nat)
    requires i <= j <= |files|
    ensures Offset(files, i) <= Offset(files, j)
  {
    if i < j {
      OffsetGrows(files, i, j - 1);
    }
  }

  lemma {:induction false} EmptyStretch(files: seq<File>, i: nat, j: nat)
    requires i <= j <= |files| && forall k :: i <= k < j ==> |files[k].data| == 0
    ensures Offset(files, i) == Offset(files, j)
  {
    if i < j {
      EmptyStretch(files, i, j - 1);
    }
  }

  /** Entry i is then the end of fragment i, and the entries reach the end of the content. */
  lemma {:induction false} EndsRegular(files: seq<File>, n: nat)
    requires Regular(files) && n <= |files|
    ensures var ends := Ends(files, n);
            && (forall i :: 0 <= i < |ends| ==> ends[i] == End(Offset(files, i + 1), i))
            && Offset(files, |ends|) == Offset(files, n)
            && (|ends| < n ==> |ends| >= 1 && |files[|ends|].data| == 0)
  {
    if n > 0 {
      EndsRegular(files, n - 1);
    }
  }

  lemma {:induction false} ContentAt(files: seq<File>, n: nat, i: nat, d: nat)
    requires i < n <= |files| && d < |files[i].data|
    ensures Offset(files, i) + d < Offset(files, n)
    ensures Content(files, n)[Offset(files, i) + d] == files[i].data[d]
  {
    if i < n - 1 {
      ContentAt(files, n - 1, i, d);
    }
  }

  predicate SameData(files: seq<File>, other: seq<File>) {
    |files| == |other| && forall i :: 0 <= i < |files| ==> files[i].data == other[i].data
  }

  lemma {:induction false} SameContent(files: seq<File>, other: seq<File>, n: nat)
    requires SameData(files, other) && n <= |files|
    ensures Offset(files, n) == Offset(other, n) && Content(files, n) == Content(other, n)
    ensures Ends(files, n) == Ends(other, n)
  {
    if n > 0 {
      SameContent(files, other, n - 1);
    }
  }

  /** What one fragment gives is what the content holds there. */
  lemma FetchMatches(files: seq<File>, i: nat, f: File, pos: nat, count: nat, moving: bool)
    requires i < |files| && f.data == files[i].data
    requires Offset(files, i) <= pos < Offset(files, i + 1) && pos + count <= Offset(files, i + 1)
    ensures Offset(files, i + 1) <= Offset(files, |files|)
    ensures Fetch(f, Offset(files, i + 1) - pos, count, moving).1
         == Content(files, |files|)[pos..pos + count]
  {
    OffsetGrows(files, i + 1, |files|);
    var content, d := Content(files, |files|), pos - Offset(files, i);
    var bytes, there := f.data[d..d + count], content[pos..pos + count];
    assert Fetch(f, Offset(files, i + 1) - pos, count, moving).1 == bytes;
    forall k | 0 <= k < count
      ensures bytes[k] == there[k]
    {
      ContentAt(files, |files|, i, d + k);
    }
  }

  /** The loop gives the bytes of the content, whichever way it reads and wherever the fragments'
      own positions are. */
  lemma {:induction false} GatherMatches(files: seq<File>, now: seq<File>, it: nat, pos: nat, max: nat, moving: bool)
    requires Regular(files) && SameData(files, now)
    requires var ends := Ends(files, |files|);
             Ready(now, ends, it, pos) && Offset(files, it) <= pos
    requires 0 < max && pos + max <= Offset(files, |files|)
    ensures var r := Gather(now, Ends(files, |files|), it, pos, max, moving);
            SameData(files, r.0) && r.1 == Content(files, |files|)[pos..pos + max]
    decreases |files| - it
  {
    hide *;
    var ends, content := Ends(files, |files|), Content(files, |files|);
    EntryHere(files, now, it, pos, max);
    var count := Min(Offset(files, it + 1) - pos, max);
    Least(Offset(files, it + 1) - pos, max);
    FetchMatches(files, it, now[it], pos, count, moving);
    GatherOnce(now, ends, it, pos, max, moving);
    var f := Fetch(now[it], Offset(files, it + 1) - pos, count, moving).0;
    SameMoved(files, now, it, f);
    if count < max {
      GatherMatches(files, now[it := f], it + 1, pos + count, max - count, moving);
      Joined(content, pos, pos + count, pos + max);
    }
  }

  lemma Least(x: nat, y: nat)
    ensures Min(x, y) <= x && Min(x, y) <= y && (Min(x, y) == x || Min(x, y) == y)
  {
  }

  lemma Joined(content: seq<Byte>, i: nat, j: nat, k: nat)
    requires i <= j <= k <= |content|
    ensures forall files: seq<File> {:trigger Prepend(content[i..j], (files, content[j..k]))} ::
              Prepend(content[i..j], (files, content[j..k])) == (files, content[i..k])
  {
    assert content[i..j] + content[j..k] == content[i..k];
  }

  lemma SameMoved(files: seq<File>, now: seq<File>, it: nat, f: File)
    requires SameData(files, now) && it < |files| && f.data == now[it].data
    ensures SameData(files, now[it := f])
  {
  }

  lemma EntryHere(files: seq<File>, now: seq<File>, it: nat, pos: nat, max: nat)
    requires Regular(files) && SameData(files, now)
    requires var ends := Ends(files, |files|);
             Ready(now, ends, it, pos) && Offset(files, it) <= pos
    requires 0 < max && pos + max <= Offset(files, |files|)
    ensures var ends := Ends(files, |files|);
            && it < |ends| <= |files| == |now| && ends[it] == End(Offset(files, it + 1), it)
            && now[it].data == files[it].data && pos < Offset(files, it + 1)
  {
    hide Ends, Offset, Regular, Sorted;
    EndsRegular(files, |files|);
  }

  lemma Started(files: seq<File>, it: nat)
    requires it <= |Ends(files, |files|)| && Regular(files)
    ensures Offset(files, it) == if it == 0 then 0 else Ends(files, |files|)[it - 1].key
  {
    hide Ends;
    EndsRegular(files, |files|);
  }

  lemma ReadMatches(files: seq<File>, pos: nat, size: nat, moving: bool)
    requires Regular(files)
    ensures var r := Serve(files, pos, size, moving);
            SameData(files, r.0) && r.1 == Part(Content(files, |files|), pos, size)
  {
    hide *;
    if pos < Offset(files, |files|) && size > 0 {
      SomeRead(files, pos, size, moving);
    } else {
      Nothing(files, pos, size, moving);
      Same(files);
    }
  }

  lemma Nothing(files: seq<File>, pos: nat, size: nat, moving: bool)
    requires pos >= Offset(files, |files|) || size == 0
    ensures Serve(files, pos, size, moving) == (files, [])
    ensures Part(Content(files, |files|), pos, size) == []
  {
    hide Ends, Offset, Gather, UpperBound;
  }

  lemma SomeRead(files: seq<File>, pos: nat, size: nat, moving: bool)
    requires Regular(files) && pos < Offset(files, |files|) && size > 0
    ensures var r := Serve(files, pos, size, moving);
            SameData(files, r.0) && r.1 == Part(Content(files, |files|), pos, size)
  {
    hide *;
    var ends, max := Ends(files, |files|), Min(size, Offset(files, |files|) - pos);
    var it := UpperBound(ends, pos);
    Least(size, Offset(files, |files|) - pos);
    Served(files, pos, size, moving);
    Started(files, it);
    assert it > 0 ==> ends[it - 1].key <= pos;
    Same(files);
    GatherMatches(files, files, it, pos, max, moving);
    PartIs(Content(files, |files|), pos, size);
  }

  lemma Same(files: seq<File>)
    ensures SameData(files, files)
  {
  }

  lemma PartIs(data: seq<Byte>, from: nat, count: nat)
    requires from < |data|
    ensures from + Min(count, |data| - from) <= |data|
    ensures Part(data, from, count) == data[from..from + Min(count, |data| - from)]
  {
  }

  // -- When it is not -------------------------------------------------------------------

  lemma {:induction false} EndsPrefix(files: seq<File>, m: nat, n: nat)
    requires m <= n <= |files|
    ensures Ends(files, m) <= Ends(files, n)
  {
    if m < n {
      EndsPrefix(files, m, n - 1);
    }
  }

  lemma {:induction false} EndsDense(files: seq<File>, n: nat)
    requires n <= |files| && forall i :: 1 <= i < n ==> |files[i].data| > 0
    ensures |Ends(files, n)| == n
  {
    if n > 0 {
      EndsDense(files, n - 1);
      EndsSorted(files, n - 1);
    }
  }

  lemma {:induction false} EndsStretch(files: seq<File>, i: nat, j: nat)
    requires 1 <= i <= j <= |files| && forall k :: i <= k < j ==> |files[k].data| == 0
    ensures Ends(files, i) == Ends(files, j)
  {
    if i < j {
      EndsStretch(files, i, j - 1);
      EndsSorted(files, j - 1);
    }
  }

  /** The fragment after a stretch of empty ones is entered with the index of the first of them. */
  lemma WrongIndex(files: seq<File>, e: nat, b: nat)
    requires 1 <= e < b < |files| && |files[b].data| > 0
    requires forall i :: 1 <= i < e ==> |files[i].data| > 0
    requires forall i :: e <= i < b ==> |files[i].data| == 0
    ensures var ends := Ends(files, |files|);
            e < |ends| && ends[e] == End(Offset(files, b + 1), e) && ends[e - 1].key == Offset(files, b)
  {
    EndsDense(files, e);
    EndsSorted(files, e);
    EndsStretch(files, e, b);
    EmptyStretch(files, e, b);
    EndsPrefix(files, b + 1, |files|);
    var first := Ends(files, b + 1);
    assert first == Ends(files, b) + [End(Offset(files, b + 1), e)];
    assert Ends(files, |files|)[e] == first[e] && Ends(files, |files|)[e - 1] == first[e - 1];
  }

  lemma JustPast(ends: seq<End>, pos: nat, e: nat)
    requires Sorted(ends) && 1 <= e < |ends| && ends[e - 1].key <= pos < ends[e].key
    ensures UpperBound(ends, pos) == e
  {
    hide UpperBound;
    var it := UpperBound(ends, pos);
  }

  lemma LandsOnEmpty(files: seq<File>, e: nat, b: nat)
    requires 1 <= e < b < |files| && |files[b].data| > 0
    requires forall i :: 1 <= i < e ==> |files[i].data| > 0
    requires forall i :: e <= i < b ==> |files[i].data| == 0
    ensures var ends := Ends(files, |files|);
            var it := UpperBound(ends, Offset(files, b));
            it < |ends| && ends[it].index < |files| && |files[ends[it].index].data| == 0
    ensures Offset(files, b) < Offset(files, b + 1) <= Offset(files, |files|)
  {
    assert Offset(files, b) < Offset(files, b + 1);
    hide *;
    OffsetGrows(files, b + 1, |files|);
    WrongIndex(files, e, b);
    EndsSorted(files, |files|);
    JustPast(Ends(files, |files|), Offset(files, b), e);
  }

  /** Reading it gives nothing. */
  lemma NothingThere(files: seq<File>, e: nat, b: nat, size: nat, moving: bool)
    requires 1 <= e < b < |files| && |files[b].data| > 0 && size > 0
    requires forall i :: 1 <= i < e ==> |files[i].data| > 0
    requires forall i :: e <= i < b ==> |files[i].data| == 0
    ensures |Serve(files, Offset(files, b), size, moving).1| == 0
    ensures |Part(Content(files, |files|), Offset(files, b), size)| > 0
  {
    hide *;
    LandsOnEmpty(files, e, b);
    EmptyRead(files, Offset(files, b), size, moving);
    SomePart(Content(files, |files|), Offset(files, b), size);
  }

  lemma EmptyRead(files: seq<File>, pos: nat, size: nat, moving: bool)
    requires pos < Offset(files, |files|) && size > 0
    requires var ends := Ends(files, |files|);
             var it := UpperBound(ends, pos);
             it < |ends| && ends[it].index < |files| && |files[ends[it].index].data| == 0
    ensures |Serve(files, pos, size, moving).1| == 0
  {
    hide *;
    var ends := Ends(files, |files|);
    Served(files, pos, size, moving);
    EmptyFragment(files, ends, UpperBound(ends, pos), pos, Min(size, Offset(files, |files|) - pos), moving);
  }

  lemma SomePart(data: seq<Byte>, from: nat, count: nat)
    requires from < |data| && count > 0
    ensures |Part(data, from, count)| > 0
  {
  }

  lemma EmptyFragment(files: seq<File>, ends: seq<End>, it: nat, pos: nat, max: nat, moving: bool)
    requires Ready(files, ends, it, pos) && it < |ends| && |files[ends[it].index].data| == 0 && max > 0
    ensures |Gather(files, ends, it, pos, max, moving).1| == 0
  {
    GatherOnce(files, ends, it, pos, max, moving);
  }

  lemma FirstStretch(files: seq<File>) returns (e: nat, b: nat)
    requires !Regular(files)
    ensures 1 <= e < b < |files| && |files[b].data| > 0
    ensures forall i :: 1 <= i < e ==> |files[i].data| > 0
    ensures forall i :: e <= i < b ==> |files[i].data| == 0
  {
    e := 1;
    while |files[e].data| > 0
      invariant 1 <= e < |files|
      decreases |files| - e
      invariant forall i :: 1 <= i < e ==> |files[i].data| > 0
    {
      e := e + 1;
    }
    b := e + 1;
    while |files[b].data| == 0
      invariant e < b < |files|
      decreases |files| - b
      invariant forall i :: e <= i < b ==> |files[i].data| == 0
    {
      b := b + 1;
    }
  }

  /** Every read at every position gives the bytes of the concatenation exactly when no empty
      fragment but the first comes before one that is not. */
  lemma GatherExactly(files: seq<File>, moving: bool)
    ensures (forall pos: nat, size: nat ::
               Serve(files, pos, size, moving).1 == Part(Content(files, |files|), pos, size))
       <==> Regular(files)
  {
    if Regular(files) {
      forall pos: nat, size: nat
        ensures Serve(files, pos, size, moving).1 == Part(Content(files, |files|), pos, size)
      {
        ReadMatches(files, pos, size, moving);
      }
    } else {
      var e, b := FirstStretch(files);
      NothingThere(files, e, b, 1, moving);
    }
  }

  // -- A stream and its reference -------------------------------------------------------

  datatype Whence = FromStart | FromHere | FromEnd | Unknown

  datatype Op = Read(size: nat) | ReadAt(start: nat, size: nat) | Seek(offset: int, whence: Whence)

  datatype Outcome = Bytes(bytes: seq<Byte>) | Position(pos: nat) | Failed

  datatype Stream = Stream(files: seq<File>, pos: nat)

  /** x taken as a signed 64-bit value. */
  function Signed(x: int): int {
    var m := x % (2 * S64);
    if m < S64 then m else m - 2 * S64
  }

  function SeekTarget(pos: nat, end: nat, offset: int, whence: Whence): int {
    match whence
    case FromStart => offset
    case FromHere => Signed(offset + pos)
    case FromEnd => Signed(offset + end)
    case Unknown => -1
  }

  function Do(s: Stream, op: Op): (Stream, Outcome) {
    match op
    case Read(size) =>
      var (files, bytes) := Serve(s.files, s.pos, size, true);
      (Stream(files, s.pos + |bytes|), Bytes(bytes))
    case ReadAt(start, size) =>
      (s, Bytes(Serve(s.files, start, size, false).1))
    case Seek(offset, whence) =>
      var pos := SeekTarget(s.pos, Offset(s.files, |s.files|), offset, whence);
      if pos < 0 then (s, Failed) else (s.(pos := pos), Position(pos))
  }

  /** The same operations on one file holding all the bytes, with exact arithmetic. */
  function Reference(content: seq<Byte>, pos: nat, op: Op): (nat, Outcome) {
    match op
    case Read(size) =>
      var bytes := Part(content, pos, size);
      (pos + |bytes|, Bytes(bytes))
    case ReadAt(start, size) =>
      (pos, Bytes(Part(content, start, size)))
    case Seek(offset, whence) =>
      var target := offset + match whence case FromHere => pos case FromEnd => |content| case _ => 0;
      if whence.Unknown? || !(0 <= target < S64) then (pos, Failed) else (target, Position(target))
  }

  function DoAll(s: Stream, ops: seq<Op>): seq<Outcome>
    decreases |ops|
  {
    if ops == [] then []
    else
      var (next, outcome) := Do(s, ops[0]);
      [outcome] + DoAll(next, ops[1..])
  }

  function ReferenceAll(content: seq<Byte>, pos: nat, ops: seq<Op>): seq<Outcome>
    decreases |ops|
  {
    if ops == [] then []
    else
      var (next, outcome) := Reference(content, pos, ops[0]);
      [outcome] + ReferenceAll(content, next, ops[1..])
  }

  predicate Proper(op: Op) {
    op.Seek? ==> -S64 <= op.offset < S64
  }

  /** A seek lands where exact arithmetic says, or fails when that is not a signed 64-bit offset. */
  lemma SeekMatches(pos: nat, end: nat, offset: int, whence: Whence)
    requires pos < S64 && end < S64 && -S64 <= offset < S64
    ensures var target := offset + match whence case FromHere => pos case FromEnd => end case _ => 0;
            SeekTarget(pos, end, offset, whence)
              == if whence.Unknown? then -1
                 else if target < S64 then target
                 else target - 2 * S64
  {
  }

  lemma StepMatches(s: Stream, op: Op)
    requires Regular(s.files) && Offset(s.files, |s.files|) < S64 && s.pos < S64 && Proper(op)
    ensures var (next, outcome) := Do(s, op);
            && SameData(s.files, next.files) && next.pos < S64
            && (next.pos, outcome) == Reference(Content(s.files, |s.files|), s.pos, op)
  {
    hide Serve, Content, Offset, Regular, SeekTarget;
    match op
    case Read(size) =>
      ReadMatches(s.files, s.pos, size, true);
    case ReadAt(start, size) =>
      ReadMatches(s.files, start, size, false);
    case Seek(offset, whence) =>
      SeekMatches(s.pos, Offset(s.files, |s.files|), offset, whence);
  }

  /** Any sequence of reads, positional reads and seeks has the outcomes it has on the concatenation. */
  lemma {:induction false} RunMatches(s: Stream, ops: seq<Op>)
    requires Regular(s.files) && Offset(s.files, |s.files|) < S64 && s.pos < S64
    requires forall op <- ops :: Proper(op)
    ensures DoAll(s, ops) == ReferenceAll(Content(s.files, |s.files|), s.pos, ops)
    decreases |ops|
  {
    hide Do, Reference, Content, Offset;
    if ops != [] {
      var next := Do(s, ops[0]).0;
      StepMatches(s, ops[0]);
      SameContent(s.files, next.files, |s.files|);
      RunMatches(next, ops[1..]);
    }
  }

  // -- The class ------------------------------------------------------------------------

  class Gathered {
    var pos: nat
    var end: nat
    var files: seq<File>
    var ends: seq<End>

    ghost predicate Valid()
      reads this
    {
      && ends == Ends(files, |files|) && end == Offset(files, |files|)
      && end < S64 && pos < S64
    }

    ghost function Value(): Stream
      reads this
    {
      Stream(files, pos)
    }

    constructor (files: seq<File>)
      requires Offset(files, |files|) < S64
      ensures Valid() && Value() == Stream(files, 0)
    {
      this.files, pos, end, ends := files, 0, 0, [];
      new;
      for n := 0 to |files|
        invariant this.files == files && pos == 0
        invariant end == Offset(files, n) && ends == Ends(files, n)
      {
        OffsetGrows(files, n + 1, |files|);
        end := end + |files[n].data|;
        if !(ends != [] && ends[|ends| - 1].key == end) {
          ends := ends + [End(end, |ends|)];
        }
      }
    }

    /** The loop both reads share: fills the buffer from the fragments, from entry `first` on. */
    method Collect(buffer: array<Byte>, first: nat, start: nat, max: nat, moving: bool) returns (n: nat)
      requires Ready(files, ends, first, start) && 0 < max <= buffer.Length
      modifies `files, buffer
      ensures n <= max && |files| == |old(files)|
      ensures (files, buffer[..n]) == Gather(old(files), ends, first, start, max, moving)
      ensures forall k :: n <= k < buffer.Length ==> buffer[k] == old(buffer[k])
    {
      hide Gather, Fetch, Sorted;
      var it: nat, pos: nat, out: nat, bufMax: nat := first, start, 0, max;
      ghost var all := Gather(files, ends, it, pos, max, moving);
      assert buffer[..0] == [];
      assert [] + all.1 == all.1;
      while it < |ends|
        invariant 0 < bufMax && out + bufMax == max && pos == start + out
        invariant Ready(files, ends, it, pos) && |files| == |old(files)|
        invariant forall k :: out <= k < buffer.Length ==> buffer[k] == old(buffer[k])
        invariant all == Prepend(buffer[..out], Gather(files, ends, it, pos, bufMax, moving))
        decreases |ends| - it
      {
        var e := ends[it];
        var count := Min(e.key - pos, bufMax);
        GatherOnce(files, ends, it, pos, bufMax, moving);
        var (f, bytes) := Fetch(files[e.index], e.key - pos, count, moving);
        ghost var before := buffer[..out];
        files := files[e.index := f];
        Store(buffer, out, bytes);
        if |bytes| < count || bufMax == count {
          return out + |bytes|;
        }
        out, bufMax, pos := out + count, bufMax - count, pos + |bytes|;
        PrependTwice(before, bytes, Gather(files, ends, it + 1, pos, bufMax, moving));
        it := it + 1;
      }
      GatherNone(files, ends, pos, bufMax, moving);
      assert buffer[..out] + [] == buffer[..out];
      return out;
    }

    /** Reads at the position into the buffer and moves past what was read. */
    method Read(buffer: array<Byte>, size: nat) returns (n: nat)
      requires Valid() && size <= buffer.Length
      modifies `files, `pos, buffer
      ensures n <= size && forall k :: n <= k < buffer.Length ==> buffer[k] == old(buffer[k])
      ensures Valid() && (Value(), Bytes(buffer[..n])) == Do(old(Value()), Op.Read(size))
    {
      hide Gather, UpperBound, Ends, Offset;
      n := 0;
      if pos < end {
        var max := Min(size, end - pos);
        if max > 0 {
          EndsSorted(files, |files|);
          n := Collect(buffer, UpperBound(ends, pos), pos, max, true);
          pos := pos + n;
        }
      }
      ServeKeeps(old(files), old(pos), size, true);
    }

    /** Reads at any offset into the buffer and changes nothing else. */
    method ReadAt(start: nat, buffer: array<Byte>, size: nat) returns (n: nat)
      requires Valid() && size <= buffer.Length
      modifies `files, buffer
      ensures Valid() && n <= size && forall k :: n <= k < buffer.Length ==> buffer[k] == old(buffer[k])
      ensures (Value(), Bytes(buffer[..n])) == Do(old(Value()), Op.ReadAt(start, size))
    {
      hide Gather, UpperBound, Ends, Offset;
      n := 0;
      if start < end {
        var max := Min(size, end - start);
        if max > 0 {
          EndsSorted(files, |files|);
          StandsStill(files, ends, UpperBound(ends, start), start, max);
          n := Collect(buffer, UpperBound(ends, start), start, max, false);
        }
      }
    }

    /** Moves the position; Failed is the source's -1. */
    method Seek(offset: int, whence: Whence) returns (r: Outcome)
      requires Valid() && -S64 <= offset < S64
      modifies `pos
      ensures Valid() && (Value(), r) == Do(old(Value()), Op.Seek(offset, whence))
    {
      SeekMatches(pos, end, offset, whence);
      var newPos := match whence
        case FromStart => offset
        case FromHere => Signed(offset + pos)
        case FromEnd => Signed(offset + end)
        case Unknown => -1;
      if newPos < 0 {
        return Failed;
      }
      pos := newPos;
      return Position(pos);
    }
  }

  /** Reading changes the fragments' positions only, and stays below the end. */
  lemma ServeKeeps(files: seq<File>, pos: nat, size: nat, moving: bool)
    ensures var r := Serve(files, pos, size, moving);
            && |r.0| == |files| && Offset(files, |files|) == Offset(r.0, |r.0|)
            && Ends(files, |files|) == Ends(r.0, |r.0|)
            && (|r.1| == 0 || pos + |r.1| <= Offset(files, |files|))
  {
    hide *;
    if pos < Offset(files, |files|) && size > 0 {
      ServeKeepsSome(files, pos, size, moving);
      SameLength(files, Serve(files, pos, size, moving).0);
      SameContent(files, Serve(files, pos, size, moving).0, |files|);
    } else {
      Nothing(files, pos, size, moving);
    }
  }

  lemma SameLength(files: seq<File>, other: seq<File>)
    requires SameData(files, other)
    ensures |files| == |other|
  {
  }

  lemma ServeKeepsSome(files: seq<File>, pos: nat, size: nat, moving: bool)
    requires pos < Offset(files, |files|) && size > 0
    ensures var r := Serve(files, pos, size, moving);
            SameData(files, r.0) && pos + |r.1| <= Offset(files, |files|)
  {
    hide *;
    var ends, max := Ends(files, |files|), Min(size, Offset(files, |files|) - pos);
    Served(files, pos, size, moving);
    Least(size, Offset(files, |files|) - pos);
    GatherKeeps(files, ends, UpperBound(ends, pos), pos, max, moving);
  }

  lemma {:induction false} GatherKeeps(files: seq<File>, ends: seq<End>, it: nat, pos: nat, max: nat, moving: bool)
    requires Ready(files, ends, it, pos)
    ensures SameData(files, Gather(files, ends, it, pos, max, moving).0)
    decreases |ends| - it
  {
    hide *;
    Same(files);
    EntryReady(files, ends, it, pos);
    if it == |ends| {
      GatherNone(files, ends, pos, max, moving);
    } else {
      var e := ends[it];
      var count := Min(e.key - pos, max);
      var r := Fetch(files[e.index], e.key - pos, count, moving);
      var moved := files[e.index := r.0];
      GatherOnce(files, ends, it, pos, max, moving);
      SameMoved(files, files, e.index, r.0);
      Least(e.key - pos, max);
      if |r.1| == count < max {
        GatherKeeps(moved, ends, it + 1, pos + count, max - count, moving);
        SameThrough(files, moved, Gather(moved, ends, it + 1, pos + count, max - count, moving).0);
      }
    }
  }

  lemma EntryReady(files: seq<File>, ends: seq<End>, it: nat, pos: nat)
    requires Ready(files, ends, it, pos)
    ensures it < |ends| ==> ends[it].index < |files| && pos < ends[it].key
    ensures it <= |ends|
  {
  }

  lemma SameThrough(a: seq<File>, b: seq<File>, c: seq<File>)
    requires SameData(a, b) && SameData(b, c)
    ensures SameData(a, c)
  {
  }

  /** Positional reads leave the fragments alone. */
  lemma {:induction false} StandsStill(files: seq<File>, ends: seq<End>, it: nat, pos: nat, max: nat)
    requires Ready(files, ends, it, pos)
    ensures Gather(files, ends, it, pos, max, false).0 == files
    decreases |ends| - it
  {
    hide *;
    EntryReady(files, ends, it, pos);
    if it == |ends| {
      GatherNone(files, ends, pos, max, false);
    } else {
      var e := ends[it];
      var count := Min(e.key - pos, max);
      var r := Fetch(files[e.index], e.key - pos, count, false);
      GatherOnce(files, ends, it, pos, max, false);
      FetchStill(files[e.index], e.key - pos, count);
      assert files[e.index := r.0] == files;
      Least(e.key - pos, max);
      if |r.1| == count < max {
        StandsStill(files, ends, it + 1, pos + count, max - count);
      }
    }
  }

  lemma FetchStill(f: File, back: nat, count: nat)
    ensures Fetch(f, back, count, false).0 == f
  {
  }

  method Store(buffer: array<Byte>, at: nat, bytes: seq<Byte>)
    requires at + |bytes| <= buffer.Length
    modifies buffer
    ensures buffer[..at + |bytes|] == old(buffer[..at]) + bytes
    ensures forall k :: at + |bytes| <= k < buffer.Length ==> buffer[k] == old(buffer[k])
  {
    for i := 0 to |bytes|
      invariant buffer[..at + i] == old(buffer[..at]) + bytes[..i]
      invariant forall k :: at + i <= k < buffer.Length ==> buffer[k] == old(buffer[k])
    {
      buffer[at + i] := bytes[i];
    }
  }

  function Prepend(bytes: seq<Byte>, r: (seq<File>, seq<Byte>)): (p: (seq<File>, seq<Byte>))
    ensures p.0 == r.0
  {
    (r.0, bytes + r.1)
  }

  lemma PrependTwice(a: seq<Byte>, b: seq<Byte>, r: (seq<File>, seq<Byte>))
    ensures Prepend(a, Prepend(b, r)) == Prepend(a + b, r)
  {
    assert a + (b + r.1) == (a + b) + r.1;
  }

  lemma GatherOnce(files: seq<File>, ends: seq<End>, it: nat, pos: nat, max: nat, moving: bool)
    requires Ready(files, ends, it, pos) && it < |ends|
    ensures var e := ends[it];
            var count := Min(e.key - pos, max);
            var (f, bytes) := Fetch(files[e.index], e.key - pos, count, moving);
            var moved := files[e.index := f];
            var r := Gather(files, ends, it, pos, max, moving);
            && (|bytes| < count || count == max ==> r == (moved, bytes))
            && (|bytes| == count < max ==>
                  && pos + count == e.key && Ready(moved, ends, it + 1, e.key)
                  && r == Prepend(bytes, Gather(moved, ends, it + 1, pos + count, max - count, moving)))
  {
    hide Fetch;
  }

  lemma GatherNone(files: seq<File>, ends: seq<End>, pos: nat, max: nat, moving: bool)
    requires Ready(files, ends, |ends|, pos)
    ensures Gather(files, ends, |ends|, pos, max, moving) == (files, [])
  {
  }
}

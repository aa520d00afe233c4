/** The single-reader, single-writer ring buffer, run by one thread at a time.

    The two counters only grow; what they address is their remainder by the buffer size. The
    specification is a bounded queue of bytes. */
module RingBuffer {
  import opened Arithmetic
  import Bits

  type Byte = Bits.Byte

  /** ctr_state: the pair of counters that is swapped as one 128-bit word. */
  datatype Counters = Counters(read: nat, write: nat)

  // -- The bounded queue --------------------------------------------------------------

  /** How many of size bytes are moved when at most room can be. */
  function Amount(room: nat, size: nat, force: bool): nat {
    if !force && room < size then 0 else Min(size, room)
  }

  // -- Positions ----------------------------------------------------------------------

  /** Slot i places after slot r in a ring of n. */
  function Ahead(n: nat, r: nat, i: nat): nat
    requires r < n && i <= n
  {
    if r + i < n then r + i else r + i - n
  }

  /** get_used_size */
  function Used(n: nat, v: Counters): nat
    requires n > 0
  {
    var rd, wr := v.read % n, v.write % n;
    if wr >= rd then wr - rd else n + wr - rd
  }

  /** get_free_size */
  function Free(n: nat, v: Counters): nat
    requires n > 0
  {
    var rd, wr := v.read % n, v.write % n;
    (if wr >= rd then n + rd - wr else rd - wr) - 1
  }

  /** The queued bytes, oldest first. */
  function Queue(buf: seq<Byte>, v: Counters): seq<Byte>
    requires |buf| > 0
  {
    seq(Used(|buf|, v), i requires 0 <= i < Used(|buf|, v) => buf[Ahead(|buf|, v.read % |buf|, i)])
  }

  /** Advancing a counter by at most n advances its slot round the ring. */
  lemma Advance(n: nat, x: nat, i: nat)
    requires n > 0 && i <= n
    ensures (x + i) % n == Ahead(n, x % n, i)
  {
    var q, r := x / n, x % n;
    assert n * (q + 1) == n * q + n;
    if r + i < n {
      Divided(n, x + i, q, r + i);
    } else if r + i < 2 * n {
      Divided(n, x + i, q + 1, r + i - n);
    }
  }

  /** A counter of full values (2^64 in the program) advanced by i. */
  function Wrapped(full: nat, x: nat, i: nat): nat
    requires x < full && i <= full
  {
    if x + i < full then x + i else x + i - full
  }

  ghost predicate WrapKeepsSlots(full: nat, n: nat)
    requires 0 < n <= full
  {
    forall x, i | 0 <= x < full && 0 <= i <= n :: Wrapped(full, x, i) % n == Ahead(n, x % n, i)
  }

  lemma WrapOne(full: nat, n: nat, m: nat, x: nat, i: nat)
    requires 0 < n <= full && full == n * m && x < full && i <= n
    ensures Wrapped(full, x, i) % n == Ahead(n, x % n, i)
  {
    Advance(n, x, i);
    if x + i >= full {
      Multiple(n, m, x + i - full);
    }
  }

  lemma Multiple(n: nat, m: nat, k: nat)
    requires n > 0
    ensures (n * m + k) % n == k % n
  {
    var q := k / n;
    assert n * (m + q) == n * m + n * q;
    Divided(n, n * m + k, m + q, k % n);
  }

  /** When a counter wraps to 0 every slot stays where it belongs exactly when the buffer size
      divides the counter's range. */
  lemma CounterWrapExactly(full: nat, n: nat)
    requires 0 < n <= full
    ensures WrapKeepsSlots(full, n) <==> full % n == 0
  {
    hide WrapKeepsSlots;
    if full % n == 0 {
      WrapDivides(full, n, full / n);
    }
    if WrapKeepsSlots(full, n) {
      WrapNeeds(full, n);
    }
  }

  lemma WrapNeeds(full: nat, n: nat)
    requires 0 < n <= full && WrapKeepsSlots(full, n)
    ensures full % n == 0
  {
    Advance(n, full - 1, 1);
    assert Wrapped(full, full - 1, 1) % n == Ahead(n, (full - 1) % n, 1);
  }

  lemma WrapDivides(full: nat, n: nat, m: nat)
    requires 0 < n <= full && full == n * m
    ensures WrapKeepsSlots(full, n)
  {
    forall x, i | 0 <= x < full && 0 <= i <= n ensures Wrapped(full, x, i) % n == Ahead(n, x % n, i) {
      WrapOne(full, n, m, x, i);
    }
  }

  /** Used and free places are the whole buffer but one. */
  lemma UsedPlusFree(n: nat, v: Counters)
    requires n > 0
    ensures Used(n, v) + Free(n, v) == n - 1
  {
  }

  // -- The four counter updates, on queues --------------------------------------------

  /** after is before with bytes written round the ring from slot start, and nothing else. */
  ghost predicate RingWritten(before: seq<Byte>, after: seq<Byte>, start: nat, bytes: seq<Byte>) {
    var n := |before|;
    && |after| == n && start < n && |bytes| <= n
    && (forall i | 0 <= i < |bytes| :: after[Ahead(n, start, i)] == bytes[i])
    && (forall i | |bytes| <= i < n :: after[Ahead(n, start, i)] == before[Ahead(n, start, i)])
  }

  /** Writing bytes behind the queue and then advancing the write counter appends them. */
  lemma PushEffect(buf: seq<Byte>, after: seq<Byte>, v: Counters, data: seq<Byte>)
    requires |buf| > 0 && |data| <= Free(|buf|, v)
    requires RingWritten(buf, after, v.write % |buf|, data)
    ensures Queue(after, v.(write := v.write + |data|)) == Queue(buf, v) + data
  {
    var n := |buf|;
    Advance(n, v.write, |data|);
    var q := Queue(after, v.(write := v.write + |data|));
    var used := Used(n, v);
    assert |q| == used + |data|;
    forall i | 0 <= i < |q| ensures q[i] == (Queue(buf, v) + data)[i] {
      if i < used {
        assert Ahead(n, v.read % n, i) == Ahead(n, v.write % n, n - used + i);
      } else {
        assert Ahead(n, v.read % n, i) == Ahead(n, v.write % n, i - used);
      }
    }
  }

  lemma PopEffect(buf: seq<Byte>, v: Counters, k: nat)
    requires |buf| > 0 && k <= Used(|buf|, v)
    ensures Queue(buf, v.(read := v.read + k)) == Queue(buf, v)[k..]
  {
    Advance(|buf|, v.read, k);
  }

  lemma DropLastEffect(buf: seq<Byte>, v: Counters, k: nat)
    requires |buf| > 0 && k <= Used(|buf|, v)
    ensures Queue(buf, v.(write := v.write + (|buf| - k))) == Queue(buf, v)[..Used(|buf|, v) - k]
  {
    Advance(|buf|, v.write, |buf| - k);
  }

  // -- The same when a counter wraps --------------------------------------------------

  /** Only the slots matter. */
  lemma SameSlots(buf: seq<Byte>, u: Counters, v: Counters)
    requires |buf| > 0 && u.read % |buf| == v.read % |buf| && u.write % |buf| == v.write % |buf|
    ensures Queue(buf, u) == Queue(buf, v)
  {
  }

  /** Counters below full, in a ring whose size divides full. */
  predicate Fits(full: nat, n: nat, v: Counters) {
    0 < n <= full && full % n == 0 && v.read < full && v.write < full
  }

  lemma WrapSlot(full: nat, n: nat, x: nat, i: nat)
    requires 0 < n <= full && full % n == 0 && x < full && i <= n
    ensures Wrapped(full, x, i) % n == (x + i) % n
  {
    WrapOne(full, n, full / n, x, i);
    Advance(n, x, i);
  }

  lemma WrappedPushEffect(full: nat, buf: seq<Byte>, after: seq<Byte>, v: Counters, data: seq<Byte>)
    requires Fits(full, |buf|, v) && |data| <= Free(|buf|, v)
    requires RingWritten(buf, after, v.write % |buf|, data)
    ensures Queue(after, v.(write := Wrapped(full, v.write, |data|))) == Queue(buf, v) + data
  {
    hide Queue, Wrapped;
    WrapSlot(full, |buf|, v.write, |data|);
    PushEffect(buf, after, v, data);
    SameSlots(after, v.(write := Wrapped(full, v.write, |data|)), v.(write := v.write + |data|));
  }

  lemma WrappedPopEffect(full: nat, buf: seq<Byte>, v: Counters, k: nat)
    requires Fits(full, |buf|, v) && k <= Used(|buf|, v)
    ensures Queue(buf, v.(read := Wrapped(full, v.read, k))) == Queue(buf, v)[k..]
  {
    hide Queue, Wrapped;
    WrapSlot(full, |buf|, v.read, k);
    PopEffect(buf, v, k);
    SameSlots(buf, v.(read := Wrapped(full, v.read, k)), v.(read := v.read + k));
  }

  lemma WrappedDropLastEffect(full: nat, buf: seq<Byte>, v: Counters, k: nat)
    requires Fits(full, |buf|, v) && k <= Used(|buf|, v)
    ensures Queue(buf, v.(write := Wrapped(full, v.write, |buf| - k))) == Queue(buf, v)[..Used(|buf|, v) - k]
  {
    hide Queue, Wrapped;
    WrapSlot(full, |buf|, v.write, |buf| - k);
    DropLastEffect(buf, v, k);
    SameSlots(buf, v.(write := Wrapped(full, v.write, |buf| - k)), v.(write := v.write + (|buf| - k)));
  }

  /** A push whose write counter may wrap appends, whatever the buffer and the counters. */
  ghost predicate PushesRight(full: nat, n: nat)
    requires 0 < n <= full
  {
    forall buf, after, v: Counters, data |
        && |buf| == n && v.read < full && v.write < full && |data| <= Free(n, v)
        && RingWritten(buf, after, v.write % n, data) ::
      Queue(after, v.(write := Wrapped(full, v.write, |data|))) == Queue(buf, v) + data
  }

  /** In a buffer that can hold something, pushes act as those of the queue for all counter values
      exactly when the size divides the range. */
  lemma PushWrapsExactly(full: nat, n: nat)
    requires 2 <= n <= full
    ensures PushesRight(full, n) <==> full % n == 0
  {
    hide Queue, Wrapped;
    if full % n == 0 {
      forall buf, after, v: Counters, data |
          && |buf| == n && v.read < full && v.write < full && |data| <= Free(n, v)
          && RingWritten(buf, after, v.write % n, data)
        ensures Queue(after, v.(write := Wrapped(full, v.write, |data|))) == Queue(buf, v) + data
      {
        WrappedPushEffect(full, buf, after, v, data);
      }
    } else {
      LastPushFails(full, n);
    }
  }

  lemma LastPushFails(full: nat, n: nat)
    requires 2 <= n <= full && full % n != 0
    ensures !PushesRight(full, n)
  {
    var v := Counters(full - 1, full - 1);
    var buf := seq(n, i => 0 as Byte);
    var data: seq<Byte> := [0];
    assert RingWritten(buf, buf, v.write % n, data);
    Advance(n, full - 1, 1);
    assert Wrapped(full, v.write, |data|) == 0;
    LengthAfterWrap(full, n);
    assert |Queue(buf, v.(write := 0))| == Used(n, v.(write := 0)) != 1;
    assert |Queue(buf, v) + data| == 1;
  }

  lemma LengthAfterWrap(full: nat, n: nat)
    requires 2 <= n <= full && full % n != 0
    ensures Used(n, Counters(full - 1, 0)) != 1
  {
    Advance(n, full - 1, 1);
  }

  // -- The class ----------------------------------------------------------------------

  class SimpleRingbuf {
    var buf: array<Byte>
    var readPtr: nat
    var writePtr: nat

    ghost predicate Valid()
      reads this
    {
      buf.Length > 0
    }

    ghost function Contents(): seq<Byte>
      reads this, buf
      requires Valid()
    {
      Queue(buf[..], Counters(readPtr, writePtr))
    }

    constructor (size: nat)
      ensures Valid() && fresh(buf) && buf.Length == size + 1 && Contents() == []
    {
      buf := new Byte[size + 1];
      readPtr, writePtr := 0, 0;
    }

    /** A resized buffer starts empty, with room for size bytes. */
    method SetBufSize(size: nat)
      modifies this
      ensures Valid() && fresh(buf) && buf.Length == size + 1 && Contents() == []
    {
      buf := new Byte[size + 1];
      readPtr, writePtr := 0, 0;
    }

    method GetSizes() returns (used: nat, free: nat, total: nat)
      requires Valid()
      ensures used == |Contents()| && used + free == total == buf.Length - 1
    {
      var v := Counters(readPtr, writePtr);
      used, free, total := Used(buf.Length, v), Free(buf.Length, v), buf.Length - 1;
      UsedPlusFree(buf.Length, v);
    }

    /** Drops the cnt newest bytes, or all there are. */
    method WriterFlush(cnt: nat)
      requires Valid()
      modifies this`writePtr
      ensures Valid() && old(writePtr) <= writePtr
      ensures Contents() == old(Contents())[..|old(Contents())| - Min(|old(Contents())|, cnt)]
    {
      var v := Counters(readPtr, writePtr);
      var used := Used(buf.Length, v);
      if used == 0 {
        return;
      }
      DropLastEffect(buf[..], v, Min(used, cnt));
      writePtr := writePtr + (buf.Length - Min(used, cnt));
    }

    /** Drops the cnt oldest bytes, or all there are. */
    method ReaderFlush(cnt: nat)
      requires Valid()
      modifies this`readPtr
      ensures Valid()
      ensures Contents() == old(Contents())[Min(|old(Contents())|, cnt)..]
    {
      var v := Counters(readPtr, writePtr);
      var used := Used(buf.Length, v);
      PopEffect(buf[..], v, Min(used, cnt));
      readPtr := readPtr + Min(used, cnt);
    }

    /** Appends data if it fits, or with force as much of it as fits. */
    method Push(data: seq<Byte>, force: bool) returns (n: nat)
      requires Valid()
      modifies this`writePtr, buf
      ensures Valid() && buf == old(buf)
      ensures n == Amount(buf.Length - 1 - |old(Contents())|, |data|, force)
      ensures Contents() == old(Contents()) + data[..n]
    {
      var v := Counters(readPtr, writePtr);
      var start := writePtr % buf.Length;
      var free := Free(buf.Length, v);
      UsedPlusFree(buf.Length, v);
      n := Min(|data|, free);
      if n == 0 || (!force && free < |data|) {
        n := 0;
        return;
      }
      ghost var before := buf[..];
      CopyToRing(buf, start, data[..n]);
      PushEffect(before, buf[..], v, data[..n]);
      writePtr := writePtr + n;
    }

    /** Moves the oldest bytes to data: size of them if there are that many, or with force
        as many as there are. */
    method Pop(data: array<Byte>, size: nat, force: bool) returns (n: nat)
      requires Valid() && size <= data.Length && data != buf
      modifies this`readPtr, data
      ensures Valid()
      ensures n == Amount(|old(Contents())|, size, force)
      ensures data[..n] == old(Contents())[..n] && data[n..] == old(data[n..])
      ensures Contents() == old(Contents())[n..]
    {
      var v := Counters(readPtr, writePtr);
      var start := readPtr % buf.Length;
      var used := Used(buf.Length, v);
      n := Min(size, used);
      if n == 0 || (!force && used < size) {
        n := 0;
        return;
      }
      CopyFromRing(buf, start, n, data);
      PopEffect(buf[..], v, n);
      readPtr := readPtr + n;
    }
  }

  /** memcpy into a buffer. */
  method CopyIn(a: array<Byte>, at: nat, bytes: seq<Byte>)
    requires at + |bytes| <= a.Length
    modifies a
    ensures forall k | 0 <= k < a.Length :: a[k] == if at <= k < at + |bytes| then bytes[k - at] else old(a[k])
  {
    for i := 0 to |bytes|
      invariant forall k | 0 <= k < a.Length :: a[k] == if at <= k < at + i then bytes[k - at] else old(a[k])
    {
      a[at + i] := bytes[i];
    }
  }

  /** The one or two copies of push: writing past the end continues at the front. */
  method CopyToRing(buf: array<Byte>, start: nat, bytes: seq<Byte>)
    requires start < buf.Length && |bytes| <= buf.Length
    modifies buf
    ensures RingWritten(old(buf[..]), buf[..], start, bytes)
  {
    if start + |bytes| > buf.Length {
      var first := buf.Length - start;
      CopyIn(buf, start, bytes[..first]);
      CopyIn(buf, 0, bytes[first..]);
    } else {
      CopyIn(buf, start, bytes);
    }
  }

  /** The one or two copies of pop. */
  method CopyFromRing(buf: array<Byte>, start: nat, n: nat, data: array<Byte>)
    requires start < buf.Length && n <= buf.Length && n <= data.Length && data != buf
    modifies data
    ensures forall i | 0 <= i < n :: data[i] == buf[Ahead(buf.Length, start, i)]
    ensures data[n..] == old(data[n..])
  {
    if start + n > buf.Length {
      var first := buf.Length - start;
      CopyIn(data, 0, buf[start..]);
      CopyIn(data, first, buf[..n - first]);
    } else {
      CopyIn(data, 0, buf[start..start + n]);
    }
  }
}

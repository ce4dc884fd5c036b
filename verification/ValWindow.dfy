/** The trailing window: a circular buffer of per-interval sums, moved on in place as samples arrive. */
module ValWindow {

  datatype Sample = Sample(value: int, time: int)

  /** The sum of the values sampled from `lo` up to `hi`. */
  function SumIn(log: seq<Sample>, lo: int, hi: int): int {
    if log == [] then 0 else
      var s := log[|log| - 1];
      SumIn(log[..|log| - 1], lo, hi) + if lo <= s.time < hi then s.value else 0
  }

  function Sum(s: seq<int>): int {
    if s == [] then 0 else s[0] + Sum(s[1..])
  }

  function Blank(n: nat): seq<int> {
    seq(n, i => 0)
  }

  lemma {:induction false} SumConcat(a: seq<int>, b: seq<int>)
    ensures Sum(a + b) == Sum(a) + Sum(b)
  {
    if a == [] {
      assert a + b == b;
    } else {
      assert (a + b)[1..] == a[1..] + b;
      SumConcat(a[1..], b);
    }
  }

  lemma {:induction false} SumUpdate(a: seq<int>, i: nat, v: int)
    requires i < |a|
    ensures Sum(a[i := v]) == Sum(a) - a[i] + v
  {
    if i > 0 {
      assert a[i := v][1..] == a[1..][i - 1 := v];
      SumUpdate(a[1..], i - 1, v);
    } else {
      assert a[i := v][1..] == a[1..];
    }
  }

  lemma {:induction false} SumZeros(n: nat)
    ensures Sum(Blank(n)) == 0
  {
    if n > 0 {
      assert Blank(n)[1..] == Blank(n - 1);
      SumZeros(n - 1);
    }
  }

  /** A sum of non-negative numbers is zero only if they all are. */
  lemma {:induction false} ZeroSum(s: seq<int>)
    requires forall i | 0 <= i < |s| :: s[i] >= 0
    ensures Sum(s) >= 0 && (Sum(s) == 0 ==> forall i | 0 <= i < |s| :: s[i] == 0)
  {
    if s != [] {
      assert forall i | 0 <= i < |s[1..]| :: s[1..][i] == s[i + 1];
      ZeroSum(s[1..]);
      if Sum(s) == 0 {
        forall i | 0 <= i < |s| ensures s[i] == 0 {
          if i > 0 { assert s[1..][i - 1] == 0; }
        }
      }
    }
  }

  lemma {:induction false} SumInAdd(log: seq<Sample>, s: Sample, lo: int, hi: int)
    ensures SumIn(log + [s], lo, hi) == SumIn(log, lo, hi) + if lo <= s.time < hi then s.value else 0
  {
    assert (log + [s])[..|log|] == log;
  }

  lemma {:induction false} SumInNone(log: seq<Sample>, lo: int, hi: int)
    requires forall s <- log :: s.time < lo
    ensures SumIn(log, lo, hi) == 0
  {
    if log != [] {
      assert log[|log| - 1] in log;
      assert forall s <- log[..|log| - 1] :: s in log;
      SumInNone(log[..|log| - 1], lo, hi);
    }
  }

  lemma {:induction false} SumInSplit(log: seq<Sample>, lo: int, mid: int, hi: int)
    requires lo <= mid <= hi
    ensures SumIn(log, lo, hi) == SumIn(log, lo, mid) + SumIn(log, mid, hi)
  {
    if log != [] {
      SumInSplit(log[..|log| - 1], lo, mid, hi);
    }
  }

  lemma {:induction false} SumInPositive(log: seq<Sample>, lo: int, hi: int)
    requires forall s <- log :: s.value >= 0
    ensures SumIn(log, lo, hi) >= 0
  {
    if log != [] {
      assert log[|log| - 1] in log;
      assert forall s <- log[..|log| - 1] :: s in log;
      SumInPositive(log[..|log| - 1], lo, hi);
    }
  }

  /** The buckets show, oldest first, the sums of the samples in consecutive intervals from `head` on. */
  ghost predicate Shows(buckets: seq<int>, log: seq<Sample>, head: int, interval: int) {
    forall q | 0 <= q < |buckets| :: buckets[q] == SumIn(log, head + q * interval, head + (q + 1) * interval)
  }

  /** Buckets that show their intervals add up to the sum over all of them. */
  lemma {:induction false} ShownSum(buckets: seq<int>, log: seq<Sample>, head: int, interval: int)
    requires interval > 0 && Shows(buckets, log, head, interval)
    ensures Sum(buckets) == SumIn(log, head, head + |buckets| * interval)
  {
    if buckets == [] {
      SumInEmpty(log, head);
    } else {
      var rest := buckets[1..];
      forall q | 0 <= q < |rest|
        ensures rest[q] == SumIn(log, head + interval + q * interval, head + interval + (q + 1) * interval)
      {
        assert rest[q] == buckets[q + 1];
        assert (q + 1) * interval == q * interval + interval;
        assert (q + 2) * interval == (q + 1) * interval + interval;
      }
      ShownSum(rest, log, head + interval, interval);
      assert |buckets| * interval == interval + |rest| * interval;
      assert |rest| * interval >= 0;
      SumInSplit(log, head, head + interval, head + |buckets| * interval);
      assert buckets[0] == SumIn(log, head + 0 * interval, head + 1 * interval);
    }
  }

  lemma {:induction false} SumInEmpty(log: seq<Sample>, at: int)
    ensures SumIn(log, at, at) == 0
  {
    if log != [] {
      SumInEmpty(log[..|log| - 1], at);
    }
  }

  // ---- how the buckets move on

  lemma {:induction false} Interval(i: int, head: int, interval: int, q: int)
    requires interval > 0 && head <= i && q == (i - head) / interval
    ensures q >= 0 && head + q * interval <= i < head + (q + 1) * interval
  {
    assert i - head == q * interval + (i - head) % interval;
  }

  /** A time is in one interval only. */
  lemma {:induction false} OneInterval(i: int, head: int, interval: int, q: int, p: int)
    requires interval > 0 && head + q * interval <= i < head + (q + 1) * interval && p != q
    ensures !(head + p * interval <= i < head + (p + 1) * interval)
  {
    if p < q {
      assert (p + 1) * interval <= q * interval;
    } else {
      assert (q + 1) * interval <= p * interval;
    }
  }

  lemma {:induction false} AddShows(b: seq<int>, log: seq<Sample>, head: int, interval: int, s: Sample, q: nat)
    requires interval > 0 && head <= s.time && q == (s.time - head) / interval && q < |b|
    requires Shows(b, log, head, interval)
    ensures Shows(b[q := b[q] + s.value], log + [s], head, interval)
  {
    Interval(s.time, head, interval, q);
    forall p | 0 <= p < |b|
      ensures b[q := b[q] + s.value][p] == SumIn(log + [s], head + p * interval, head + (p + 1) * interval)
    {
      SumInAdd(log, s, head + p * interval, head + (p + 1) * interval);
      if p != q { OneInterval(s.time, head, interval, q, p); }
    }
  }

  lemma {:induction false} ShiftShows(b: seq<int>, log: seq<Sample>, head: int, interval: int, n: nat)
    requires interval > 0 && n <= |b| && Shows(b, log, head, interval)
    requires forall s <- log :: s.time < head + |b| * interval
    ensures Shows(b[n..] + Blank(n), log, head + n * interval, interval)
  {
    var t := b[n..] + Blank(n);
    forall p | 0 <= p < |t|
      ensures t[p] == SumIn(log, head + n * interval + p * interval, head + n * interval + (p + 1) * interval)
    {
      assert n * interval + p * interval == (n + p) * interval;
      assert n * interval + (p + 1) * interval == (n + p + 1) * interval;
      if p < |b| - n {
        assert t[p] == b[n + p];
      } else {
        assert |b| * interval <= (n + p) * interval;
        SumInNone(log, head + (n + p) * interval, head + (n + p + 1) * interval);
      }
    }
  }

  /** After a far jump the buckets show the new sample alone, provided the others are empty. */
  lemma {:induction false} JumpShows(b: seq<int>, log: seq<Sample>, head: int, interval: int, s: Sample)
    requires interval > 0 && b != [] && b[0] == s.value && head <= s.time < head + interval
    requires forall x <- log :: x.time < head
    ensures Shows(b, log + [s], head, interval) <==> forall k | 1 <= k < |b| :: b[k] == 0
  {
    forall p | 0 <= p < |b|
      ensures SumIn(log + [s], head + p * interval, head + (p + 1) * interval) == if p == 0 then s.value else 0
    {
      SumInAdd(log, s, head + p * interval, head + (p + 1) * interval);
      assert p * interval >= 0;
      SumInNone(log, head + p * interval, head + (p + 1) * interval);
      if p != 0 { OneInterval(s.time, head, interval, 0, p); }
    }
  }

  lemma {:induction false} Jumped(b: seq<int>, log: seq<Sample>, head: int, interval: int, s: Sample)
    requires interval > 0 && b != [] && b[0] == s.value && head <= s.time < head + interval
    requires forall x <- log :: x.time < head
    ensures Shows(b, log + [s], head, interval) && s.value == Sum(b) <==> forall k | 1 <= k < |b| :: b[k] == 0
  {
    JumpShows(b, log, head, interval, s);
    SumOfFirst(b);
  }

  // ---- the circular buffer

  function Wrap(k: int, n: int): int {
    if k >= n then k - n else k
  }

  /** The buffer from its oldest bucket on. */
  function Rotated(a: seq<int>, offset: nat): seq<int>
    requires offset <= |a|
  {
    a[offset..] + a[..offset]
  }

  lemma {:induction false} RotatedSum(a: seq<int>, offset: nat)
    requires offset <= |a|
    ensures Sum(Rotated(a, offset)) == Sum(a)
  {
    assert a == a[..offset] + a[offset..];
    SumConcat(a[..offset], a[offset..]);
    SumConcat(a[offset..], a[..offset]);
  }

  lemma {:induction false} RotatedAt(a: seq<int>, offset: nat, q: nat)
    requires offset < |a| && q < |a|
    ensures Rotated(a, offset)[q] == a[Wrap(offset + q, |a|)]
  {
  }

  lemma {:induction false} RotatedUpdate(a: seq<int>, offset: nat, q: nat, v: int)
    requires offset < |a| && q < |a|
    ensures Rotated(a[Wrap(offset + q, |a|) := v], offset) == Rotated(a, offset)[q := v]
  {
    var j := Wrap(offset + q, |a|);
    var x, y := Rotated(a[j := v], offset), Rotated(a, offset)[q := v];
    forall p | 0 <= p < |a| ensures x[p] == y[p] {
      RotatedAt(a[j := v], offset, p);
      RotatedAt(a, offset, p);
    }
  }

  /** Turning the buffer on. */
  lemma {:induction false} RotatedOn(a: seq<int>, offset: nat, n: nat)
    requires offset < |a| && n <= |a|
    ensures Wrap(offset + n, |a|) < |a| || (n == |a| && offset == 0)
    ensures Rotated(a, Wrap(offset + n, |a|)) == Rotated(a, offset)[n..] + Rotated(a, offset)[..n]
  {
    var o := Wrap(offset + n, |a|);
    var x, y := Rotated(a, o), Rotated(a, offset)[n..] + Rotated(a, offset)[..n];
    forall p | 0 <= p < |a| ensures x[p] == y[p] {
      RotatedAt(a, o, p);
      if p < |a| - n { RotatedAt(a, offset, n + p); } else { RotatedAt(a, offset, p - (|a| - n)); }
    }
  }

  // ---- the window

  class Window {
    const data: array<int>
    const interval: nat
    var total: int
    var head: int
    var offset: nat
    /** The samples accepted so far. */
    ghost var log: seq<Sample>
    /** How many intervals the window has moved on. */
    ghost var turns: nat

    constructor (size: nat, interval: nat)
      requires size > 0 && interval > 0
      ensures fresh(data) && data.Length == size && this.interval == interval
      ensures Shape() && Faithful() && head == 0 && offset == 0 && total == 0 && log == []
    {
      data := new int[size](_ => 0);
      this.interval := interval;
      total, head, offset := 0, 0, 0;
      log, turns := [], 0;
      new;
      SumZeros(size);
      assert data[..] == Blank(size) && Buckets() == Blank(size);
      ProductPositive(size, interval);
    }

    /** Every index is in bounds, and the window starts at a multiple of the interval. */
    ghost predicate Shape()
      reads this, data
    {
      && 0 < data.Length && 0 < interval && offset < data.Length && head == turns * interval
      && forall s <- log :: s.time < End()
    }

    ghost function End(): int
      reads this
    {
      head + Width()
    }

    function Width(): int {
      data.Length * interval
    }

    ghost function Buckets(): seq<int>
      requires offset < data.Length
      reads this, data
    {
      Rotated(data[..], offset)
    }

    /** The buckets show the samples of the window, and the total their sum. */
    ghost predicate Faithful()
      requires offset < data.Length
      reads this, data
    {
      Shows(Buckets(), log, head, interval) && total == Sum(data[..])
    }

    /** The total is the sum of the buffer, and of all samples accepted since the start of the window. */
    lemma {:induction false} TotalIs()
      requires Shape() && Faithful()
      ensures total == Sum(data[..]) == SumIn(log, head, End())
      ensures forall t | t >= End() :: SumIn(log, head, t) == total
    {
      RotatedSum(data[..], offset);
      ShownSum(Buckets(), log, head, interval);
      forall t | t >= End() ensures SumIn(log, head, t) == total {
        assert data.Length * interval >= 0;
        SumInSplit(log, head, End(), t);
        SumInNone(log, End(), t);
      }
    }

    /** Counts a sample in, whose interval is in the window. */
    method Count(v: int, i: int)
      requires Shape() && head <= i < End()
      modifies this`total, this`log, data
      ensures Shape() && log == old(log) + [Sample(v, i)]
      ensures old(Faithful()) ==> Faithful()
    {
      hide Sum, Shows;
      var q := (i - head) / interval;
      InWindow(i, head, interval, q, data.Length);
      var j := q + offset;
      if j >= data.Length { j := j - data.Length; }
      ghost var a := data[..];
      RotatedAt(a, offset, q);
      RotatedUpdate(a, offset, q, a[j] + v);
      if Faithful() { AddShows(Buckets(), log, head, interval, Sample(v, i), q); }
      SumUpdate(a, j, a[j] + v);
      data[j] := data[j] + v;
      assert data[..] == a[j := a[j] + v];
      total := total + v;
      log := log + [Sample(v, i)];
    }

    /** Empties the `n` oldest buckets, and turns the window on past them. */
    method Evict(n: nat)
      requires Shape() && n <= data.Length
      modifies this`total, this`offset, this`head, this`turns, data
      ensures Shape() && head == old(head) + n * interval
      ensures old(Faithful()) ==> Faithful()
    {
      hide Shows, Rotated, Blank, Sum;
      ghost var b := Buckets();
      ghost var faithful := Faithful();
      RotatedSize(data[..], offset);
      Clear(n);
      Turned(data[..], b, offset, n);
      if faithful { ShiftShows(b, log, head, interval, n); }
      LaterEnd(log, head, data.Length * interval, n, interval);
      assert (turns + n) * interval == turns * interval + n * interval;
      offset := offset + n;
      if offset >= data.Length { offset := offset - data.Length; }
      turns := turns + n;
      head := head + n * interval;
    }

    method Clear(n: nat)
      requires 0 < data.Length && offset < data.Length && n <= data.Length
      modifies this`total, data
      ensures Buckets() == Blank(n) + old(Buckets())[n..]
      ensures total - Sum(data[..]) == old(total - Sum(data[..]))
    {
      hide Sum, Rotated, Blank;
      ghost var b := Buckets();
      RotatedSize(data[..], offset);
      NoZeros(b);
      var j := 0;
      while j < n
        invariant j <= n <= |b| == data.Length
        invariant Buckets() == Blank(j) + b[j..]
        invariant total - Sum(data[..]) == old(total - Sum(data[..]))
      {
        var k := offset + j;
        if k >= data.Length { k := k - data.Length; }
        ghost var a := data[..];
        RotatedUpdate(a, offset, j, 0);
        SumUpdate(a, k, 0);
        OneMoreZero(b, j);
        total := total - data[k];
        data[k] := 0;
        assert data[..] == a[k := 0];
        j := j + 1;
      }
    }

    /** A sample so late that no interval of the window is kept. */
    predicate Far(i: int)
      reads this
    {
      i >= head + 2 * Width()
    }

    /** Whether a far sample leaves old sums behind: a total of zero is taken for an empty buffer. */
    ghost predicate Skips(i: int)
      requires offset < data.Length
      reads this, data
    {
      Far(i) && total == 0 && exists k | 1 <= k < data.Length :: data[k] != 0
    }

    /** Starts the window anew with a far sample. */
    method Jump(v: int, i: int)
      requires Shape() && Far(i)
      modifies this`total, this`offset, this`head, this`turns, this`log, data
      ensures Shape() && head == i - i % interval && log == old(log) + [Sample(v, i)]
        && old(head) <= head <= i < head + interval && total == v
      ensures Faithful() <==> !old(Skips(i))
    {
      hide Sum, Shows, Rotated;
      StartOfInterval(head, data.Length, turns, interval, i);
      var start := i - i % interval;
      if total != 0 { Wipe(); }
      Restart(v, i, start, i / interval);
    }

    method Restart(v: int, i: int, start: int, ghost turns: nat)
      requires 0 < data.Length && 0 < interval && start == turns * interval
      requires start <= i < start + interval && interval <= Width() && forall s <- log :: s.time < start
      modifies this`total, this`offset, this`head, this`turns, this`log, data
      ensures Shape() && head == start && log == old(log) + [Sample(v, i)] && total == v
      ensures Faithful() <==> forall k | 1 <= k < data.Length :: old(data[k]) == 0
    {
      hide Sum, Shows, Rotated, Window.Width;
      head := start;
      this.turns := turns;
      offset := 0;
      data[0] := v;
      total := v;
      RotatedWhole(data[..]);
      Jumped(data[..], log, head, interval, Sample(v, i));
      log := log + [Sample(v, i)];
    }

    method Wipe()
      modifies data
      ensures forall k | 0 <= k < data.Length :: data[k] == 0
    {
      forall k | 0 <= k < data.Length { data[k] := 0; }
    }

    /** Accepts a sample unless it is older than the window. */
    method Add(v: int, i: int)
      requires Shape()
      modifies this`total, this`offset, this`head, this`turns, this`log, data
      ensures Shape() && old(head) <= head
      ensures i < old(head) ==> log == old(log) && data[..] == old(data[..]) && total == old(total)
      ensures i >= old(head) ==> log == old(log) + [Sample(v, i)] && head <= i < End()
      ensures old(head) <= i < old(End()) ==> head == old(head) && offset == old(offset)
      ensures old(End()) <= i && !old(Far(i)) ==> End() - interval <= i
      ensures old(Far(i)) ==> head == i - i % interval && total == v
      ensures old(Far(i)) ==> (Faithful() <==> !old(Skips(i)))
      ensures old(Faithful()) && !old(Far(i)) ==> Faithful()
    {
      hide Rotated, Shows, Sum;
      if i < head { return; }
      var length, width := data.Length, Width();
      if i < head + width {
        Count(v, i);
        return;
      }
      if i >= head + 2 * width {
        Jump(v, i);
        ProductOrder(1, length, interval);
        return;
      }
      var shift := (i - head) / interval - length + 1;
      ShiftFits(i, head, interval, length, shift);
      Evict(shift);
      assert i < head + width;
      Count(v, i);
    }
  }

  /** How far the window moves on for a sample just behind it. */
  lemma {:induction false} ShiftFits(i: int, head: int, interval: nat, length: nat, shift: int)
    requires interval > 0 && head + length * interval <= i < head + 2 * length * interval
    requires shift == (i - head) / interval - length + 1
    ensures 1 <= shift <= length
    ensures 0 <= shift * interval && head + shift * interval <= i
    ensures head + shift * interval + length * interval - interval <= i < head + shift * interval + length * interval
  {
    var q := (i - head) / interval;
    Interval(i, head, interval, q);
    ProductOrder(length, q, interval);
    ProductOrder(q + 1, length, interval);
    ProductOrder(2 * length, q, interval);
    assert (q + 1) * interval == q * interval + interval;
    assert shift * interval + length * interval == (q + 1) * interval;
    ProductOrder(1, length, interval);
    ProductPositive(shift, interval);
  }

  /** Samples that are never negative leave nothing behind: the total is zero only when the buffer is empty. */
  lemma {:induction false} NeverSkips(b: seq<int>, log: seq<Sample>, head: int, interval: int)
    requires interval > 0 && Shows(b, log, head, interval) && Sum(b) == 0
    requires forall s <- log :: s.value >= 0
    ensures forall k | 0 <= k < |b| :: b[k] == 0
  {
    forall k | 0 <= k < |b| ensures b[k] >= 0 {
      SumInPositive(log, head + k * interval, head + (k + 1) * interval);
    }
    ZeroSum(b);
  }

  /** A window fed samples that are never negative stays faithful, whatever their times. */
  method AddAll(w: Window, samples: seq<Sample>)
    requires w.Shape() && w.Faithful() && (forall s <- w.log :: s.value >= 0)
    requires forall s <- samples :: s.value >= 0
    modifies w`total, w`offset, w`head, w`turns, w`log, w.data
    ensures w.Shape() && w.Faithful() && old(w.head) <= w.head
  {
    hide Shows, Rotated, Sum;
    for n := 0 to |samples|
      invariant w.Shape() && w.Faithful() && old(w.head) <= w.head
      invariant forall s <- w.log :: s.value >= 0
    {
      RotatedSum(w.data[..], w.offset);
      if w.total == 0 { Empty(w.Buckets(), w.data[..], w.offset, w.log, w.head, w.interval); }
      assert samples[n] in samples;
      w.Add(samples[n].value, samples[n].time);
    }
  }

  lemma {:induction false} Empty(b: seq<int>, a: seq<int>, offset: nat, log: seq<Sample>, head: int, interval: int)
    requires offset < |a| && b == Rotated(a, offset) && interval > 0 && Shows(b, log, head, interval) && Sum(a) == 0
    requires forall s <- log :: s.value >= 0
    ensures forall k | 0 <= k < |a| :: a[k] == 0
  {
    RotatedSum(a, offset);
    NeverSkips(b, log, head, interval);
    forall k | 0 <= k < |a| ensures a[k] == 0 {
      if k >= offset { RotatedAt(a, offset, k - offset); } else { RotatedAt(a, offset, k + |a| - offset); }
    }
  }

  /** With samples that cancel out, a far one finds the total at zero and leaves the others in place. */
  method LeftBehind() returns (w: Window)
    ensures fresh(w) && w.Shape() && w.total == 3 && w.head == 45 && w.data.Length == 4
    ensures w.log == [Sample(5, 1), Sample(-5, 11), Sample(3, 45)]
    ensures !w.Faithful()
  {
    hide Shows, Rotated, Sum, SumIn;
    w := Offsetting();
    w.Add(3, 45);
  }

  /** Two samples that cancel out, in different intervals. */
  method Offsetting() returns (w: Window)
    ensures fresh(w) && fresh(w.data) && w.Shape() && w.data.Length == 4 && w.interval == 5 && w.head == 0
      && w.offset == 0
    ensures w.log == [Sample(5, 1), Sample(-5, 11)] && w.Skips(45)
  {
    hide Shows, Rotated, Sum, SumIn;
    w := new Window(4, 5);
    w.Add(5, 1);
    w.Add(-5, 11);
    assert w.log == [Sample(5, 1)] + [Sample(-5, 11)];
    CancelledOut(w);
  }

  lemma {:induction false} CancelledOut(w: Window)
    requires w.Shape() && w.Faithful() && w.data.Length == 4 && w.interval == 5 && w.head == 0 && w.offset == 0
    requires w.log == [Sample(5, 1)] + [Sample(-5, 11)]
    ensures w.Skips(45)
  {
    hide Shows, Rotated, Sum, SumIn;
    w.TotalIs();
    RotatedSize(w.data[..], 0);
    Second(w.Buckets(), w.log);
    RotatedWhole(w.data[..]);
    OffsettingSamples();
  }

  lemma {:induction false} Second(b: seq<int>, log: seq<Sample>)
    requires Shows(b, log, 0, 5) && |b| == 4
    ensures b[2] == SumIn(log, 10, 15)
  {
  }

  lemma {:induction false} OffsettingSamples()
    ensures var log := [Sample(5, 1)] + [Sample(-5, 11)]; SumIn(log, 0, 20) == 0 && SumIn(log, 10, 15) == -5
  {
    SumInAdd([Sample(5, 1)], Sample(-5, 11), 0, 20);
    SumInAdd([Sample(5, 1)], Sample(-5, 11), 10, 15);
  }

  lemma {:induction false} RotatedWhole(a: seq<int>)
    ensures Rotated(a, 0) == a
  {
  }

  lemma {:induction false} SumOfFirst(b: seq<int>)
    requires b != []
    ensures (forall k | 1 <= k < |b| :: b[k] == 0) ==> Sum(b) == b[0]
  {
    if forall k | 1 <= k < |b| :: b[k] == 0 {
      assert b[1..] == Blank(|b| - 1);
      SumZeros(|b| - 1);
    }
  }

  lemma {:induction false} StartOfInterval(head: int, length: nat, turns: nat, interval: nat, i: int)
    requires interval > 0 && head == turns * interval && i >= head + 2 * length * interval
    ensures i >= 0 && i / interval >= 0 && i - i % interval == i / interval * interval
    ensures head <= i - i % interval <= i < i - i % interval + interval
    ensures length > 0 ==> interval <= length * interval && head + length * interval <= i - i % interval
  {
    Starts(head, length, length * interval, turns, interval, i, i / interval, i / interval * interval, i % interval);
  }

  lemma {:induction false} Starts(head: int, length: nat, width: int, turns: nat, interval: nat, i: int, q: int,
                                  start: int, r: int)
    requires interval > 0 && head == turns * interval && width == length * interval && start == q * interval
    requires i == start + r && 0 <= r < interval && i >= head + 2 * length * interval
    ensures head >= 0 && i >= head + 2 * width && head <= start && q >= 0
    ensures length > 0 ==> interval <= width && head + width <= start
  {
    ProductOrder(1, length, interval);
    ProductPositive(turns, interval);
    ProductPositive(length, interval);
    assert 2 * length * interval == 2 * width;
    ProductOrder(q, turns, interval);
    ProductOrder(q, 0, interval);
  }

  lemma {:induction false} RotatedSize(a: seq<int>, offset: nat)
    requires offset <= |a|
    ensures |Rotated(a, offset)| == |a|
  {
  }

  lemma {:induction false} NoZeros(b: seq<int>)
    ensures Blank(0) + b[0..] == b
  {
  }

  lemma {:induction false} OneMoreZero(b: seq<int>, j: nat)
    requires j < |b|
    ensures |Blank(j) + b[j..]| == |b| && (Blank(j) + b[j..])[j := 0] == Blank(j + 1) + b[j + 1..]
  {
  }

  /** Turning on past `n` buckets that have been emptied. */
  lemma {:induction false} Turned(a: seq<int>, b: seq<int>, offset: nat, n: nat)
    requires offset < |a| == |b| && n <= |a| && Rotated(a, offset) == Blank(n) + b[n..]
    ensures Rotated(a, Wrap(offset + n, |a|)) == b[n..] + Blank(n)
  {
    RotatedOn(a, offset, n);
    assert (Blank(n) + b[n..])[n..] == b[n..] && (Blank(n) + b[n..])[..n] == Blank(n);
  }

  lemma {:induction false} LaterEnd(log: seq<Sample>, head: int, width: int, n: nat, interval: nat)
    requires forall s <- log :: s.time < head + width
    ensures forall s <- log :: s.time < head + n * interval + width
  {
    ProductPositive(n, interval);
  }

  lemma {:induction false} InWindow(i: int, head: int, interval: nat, q: int, n: nat)
    requires interval > 0 && head <= i < head + n * interval && q == (i - head) / interval
    ensures 0 <= q < n
  {
    Interval(i, head, interval, q);
    ProductOrder(n, q, interval);
  }

  lemma {:induction false} ProductOrder(a: int, b: int, d: int)
    requires d > 0
    ensures a <= b ==> a * d <= b * d
    ensures a < b ==> a * d + d <= b * d
  {
    var c := b - a;
    assert b * d == a * d + c * d;
    if c > 0 {
      assert c * d == (c - 1) * d + d;
      ProductPositive(c - 1, d);
    }
  }

  lemma {:induction false} ProductPositive(a: nat, b: nat)
    ensures a * b >= 0 && (a > 0 && b > 0 ==> a * b > 0)
  {
  }
}

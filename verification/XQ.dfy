/**
 The double-ended ring queue of src/xtypes/xq.c.

 Positions are 64-bit counters that wrap around: the elements occupy the positions after
 `tail` and before `head`, and position p lives in slot p & (size - 1). Because the size is
 a power of two, a counter that wraps around does not move an element.
 */
module XQ {
  import opened Words
  import opened Seqs

  // ----- positions and slots

  /** p & (size - 1) for a size that is a power of two: the remainder of p. */
  function Mask(p: nat, size: nat): (i: nat)
    requires size > 0
    ensures i < size
  {
    if p < size then p else Mask(p - size, size)
  }

  lemma {:induction false} MaskIsRemainder(p: nat, size: nat)
    requires size > 0
    ensures Mask(p, size) == p % size
    decreases p
  {
    if p < size {
      RemainderUnique(p, size, 0, p);
    } else {
      MaskIsRemainder(p - size, size);
      SameRemainder(p, p - size, size, 1);
    }
  }

  /** Where position p lives, after the counter has wrapped and been masked. */
  function Slot(p: int, size: nat): (i: nat)
    requires size > 0
    ensures i < size
  {
    Mask(p % WORD_LIMIT, size)
  }

  /** xq_count: a difference of wrapping counters. */
  function Count(head: Word, tail: Word): Word {
    (head - tail - 1) % WORD_LIMIT
  }

  /** The number of 8-byte elements that a 64-bit space can hold. */
  const MAX_BUFFER: nat := 0x2000_0000_0000_0000

  /** A queue size: zero or a power of two whose buffer of 8-byte elements fits a 64-bit space. */
  ghost predicate IsSize(size: nat) {
    size == 0 || exists k: nat | k <= 60 :: size == Pow2(k)
  }

  lemma SizeIsSmall(size: nat)
    requires IsSize(size)
    ensures 4 * size <= WORD_LIMIT
  {
    if size > 0 {
      var k: nat :| k <= 60 && size == Pow2(k);
      Pow2Monotone(k, 60);
      Pow2Add(60, 4);
      Pow2Of64();
    }
  }

  lemma WrapAgrees(p: int, q: int, k: int)
    requires p % WORD_LIMIT == q % WORD_LIMIT
    ensures (p + k) % WORD_LIMIT == (q + k) % WORD_LIMIT
  {
    var c := p / WORD_LIMIT - q / WORD_LIMIT;
    SameRemainder(p + k, q + k, WORD_LIMIT, c);
  }

  lemma WrapIdempotent(p: int)
    ensures (p % WORD_LIMIT) % WORD_LIMIT == p % WORD_LIMIT
  {
  }

  /** Up to size consecutive positions use different slots, even across a wrap-around. */
  lemma SlotsDiffer(p: int, q: int, size: nat)
    requires IsSize(size) && p < q < p + size
    ensures Slot(p, size) != Slot(q, size)
  {
    var k: nat :| k <= 60 && size == Pow2(k);
    WrapThenMask(p, k);
    WrapThenMask(q, k);
    RemaindersDiffer(p, q, size);
    MaskIsRemainder(p % WORD_LIMIT, size);
    MaskIsRemainder(q % WORD_LIMIT, size);
  }

  lemma RemaindersDiffer(p: int, q: int, m: nat)
    requires m > 0 && p < q < p + m
    ensures p % m != q % m
  {
    var c := q / m - p / m;
    assert m * c == m * (q / m) - m * (p / m);
    if c >= 1 {
      MulMonotone(m, 1, c);
    } else {
      MulMonotone(m, c, 0);
    }
  }

  /** A position and the one a whole size above it share their slot. */
  lemma SlotRepeats(p: int, size: nat)
    requires IsSize(size) && size > 0
    ensures Slot(p + size, size) == Slot(p, size)
  {
    var k: nat :| k <= 60 && size == Pow2(k);
    WrapThenMask(p, k);
    WrapThenMask(p + size, k);
    SameRemainder(p + size, p, size, 1);
    MaskIsRemainder(p % WORD_LIMIT, size);
    MaskIsRemainder((p + size) % WORD_LIMIT, size);
  }

  lemma CountIs(head: Word, tail: Word)
    ensures Count(head, tail) == if head > tail then head - tail - 1 else head - tail - 1 + WORD_LIMIT
    ensures (tail + 1 + Count(head, tail)) % WORD_LIMIT == head
  {
    WrapNear(head - tail - 1);
    WrapNear(tail + 1 + Count(head, tail));
  }

  /** Moving head up or tail down by nr makes room for nr elements. */
  lemma CountGrows(head: Word, tail: Word, nr: nat)
    requires Count(head, tail) + nr < WORD_LIMIT
    ensures Count((head + nr) % WORD_LIMIT, tail) == Count(head, tail) + nr
    ensures Count(head, (tail - nr) % WORD_LIMIT) == Count(head, tail) + nr
  {
    CountIs(head, tail);
    WrapNear(head + nr);
    WrapNear(tail - nr);
    CountIs((head + nr) % WORD_LIMIT, tail);
    CountIs(head, (tail - nr) % WORD_LIMIT);
  }

  /** Moving head down or tail up by nr takes nr elements away. */
  lemma CountShrinks(head: Word, tail: Word, nr: nat)
    requires nr <= Count(head, tail)
    ensures Count((head - nr) % WORD_LIMIT, tail) == Count(head, tail) - nr
    ensures Count(head, (tail + nr) % WORD_LIMIT) == Count(head, tail) - nr
  {
    CountIs(head, tail);
    WrapNear(head - nr);
    WrapNear(tail + nr);
    CountIs((head - nr) % WORD_LIMIT, tail);
    CountIs(head, (tail + nr) % WORD_LIMIT);
  }

  /** Counting down from head and counting up from tail meet in the same positions. */
  lemma HeadPosition(head: Word, tail: Word, d: int)
    ensures ((head - d) % WORD_LIMIT) % WORD_LIMIT == (tail + 1 + (Count(head, tail) - d)) % WORD_LIMIT
  {
    var n := Count(head, tail);
    CountIs(head, tail);
    WrapIdempotent(tail + 1 + n);
    WrapAgrees(head, tail + 1 + n, -d);
    WrapIdempotent(head - d);
    assert head + -d == head - d && tail + 1 + n + -d == tail + 1 + (n - d);
  }

  // ----- runs of elements

  /** The n elements from position first on. */
  ghost function Run(q: seq<Word>, first: int, n: nat, size: nat): (s: seq<Word>)
    requires n <= size <= |q|
    ensures |s| == n
  {
    if n == 0 then [] else Run(q, first, n - 1, size) + [q[Slot(first + n - 1, size)]]
  }

  lemma {:induction false} RunAt(q: seq<Word>, first: int, n: nat, size: nat, i: nat)
    requires i < n <= size <= |q|
    ensures Run(q, first, n, size)[i] == q[Slot(first + i, size)]
  {
    if i < n - 1 {
      RunAt(q, first, n - 1, size, i);
    }
  }

  /** A run starts at a counter, however often the counter has wrapped. */
  lemma {:induction false} RunWraps(q: seq<Word>, first: int, first': int, n: nat, size: nat)
    requires n <= size <= |q| && first % WORD_LIMIT == first' % WORD_LIMIT
    ensures Run(q, first, n, size) == Run(q, first', n, size)
  {
    if n > 0 {
      RunWraps(q, first, first', n - 1, size);
      WrapAgrees(first, first', n - 1);
      assert first + (n - 1) == first + n - 1 && first' + (n - 1) == first' + n - 1;
    }
  }

  lemma {:induction false} RunSplit(q: seq<Word>, first: int, m: nat, n: nat, size: nat)
    requires m + n <= size <= |q|
    ensures Run(q, first, m + n, size) == Run(q, first, m, size) + Run(q, first + m, n, size)
  {
    if n == 0 {
      assert Run(q, first, m, size) + [] == Run(q, first, m, size);
    } else {
      RunSplit(q, first, m, n - 1, size);
      assert first + (m + n) - 1 == (first + m) + n - 1;
    }
  }

  /** A write above the run, and below the point where slots repeat, leaves it alone. */
  lemma {:induction false} RunWriteAbove(q: seq<Word>, first: int, n: nat, size: nat, p: int, x: Word)
    requires IsSize(size) && n <= size <= |q| && first + n <= p < first + size
    ensures Run(q[Slot(p, size) := x], first, n, size) == Run(q, first, n, size)
  {
    if n > 0 {
      RunWriteAbove(q, first, n - 1, size, p, x);
      SlotsDiffer(first + n - 1, p, size);
    }
  }

  lemma {:induction false} RunUpdate(q: seq<Word>, first: int, n: nat, size: nat, i: nat, x: Word)
    requires IsSize(size) && i < n <= size <= |q|
    ensures Run(q[Slot(first + i, size) := x], first, n, size) == Run(q, first, n, size)[i := x]
  {
    if i == n - 1 {
      RunWriteAbove(q, first, n - 1, size, first + i, x);
    } else {
      RunUpdate(q, first, n - 1, size, i, x);
      SlotsDiffer(first + i, first + n - 1, size);
    }
  }

  // ----- one element at either end

  /** The head is where the next element above the run goes. */
  lemma HeadSlot(head: Word, tail: Word, size: nat)
    requires size > 0
    ensures Slot(head, size) == Slot(tail + 1 + Count(head, tail), size)
  {
    CountIs(head, tail);
    RemainderUnique(head, WORD_LIMIT, 0, head);
  }

  lemma RunPush(q: seq<Word>, first: int, n: nat, size: nat, x: Word)
    requires IsSize(size) && n < size <= |q|
    ensures Run(q[Slot(first + n, size) := x], first, n + 1, size) == Run(q, first, n, size) + [x]
  {
    RunWriteAbove(q, first, n, size, first + n, x);
    assert first + (n + 1) - 1 == first + n;
  }

  lemma RunAppendHead(q: seq<Word>, head: Word, tail: Word, size: nat, x: Word)
    requires IsSize(size) && Count(head, tail) < size <= |q|
    ensures var n := Count(head, tail);
            Run(q[Slot(head, size) := x], tail + 1, n + 1, size) == Run(q, tail + 1, n, size) + [x]
  {
    HeadSlot(head, tail, size);
    RunPush(q, tail + 1, Count(head, tail), size, x);
  }

  lemma {:induction false} RunFirst(q: seq<Word>, first: int, n: nat, size: nat)
    requires n < size <= |q|
    ensures Run(q, first, n + 1, size) == [q[Slot(first, size)]] + Run(q, first + 1, n, size)
  {
    assert Run(q, first, n + 1, size) == Run(q, first, n, size) + [q[Slot(first + n, size)]];
    if n > 0 {
      RunFirst(q, first, n - 1, size);
      assert first + 1 + (n - 1) == first + n;
    }
  }

  lemma RunUnshift(q: seq<Word>, first: int, n: nat, size: nat, x: Word)
    requires IsSize(size) && n < size <= |q|
    ensures Run(q[Slot(first, size) := x], first, n + 1, size) == [x] + Run(q, first + 1, n, size)
  {
    SlotRepeats(first, size);
    RunWriteAbove(q, first + 1, n, size, first + size, x);
    RunFirst(q[Slot(first, size) := x], first, n, size);
  }

  /** The tail, lowered by one and raised again. */
  lemma TailBack(tail: Word)
    ensures ((tail - 1) % WORD_LIMIT + 1) % WORD_LIMIT == tail % WORD_LIMIT
  {
    WrapIdempotent(tail - 1);
    WrapAgrees((tail - 1) % WORD_LIMIT, tail - 1, 1);
  }

  lemma RunAppendTail(q: seq<Word>, tail: Word, n: nat, size: nat, x: Word)
    requires IsSize(size) && n < size <= |q|
    ensures var t := (tail - 1) % WORD_LIMIT;
            Run(q[Slot(t + 1, size) := x], t + 1, n + 1, size) == [x] + Run(q, tail + 1, n, size)
  {
    var t := (tail - 1) % WORD_LIMIT;
    TailBack(tail);
    RunUnshift(q, tail, n, size, x);
    RunWraps(q[Slot(tail, size) := x], t + 1, tail, n + 1, size);
  }

  lemma RunPopTail(q: seq<Word>, tail: Word, n: nat, size: nat)
    requires 0 < n <= size <= |q|
    ensures Run(q, tail + 1, n, size)
         == [q[Slot(tail + 1, size)]] + Run(q, (tail + 1) % WORD_LIMIT + 1, n - 1, size)
  {
    RunFirst(q, tail + 1, n - 1, size);
    WrapIdempotent(tail + 1);
    WrapAgrees((tail + 1) % WORD_LIMIT, tail + 1, 1);
    RunWraps(q, (tail + 1) % WORD_LIMIT + 1, tail + 1 + 1, n - 1, size);
  }

  /** Lowering the head by nr splits off the last nr elements, which now start at the head. */
  lemma RunLowerHead(q: seq<Word>, head: Word, tail: Word, nr: nat, size: nat)
    requires nr <= Count(head, tail) <= size <= |q|
    ensures var n := Count(head, tail);
            Run(q, tail + 1, n, size)
            == Run(q, tail + 1, n - nr, size) + Run(q, (head - nr) % WORD_LIMIT, nr, size)
  {
    var n := Count(head, tail);
    RunSplit(q, tail + 1, n - nr, nr, size);
    HeadPosition(head, tail, nr);
    RunWraps(q, tail + 1 + (n - nr), (head - nr) % WORD_LIMIT, nr, size);
  }

  /** Lowering the tail by nr puts nr elements of any value below the others. */
  lemma RunLowerTail(q: seq<Word>, tail: Word, n: nat, nr: nat, size: nat)
    requires n + nr <= size <= |q|
    ensures Run(q, (tail - nr) % WORD_LIMIT + 1, nr + n, size)[nr..] == Run(q, tail + 1, n, size)
  {
    var t := (tail - nr) % WORD_LIMIT;
    WrapIdempotent(tail - nr);
    WrapAgrees(t, tail - nr, 1 + nr);
    RunSplit(q, t + 1, nr, n, size);
    assert t + (1 + nr) == t + 1 + nr && tail - nr + (1 + nr) == tail + 1;
    RunWraps(q, t + 1 + nr, tail + 1, n, size);
  }

  // ----- bulk moves

  /** One pop at the head of the first queue followed by one append at the tail of the second. */
  ghost function MoveOne(a: seq<Word>, b: seq<Word>): (r: (seq<Word>, seq<Word>))
    requires a != []
  {
    (a[..|a| - 1], [a[|a| - 1]] + b)
  }

  ghost function MoveMany(a: seq<Word>, b: seq<Word>, nr: nat): (r: (seq<Word>, seq<Word>))
    requires nr <= |a|
    decreases nr
  {
    if nr == 0 then (a, b) else var m := MoveOne(a, b); MoveMany(m.0, m.1, nr - 1)
  }

  /** nr single moves carry the block of nr elements at the head over in one piece. */
  lemma {:induction false} MoveManyIsBlock(a: seq<Word>, b: seq<Word>, nr: nat)
    requires nr <= |a|
    ensures MoveMany(a, b, nr) == (a[..|a| - nr], a[|a| - nr..] + b)
    decreases nr
  {
    if nr == 0 {
      assert a[..|a|] == a && a[|a|..] + b == b;
    } else {
      var n := |a| - 1;
      MoveManyIsBlock(a[..n], [a[n]] + b, nr - 1);
      assert a[..n][..n - (nr - 1)] == a[..|a| - nr];
      assert a[..n][n - (nr - 1)..] + ([a[n]] + b) == a[|a| - nr..] + b;
    }
  }

  // ----- sizes and initial contents

  /** __snap: the largest power of two that is at most n. */
  function Snap(n: nat): (s: nat)
    ensures s <= n && (n > 0 ==> n < 2 * s)
  {
    if n == 0 then 0 else if n == 1 then 1 else 2 * Snap(n / 2)
  }

  lemma {:induction false} SnapIsSize(n: nat, k: nat)
    requires 0 < n < Pow2(k + 1)
    ensures exists j: nat | j <= k :: Snap(n) == Pow2(j)
    decreases n
  {
    if n == 1 {
      assert Snap(n) == Pow2(0);
    } else {
      assert k > 0;
      SnapIsSize(n / 2, k - 1);
      var j: nat :| j <= k - 1 && Snap(n / 2) == Pow2(j);
      assert Snap(n) == Pow2(j + 1);
    }
  }

  /** The numbers from a up to b. */
  ghost function Upto(a: nat, b: nat): (s: seq<Word>)
    requires a <= b <= WORD_LIMIT
    ensures |s| == b - a && forall i | 0 <= i < |s| :: s[i] == a + i
  {
    seq(b - a, i requires 0 <= i < b - a => a + i)
  }

  lemma InitSeqAt(q: seq<Word>, count: nat, size: nat, i: nat)
    requires IsSize(size) && i < count <= size <= |q| && size < WORD_LIMIT
    ensures Run(q, 1, count, size)[i] == if i + 1 < size then q[i + 1] else q[0]
  {
    RunAt(q, 1, count, size, i);
    LowSlot(1 + i, size);
  }

  /**
   What xq_init_seq leaves in the queue: the element at position count lies in slot
   count & (size - 1), which the initialisation has written only if count == size.
   */
  lemma InitSeqContents(q: seq<Word>, count: nat, size: nat)
    requires IsSize(size) && 0 < count <= size <= |q| && size < WORD_LIMIT
    requires forall t | 0 <= t < count :: q[t] == t
    ensures Run(q, 1, count, size) == Upto(1, count) + [if count == size then 0 else q[count]]
  {
    var r, u := Run(q, 1, count, size), Upto(1, count) + [if count == size then 0 else q[count]];
    forall i | 0 <= i < count ensures r[i] == u[i] {
      InitSeqAt(q, count, size, i);
    }
  }

  lemma LowSlot(p: nat, size: nat)
    requires IsSize(size) && p <= size && 0 < size < WORD_LIMIT
    ensures Slot(p, size) == if p < size then p else 0
  {
    RemainderUnique(p, WORD_LIMIT, 0, p);
    if p == size { assert Mask(size, size) == Mask(0, size); }
  }

  /** The queue then holds 0 .. count-1 exactly if it is full, or the stale slot happens to be 0. */
  lemma InitSeqHoldsAll(q: seq<Word>, count: nat, size: nat)
    requires IsSize(size) && 0 < count <= size <= |q| && size < WORD_LIMIT
    requires forall t | 0 <= t < count :: q[t] == t
    ensures multiset(Run(q, 1, count, size)) == multiset(Upto(0, count))
            <==> (count == size || q[count] == 0)
  {
    InitSeqContents(q, count, size);
    UptoFromZero(count);
    OneDiffers(Upto(1, count), if count == size then 0 else q[count]);
  }

  lemma UptoFromZero(count: nat)
    requires 0 < count <= WORD_LIMIT
    ensures Upto(0, count) == [0 as Word] + Upto(1, count)
  {
  }

  lemma OneDiffers(s: seq<Word>, last: Word)
    ensures multiset(s + [last]) == multiset([0 as Word] + s) <==> last == 0
  {
    assert multiset(s + [last])[0] == multiset(s)[0] + if last == 0 then 1 else 0;
    assert multiset([0 as Word] + s)[0] == multiset(s)[0] + 1;
  }

  /** One more element of the block copied, one place lower. */
  lemma ReversedStep(block: seq<Word>, i: nat, rest: seq<Word>)
    requires i < |block|
    ensures [block[i]] + (Reversed(block[..i]) + rest) == Reversed(block[..i + 1]) + rest
  {
    assert block[..i + 1] == block[..i] + [block[i]];
    ReversedAppend(block[..i], block[i]);
  }

  lemma StoreBelow(s: seq<Word>, k: nat, x: Word, top: seq<Word>)
    requires k < |s| && s[k + 1..] == top
    ensures s[k := x][k..] == [x] + top
  {
  }

  /** A walk from the tail: the element at the counter, and the next counter. */
  lemma WalkStep(q: seq<Word>, head: Word, tail: Word, size: nat, j: nat)
    requires Count(head, tail) <= size <= |q| && j <= Count(head, tail)
    requires (tail + 1 + j) % WORD_LIMIT != head
    ensures j < Count(head, tail)
    ensures Run(q, tail + 1, Count(head, tail), size)[j] == q[Slot((tail + 1 + j) % WORD_LIMIT, size)]
    ensures ((tail + 1 + j) % WORD_LIMIT + 1) % WORD_LIMIT == (tail + 1 + (j + 1)) % WORD_LIMIT
  {
    CountIs(head, tail);
    RunAt(q, tail + 1, Count(head, tail), size, j);
    WrapIdempotent(tail + 1 + j);
    WrapAgrees((tail + 1 + j) % WORD_LIMIT, tail + 1 + j, 1);
  }

  /** The walk meets the head only when it has seen every element. */
  lemma WalkEnds(head: Word, tail: Word, j: nat)
    requires j <= Count(head, tail) && (tail + 1 + j) % WORD_LIMIT == head
    ensures j == Count(head, tail)
  {
    CountIs(head, tail);
    if j < Count(head, tail) {
      RemaindersDiffer(tail + 1 + j, tail + 1 + Count(head, tail), WORD_LIMIT);
    }
  }

  /** The loop of xq_init_seq. */
  method Fill(queue: array<Word>, count: nat)
    requires count <= queue.Length && count < WORD_LIMIT
    modifies queue
    ensures forall u | 0 <= u < count :: queue[u] == u
  {
    for t := 0 to count
      invariant forall u | 0 <= u < t :: queue[u] == u
    {
      queue[t] := t;
    }
  }

  lemma SnapFits(n: nat)
    requires n < MAX_BUFFER
    ensures IsSize(Snap(n)) && Snap(n) <= n && 4 * Snap(n) <= WORD_LIMIT
  {
    Pow2Of64();
    Pow2Add(61, 3);
    assert Pow2(3) == 8;
    if n > 0 { SnapIsSize(n, 60); }
    SizeIsSmall(Snap(n));
  }

  /** The queue that xq_init_seq leaves, with its head at count + 1 and its tail at 0. */
  lemma Filled(q: seq<Word>, count: nat, size: nat)
    requires IsSize(size) && count <= size <= |q| && 4 * size <= WORD_LIMIT && forall t | 0 <= t < count :: q[t] == t
    ensures Count(count + 1, 0) == count
    ensures count > 0 ==> Run(q, 1, count, size) == Upto(1, count) + [if count == size then 0 else q[count]]
    ensures count == size > 0 ==> multiset(Run(q, 1, count, size)) == multiset(Upto(0, size))
  {
    WrapNear(count);
    if count > 0 {
      InitSeqContents(q, count, size);
      InitSeqHoldsAll(q, count, size);
    }
  }

  class XQ {
    var head: Word
    var tail: Word
    var size: Word
    const queue: array<Word>

    ghost predicate Valid()
      reads this, queue
    {
      IsSize(size) && size <= queue.Length && Count(head, tail) <= size
    }

    /** The elements, from the tail end to the head end. */
    ghost function Contents(): (s: seq<Word>)
      requires Valid()
      reads this, queue
      ensures |s| == Count(head, tail)
    {
      Run(queue[..], tail + 1, Count(head, tail), size)
    }

    /** xq_init_empty on a buffer of n elements. */
    constructor Empty(n: nat)
      requires n < MAX_BUFFER
      ensures Valid() && Contents() == [] && size == Snap(n) && fresh(queue)
    {
      head, tail := 1, 0;
      SnapFits(n);
      size := Snap(n);
      queue := new Word[n];
    }

    /** xq_init_seq on a buffer of n elements: the last element may be whatever the buffer held. */
    constructor Seq(n: nat, nr: nat)
      requires n < MAX_BUFFER
      ensures Valid() && size == Snap(n) && fresh(queue)
      ensures var count := if nr > size then size else nr;
              |Contents()| == count
              && (count > 0 ==> Contents() == Upto(1, count) + [if count == size then 0 else queue[count]])
      ensures nr >= size > 0 ==> multiset(Contents()) == multiset(Upto(0, size))
    {
      SnapFits(n);
      var sz: Word := Snap(n);
      var count := if nr > sz then sz else nr;
      size, head, tail := sz, count + 1, 0;
      queue := new Word[n];
      new;
      Fill(queue, count);
      Filled(queue[..], count, size);
      ghost var c := Run(queue[..], 1, count, size);
      assert Count(head, tail) == count;
      assert Contents() == c;
    }

    /** __xq_append_head; NONE stands for "the queue is full". */
    method AppendHead(x: Word) returns (r: Word)
      requires Valid()
      modifies this`head, queue
      ensures Valid()
      ensures |old(Contents())| == size ==> r == NONE && Contents() == old(Contents())
      ensures |old(Contents())| < size ==> r == x && Contents() == old(Contents()) + [x]
    {
      if Count(head, tail) >= size {
        return NONE;
      }
      SizeIsSmall(size);
      RunAppendHead(queue[..], head, tail, size, x);
      CountGrows(head, tail, 1);
      queue[Slot(head, size)] := x;
      head := (head + 1) % WORD_LIMIT;
      return x;
    }

    /** __xq_pop_head */
    method PopHead() returns (r: Word)
      requires Valid()
      modifies this`head
      ensures Valid()
      ensures old(Contents()) == [] ==> r == NONE && Contents() == []
      ensures old(Contents()) != [] ==> old(Contents()) == Contents() + [r]
    {
      if Count(head, tail) == 0 {
        return NONE;
      }
      RunLowerHead(queue[..], head, tail, 1, size);
      RunAt(queue[..], (head - 1) % WORD_LIMIT, 1, size, 0);
      CountShrinks(head, tail, 1);
      head := (head - 1) % WORD_LIMIT;
      return queue[Slot(head, size)];
    }

    /** __xq_peek_head */
    method PeekHead() returns (r: Word)
      requires Valid()
      ensures Contents() == [] ==> r == NONE
      ensures Contents() != [] ==> r == Contents()[|Contents()| - 1]
    {
      if Count(head, tail) == 0 {
        return NONE;
      }
      RunLowerHead(queue[..], head, tail, 1, size);
      RunAt(queue[..], (head - 1) % WORD_LIMIT, 1, size, 0);
      return queue[Slot((head - 1) % WORD_LIMIT, size)];
    }

    /** __xq_append_tail */
    method AppendTail(x: Word) returns (r: Word)
      requires Valid()
      modifies this`tail, queue
      ensures Valid()
      ensures |old(Contents())| == size ==> r == NONE && Contents() == old(Contents())
      ensures |old(Contents())| < size ==> r == x && Contents() == [x] + old(Contents())
    {
      if !(Count(head, tail) + 1 <= size) {
        return NONE;
      }
      SizeIsSmall(size);
      RunAppendTail(queue[..], tail, Count(head, tail), size, x);
      CountGrows(head, tail, 1);
      tail := (tail - 1) % WORD_LIMIT;
      queue[Slot(tail + 1, size)] := x;
      return x;
    }

    /** __xq_pop_tail */
    method PopTail() returns (r: Word)
      requires Valid()
      modifies this`tail
      ensures Valid()
      ensures old(Contents()) == [] ==> r == NONE && Contents() == []
      ensures old(Contents()) != [] ==> old(Contents()) == [r] + Contents()
    {
      if Count(head, tail) == 0 {
        return NONE;
      }
      RunPopTail(queue[..], tail, Count(head, tail), size);
      CountShrinks(head, tail, 1);
      r := queue[Slot(tail + 1, size)];
      tail := (tail + 1) % WORD_LIMIT;
    }

    /** __xq_peek_tail */
    method PeekTail() returns (r: Word)
      requires Valid()
      ensures Contents() == [] ==> r == NONE
      ensures Contents() != [] ==> r == Contents()[0]
    {
      if Count(head, tail) == 0 {
        return NONE;
      }
      RunPopTail(queue[..], tail, Count(head, tail), size);
      return queue[Slot(tail + 1, size)];
    }

    /** __xq_pop_head_idx: the elements stay where they are, just above the new head. */
    method LowerHead(nr: Word)
      requires Valid() && nr <= |Contents()|
      modifies this`head
      ensures Valid() && old(Contents()) == Contents() + Run(queue[..], head, nr, size)
    {
      RunLowerHead(queue[..], head, tail, nr, size);
      CountShrinks(head, tail, nr);
      head := (head - nr) % WORD_LIMIT;
    }

    /** __xq_append_tail_idx: nr more elements, of any value, below the others. */
    method LowerTail(nr: Word)
      requires Valid() && |Contents()| + nr <= size
      modifies this`tail
      ensures Valid() && |Contents()| == |old(Contents())| + nr && Contents()[nr..] == old(Contents())
    {
      SizeIsSmall(size);
      CountGrows(head, tail, nr);
      RunLowerTail(queue[..], tail, Count(head, tail), nr, size);
      tail := (tail - nr) % WORD_LIMIT;
    }

    /** Overwrites the element i above the tail. */
    method Store(i: Word, x: Word)
      requires Valid() && i < |Contents()|
      modifies queue
      ensures Valid() && Contents() == old(Contents())[i := x]
    {
      RunUpdate(queue[..], tail + 1, Count(head, tail), size, i, x);
      queue[Slot(tail + 1 + i, size)] := x;
    }

    /** xq_head_to_tail: moves nr elements from the head of this queue to the tail of another. */
    method HeadToTail(to: XQ, nr: Word) returns (ok: bool)
      requires Valid() && to.Valid() && to != this && to.queue != queue
      modifies this`head, to`tail, to.queue
      ensures Valid() && to.Valid()
      ensures ok <==> nr <= |old(Contents())| && |old(to.Contents())| + nr <= to.size
      ensures !ok ==> Contents() == old(Contents()) && to.Contents() == old(to.Contents())
      ensures ok ==> (Contents(), to.Contents()) == MoveMany(old(Contents()), old(to.Contents()), nr)
    {
      SizeIsSmall(to.size);
      SizeIsSmall(size);
      WrapNear(Count(to.head, to.tail) + nr);
      if Count(head, tail) < nr || (Count(to.head, to.tail) + nr) % WORD_LIMIT > to.size {
        return false;
      }
      MoveBlock(to, nr);
      return true;
    }

    /** The moves of xq_head_to_tail. */
    method MoveBlock(to: XQ, nr: Word)
      requires Valid() && to.Valid() && to != this && to.queue != queue
      requires nr <= |Contents()| && |to.Contents()| + nr <= to.size
      modifies this`head, to`tail, to.queue
      ensures Valid() && to.Valid()
      ensures (Contents(), to.Contents()) == MoveMany(old(Contents()), old(to.Contents()), nr)
    {
      MoveManyIsBlock(Contents(), to.Contents(), nr);
      LowerHead(nr);
      to.LowerTail(nr);
      to.CopyUp(queue, head, size, nr);
    }

    /** The copying loop of xq_head_to_tail. */
    method CopyUp(hq: array<Word>, hfirst: Word, hsize: Word, nr: Word)
      requires Valid() && hq != queue && nr <= |Contents()| && nr <= hsize <= hq.Length
      modifies queue
      ensures Valid()
      ensures Contents() == Run(hq[..], hfirst, nr, hsize) + old(Contents())[nr..]
    {
      ghost var block := Run(hq[..], hfirst, nr, hsize);
      for i := 0 to nr
        invariant Valid() && |Contents()| == |old(Contents())|
        invariant Contents()[..i] == block[..i] && Contents()[nr..] == old(Contents())[nr..]
      {
        RunAt(hq[..], hfirst, nr, hsize, i);
        Store(i, hq[Slot(hfirst + i, hsize)]);
      }
      assert Contents() == Contents()[..nr] + Contents()[nr..];
    }

    /** The elements, counted down from the head. */
    lemma FromHead()
      requires Valid()
      ensures var nr := Count(head, tail);
              nr <= size <= queue.Length && Contents() == Run(queue[..], (head - nr) % WORD_LIMIT, nr, size)
    {
      RunLowerHead(queue[..], head, tail, Count(head, tail), size);
    }

    /** __xq_resize: copies this queue, in reverse order, below what the other one holds. */
    method Resize(newq: XQ) returns (r: Word)
      requires Valid() && newq.Valid() && newq != this && newq.queue != queue
      requires |Contents()| <= newq.size ==> |Contents()| + |newq.Contents()| <= newq.size
      modifies newq`tail, newq.queue
      ensures newq.Valid()
      ensures |Contents()| > newq.size ==> r == NONE && newq.Contents() == old(newq.Contents())
      ensures |Contents()| <= newq.size
              ==> r == |Contents()| && newq.Contents() == Reversed(Contents()) + old(newq.Contents())
    {
      var nr := Count(head, tail);
      if nr > newq.size {
        return NONE;
      }
      FromHead();
      newq.LowerTail(nr);
      newq.CopyDown(queue, (head - nr) % WORD_LIMIT, size, nr);
      return nr;
    }

    /** The copying loop of __xq_resize. */
    method CopyDown(hq: array<Word>, hfirst: Word, hsize: Word, nr: Word)
      requires Valid() && hq != queue && nr <= |Contents()| && nr <= hsize <= hq.Length
      modifies queue
      ensures Valid()
      ensures Contents() == Reversed(Run(hq[..], hfirst, nr, hsize)) + old(Contents())[nr..]
    {
      ghost var block := Run(hq[..], hfirst, nr, hsize);
      ghost var rest := Contents()[nr..];
      for i := 0 to nr
        invariant Valid() && |Contents()| == nr + |rest|
        invariant Contents()[nr - i..] == Reversed(block[..i]) + rest
      {
        RunAt(hq[..], hfirst, nr, hsize, i);
        ReversedStep(block, i, rest);
        StoreBelow(Contents(), nr - 1 - i, block[i], Reversed(block[..i]) + rest);
        Store(nr - 1 - i, hq[Slot(hfirst + i, hsize)]);
      }
      assert block[..nr] == block;
    }

    /** __xq_check */
    method Check(x: Word) returns (found: bool)
      requires Valid()
      ensures found <==> x in Contents()
    {
      ghost var n := Count(head, tail);
      ghost var j: nat := 0;
      var i := (tail + 1) % WORD_LIMIT;
      while i != head
        invariant j <= n && i == (tail + 1 + j) % WORD_LIMIT
        invariant x !in Contents()[..j]
        decreases n - j
      {
        WalkStep(queue[..], head, tail, size, j);
        if queue[Slot(i, size)] == x {
          return true;
        }
        i := (i + 1) % WORD_LIMIT;
        j := j + 1;
      }
      WalkEnds(head, tail, j);
      assert Contents()[..n] == Contents();
      return false;
    }
  }
}

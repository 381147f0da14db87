/** The queue as the class is written: two 64-bit counters that wrap around, a
    mask instead of a remainder, and a signed difference instead of a
    comparison. Run without interference it is a bounded FIFO sequence. */
module MpmcQueue {
  import opened Options
  import opened MachineWords

  datatype Result<+T> = Success(value: T) | Failure(message: string)

  predicate SizeAccepted(bufferSize: nat) {
    bufferSize >= 2 && BitAnd(bufferSize, bufferSize - 1) == 0
  }

  class MpmcBoundedQueue<T> {
    const maxSize: nat
    const bufferMask: nat
    const sequences: array<nat>
    const data: array<Option<T>>
    var enqueuePos: nat
    var dequeuePos: nat

    ghost var head: nat           // ticket of the oldest item
    ghost var contents: seq<T>    // the items, oldest first

    /** The ticket t has its sequence number and its data in its cell. */
    ghost predicate CellHolds(t: nat)
      requires maxSize > 0 && sequences.Length == data.Length == maxSize
      requires head <= t < head + maxSize
      reads this, sequences, data
    {
      if t < head + |contents| then
        sequences[t % maxSize] == Wrap(t + 1) && data[t % maxSize] == Some(contents[t - head])
      else
        sequences[t % maxSize] == Wrap(t)
    }

    ghost predicate Valid()
      reads this, sequences, data
    {
      && 2 <= maxSize < WORD && IsPowerOfTwo(maxSize) && bufferMask == maxSize - 1
      && sequences.Length == data.Length == maxSize
      && |contents| <= maxSize
      && dequeuePos == Wrap(head) && enqueuePos == Wrap(head + |contents|)
      && forall t | head <= t < head + maxSize :: CellHolds(t)
    }

    constructor (bufferSize: nat)
      requires SizeAccepted(bufferSize) && bufferSize < WORD
      ensures Valid() && contents == [] && maxSize == bufferSize
      ensures fresh(sequences) && fresh(data)
    {
      maxSize := bufferSize;
      bufferMask := bufferSize - 1;
      sequences := new nat[bufferSize](i => i);
      data := new Option<T>[bufferSize](i => None);
      enqueuePos, dequeuePos := 0, 0;
      head, contents := 0, [];
      new;
      SizeTestAcceptsPowersOfTwo(bufferSize);
      forall t | 0 <= t < maxSize
        ensures CellHolds(t)
      {
        SmallRemainder(t, maxSize);
      }
    }

    /** The constructor's check, which throws for every other size. */
    static method Create(bufferSize: nat) returns (r: Result<MpmcBoundedQueue<T>>)
      requires bufferSize < WORD
      ensures r.Success? <==> bufferSize >= 2 && IsPowerOfTwo(bufferSize)
      ensures r.Success? ==> fresh(r.value) && r.value.Valid() && r.value.contents == [] && r.value.maxSize == bufferSize
      ensures r.Failure? ==> r.message == "async logger queue size must be power of two"
    {
      SizeTestAcceptsPowersOfTwo(bufferSize);
      if !SizeAccepted(bufferSize) {
        return Failure("async logger queue size must be power of two");
      }
      var q := new MpmcBoundedQueue<T>(bufferSize);
      r := Success(q);
    }

    /** False exactly when full; otherwise the item is last. A weak
        compare-and-swap may fail although nobody interferes: it does so
        `spuriousFailures` times here. */
    method Enqueue(item: T, spuriousFailures: nat) returns (ok: bool)
      requires Valid()
      modifies this, sequences, data
      ensures Valid()
      ensures ok <==> old(|contents|) < maxSize
      ensures contents == if ok then old(contents) + [item] else old(contents)
      ensures head == old(head)
    {
      ghost var tail := head + |contents|;
      var pos := enqueuePos;
      var cell;
      var failures := spuriousFailures;
      while true
        invariant Valid() && head == old(head) && contents == old(contents)
        invariant pos == enqueuePos && sequences[..] == old(sequences[..]) && data[..] == old(data[..])
        decreases failures
      {
        CellOfWord(tail, maxSize, bufferMask);
        SameCellNextLap(head, maxSize);
        cell := BitAnd(pos, bufferMask);
        var sequence := sequences[cell];
        var dif := SignedDifference(sequence, pos);
        if tail < head + maxSize {
          assert CellHolds(tail);
          WrappedDifferenceIsExact(tail, tail);
        } else {
          assert CellHolds(head);
          WrappedDifferenceIsExact(head + 1, tail);
        }
        if dif == 0 {
          if failures == 0 {
            enqueuePos := Wrap(pos + 1);
            break;
          }
          failures := failures - 1;
        } else if dif < 0 {
          return false;
        } else {
          assert false;
        }
      }
      data[cell] := Some(item);
      sequences[cell] := Wrap(pos + 1);
      contents := contents + [item];
      WrapOfSum(tail, 1);
      OtherCells(head, tail, maxSize);
      forall t | head <= t < head + maxSize
        ensures CellHolds(t)
      {
        assert old(CellHolds(t));
      }
      return true;
    }

    /** False exactly when empty; otherwise the oldest item. */
    method Dequeue(spuriousFailures: nat) returns (r: Option<T>)
      requires Valid()
      modifies this, sequences, data
      ensures Valid()
      ensures r.Some? <==> old(contents) != []
      ensures r.Some? ==> [r.value] + contents == old(contents) && head == old(head) + 1
      ensures r.None? ==> contents == [] && head == old(head)
    {
      var pos := dequeuePos;
      var cell;
      var failures := spuriousFailures;
      while true
        invariant Valid() && head == old(head) && contents == old(contents)
        invariant pos == dequeuePos && sequences[..] == old(sequences[..]) && data[..] == old(data[..])
        decreases failures
      {
        CellOfWord(head, maxSize, bufferMask);
        cell := BitAnd(pos, bufferMask);
        var sequence := sequences[cell];
        var dif := SignedDifference(sequence, Wrap(pos + 1));
        WrapOfSum(head, 1);
        assert CellHolds(head);
        WrappedDifferenceIsExact(head + 1, head + 1);
        WrappedDifferenceIsExact(head, head + 1);
        if dif == 0 {
          if failures == 0 {
            dequeuePos := Wrap(pos + 1);
            break;
          }
          failures := failures - 1;
        } else if dif < 0 {
          return None;
        } else {
          assert false;
        }
      }
      r := data[cell];
      data[cell] := None;
      sequences[cell] := Wrap(pos + bufferMask + 1);
      WrapOfSum(head, maxSize);
      SameCellNextLap(head, maxSize);
      OtherCells(head, head, maxSize);
      contents := contents[1..];
      head := head + 1;
      forall t | head <= t < head + maxSize
        ensures CellHolds(t)
      {
        if t < old(head) + maxSize {
          assert old(CellHolds(t));
        }
      }
    }

    /** The number of items, except while the enqueue counter has wrapped around
        and the dequeue counter has not: then it is zero. */
    method ApproxSize() returns (size: nat)
      requires Valid()
      ensures size == if Wrap(head) + |contents| < WORD then |contents| else 0
    {
      var firstPos := dequeuePos;
      var lastPos := enqueuePos;
      WrapOfSum(head, |contents|);
      if lastPos <= firstPos {
        return 0;
      }
      size := lastPos - firstPos;
      size := if size < maxSize then size else maxSize;
    }
  }

  lemma SmallRemainder(t: nat, n: nat)
    requires t < n
    ensures t % n == t
  {
    RemainderIsUnique(t, n, 0, t);
  }

  lemma WrapOfSum(x: nat, d: nat)
    ensures Wrap(Wrap(x) + d) == Wrap(x + d)
  {
    var q, r := (Wrap(x) + d) / WORD, (Wrap(x) + d) % WORD;
    RemainderIsUnique(x + d, WORD, x / WORD + q, r);
  }

  /** A power of two that fits in a word divides the word, at least in two. */
  lemma SizeDividesWord(n: nat) returns (k: nat, m: nat)
    requires n < WORD && IsPowerOfTwo(n)
    ensures n == Pow2(k) && m >= 2 && WORD == m * n && n <= HALF
  {
    k :| n == Pow2(k);
    WordSizes();
    LargePower(k);
    Pow2Divides(k, 64);
    m := Pow2(64 - k);
    assert m == 2 * Pow2(63 - k);
    ProductOfDifference(m, 2, n);
    MultipleIsAtLeast(m - 2, n);
  }

  lemma LargePower(k: nat)
    ensures k >= 64 ==> Pow2(k) >= WORD
  {
    WordSizes();
    if k >= 64 {
      Pow2Divides(64, k);
      MultipleIsAtLeast(Pow2(k - 64), WORD);
    }
  }

  /** Masking the wrapped counter finds the cell of the unbounded ticket. */
  lemma CellOfWord(t: nat, n: nat, mask: nat)
    requires 2 <= n < WORD && IsPowerOfTwo(n) && mask == n - 1
    ensures BitAnd(Wrap(t), mask) == t % n && n <= HALF
  {
    var k, m := SizeDividesWord(n);
    MaskIsMod(Wrap(t), k);
    RemainderOfRemainder(t, m, n);
  }

  lemma RemainderOfRemainder(t: nat, m: nat, n: nat)
    requires m > 0 && n > 0 && m * n > 0
    ensures (t % (m * n)) % n == t % n
  {
    var a, w := t / (m * n), t % (m * n);
    var q, r := w / n, w % n;
    assert t == a * (m * n) + w && w == q * n + r;
    ProductsAddUp(a, m, n, q);
    RemainderIsUnique(t, n, a * m + q, r);
  }

  lemma ProductsAddUp(a: int, m: int, n: int, q: int)
    ensures (a * m + q) * n == a * (m * n) + q * n
  {
  }

  lemma SameCellNextLap(t: nat, n: nat)
    requires n > 0
    ensures (t + n) % n == t % n
  {
    RemainderIsUnique(t + n, n, t / n + 1, t % n);
  }

  /** Tickets of one lap use different cells. */
  lemma OtherCells(from: nat, t: nat, n: nat)
    requires n > 0 && from <= t < from + n
    ensures forall u | from <= u < from + n && u != t :: u % n != t % n
  {
    forall u | from <= u < from + n && u != t
      ensures u % n != t % n
    {
      OtherCell(u, t, u / n, u % n, t / n, t % n, n);
    }
  }

  lemma OtherCell(u: int, t: int, q: int, r: int, q': int, r': int, n: int)
    requires n > 0 && u == q * n + r && t == q' * n + r' && u != t && -n < u - t < n
    ensures r != r'
  {
    ProductOfDifference(q, q', n);
    MultipleIsAtLeast(q - q', n);
  }
}

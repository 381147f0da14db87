/** How often a growing buffer copies what it holds: the accounting behind
    `MemoryBuffer::grow`, as a value. */
module GrowthAccount {
  const INLINE_BUFFER_SIZE: nat := 500

  /** Half as much again, or what is needed if that is more. */
  function NextCapacity(capacity: nat, need: nat): nat {
    var grown := capacity + capacity / 2;
    if need > grown then need else grown
  }

  datatype Account = Account(size: nat, capacity: nat, copied: nat) {
    /** Make room for `need` elements; growing copies the present ones. */
    function Fit(need: nat): Account {
      if need > capacity then Account(size, NextCapacity(capacity, need), copied + size) else this
    }

    function Append(n: nat): Account {
      Fit(size + n).(size := size + n)
    }

    function Clear(): Account {
      this.(size := 0)
    }
  }

  datatype Op = Append(n: nat) | Clear

  function Fresh(): Account {
    Account(0, INLINE_BUFFER_SIZE, 0)
  }

  function Run(ops: seq<Op>): Account {
    if ops == [] then Fresh()
    else
      var before := Run(ops[..|ops| - 1]);
      match ops[|ops| - 1]
      case Append(n) => before.Append(n)
      case Clear => before.Clear()
  }

  function Appended(ops: seq<Op>): nat {
    if ops == [] then 0
    else
      Appended(ops[..|ops| - 1]) +
      match ops[|ops| - 1]
      case Append(n) => n
      case Clear => 0
  }

  /** Capacity stays within one and a half times what was ever appended, and pays
      for the copies made so far. */
  ghost predicate Paid(a: Account, total: nat) {
    && a.size <= a.capacity
    && a.size <= total
    && a.capacity >= INLINE_BUFFER_SIZE
    && (a.capacity == INLINE_BUFFER_SIZE || 2 * a.capacity <= 3 * total)
    && 100 * a.copied <= 201 * (a.capacity - INLINE_BUFFER_SIZE)
  }

  lemma AppendStaysPaid(a: Account, total: nat, n: nat)
    requires Paid(a, total)
    ensures Paid(a.Append(n), total + n)
  {
  }

  lemma {:induction false} RunStaysPaid(ops: seq<Op>)
    ensures Paid(Run(ops), Appended(ops))
  {
    if ops != [] {
      var front := ops[..|ops| - 1];
      RunStaysPaid(front);
      match ops[|ops| - 1] {
        case Append(n) =>
          AppendStaysPaid(Run(front), Appended(front), n);
        case Clear =>
      }
    }
  }

  /** Over every run on a fresh buffer, growing copies at most four elements (in
      fact little more than three) for each element appended. */
  lemma CopiesAreAmortised(ops: seq<Op>)
    ensures Run(ops).copied <= 4 * Appended(ops)
    ensures 1000 * Run(ops).copied <= 3015 * Appended(ops)
    ensures Run(ops).capacity == INLINE_BUFFER_SIZE || 2 * Run(ops).capacity <= 3 * Appended(ops)
  {
    RunStaysPaid(ops);
  }

  /** Nothing is copied while the inline storage suffices. */
  lemma {:induction false} InlineRunsCopyNothing(ops: seq<Op>)
    ensures Appended(ops) <= INLINE_BUFFER_SIZE ==> Run(ops).copied == 0
  {
    RunStaysPaid(ops);
    if ops != [] {
      InlineRunsCopyNothing(ops[..|ops| - 1]);
      RunStaysPaid(ops[..|ops| - 1]);
    }
  }
}

/** The formatter's output buffer: inline storage first, then storage that grows. */
module OutputBuffer {
  import opened GrowthAccount

  class MemoryBuffer<T(0)> {
    const data: array<T>
    var ptr: array<T>
    var size: nat
    var capacity: nat
    ghost var copied: nat

    ghost predicate Valid()
      reads this
    {
      && size <= capacity
      && capacity == ptr.Length
      && INLINE_BUFFER_SIZE == data.Length <= capacity
    }

    ghost function Contents(): (s: seq<T>)
      requires Valid()
      reads this, ptr
      ensures |s| == size
    {
      ptr[..size]
    }

    ghost function Account(): Account
      reads this
    {
      GrowthAccount.Account(size, capacity, copied)
    }

    constructor ()
      ensures Valid() && fresh(ptr)
      ensures Contents() == []
      ensures Account() == Fresh()
    {
      data := new T[INLINE_BUFFER_SIZE];
      ptr := data;
      size := 0;
      capacity := INLINE_BUFFER_SIZE;
      copied := 0;
    }

    method Grow(need: nat)
      requires Valid() && need > capacity
      modifies this
      ensures Valid() && fresh(ptr)
      ensures Contents() == old(Contents())
      ensures Account() == old(Account()).Fit(need)
    {
      var newCapacity := capacity + capacity / 2;
      if need > newCapacity {
        newCapacity := need;
      }
      var newPtr := new T[newCapacity];
      forall i | 0 <= i < size {
        newPtr[i] := ptr[i];
      }
      assert newPtr[..size] == ptr[..size];
      copied := copied + size;
      capacity := newCapacity;
      ptr := newPtr;
    }

    /** The elements a resize adds are whatever the storage happens to hold. */
    method Resize(newSize: nat)
      requires Valid()
      modifies this
      ensures Valid() && (if newSize <= old(capacity) then ptr == old(ptr) else fresh(ptr))
      ensures size == newSize
      ensures old(size) <= newSize ==>
              Contents()[..old(size)] == old(Contents()) &&
              Account() == old(Account()).Append(newSize - old(size))
      ensures newSize <= old(size) ==> Contents() == old(Contents())[..newSize]
    {
      if newSize > capacity {
        Grow(newSize);
      }
      size := newSize;
    }

    method Reserve(need: nat)
      requires Valid()
      modifies this
      ensures Valid() && (if need <= old(capacity) then ptr == old(ptr) else fresh(ptr))
      ensures Contents() == old(Contents()) && capacity >= need
      ensures Account() == old(Account()).Fit(need)
    {
      if need > capacity {
        Grow(need);
      }
    }

    method Clear()
      requires Valid()
      modifies this`size
      ensures Valid() && Contents() == []
      ensures Account() == old(Account()).Clear()
    {
      size := 0;
    }

    method PushBack(value: T)
      requires Valid()
      modifies this, ptr
      ensures Valid() && (ptr == old(ptr) || fresh(ptr))
      ensures Contents() == old(Contents()) + [value]
      ensures Account() == old(Account()).Append(1)
    {
      if size == capacity {
        Grow(size + 1);
      }
      ptr[size] := value;
      size := size + 1;
    }

    method Append(elements: seq<T>)
      requires Valid()
      modifies this, ptr
      ensures Valid() && (ptr == old(ptr) || fresh(ptr))
      ensures Contents() == old(Contents()) + elements
      ensures old(size) + |elements| <= old(capacity) ==>
              && ptr == old(ptr)
              && ptr[old(size) + |elements|..] == old(ptr[size + |elements|..])
      ensures Account() == old(Account()).Append(|elements|)
    {
      var newSize := size + |elements|;
      if newSize > capacity {
        Grow(newSize);
      }
      ghost var was := Contents();
      forall i | 0 <= i < |elements| {
        ptr[size + i] := elements[i];
      }
      assert ptr[..size] == was && ptr[size..newSize] == elements;
      assert ptr[..newSize] == ptr[..size] + ptr[size..newSize];
      size := newSize;
    }
  }
}

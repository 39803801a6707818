/** The fixed-capacity ring buffer behind every bounded history. */
module Ring {
  import opened Sequences

  lemma WrapOnce(x: nat, cap: nat)
    requires x < 2 * cap
    ensures x % cap == if x < cap then x else x - cap
  {
    if x >= cap { assert x == cap + (x - cap); }
  }

  class RingBuffer<T(0)> {
    const buf: array<T>
    var head: nat
    var size: nat
    ghost var pushed: seq<T>

    ghost predicate Valid()
      reads this, buf
    {
      && head < buf.Length
      && size == Min(buf.Length, |pushed|)
      && forall i | 0 <= i < size :: buf[Slot(i)] == pushed[|pushed| - size + i]
    }

    /** Where the i-th oldest retained element lives. */
    ghost function Slot(i: nat): nat
      requires i < size <= buf.Length && head < buf.Length
      reads this
    {
      if head + i < size then head - size + i + buf.Length else head - size + i
    }

    constructor (capacity: nat)
      requires capacity > 0
      ensures Valid() && pushed == [] && buf.Length == capacity && fresh(buf)
    {
      buf := new T[capacity];
      head, size, pushed := 0, 0, [];
    }

    method Push(v: T)
      requires Valid()
      modifies this, buf
      ensures Valid() && pushed == old(pushed) + [v]
    {
      buf[head] := v;
      WrapOnce(head + 1, buf.Length);
      head := (head + 1) % buf.Length;
      if size < buf.Length {
        size := size + 1;
      }
      pushed := pushed + [v];
      ghost var shift := if old(size) < buf.Length then 0 else 1;
      forall i | 0 <= i < size ensures buf[Slot(i)] == pushed[|pushed| - size + i] {
        if i + shift < old(size) {
          assert Slot(i) == old(Slot(i + shift)) != old(head);
        } else {
          assert Slot(i) == old(head);
        }
      }
    }

    /** Oldest to newest: exactly the last `capacity` elements ever pushed. */
    method Items() returns (out: seq<T>)
      requires Valid()
      ensures out == LastN(pushed, buf.Length)
    {
      out := [];
      WrapOnce(head - size + buf.Length, buf.Length);
      var start := (head - size + buf.Length) % buf.Length;
      for i := 0 to size
        invariant |out| == i
        invariant forall k | 0 <= k < i :: out[k] == pushed[|pushed| - size + k]
      {
        WrapOnce(start + i, buf.Length);
        assert (start + i) % buf.Length == Slot(i);
        out := out + [buf[(start + i) % buf.Length]];
      }
    }
  }
}

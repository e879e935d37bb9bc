/**
 The arithmetic of commitQueue.headTail: a 32-bit head and a 32-bit tail packed
 into one word, both indexing a ring whose size divides 2^32.
 */
module CommitQueue {

  /** record.SyncConcurrency */
  const SLOTS: nat := 4096

  /** 1 << dequeueBits */
  const WRAP: nat := 0x1_0000_0000

  function Pack(head: nat, tail: nat): nat
    requires head < WRAP && tail < WRAP
  {
    head * WRAP + tail
  }

  function Head(ptrs: nat): nat {
    (ptrs / WRAP) % WRAP
  }

  function Tail(ptrs: nat): nat {
    ptrs % WRAP
  }

  lemma UnpackPack(head: nat, tail: nat)
    requires head < WRAP && tail < WRAP
    ensures Head(Pack(head, tail)) == head && Tail(Pack(head, tail)) == tail
    ensures Pack(head, tail) < WRAP * WRAP
  {
  }

  /** The word for a queue into which `h` batches went and from which `t` came. */
  function Word(h: nat, t: nat): nat {
    Pack(h % WRAP, t % WRAP)
  }

  lemma UnpackWord(h: nat, t: nat)
    ensures Head(Word(h, t)) == h % WRAP && Tail(Word(h, t)) == t % WRAP
  {
    UnpackPack(h % WRAP, t % WRAP);
  }

  /** Adding 1 to the head leaves the tail alone, wrapping included. */
  lemma AddHead(h: nat, t: nat)
    ensures (Word(h, t) + WRAP) % (WRAP * WRAP) == Word(h + 1, t)
  {
    var a, b := h % WRAP, t % WRAP;
    if a + 1 == WRAP {
      assert (h + 1) % WRAP == 0;
      assert a * WRAP + b + WRAP == WRAP * WRAP + b;
    } else {
      assert (h + 1) % WRAP == a + 1;
    }
  }

  /** The compare-and-swap value: same head, next tail. */
  lemma AddTail(h: nat, t: nat)
    ensures Pack(Head(Word(h, t)), (Tail(Word(h, t)) + 1) % WRAP) == Word(h, t + 1)
  {
    UnpackWord(h, t);
  }

  /** An index taken modulo 2^32 selects the same slot. */
  lemma SlotOf(x: nat)
    ensures (x % WRAP) % SLOTS == x % SLOTS
  {
    var k := x / WRAP;
    assert x == SLOTS * (1048576 * k) + x % WRAP;
  }

  /** Indices less than a ring apart never share a slot. */
  lemma DistinctSlots(x: nat, y: nat)
    requires x < y < x + SLOTS
    ensures x % SLOTS != y % SLOTS
  {
  }

  /** The word identifies its counters, as long as fewer than 2^32 batches were
      enqueued since and the ring held no more than it can. */
  lemma WordIdentifies(h0: nat, t0: nat, h: nat, t: nat)
    requires t0 <= h0 <= t0 + SLOTS && h0 <= h < h0 + WRAP && t0 <= t <= h
    requires Word(h0, t0) == Word(h, t)
    ensures h == h0 && t == t0
  {
    UnpackWord(h0, t0);
    UnpackWord(h, t);
    SameResidue(h0, h);
    SameResidue(t0, t);
  }

  lemma SameResidue(x: nat, y: nat)
    requires x <= y && x % WRAP == y % WRAP
    ensures y < x + WRAP ==> x == y
  {
  }

  /** The full test of enqueue is exact while the ring holds at most SLOTS. */
  lemma FullTest(h: nat, t: nat)
    requires t <= h <= t + SLOTS
    ensures (Tail(Word(h, t)) + SLOTS) % WRAP == Head(Word(h, t)) <==> h == t + SLOTS
    ensures Tail(Word(h, t)) == Head(Word(h, t)) <==> h == t
  {
    UnpackWord(h, t);
    assert (t % WRAP + SLOTS) % WRAP == (t + SLOTS) % WRAP;
    if (t + SLOTS) % WRAP == h % WRAP {
      SameResidue(h, t + SLOTS);
    }
    if t % WRAP == h % WRAP {
      SameResidue(t, h);
    }
  }
}

/** The pipe of pipe.c: a ring of bytes with 32-bit counters, and the sleeping and waking of its
    readers and writers. */
module Pipe {
  import opened Machine

  const PIPESIZE: nat := 512

  // ---------------------------------------------------------------- what one turn stores or takes

  /** How far a writer at byte i gets before the ring is full. */
  function StoreTo(queue: seq<Byte>, addr: seq<Byte>, i: nat): (j: nat)
    requires i <= |addr| && |queue| <= PIPESIZE
    ensures i <= j <= |addr| && |queue| + (j - i) <= PIPESIZE
    ensures j < |addr| ==> |queue| + (j - i) == PIPESIZE
  {
    if |addr| - i <= PIPESIZE - |queue| then |addr| else i + PIPESIZE - |queue|
  }

  /** How many bytes a reader of n gets. */
  function TakeUpTo(queue: seq<Byte>, n: nat): (k: nat)
    ensures k <= n && k <= |queue| && (k < n ==> k == |queue|)
  {
    if n <= |queue| then n else |queue|
  }

  /** Two counters at most PIPESIZE apart tell empty and full, also after they wrap. */
  lemma CountersTell(r: nat, w: nat)
    requires r <= w <= r + PIPESIZE
    ensures r % TWO32 == w % TWO32 <==> r == w
    ensures w % TWO32 == (r % TWO32 + PIPESIZE) % TWO32 <==> w == r + PIPESIZE
  {
  }

  /** The slot of byte k is the same whether or not the counter has wrapped. */
  lemma SlotOf(k: nat)
    ensures k % TWO32 % PIPESIZE == k % PIPESIZE
  {
  }

  lemma NextCounter(k: nat)
    ensures (k + 1) % TWO32 == (k % TWO32 + 1) % TWO32
  {
  }

  lemma OtherSlot(j: nat, k: nat)
    requires j < k < j + PIPESIZE
    ensures j % PIPESIZE != k % PIPESIZE
  {
  }

  // ---------------------------------------------------------------- the ring

  /** sent and received are all bytes ever stored and taken. */
  class Ring {
    const data: array<Byte>
    var nread: nat
    var nwrite: nat
    ghost var sent: seq<Byte>
    ghost var received: seq<Byte>

    /** The counters are the numbers of bytes, modulo two to the 32. */
    ghost predicate Valid()
      reads this, data
    {
      && data.Length == PIPESIZE
      && |received| <= |sent| <= |received| + PIPESIZE
      && sent[..|received|] == received
      && nread == |received| % TWO32 && nwrite == |sent| % TWO32
      && forall k :: |received| <= k < |sent| ==> data[k % PIPESIZE] == sent[k]
    }

    ghost function Queue(): seq<Byte>
      requires |received| <= |sent|
      reads this
    {
      sent[|received|..]
    }

    constructor ()
      ensures Valid() && sent == received == [] && fresh(data)
    {
      data := new Byte[PIPESIZE](_ => 0);
      nread, nwrite, sent, received := 0, 0, [], [];
    }

    method Full() returns (b: bool)
      requires Valid()
      ensures b <==> |Queue()| == PIPESIZE
    {
      b := nwrite == (nread + PIPESIZE) % TWO32;
      CountersTell(|received|, |sent|);
    }

    method Empty() returns (b: bool)
      requires Valid()
      ensures b <==> Queue() == []
    {
      b := nread == nwrite;
      CountersTell(|received|, |sent|);
    }

    /** p->data[p->nwrite++ % PIPESIZE] = c */
    method PutByte(c: Byte)
      requires Valid() && |Queue()| < PIPESIZE
      modifies this`nwrite, this`sent, data
      ensures Valid() && sent == old(sent) + [c]
    {
      SlotOf(|sent|);
      NextCounter(|sent|);
      data[nwrite % PIPESIZE] := c;
      nwrite := (nwrite + 1) % TWO32;
      sent := sent + [c];
      forall k | |received| <= k < |sent| ensures data[k % PIPESIZE] == sent[k] {
        if k < |sent| - 1 { OtherSlot(k, |sent| - 1); }
      }
    }

    /** p->data[p->nread++ % PIPESIZE] */
    method GetByte() returns (c: Byte)
      requires Valid() && Queue() != []
      modifies this`nread, this`received
      ensures Valid() && received == old(received) + [c] && c == old(Queue())[0]
    {
      SlotOf(|received|);
      NextCounter(|received|);
      c := data[nread % PIPESIZE];
      nread := (nread + 1) % TWO32;
      received := received + [c];
      assert sent[..|received|] == received;
    }

    /** pipewrite from byte i on, until it is done or would have to sleep. */
    method Store(addr: seq<Byte>, i: nat) returns (j: nat)
      requires Valid() && i <= |addr|
      modifies this`nwrite, this`sent, data
      ensures Valid() && j == StoreTo(old(Queue()), addr, i)
      ensures Queue() == old(Queue()) + addr[i..j] && sent == old(sent) + addr[i..j]
    {
      j := i;
      while j < |addr|
        invariant Valid() && i <= j <= |addr| && received == old(received)
        invariant sent == old(sent) + addr[i..j]
      {
        var full := Full();
        if full { break; }
        PutByte(addr[j]);
        j := j + 1;
      }
    }

    /** The copying loop of piperead. */
    method Take(n: nat) returns (buf: seq<Byte>)
      requires Valid()
      modifies this`nread, this`received
      ensures Valid() && buf == old(Queue())[..TakeUpTo(old(Queue()), n)]
      ensures received == old(received) + buf && old(Queue()) == buf + Queue()
    {
      buf := [];
      var i := 0;
      while i < n
        invariant Valid() && i <= n && |buf| == i && sent == old(sent)
        invariant received == old(received) + buf
      {
        var empty := Empty();
        if empty { break; }
        var c := GetByte();
        buf := buf + [c];
        i := i + 1;
      }
    }
  }
}

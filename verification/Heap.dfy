/** The Kernighan and Ritchie allocator of umalloc.c: free, morecore and malloc. */
module Heap {
  import opened FreeList
  import opened Counting
  import opened Machine

  // ---------------------------------------------------------------- sizes in 32 bits

  /** Header units for nbytes of payload: unsigned arithmetic on 32 bits. */
  function Units(nbytes: nat): nat { (nbytes + 7) % TWO32 / 8 + 1 }

  /** What morecore asks for. */
  function Request(nu: nat): nat { if nu < 4096 then 4096 else nu }

  /** The argument of sbrk, a signed int. */
  function SbrkArgument(nu: nat): int {
    var bytes := Request(nu) * 8 % TWO32;
    if bytes < TWO32 / 2 then bytes else bytes - TWO32
  }

  /** A block holds its payload, and sbrk is asked for the whole of it, except at the very top of the
      range of uint. */
  lemma UnitsExact(nbytes: nat)
    requires nbytes < TWO32
    ensures (Units(nbytes) - 1) * 8 >= nbytes <==> nbytes <= TWO32 - 8
    ensures nbytes <= TWO32 - 8 ==> (Units(nbytes) - 2) * 8 < nbytes
    ensures SbrkArgument(Units(nbytes)) == Request(Units(nbytes)) * 8 <==> nbytes <= TWO32 / 2 - 16 || nbytes > TWO32 - 8
  {
    if nbytes <= TWO32 - 8 { assert (nbytes + 7) % TWO32 == nbytes + 7; }
    else { assert (nbytes + 7) % TWO32 == nbytes + 7 - TWO32; }
  }

  /** Instances: 2^32 - 1 bytes are given a header and no payload, and for 2^31 bytes sbrk is told to
      shrink the process. */
  lemma UnitsWrong()
    ensures Units(TWO32 - 1) == 1 && SbrkArgument(Units(TWO32 / 2)) < 0
  {
  }

  /** morecore asks sbrk for the memory it goes on to use. */
  predicate AsksRight(nu: nat) { SbrkArgument(nu) == Request(nu) * 8 }

  // ---------------------------------------------------------------- searching

  /** Position i comes up before position j when the search starts behind position f. */
  ghost predicate Earlier(n: nat, f: nat, i: nat, j: nat)
    requires f < n && i < n && j < n
  {
    i != f && (j == f || Distance(n, f, i) < Distance(n, f, j))
  }

  /** Positions that come up before j are too small. */
  ghost predicate SmallBefore(mem: Memory, list: seq<Addr>, f: nat, j: nat, n: nat) {
    && f < |list| && j < |list|
    && forall i: nat :: i < |list| && Earlier(|list|, f, i, j) ==> list[i] in mem && mem[list[i]].size < n
  }

  /** x is the tail of the first block behind freep that has n units. */
  ghost predicate FirstFit(h: Arena, freep: Addr, x: Addr, n: nat) {
    exists f: nat, j: nat ::
      SmallBefore(h.mem, h.list, f, j, n) && h.list[f] == freep && h.list[j] in h.sizes &&
      h.sizes[h.list[j]] >= n && x + n == h.list[j] + h.sizes[h.list[j]]
  }

  function After(n: nat, k: nat): nat
    requires k < n
  {
    if k + 1 < n then k + 1 else 0
  }

  lemma SearchUnique(h: Arena, f: nat, j: nat)
    requires Sound(h) && f < |h.list| && j < |h.list| && h.list[f] == h.list[j]
    ensures f == j
  {
  }

  lemma Chain(h: Arena, g: Arena, r: Arena, a: Addr, n: nat)
    requires LiveSame(g, r) && SameArena(g.sizes, r.sizes) && g.live <= r.live
    ensures LiveSame(h, g) && h.live == g.live ==> LiveSame(h, r)
    ensures Extended(h.sizes, g.sizes, a, n) ==> Extended(h.sizes, r.sizes, a, n)
  {
    hide Covers;
  }

  lemma SearchStart(h: Arena, f: nat, n: nat)
    requires Sound(h) && f < |h.list|
    ensures SmallBefore(h.mem, h.list, f, After(|h.list|, f), n)
    ensures h.list[f] in h.mem && h.mem[h.list[f]].ptr == h.list[After(|h.list|, f)] && h.mem[h.list[f]].ptr in h.mem
  {
  }

  /** One step of the search. */
  lemma SearchStep(h: Arena, f: nat, k: nat, n: nat)
    requires Sound(h) && SmallBefore(h.mem, h.list, f, k, n) && k != f && h.list[k] in h.mem
    requires h.mem[h.list[k]].size < n
    ensures SmallBefore(h.mem, h.list, f, After(|h.list|, k), n)
    ensures h.mem[h.list[k]].ptr == h.list[After(|h.list|, k)] && h.mem[h.list[k]].ptr in h.mem
    ensures Distance(|h.list|, f, After(|h.list|, k)) == if After(|h.list|, k) == f then 0 else Distance(|h.list|, f, k) + 1
  {
    forall i: nat | i < |h.list| && Earlier(|h.list|, f, i, After(|h.list|, k))
      ensures h.list[i] in h.mem && h.mem[h.list[i]].size < n
    {
      if i != k { assert Earlier(|h.list|, f, i, k); }
    }
  }

  /** Back at freep and still nothing: no free block is large enough. */
  lemma SearchFails(h: Arena, f: nat, n: nat)
    requires Sound(h) && SmallBefore(h.mem, h.list, f, f, n) && h.list[f] in h.mem && h.mem[h.list[f]].size < n
    ensures NoFit(h, n)
  {
    forall a: Addr | a in h.sizes && a !in h.live ensures h.sizes[a] < n {
      assert a in h.list;
      var i: nat :| i < |h.list| && h.list[i] == a;
      assert i != f ==> Earlier(|h.list|, f, i, f);
    }
  }

  /** Finding a block: it is not base, and what comes before it does not fit. */
  lemma SearchFinds(h: Arena, f: nat, j: nat, n: nat)
    requires Sound(h) && SmallBefore(h.mem, h.list, f, j, n) && n > 0 && h.list[j] in h.mem
    requires h.mem[h.list[j]].size >= n
    ensures j > 0 && h.list[j] in h.sizes && h.list[j] !in h.live && h.sizes[h.list[j]] == h.mem[h.list[j]].size
    ensures !NoFit(h, n)
    ensures FirstFit(h, h.list[f], h.list[j] + h.sizes[h.list[j]] - n, n)
  {
    if j > 0 { AtFree(h, j); }
  }

  class Allocator {
    /** 0 until the first malloc. */
    var freep: Addr
    var mem: Memory
    ghost var list: seq<Addr>
    ghost var sizes: map<Addr, nat>
    ghost var live: set<Addr>

    ghost function View(): Arena
      reads this
    {
      Arena(mem, list, sizes, live)
    }

    ghost predicate Valid()
      reads this
    {
      if freep == 0 then sizes == map[] && live == {} else Inv(View()) && freep in list
    }

    constructor ()
      ensures Valid() && freep == 0
    {
      freep, mem, list, sizes, live := 0, map[], [], map[], {};
    }

    /** The search loop of free. */
    method Walk(bp: Addr) returns (p: Addr, ghost t: nat)
      requires Valid() && bp in live
      ensures t < |list| && p == list[t] && p in mem && mem[p].ptr in mem
      ensures BASE <= p < bp && (t + 1 < |list| ==> bp < list[t + 1])
    {
      hide Tile, Headers, ListsFree, Links, Sorted, Apart;
      ghost var h := View();
      LiveBlock(h, bp);
      t := FindPlace(list, bp);
      ghost var k :| 0 <= k < |list| && list[k] == freep;
      p := freep;
      StopsAtPlace(h, t, k, bp);
      while !(bp > p && bp < mem[p].ptr)
        invariant 0 <= k < |list| && p == list[k]
        invariant p in mem && mem[p].ptr == Next(list, k)
        invariant (bp > p && bp < mem[p].ptr) || (p >= mem[p].ptr && (bp > p || bp < mem[p].ptr)) <==> k == t
        decreases Distance(|list|, k, t)
      {
        if p >= mem[p].ptr && (bp > p || bp < mem[p].ptr) { break; }
        p := mem[p].ptr;
        k := if k + 1 < |list| then k + 1 else 0;
        StopsAtPlace(h, t, k, bp);
      }
      StopsAtPlace(h, t, t, bp);
      StopsAtPlace(h, t, if t + 1 < |list| then t + 1 else 0, bp);
    }

    /** Gives live block ap back; neighbours that touch it are joined to it. */
    method Free(ap: Addr)
      requires Valid() && ap > 0 && ap - 1 in live
      modifies this
      ensures Valid() && freep != 0
      ensures live == old(live) - {ap - 1} && LiveSame(old(View()), View())
      ensures SameArena(old(sizes), sizes)
      ensures Holds(View(), ap - 1, old(mem)[ap - 1].size)
    {
      hide Sound, Apart, Release, SameArena, LiveSame, Holds;
      var bp := ap - 1;
      ghost var h := View();
      var p, t := Walk(bp);
      ReleaseMem(h, t, bp);
      ReleaseKeeps(h, t, bp);
      ReleaseHolds(h, t, bp);
      var q := mem[p].ptr;
      if bp + mem[bp].size == q {
        mem := mem[bp := Header(mem[q].ptr, mem[bp].size + mem[q].size)];
      } else {
        mem := mem[bp := mem[bp].(ptr := q)];
      }
      if p + mem[p].size == bp {
        mem := mem[p := Header(mem[bp].ptr, mem[p].size + mem[bp].size)];
      } else {
        mem := mem[p := mem[p].(ptr := bp)];
      }
      freep := p;
      ghost var r := Release(h, t, bp);
      list, sizes, live := r.list, r.sizes, r.live;
      assert View() == r;
      assert p == r.list[t] && p != 0;
    }

    /** Asks sbrk once; core is its answer, 0 when it has no memory. */
    method Morecore(nunits: nat, core: Addr) returns (q: Addr)
      requires Valid() && freep != 0
      requires core != 0 ==> Fresh(sizes, core, Request(nunits))
      modifies this
      ensures Valid() && freep != 0
      ensures core == 0 ==> q == 0 && View() == old(View()) && freep == old(freep)
      ensures core != 0 ==> q == freep && live == old(live) && LiveSame(old(View()), View()) && !NoFit(View(), nunits)
      ensures core != 0 ==> Extended(old(sizes), sizes, core, Request(nunits))
    {
      var nu := nunits;
      if nu < 4096 { nu := 4096; }
      if core == 0 { return 0; }
      ghost var h := View();
      GrowKeeps(h, core, nu);
      hide Sound, Apart, Fresh, SameArena, Extended, LiveSame, Holds, NoFit;
      mem := WriteSize(mem, core, nu);
      sizes, live := sizes[core := nu], live + {core};
      assert View() == Grow(h, core, nu);
      Free(core + 1);
      q := freep;
      GrownAndFreed(h, View(), core, nu, nunits);
    }

    /** Hands out the last nunits units of free block p, which follows prevp. */
    method Take(prevp: Addr, p: Addr, nunits: nat, ghost j: nat) returns (r: Addr)
      requires Valid() && freep != 0 && 0 < j < |list| && prevp == list[j - 1] && p == list[j]
      requires p in mem && p in sizes && mem[p].size == sizes[p] >= nunits > 0
      modifies this
      ensures Valid() && freep == prevp != 0
      ensures r > 0 && r - 1 !in old(live) && live == old(live) + {r - 1}
      ensures r - 1 in sizes && sizes[r - 1] == nunits && r - 1 + nunits == p + old(sizes)[p]
      ensures LiveSame(old(View()), View()) && SameArena(old(sizes), sizes)
    {
      hide Sound, Apart, Touch, SameArena;
      ghost var h := View();
      AtFreeSound(h, j);
      if mem[p].size == nunits {
        TakeAllKeeps(h, j);
        mem := mem[prevp := mem[prevp].(ptr := mem[p].ptr)];
        list, live := Remove(list, j), live + {p};
        assert View() == TakeAll(h, j);
        assert list[j - 1] == prevp;
        freep := prevp;
        SameRefl(sizes);
        return p + 1;
      }
      TakeTailKeeps(h, j, nunits);
      mem := mem[p := mem[p].(size := mem[p].size - nunits)];
      var c := p + mem[p].size;
      mem := WriteSize(mem, c, nunits);
      sizes, live := Split(sizes, p, nunits), live + {c};
      assert View() == TakeTail(h, j, nunits);
      freep := prevp;
      return c + 1;
    }

    /** What malloc promises, from state h: r is the address handed out, or 0. */
    ghost predicate Allocated(h: Arena, start: Addr, n: nat, core: Addr, r: Addr, asked: nat)
      reads this
    {
      && asked == (if NoFit(h, n) then 1 else 0)
      && (r == 0 <==> asked == 1 && core == 0)
      && (r == 0 ==> sizes == h.sizes && live == h.live)
      && (r != 0 ==> r - 1 !in h.live && live == h.live + {r - 1} && LiveSame(h, View()))
      && (r != 0 ==> r - 1 in sizes && sizes[r - 1] == n)
      && (asked == 0 ==> SameArena(h.sizes, sizes) && FirstFit(h, start, r - 1, n))
      && (asked == 1 && r != 0 ==> Extended(h.sizes, sizes, core, Request(n)))
    }

    /** The loop of malloc: at most one round fails, because the block from morecore is found in the next.
        When morecore is about to ask sbrk for another amount than it uses, stop says so. */
    method Search(nunits: nat, core: Addr) returns (r: Addr, asked: nat, stop: bool)
      requires Valid() && freep != 0 && nunits > 0
      requires core != 0 && AsksRight(nunits) ==> Fresh(sizes, core, Request(nunits))
      modifies this
      ensures Valid() && freep != 0
      ensures stop <==> NoFit(old(View()), nunits) && !AsksRight(nunits)
      ensures !stop ==> Allocated(old(View()), old(freep), nunits, core, r, asked)
      ensures r == 0 ==> View() == old(View())
    {
      hide Sound, Apart, SameArena, Extended, LiveSame, NoFit, FirstFit, SmallBefore, Fresh;
      ghost var h := View();
      asked, stop := 0, false;
      var prevp := freep;
      ghost var f: nat :| f < |list| && list[f] == freep;
      ghost var j: nat := After(|list|, f);
      SearchStart(h, f, nunits);
      var p := mem[prevp].ptr;
      while true
        invariant Valid() && freep != 0
        invariant f < |list| && list[f] == freep && j < |list| && list[j] == p && p in mem
        invariant j > 0 ==> prevp == list[j - 1]
        invariant SmallBefore(mem, list, f, j, nunits)
        invariant asked == 0 ==> View() == h && freep == old(freep)
        invariant asked == 1 ==> core != 0 && !NoFit(View(), nunits) && NoFit(h, nunits) && AsksRight(nunits)
        invariant asked == 1 ==> live == h.live && LiveSame(h, View()) && Extended(h.sizes, sizes, core, Request(nunits))
        invariant asked <= 1 && !stop
        decreases 1 - asked, if j == f then 0 else |list| - Distance(|list|, f, j)
      {
        if mem[p].size >= nunits {
          ghost var g := View();
          SearchFinds(g, f, j, nunits);
          r := Take(prevp, p, nunits, j);
          Chain(h, g, View(), core, Request(nunits));
          return;
        }
        if p == freep {
          SearchUnique(View(), f, j);
          SearchFails(View(), f, nunits);
          if !AsksRight(nunits) { return 0, asked, true; }
          asked := asked + 1;
          p := Morecore(nunits, core);
          if p == 0 { return 0, asked, false; }
          f :| 0 <= f < |list| && list[f] == freep;
          j := After(|list|, f);
          SearchStart(View(), f, nunits);
        } else {
          SearchStep(View(), f, j, nunits);
          j := After(|list|, j);
        }
        prevp := p;
        p := mem[p].ptr;
      }
    }

    /** core is what sbrk answers if it is asked; asked counts how often it is.  stop: no free block fits
        and the int argument of sbrk is not the memory needed, from where on nothing is promised. */
    method Malloc(nbytes: nat, core: Addr) returns (r: Addr, asked: nat, stop: bool)
      requires Valid() && nbytes < TWO32
      requires core != 0 && AsksRight(Units(nbytes)) ==> Fresh(sizes, core, Request(Units(nbytes)))
      modifies this
      ensures Valid() && freep != 0
      ensures stop <==> NoFit(old(View()), Units(nbytes)) && TWO32 / 2 - 16 < nbytes <= TWO32 - 8
      ensures !stop ==> Allocated(old(View()), old(freep), Units(nbytes), core, r, asked)
      ensures !stop && r != 0 ==> r - 1 in sizes && ((sizes[r - 1] - 1) * 8 >= nbytes <==> nbytes <= TWO32 - 8)
      ensures r == 0 && old(freep) != 0 ==> View() == old(View())
    {
      var nunits := Units(nbytes);
      ghost var h := View();
      if freep == 0 {
        mem := mem[BASE := Header(BASE, 0)];
        list := [BASE];
        freep := BASE;
        assert Inv(View()) && NoFit(View(), nunits);
      }
      ghost var g := View();
      r, asked, stop := Search(nunits, core);
      assert g.live == h.live && g.sizes == h.sizes;
      UnitsExact(nbytes);
    }
  }

  lemma Undone(h: Arena, g: Arena, r: Arena)
    requires SameArena(h.sizes, g.sizes) && LiveSame(h, g) && h.live <= g.live
    requires SameArena(g.sizes, r.sizes) && LiveSame(g, r) && r.live == h.live
    ensures SameUse(h, r)
  {
    hide Covers;
  }

  lemma ExtendedSame(h: map<Addr, nat>, g: map<Addr, nat>, r: map<Addr, nat>, a: Addr, n: nat)
    requires Extended(h, g, a, n) && SameArena(g, r)
    ensures Extended(h, r, a, n)
  {
    hide Covers;
  }

  /** Freeing what malloc handed out restores blocks and free list; when sbrk was asked, the arena has
      grown by its memory, all of it free. */
  method MallocThenFree(heap: Allocator, nbytes: nat, core: Addr) returns (r: Addr, asked: nat, stop: bool)
    requires heap.Valid() && nbytes < TWO32 && heap.freep != 0
    requires core != 0 && AsksRight(Units(nbytes)) ==> Fresh(heap.sizes, core, Request(Units(nbytes)))
    modifies heap
    ensures heap.Valid() && (!stop ==> heap.live == old(heap.live))
    ensures r == 0 ==> heap.View() == old(heap.View())
    ensures !stop && asked == 0 ==> heap.sizes == old(heap.sizes) && heap.list == old(heap.list)
    ensures !stop && asked == 1 && r != 0 ==>
      Extended(old(heap.sizes), heap.sizes, core, Request(Units(nbytes))) && LiveSame(old(heap.View()), heap.View())
  {
    hide Sound, Apart, SameArena, Extended, NoFit;
    ghost var h := heap.View();
    r, asked, stop := heap.Malloc(nbytes, core);
    ghost var g := heap.View();
    if r != 0 && !stop {
      heap.Free(r);
      if asked == 0 {
        Undone(h, g, heap.View());
        Canonical(h, heap.View());
      } else {
        ExtendedSame(h.sizes, g.sizes, heap.sizes, core, Request(Units(nbytes)));
      }
    }
  }
}

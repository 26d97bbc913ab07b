/** The free list of umalloc.c on values: blocks in memory, their links, and what freeing, splitting
    and joining do to them.  Addresses and sizes count Header units. */
module FreeList {
  import opened Counting

  type Addr = nat

  /** union header: the link and the size in units. */
  datatype Header = Header(ptr: Addr, size: nat)

  type Memory = map<Addr, Header>

  /** Address of the static header base; it lies below all memory from sbrk. */
  const BASE: Addr := 1

  // ---------------------------------------------------------------- tiling the arena

  /** Blocks by start and size: none is empty, none reaches back to base and no two overlap. */
  ghost predicate Tile(sizes: map<Addr, nat>) {
    && (forall a: Addr :: a in sizes ==> a > BASE && sizes[a] > 0)
    && (forall a: Addr, b: Addr :: a in sizes && b in sizes && a < b ==> a + sizes[a] <= b)
  }

  /** Unit u lies in some block. */
  ghost predicate Covers(sizes: map<Addr, nat>, u: Addr) {
    exists a: Addr :: a in sizes && a <= u < a + sizes[a]
  }

  /** The same units are tiled, however they are cut into blocks. */
  ghost predicate SameArena(before: map<Addr, nat>, after: map<Addr, nat>) {
    forall u: Addr :: Covers(before, u) <==> Covers(after, u)
  }

  function Merged(sizes: map<Addr, nat>, a: Addr, b: Addr): map<Addr, nat>
    requires a in sizes && b in sizes
  {
    (sizes - {b})[a := sizes[a] + sizes[b]]
  }

  lemma TileMerge(sizes: map<Addr, nat>, a: Addr, b: Addr)
    requires Tile(sizes) && a in sizes && b in sizes && a + sizes[a] == b
    ensures Tile(Merged(sizes, a, b)) && SameArena(sizes, Merged(sizes, a, b))
  {
    var s := Merged(sizes, a, b);
    forall u: Addr ensures Covers(sizes, u) <==> Covers(s, u) {
      if Covers(sizes, u) {
        var x: Addr :| x in sizes && x <= u < x + sizes[x];
        assert x != b ==> x in s;
        assert x == b ==> a in s && a <= u < a + s[a];
      }
      if Covers(s, u) {
        var x: Addr :| x in s && x <= u < x + s[x];
        assert x in sizes;
      }
    }
  }

  /** Block a gives its last n units to a new block. */
  function Split(sizes: map<Addr, nat>, a: Addr, n: nat): map<Addr, nat>
    requires a in sizes && n < sizes[a]
  {
    sizes[a := sizes[a] - n][a + sizes[a] - n := n]
  }

  lemma TileSplit(sizes: map<Addr, nat>, a: Addr, n: nat)
    requires Tile(sizes) && a in sizes && 0 < n < sizes[a]
    ensures a + sizes[a] - n !in sizes
    ensures Tile(Split(sizes, a, n)) && SameArena(sizes, Split(sizes, a, n))
  {
    var c, s := a + sizes[a] - n, Split(sizes, a, n);
    hide SameArena;
    assert Tile(s);
    SplitCovers(sizes, a, n);
  }

  lemma SplitCovers(sizes: map<Addr, nat>, a: Addr, n: nat)
    requires a in sizes && 0 < n < sizes[a] && a + sizes[a] - n !in sizes
    ensures SameArena(sizes, Split(sizes, a, n))
  {
    var c, s := a + sizes[a] - n, Split(sizes, a, n);
    forall u: Addr ensures Covers(sizes, u) <==> Covers(s, u) {
      if Covers(sizes, u) {
        var x: Addr :| x in sizes && x <= u < x + sizes[x];
        assert x in s && c in s;
      }
      if Covers(s, u) {
        var x: Addr :| x in s && x <= u < x + s[x];
        assert x == c || x in sizes;
      }
    }
  }

  // ---------------------------------------------------------------- the circular list

  /** The successor of position i, wrapping to the front. */
  function Next(list: seq<Addr>, i: nat): Addr
    requires i < |list|
  {
    if i + 1 < |list| then list[i + 1] else list[0]
  }

  ghost predicate Sorted(list: seq<Addr>) {
    forall i, j :: 0 <= i < j < |list| ==> list[i] < list[j]
  }

  ghost predicate Links(mem: Memory, list: seq<Addr>) {
    forall i :: 0 <= i < |list| ==> list[i] in mem && mem[list[i]].ptr == Next(list, i)
  }

  function Put(list: seq<Addr>, t: nat, x: Addr): (r: seq<Addr>)
    requires t < |list|
    ensures |r| == |list| + 1
    ensures forall i :: 0 <= i < |r| ==> r[i] == if i <= t then list[i] else if i == t + 1 then x else list[i - 1]
  {
    list[..t + 1] + [x] + list[t + 1..]
  }

  lemma PutSorted(list: seq<Addr>, t: nat, x: Addr)
    requires Sorted(list) && t < |list| && list[t] < x && (t + 1 < |list| ==> x < list[t + 1])
    ensures Sorted(Put(list, t, x)) && x !in list
    ensures forall y: Addr :: y in Put(list, t, x) <==> y in list || y == x
  {
    forall i | 0 <= i < |list| ensures i <= t ==> list[i] <= list[t]
    ensures i > t ==> list[t + 1] <= list[i] { }
    assert list == list[..t + 1] + list[t + 1..];
  }

  lemma DropSorted(list: seq<Addr>, t: nat)
    requires Sorted(list) && t < |list|
    ensures Sorted(Remove(list, t))
    ensures forall x: Addr :: x in Remove(list, t) <==> x in list && x != list[t]
  {
    forall x: Addr ensures x in Remove(list, t) <==> x in list && x != list[t] {
      if x in list && x != list[t] {
        var k :| 0 <= k < |list| && list[k] == x;
        assert Remove(list, t)[if k < t then k else k - 1] == x;
      }
    }
  }

  /** The pointer writes that link x behind list[t]. */
  lemma PutLinks(mem: Memory, list: seq<Addr>, t: nat, x: Addr, size: nat)
    requires Sorted(list) && Links(mem, list) && t < |list| && x !in list
    ensures Links(mem[x := Header(mem[list[t]].ptr, size)][list[t] := mem[list[t]].(ptr := x)], Put(list, t, x))
  {
    var p := list[t];
    var m := mem[x := Header(mem[p].ptr, size)][p := mem[p].(ptr := x)];
    var r := Put(list, t, x);
    assert mem[p].ptr == Next(list, t);
    forall i | 0 <= i < |r| ensures r[i] in m && m[r[i]].ptr == Next(r, i) {
      if i == t || i == t + 1 {
      } else {
        var k := if i < t then i else i - 1;
        assert list[k] != p;
        assert mem[list[k]].ptr == Next(list, k);
      }
    }
  }

  /** The pointer write that unlinks list[i + 1]. */
  lemma DropLinks(mem: Memory, list: seq<Addr>, i: nat, size: nat)
    requires Sorted(list) && Links(mem, list) && i + 1 < |list|
    ensures Links(mem[list[i] := Header(mem[list[i + 1]].ptr, size)], Remove(list, i + 1))
  {
    var m := mem[list[i] := Header(mem[list[i + 1]].ptr, size)];
    var r := Remove(list, i + 1);
    assert mem[list[i + 1]].ptr == Next(list, i + 1);
    forall k | 0 <= k < |r| ensures r[k] in m && m[r[k]].ptr == Next(r, k) {
      var l := if k <= i then k else k + 1;
      assert mem[list[l]].ptr == Next(list, l);
      if k != i { assert list[l] != list[i]; }
    }
  }

  // ---------------------------------------------------------------- the allocator's state

  /** mem are the headers in memory, list the free list from base on, sizes the blocks of the arena
      and live those handed out. */
  datatype Arena = Arena(mem: Memory, list: seq<Addr>, sizes: map<Addr, nat>, live: set<Addr>)

  /** One circular list, in address order with the one wrap-around back to base. */
  ghost predicate Linked(h: Arena) {
    && |h.list| > 0 && h.list[0] == BASE && Sorted(h.list) && Links(h.mem, h.list) && h.mem[BASE].size == 0
  }

  ghost predicate Headers(mem: Memory, sizes: map<Addr, nat>) {
    forall a: Addr :: a in sizes ==> a in mem && mem[a].size == sizes[a]
  }

  /** The list holds base and the blocks that are not live. */
  ghost predicate ListsFree(h: Arena) {
    && h.live <= h.sizes.Keys
    && forall a: Addr :: a in h.list <==> a == BASE || (a in h.sizes && a !in h.live)
  }

  /** Free block i ends where the next one starts. */
  predicate Touch(h: Arena, i: nat) {
    0 < i && i + 1 < |h.list| && h.list[i] in h.sizes && h.list[i] + h.sizes[h.list[i]] == h.list[i + 1]
  }

  ghost predicate Apart(h: Arena) {
    forall i: nat :: !Touch(h, i)
  }

  ghost predicate Sound(h: Arena) {
    Linked(h) && Headers(h.mem, h.sizes) && ListsFree(h) && Tile(h.sizes)
  }

  /** One circular list in address order that wraps once, free blocks that never touch, and an arena
      tiled by free and live blocks. */
  ghost predicate Inv(h: Arena) { Sound(h) && Apart(h) }

  /** A block live in both has the same size in both. */
  ghost predicate LiveSame(h: Arena, r: Arena) {
    forall a: Addr :: a in h.live && a in r.live && a in h.sizes ==> a in r.sizes && r.sizes[a] == h.sizes[a]
  }

  /** Live block x joins the free list behind list[t]. */
  function Insert(h: Arena, t: nat, x: Addr): Arena
    requires t < |h.list| && h.list[t] in h.mem && x in h.mem
  {
    var p := h.list[t];
    h.(mem := h.mem[x := Header(h.mem[p].ptr, h.mem[x].size)][p := h.mem[p].(ptr := x)],
       list := Put(h.list, t, x), live := h.live - {x})
  }

  lemma InList(h: Arena, t: nat)
    requires Linked(h) && ListsFree(h) && t < |h.list|
    ensures h.list[t] in h.mem && (h.list[t] == BASE || (h.list[t] in h.sizes && h.list[t] !in h.live))
  {
    assert h.list[t] in h.list;
  }

  lemma InsertKeeps(h: Arena, t: nat, x: Addr)
    requires Sound(h) && x in h.live && t < |h.list|
    requires h.list[t] < x && (t + 1 < |h.list| ==> x < h.list[t + 1])
    ensures h.list[t] in h.mem && x in h.mem && Sound(Insert(h, t, x))
  {
    hide Links, Sorted, Tile;
    assert h.list[t] in h.mem by { InList(h, t); }
    PutSorted(h.list, t, x);
    PutLinks(h.mem, h.list, t, x, h.mem[x].size);
    var r := Insert(h, t, x);
    assert r.list == Put(h.list, t, x) && r.list[0] == BASE;
    assert h.list[t] == BASE || h.list[t] in h.sizes by { InList(h, t); }
    assert Linked(r) && Headers(r.mem, r.sizes);
    hide Linked, Headers;
  }

  /** list[i + 1], which starts where list[i] ends, is absorbed into list[i]. */
  function Merge(h: Arena, i: nat): Arena
    requires i + 1 < |h.list| && h.list[i] in h.mem && h.list[i + 1] in h.mem
    requires h.list[i] in h.sizes && h.list[i + 1] in h.sizes
  {
    var a, b := h.list[i], h.list[i + 1];
    Arena(h.mem[a := Header(h.mem[b].ptr, h.mem[a].size + h.mem[b].size)], Remove(h.list, i + 1),
          Merged(h.sizes, a, b), h.live)
  }

  lemma MergeFree(h: Arena, i: nat)
    requires ListsFree(h) && Linked(h) && 0 < i && i + 1 < |h.list|
    ensures BASE < h.list[i] < h.list[i + 1]
    ensures h.list[i] in h.mem && h.list[i + 1] in h.mem && h.list[i] in h.sizes && h.list[i + 1] in h.sizes
    ensures ListsFree(Merge(h, i))
  {
    var a, b := h.list[i], h.list[i + 1];
    assert a in h.list && b in h.list && h.list[0] < a < b;
    DropSorted(h.list, i + 1);
    hide Links, Sorted, Remove;
  }

  lemma MergeKeeps(h: Arena, i: nat)
    requires Sound(h) && 0 < i && i + 1 < |h.list|
    requires h.list[i] in h.sizes && h.list[i] + h.sizes[h.list[i]] == h.list[i + 1]
    ensures h.list[i + 1] in h.sizes && h.list[i] in h.mem && h.list[i + 1] in h.mem
    ensures Sound(Merge(h, i)) && SameArena(h.sizes, Merge(h, i).sizes) && LiveSame(h, Merge(h, i))
  {
    hide Links, Sorted, Tile, SameArena, ListsFree;
    MergeFree(h, i);
    var a, b := h.list[i], h.list[i + 1];
    TileMerge(h.sizes, a, b);
    DropSorted(h.list, i + 1);
    DropLinks(h.mem, h.list, i, h.mem[a].size + h.mem[b].size);
    var r := Merge(h, i);
    assert r.list == Remove(h.list, i + 1) && r.list[0] == BASE;
    assert Linked(r);
    assert Headers(r.mem, r.sizes);
    assert a !in h.live && b !in h.live by { InList(h, i); InList(h, i + 1); }
  }

  lemma InsertTouch(h: Arena, t: nat, x: Addr, i: nat)
    requires t < |h.list| && h.list[t] in h.mem && x in h.mem && Apart(h) && i != t && i != t + 1
    ensures !Touch(Insert(h, t, x), i)
  {
    assert !Touch(h, if i < t then i else i - 1);
  }

  lemma MergeTouch(h: Arena, i: nat, j: nat)
    requires Sound(h) && 0 < i && i + 1 < |h.list|
    requires h.list[i] in h.sizes && h.list[i] + h.sizes[h.list[i]] == h.list[i + 1]
    ensures h.list[i + 1] in h.sizes && h.list[i] in h.mem && h.list[i + 1] in h.mem
    ensures Touch(Merge(h, i), j) == Touch(h, if j < i then j else j + 1)
  {
    hide Links, Tile, ListsFree, Headers;
    MergeFree(h, i);
    var k := if j < i then j else j + 1;
    if k < |h.list| {
      assert k < i ==> h.list[k] < h.list[i];
      assert k > i + 1 ==> h.list[k] > h.list[i + 1];
    }
    hide Sorted;
  }

  /** What free does to the blocks when bp lies between list[t] and its successor. */
  function Release(h: Arena, t: nat, x: Addr): Arena
    requires t < |h.list| && h.list[t] in h.mem && x in h.mem
  {
    var upper := ReleaseUpper(h, t, x);
    if Mergeable(upper, t) then Merge(upper, t) else upper
  }

  /** Its first half: bp is linked in and takes over an upper neighbour that it touches. */
  function ReleaseUpper(h: Arena, t: nat, x: Addr): Arena
    requires t < |h.list| && h.list[t] in h.mem && x in h.mem
  {
    var inserted := Insert(h, t, x);
    if Mergeable(inserted, t + 1) then Merge(inserted, t + 1) else inserted
  }

  predicate Mergeable(h: Arena, i: nat) {
    Touch(h, i) && h.list[i + 1] in h.sizes && h.list[i] in h.mem && h.list[i + 1] in h.mem
  }

  lemma ReleaseKeeps(h: Arena, t: nat, x: Addr)
    requires Inv(h) && x in h.live && t < |h.list|
    requires h.list[t] < x && (t + 1 < |h.list| ==> x < h.list[t + 1])
    ensures h.list[t] in h.mem && x in h.mem
    ensures Inv(Release(h, t, x)) && SameArena(h.sizes, Release(h, t, x).sizes)
    ensures LiveSame(h, Release(h, t, x)) && Release(h, t, x).live == h.live - {x}
  {
    hide Links, Sorted, Tile, ListsFree, Headers, Covers;
    InsertKeeps(h, t, x);
    var inserted := Insert(h, t, x);
    forall i: nat | i != t && i != t + 1 ensures !Touch(inserted, i) { InsertTouch(h, t, x, i); }
    var upper := ReleaseUpper(h, t, x);
    if Touch(inserted, t + 1) {
      MergeKeeps(inserted, t + 1);
      forall j: nat | j != t ensures !Touch(upper, j) { MergeTouch(inserted, t + 1, j); }
    }
    assert forall j: nat :: j != t ==> !Touch(upper, j);
    if Touch(upper, t) {
      MergeKeeps(upper, t);
      forall j: nat ensures !Touch(Release(h, t, x), j) { MergeTouch(upper, t, j); }
    }
  }

  /** Free block list[i], an exact fit, is unlinked and handed out. */
  function TakeAll(h: Arena, i: nat): Arena
    requires 0 < i < |h.list| && h.list[i - 1] in h.mem && h.list[i] in h.mem
  {
    var p, q := h.list[i - 1], h.list[i];
    h.(mem := h.mem[p := h.mem[p].(ptr := h.mem[q].ptr)], list := Remove(h.list, i), live := h.live + {q})
  }

  /** Free block list[i] gives up its last n units. */
  function TakeTail(h: Arena, i: nat, n: nat): Arena
    requires i < |h.list| && h.list[i] in h.mem && h.list[i] in h.sizes
    requires h.mem[h.list[i]].size == h.sizes[h.list[i]] > n
  {
    var a := h.list[i];
    var c := a + h.sizes[a] - n;
    h.(mem := WriteSize(h.mem[a := h.mem[a].(size := h.mem[a].size - n)], c, n),
       sizes := Split(h.sizes, a, n), live := h.live + {c})
  }

  /** Stores only the size field of a header; the link keeps whatever was there. */
  function WriteSize(mem: Memory, a: Addr, n: nat): Memory {
    mem[a := Header(if a in mem then mem[a].ptr else 0, n)]
  }

  /** Where list[i] stands among the blocks. */
  lemma AtFree(h: Arena, i: nat)
    requires Linked(h) && ListsFree(h) && 0 < i < |h.list|
    ensures h.list[i - 1] in h.mem && h.list[i] in h.mem && BASE <= h.list[i - 1] < h.list[i]
    ensures h.list[i] in h.sizes && h.list[i] !in h.live
    ensures h.list[i - 1] == BASE || (h.list[i - 1] in h.sizes && h.list[i - 1] !in h.live)
  {
    assert h.list[0] < h.list[i] && h.list[i] in h.list && h.list[i - 1] in h.list;
  }

  lemma AtFreeSound(h: Arena, i: nat)
    requires Sound(h) && 0 < i < |h.list|
    ensures h.list[i - 1] in h.mem && h.list[i] in h.mem && BASE <= h.list[i - 1] < h.list[i]
    ensures h.list[i] in h.sizes && h.list[i] !in h.live && h.live <= h.sizes.Keys
  {
    AtFree(h, i);
  }

  lemma SameRefl(sizes: map<Addr, nat>)
    ensures SameArena(sizes, sizes)
  {
  }

  lemma TakeAllKeeps(h: Arena, i: nat)
    requires Inv(h) && 0 < i < |h.list|
    ensures h.list[i - 1] in h.mem && h.list[i] in h.mem
    ensures Inv(TakeAll(h, i))
  {
    hide Links, Tile, Sorted, Touch;
    AtFree(h, i);
    var r := TakeAll(h, i);
    DropLinks(h.mem, h.list, i - 1, h.mem[h.list[i - 1]].size);
    DropSorted(h.list, i);
    forall j: nat ensures !Touch(r, j) { TakeAllTouch(h, i, j); }
    assert r.list == Remove(h.list, i) && r.list[0] == BASE;
    assert Linked(r) && Headers(r.mem, r.sizes);
    hide Linked, Headers;
  }

  lemma TakeAllTouch(h: Arena, i: nat, j: nat)
    requires Inv(h) && 0 < i < |h.list| && h.list[i - 1] in h.mem && h.list[i] in h.mem
    ensures !Touch(TakeAll(h, i), j)
  {
    hide Links, Headers;
    AtFree(h, i);
    assert !Touch(h, if j < i then j else j + 1);
    if j + 1 == i && i + 1 < |h.list| {
      assert h.list[j] < h.list[i] < h.list[i + 1];
    }
    hide Sorted, ListsFree;
  }

  lemma TakeTailKeeps(h: Arena, i: nat, n: nat)
    requires Inv(h) && 0 < i < |h.list| && h.list[i] in h.sizes && h.list[i] in h.mem
    requires 0 < n < h.sizes[h.list[i]] == h.mem[h.list[i]].size
    ensures Inv(TakeTail(h, i, n)) && SameArena(h.sizes, TakeTail(h, i, n).sizes)
    ensures h.list[i] + h.sizes[h.list[i]] - n !in h.sizes
  {
    hide Links, Tile, SameArena, Sorted, Touch;
    AtFree(h, i);
    TileSplit(h.sizes, h.list[i], n);
    var r := TakeTail(h, i, n);
    assert r.list == h.list;
    TailLinks(h, i, n);
    forall j: nat ensures !Touch(r, j) { TakeTailTouch(h, i, n, j); }
  }

  lemma TailLinks(h: Arena, i: nat, n: nat)
    requires Sound(h) && 0 < i < |h.list| && h.list[i] in h.sizes && h.list[i] in h.mem
    requires 0 < n < h.sizes[h.list[i]] == h.mem[h.list[i]].size
    ensures Linked(TakeTail(h, i, n))
  {
    hide Tile, Sorted, ListsFree, Headers, Split;
    TailOutside(h, i, n);
    var c := h.list[i] + h.sizes[h.list[i]] - n;
    var r := TakeTail(h, i, n);
    forall k | 0 <= k < |h.list| ensures h.list[k] in r.mem && r.mem[h.list[k]].ptr == Next(h.list, k) {
      assert h.list[k] != c;
    }
  }

  /** The tail is not on the list. */
  lemma TailOutside(h: Arena, i: nat, n: nat)
    requires Sound(h) && 0 < i < |h.list| && h.list[i] in h.sizes && 0 < n < h.sizes[h.list[i]]
    ensures h.list[i] + h.sizes[h.list[i]] - n !in h.list
  {
    hide Links, Sorted, Headers, Split, SameArena;
    AtFree(h, i);
    TileSplit(h.sizes, h.list[i], n);
  }

  lemma TakeTailTouch(h: Arena, i: nat, n: nat, j: nat)
    requires Inv(h) && 0 < i < |h.list| && h.list[i] in h.sizes && h.list[i] in h.mem
    requires 0 < n < h.sizes[h.list[i]] == h.mem[h.list[i]].size
    ensures !Touch(TakeTail(h, i, n), j)
  {
    hide Links, Headers;
    assert !Touch(h, j);
    TileSplit(h.sizes, h.list[i], n);
    var c := h.list[i] + h.sizes[h.list[i]] - n;
    AtFree(h, i);
    assert c !in h.list;
    if j + 1 < |h.list| { assert h.list[j] != c && h.list[j + 1] != c; }
    hide Sorted, ListsFree, Tile;
  }

  /** Units a to a + n belong to no block. */
  ghost predicate Fresh(sizes: map<Addr, nat>, a: Addr, n: nat) {
    a > BASE && n > 0 && forall u: Addr :: a <= u < a + n ==> !Covers(sizes, u)
  }

  /** The arena has gained exactly the units a to a + n. */
  ghost predicate Extended(before: map<Addr, nat>, after: map<Addr, nat>, a: Addr, n: nat) {
    forall u: Addr :: Covers(after, u) <==> Covers(before, u) || a <= u < a + n
  }

  /** Fresh memory as one more live block. */
  function Grow(h: Arena, a: Addr, n: nat): Arena {
    h.(mem := WriteSize(h.mem, a, n), sizes := h.sizes[a := n], live := h.live + {a})
  }

  lemma TileGrow(sizes: map<Addr, nat>, a: Addr, n: nat)
    requires Tile(sizes) && Fresh(sizes, a, n)
    ensures a !in sizes && Tile(sizes[a := n]) && Extended(sizes, sizes[a := n], a, n)
  {
    var s := sizes[a := n];
    assert !Covers(sizes, a);
    forall b: Addr | b in sizes ensures if b < a then b + sizes[b] <= a else a + n <= b {
      assert b >= a ==> Covers(sizes, b);
    }
    forall u: Addr ensures Covers(s, u) <==> Covers(sizes, u) || a <= u < a + n {
      if Covers(sizes, u) {
        var x: Addr :| x in sizes && x <= u < x + sizes[x];
        assert x in s;
      }
      if a <= u < a + n { assert a in s; }
    }
  }

  lemma GrowLinks(h: Arena, a: Addr, n: nat)
    requires Linked(h) && a !in h.list
    ensures Linked(Grow(h, a, n))
  {
    hide Sorted;
    var r := Grow(h, a, n);
    forall k | 0 <= k < |h.list| ensures h.list[k] in r.mem && r.mem[h.list[k]].ptr == Next(h.list, k) {
      assert h.list[k] != a;
    }
  }

  lemma GrowTouch(h: Arena, a: Addr, n: nat, i: nat)
    requires Apart(h) && a !in h.list
    ensures !Touch(Grow(h, a, n), i)
  {
    assert !Touch(h, i);
    if i < |h.list| { assert h.list[i] != a; }
  }

  lemma GrowKeeps(h: Arena, a: Addr, n: nat)
    requires Inv(h) && Fresh(h.sizes, a, n)
    ensures Inv(Grow(h, a, n)) && LiveSame(h, Grow(h, a, n)) && a !in h.live
    ensures Extended(h.sizes, Grow(h, a, n).sizes, a, n)
  {
    hide Tile, Sorted, Extended, Touch, Links, Linked;
    TileGrow(h.sizes, a, n);
    assert a !in h.list;
    hide Fresh;
    var r := Grow(h, a, n);
    GrowLinks(h, a, n);
    forall i: nat ensures !Touch(r, i) { GrowTouch(h, a, n, i); }
  }

  /** No free block has n units. */
  ghost predicate NoFit(h: Arena, n: nat) {
    forall a: Addr :: a in h.sizes && a !in h.live ==> h.sizes[a] < n
  }

  lemma GrownAndFreed(h: Arena, r: Arena, a: Addr, n: nat, nunits: nat)
    requires Extended(h.sizes, Grow(h, a, n).sizes, a, n) && SameArena(Grow(h, a, n).sizes, r.sizes)
    requires LiveSame(h, Grow(h, a, n)) && LiveSame(Grow(h, a, n), r) && r.live == h.live && a !in h.live
    requires Holds(r, a, n) && n >= nunits
    ensures Extended(h.sizes, r.sizes, a, n) && LiveSame(h, r) && !NoFit(r, nunits)
  {
    hide Covers;
  }

  // ---------------------------------------------------------------- walking the list

  lemma {:induction false} FindPlace(list: seq<Addr>, x: Addr) returns (t: nat)
    requires Sorted(list) && |list| > 0 && list[0] < x && x !in list
    ensures t < |list| && list[t] < x && (t + 1 < |list| ==> x < list[t + 1])
  {
    t := |list| - 1;
    while list[t] >= x
      invariant t < |list| && (t + 1 < |list| ==> x < list[t + 1])
    {
      t := t - 1;
    }
  }

  /** The loop of free stops at its test or its break exactly at the block below x. */
  lemma StopsAtPlace(h: Arena, t: nat, k: nat, x: Addr)
    requires Linked(h) && t < |h.list| && k < |h.list| && BASE < x && x !in h.list
    requires h.list[t] < x && (t + 1 < |h.list| ==> x < h.list[t + 1])
    ensures h.list[k] in h.mem && h.mem[h.list[k]].ptr == Next(h.list, k) && h.list[k] >= BASE
    ensures var p, q := h.list[k], Next(h.list, k);
            (p < x < q || (p >= q && (x > p || x < q))) <==> k == t
  {
    assert k < t ==> h.list[k] < h.list[k + 1] <= h.list[t];
    assert k > t ==> h.list[t + 1] <= h.list[k];
    assert k + 1 < |h.list| ==> h.list[k] < h.list[k + 1];
    assert h.list[0] <= h.list[k];
  }

  lemma LiveBlock(h: Arena, x: Addr)
    requires Sound(h) && x in h.live
    ensures x !in h.list && BASE < x
  {
  }

  /** How far the walk from position k has to go to reach position t. */
  function Distance(n: nat, k: nat, t: nat): nat
    requires k < n && t < n
  {
    if k <= t then t - k else t + n - k
  }

  /** The first pointer update of free: x takes over q, or points to it. */
  function LinkUp(mem: Memory, x: Addr, q: Addr): Memory
    requires x in mem && q in mem
  {
    if x + mem[x].size == q then mem[x := Header(mem[q].ptr, mem[x].size + mem[q].size)]
    else mem[x := mem[x].(ptr := q)]
  }

  /** The second: p takes over x, or points to it. */
  function LinkDown(mem: Memory, p: Addr, x: Addr): Memory
    requires x in mem && p in mem
  {
    if p + mem[p].size == x then mem[p := Header(mem[x].ptr, mem[p].size + mem[x].size)]
    else mem[p := mem[p].(ptr := x)]
  }

  /** The block after list[t] lies above x, unless list[t] is the last. */
  lemma Above(h: Arena, t: nat, x: Addr)
    requires Sound(h) && x in h.live && t < |h.list|
    requires h.list[t] < x && (t + 1 < |h.list| ==> x < h.list[t + 1])
    ensures x in h.mem && x in h.sizes && h.mem[x].size == h.sizes[x] > 0 && BASE < x
    ensures h.list[t] in h.mem && h.mem[h.list[t]].ptr in h.mem && h.mem[h.list[t]].ptr != x
    ensures if t == 0 then h.list[t] == BASE && h.mem[BASE].size == 0
            else h.list[t] in h.sizes && h.sizes[h.list[t]] == h.mem[h.list[t]].size
    ensures if t + 1 < |h.list| then h.mem[h.list[t]].ptr == h.list[t + 1] && h.list[t + 1] in h.sizes
                                     && h.list[t] < h.list[t + 1] && h.sizes[h.list[t + 1]] == h.mem[h.list[t + 1]].size
            else h.mem[h.list[t]].ptr == BASE
  {
    InList(h, t);
    assert h.list[0] == BASE && h.list[0] in h.mem;
    assert h.mem[h.list[t]].ptr == Next(h.list, t);
    if t > 0 { AtFree(h, t); }
    if t + 1 < |h.list| { AtFree(h, t + 1); }
  }

  lemma Rewrite(mem: Memory, x: Addr, v: Header, w: Header, p: Addr, y: Header)
    requires x != p
    ensures mem[x := v][p := y][x := w] == mem[x := w][p := y]
  {
  }

  lemma UpperMem(h: Arena, t: nat, x: Addr)
    requires Sound(h) && x in h.live && t < |h.list|
    requires h.list[t] < x && (t + 1 < |h.list| ==> x < h.list[t + 1])
    ensures h.list[t] in h.mem && x in h.mem && h.mem[h.list[t]].ptr in h.mem
    ensures var m := LinkUp(h.mem, x, h.mem[h.list[t]].ptr);
            ReleaseUpper(h, t, x).mem == m[h.list[t] := m[h.list[t]].(ptr := x)]
  {
    hide Sound, Put, Remove, Merged;
    Above(h, t, x);
    InsertedAt(h, t, x);
    var p, q := h.list[t], h.mem[h.list[t]].ptr;
    var inserted := Insert(h, t, x);
    assert inserted.mem == h.mem[x := Header(q, h.mem[x].size)][p := h.mem[p].(ptr := x)];
    assert Touch(inserted, t + 1) <==> x + h.mem[x].size == q;
    if Touch(inserted, t + 1) {
      assert Mergeable(inserted, t + 1);
      assert inserted.mem[q] == h.mem[q] && inserted.mem[x].size == h.mem[x].size;
      assert Merge(inserted, t + 1).mem == inserted.mem[x := Header(h.mem[q].ptr, h.mem[x].size + h.mem[q].size)];
    } else {
      assert !Mergeable(inserted, t + 1);
    }
    hide Insert, Merge, Touch, Mergeable;
    Rewrite(h.mem, x, Header(q, h.mem[x].size), Header(h.mem[q].ptr, h.mem[x].size + h.mem[q].size), p, h.mem[p].(ptr := x));
  }

  /** A free block spans units x to x + n. */
  ghost predicate Holds(h: Arena, x: Addr, n: nat) {
    exists y: Addr :: y in h.sizes && y !in h.live && y <= x && x + n <= y + h.sizes[y]
  }

  lemma ReleaseHolds(h: Arena, t: nat, x: Addr)
    requires Sound(h) && x in h.live && t < |h.list|
    requires h.list[t] < x && (t + 1 < |h.list| ==> x < h.list[t + 1])
    ensures h.list[t] in h.mem && x in h.mem
    ensures Holds(Release(h, t, x), x, h.mem[x].size)
  {
    UpperAt(h, t, x);
    Above(h, t, x);
    InList(h, t);
    InsertedAt(h, t, x);
    hide Sound, Put;
    var inserted, upper, r := Insert(h, t, x), ReleaseUpper(h, t, x), Release(h, t, x);
    assert upper.sizes[x] >= h.sizes[x] && x !in upper.live;
    hide ReleaseUpper, Insert;
    if Mergeable(upper, t) {
      assert h.list[t] in r.sizes && r.sizes[h.list[t]] == upper.sizes[h.list[t]] + upper.sizes[x];
    }
  }

  /** Where bp and its lower neighbour are halfway through. */
  lemma UpperAt(h: Arena, t: nat, x: Addr)
    requires Sound(h) && x in h.live && t < |h.list|
    requires h.list[t] < x && (t + 1 < |h.list| ==> x < h.list[t + 1])
    ensures h.list[t] in h.mem && x in h.mem
    ensures var upper := ReleaseUpper(h, t, x);
            t + 1 < |upper.list| && upper.list[t] == h.list[t] && upper.list[t + 1] == x && x in upper.sizes
    ensures Touch(ReleaseUpper(h, t, x), t) <==> h.list[t] + h.mem[h.list[t]].size == x
  {
    Above(h, t, x);
    InsertedAt(h, t, x);
    hide Sound, Put;
    var inserted, upper := Insert(h, t, x), ReleaseUpper(h, t, x);
    assert inserted.list[t] == h.list[t] && inserted.list[t + 1] == x;
    assert upper.list[t] == h.list[t] && upper.list[t + 1] == x;
    assert h.list[t] in h.sizes ==> h.list[t] in upper.sizes && upper.sizes[h.list[t]] == h.sizes[h.list[t]];
  }

  lemma ReleaseMem(h: Arena, t: nat, x: Addr)
    requires Sound(h) && x in h.live && t < |h.list|
    requires h.list[t] < x && (t + 1 < |h.list| ==> x < h.list[t + 1])
    ensures h.list[t] in h.mem && x in h.mem && h.mem[h.list[t]].ptr in h.mem
    ensures Release(h, t, x).mem == LinkDown(LinkUp(h.mem, x, h.mem[h.list[t]].ptr), h.list[t], x)
    ensures t < |Release(h, t, x).list| && Release(h, t, x).list[t] == h.list[t]
  {
    hide Sound, ReleaseUpper, Merged;
    UpperMem(h, t, x);
    UpperAt(h, t, x);
    Above(h, t, x);
    var p, upper := h.list[t], ReleaseUpper(h, t, x);
    var m := LinkUp(h.mem, x, h.mem[p].ptr);
    assert m[p] == h.mem[p] && upper.mem == m[p := m[p].(ptr := x)];
    hide LinkUp;
    if Touch(upper, t) {
      assert Mergeable(upper, t);
      var w := Header(m[x].ptr, m[p].size + m[x].size);
      assert Merge(upper, t).mem == m[p := m[p].(ptr := x)][p := w];
      assert m[p := m[p].(ptr := x)][p := w] == m[p := w];
    }
  }

  lemma InsertedAt(h: Arena, t: nat, x: Addr)
    requires t < |h.list|
    ensures |Put(h.list, t, x)| == |h.list| + 1 && Put(h.list, t, x)[t] == h.list[t] && Put(h.list, t, x)[t + 1] == x
    ensures t + 1 < |h.list| ==> Put(h.list, t, x)[t + 2] == h.list[t + 1]
  {
  }

  // ---------------------------------------------------------------- the free list is canonical

  /** The same live blocks in the same arena. */
  ghost predicate SameUse(h: Arena, g: Arena) {
    SameArena(h.sizes, g.sizes) && h.live == g.live && LiveSame(h, g)
  }

  /** A free block that ends at x, where another starts, would touch it. */
  lemma NeverTouch(h: Arena, a: Addr, b: Addr)
    requires Inv(h) && a in h.sizes && b in h.sizes && a !in h.live && b !in h.live
    ensures a + h.sizes[a] != b
  {
    assert a in h.list && b in h.list;
    var i: nat :| i < |h.list| && h.list[i] == a;
    var j: nat :| j < |h.list| && h.list[j] == b;
    assert h.list[0] == BASE && i > 0;
    assert !Touch(h, i);
    if a < b && i + 1 < |h.list| {
      InList(h, i + 1);
      assert h.list[i] < h.list[i + 1];
    }
  }

  /** A unit lies in one block only. */
  lemma OneBlock(h: Arena, a: Addr, b: Addr, u: Addr)
    requires Sound(h) && a in h.sizes && b in h.sizes
    requires a <= u < a + h.sizes[a] && b <= u < b + h.sizes[b]
    ensures a == b
  {
    hide Linked, ListsFree, Headers;
  }

  /** The block of h that holds unit u, when a free block of g does. */
  lemma FreeUnit(h: Arena, g: Arena, a: Addr, u: Addr) returns (x: Addr)
    requires Inv(h) && Inv(g) && SameUse(h, g) && a in g.sizes && a !in g.live && a <= u < a + g.sizes[a]
    ensures x in h.sizes && x !in h.live && x <= u < x + h.sizes[x]
  {
    hide Sound, Apart;
    assert Covers(g.sizes, u);
    assert Covers(h.sizes, u);
    x :| x in h.sizes && x <= u < x + h.sizes[x];
    if x in h.live {
      assert x in g.sizes && g.sizes[x] == h.sizes[x];
      OneBlock(g, a, x, u);
    }
  }

  /** A free block of g is a free block of h, of the same size. */
  lemma SameBlock(h: Arena, g: Arena, a: Addr)
    requires Inv(h) && Inv(g) && SameUse(h, g) && SameUse(g, h) && a in g.sizes && a !in g.live && g.sizes[a] > 0
    ensures a in h.sizes && a !in h.live && h.sizes[a] == g.sizes[a]
  {
    hide Sound, Apart, SameUse;
    var x := FreeUnit(h, g, a, a);
    if x < a {
      var y := FreeUnit(g, h, x, a - 1);
      NeverTouch(g, y, a);
      if y + g.sizes[y] > a { OneBlock(g, y, a, a); }
    } else if h.sizes[a] > g.sizes[a] {
      var y := FreeUnit(g, h, a, a + g.sizes[a]);
      NeverTouch(g, a, y);
      if y < a + g.sizes[a] { OneBlock(g, y, a, a + g.sizes[a] - 1); }
    } else if h.sizes[a] < g.sizes[a] {
      var y := FreeUnit(h, g, a, a + h.sizes[a]);
      NeverTouch(h, a, y);
      if y < a + h.sizes[a] { OneBlock(h, y, a, a + h.sizes[a] - 1); }
    }
  }

  lemma {:induction false} SortedPrefix(s: seq<Addr>, t: seq<Addr>, n: nat)
    requires Sorted(s) && Sorted(t) && n <= |s| && forall x: Addr :: x in s ==> x in t
    requires forall x: Addr :: x in t ==> x in s
    ensures n <= |t| && forall i :: 0 <= i < n ==> s[i] == t[i]
  {
    if n > 0 {
      SortedPrefix(s, t, n - 1);
      var k := n - 1;
      assert s[k] in t;
      var j: nat :| j < |t| && t[j] == s[k];
      assert j >= k;
      assert t[k] in s;
      var i: nat :| i < |s| && s[i] == t[k];
      assert i >= k;
      assert t[k] <= t[j] && s[k] <= s[i];
    }
  }

  lemma SortedUnique(s: seq<Addr>, t: seq<Addr>)
    requires Sorted(s) && Sorted(t) && forall x: Addr :: x in s <==> x in t
    ensures s == t
  {
    SortedPrefix(s, t, |s|);
    SortedPrefix(t, s, |t|);
  }

  /** The whole free list depends only on the arena and the live blocks, not on the order of the
      calls that led there. */
  lemma Canonical(h: Arena, g: Arena)
    requires Inv(h) && Inv(g) && SameUse(h, g)
    ensures h.sizes == g.sizes && h.list == g.list
  {
    assert SameUse(g, h);
    forall a: Addr | a in g.sizes ensures a in h.sizes && h.sizes[a] == g.sizes[a] {
      if a !in g.live { SameBlock(h, g, a); }
    }
    forall a: Addr | a in h.sizes ensures a in g.sizes {
      if a !in h.live { SameBlock(g, h, a); }
    }
    SortedUnique(h.list, g.list);
  }
}

/** Blocks and the slots that name them, without the bytes: who owns which block. */
module Ownership {

  /** Slot k of inode inum: direct blocks, the indirect block, then the indirect entries. */
  datatype Slot = Slot(inum: nat, k: nat)

  type Refs = seq<seq<nat>>

  predicate Valid(refs: Refs, s: Slot) {
    s.inum < |refs| && s.k < |refs[s.inum]|
  }

  function At(refs: Refs, s: Slot): nat
    requires Valid(refs, s)
  {
    refs[s.inum][s.k]
  }

  function Put(refs: Refs, s: Slot, b: nat): Refs
    requires Valid(refs, s)
  {
    var row: seq<nat> := refs[s.inum][s.k := b];
    refs[s.inum := row]
  }

  /** owner is the inverse of the references and says exactly which of the data blocks [lo, hi) the bitmap
      has marked; the blocks below are marked.  Nothing is shared, nothing is lost.  What the bitmap says of
      the blocks from hi on, which are the log, is left open. */
  ghost predicate Whole(used: seq<bool>, refs: Refs, lo: nat, hi: nat, owner: map<nat, Slot>) {
    && 0 < lo <= hi <= |used|
    && (forall b: nat :: b < hi ==> (used[b] <==> b < lo || b in owner))
    && (forall b: nat :: b in owner ==> lo <= b < hi)
    && Inverse(refs, owner)
  }

  /** A block is owned by the one slot that names it. */
  ghost predicate Inverse(refs: Refs, owner: map<nat, Slot>) {
    && (forall b: nat :: b in owner ==> Valid(refs, owner[b]) && At(refs, owner[b]) == b)
    && (forall s: Slot :: Valid(refs, s) && At(refs, s) != 0 ==> At(refs, s) in owner && owner[At(refs, s)] == s)
  }

  /** No block has two owners, and what a slot names is marked in use and is a data block. */
  lemma OneOwner(used: seq<bool>, refs: Refs, lo: nat, hi: nat, owner: map<nat, Slot>, s: Slot, t: Slot)
    requires Whole(used, refs, lo, hi, owner) && Valid(refs, s) && Valid(refs, t) && At(refs, s) != 0
    ensures At(refs, s) == At(refs, t) ==> s == t
    ensures lo <= At(refs, s) < hi && used[At(refs, s)]
  {
  }

  lemma FillWhole(used: seq<bool>, refs: Refs, lo: nat, hi: nat, owner: map<nat, Slot>, s: Slot, b: nat)
    requires Whole(used, refs, lo, hi, owner) && Valid(refs, s) && At(refs, s) == 0 && b < hi && !used[b]
    ensures lo <= b < hi && b !in owner
    ensures Whole(used[b := true], Put(refs, s, b), lo, hi, owner[b := s])
  {
    var r := Put(refs, s, b);
    assert forall t: Slot :: Valid(r, t) <==> Valid(refs, t);
    assert forall t: Slot :: Valid(refs, t) ==> At(r, t) == if t == s then b else At(refs, t);
  }

  /** A bit of the log does not matter. */
  lemma BeyondWhole(used: seq<bool>, refs: Refs, lo: nat, hi: nat, owner: map<nat, Slot>, b: nat)
    requires Whole(used, refs, lo, hi, owner) && hi <= b < |used|
    ensures Whole(used[b := true], refs, lo, hi, owner)
  {
  }

  lemma ClearWhole(used: seq<bool>, refs: Refs, lo: nat, hi: nat, owner: map<nat, Slot>, s: Slot)
    requires Whole(used, refs, lo, hi, owner) && Valid(refs, s) && At(refs, s) != 0
    ensures lo <= At(refs, s) < hi && used[At(refs, s)]
    ensures Whole(used[At(refs, s) := false], Put(refs, s, 0), lo, hi, owner - {At(refs, s)})
  {
    var b := At(refs, s);
    var r := Put(refs, s, 0);
    assert forall t: Slot :: Valid(r, t) <==> Valid(refs, t);
    assert forall t: Slot :: Valid(refs, t) ==> At(r, t) == if t == s then 0 else At(refs, t);
  }

  lemma PutSame(refs: Refs, s: Slot)
    requires Valid(refs, s)
    ensures Put(refs, s, At(refs, s)) == refs
  {
    assert refs[s.inum][s.k := refs[s.inum][s.k]] == refs[s.inum];
  }

  /** Emptying one inode's row frees exactly the blocks it owned. */
  lemma WipedFrees(used: seq<bool>, refs: Refs, lo: nat, hi: nat, owner: map<nat, Slot>,
                   used': seq<bool>, owner': map<nat, Slot>, refs': Refs, i: nat)
    requires Whole(used, refs, lo, hi, owner) && Whole(used', refs', lo, hi, owner')
    requires i < |refs| && |used'| == |used| && |refs'| == |refs| && |refs'[i]| == |refs[i]|
    requires forall k :: 0 <= k < |refs[i]| ==> refs'[i][k] == 0
    requires forall j :: 0 <= j < |refs| && j != i ==> refs'[j] == refs[j]
    requires forall b: nat :: hi <= b < |used| ==> used'[b] == used[b]
    ensures forall b: nat :: b in owner' <==> b in owner && owner[b].inum != i
    ensures forall b: nat :: b < |used| ==> (used'[b] <==> used[b] && !(b in owner && owner[b].inum == i))
  {
    forall b: nat ensures b in owner' <==> b in owner && owner[b].inum != i {
      if b in owner' { assert At(refs, owner'[b]) == b; }
      if b in owner && owner[b].inum != i { assert At(refs', owner[b]) == b; }
    }
  }
}

/** Headers, and the tree of all headers the chain ever produced. */
module BlockTree {
  import opened Common

  datatype Header = Header(number: int, hash: string, parentHash: string, timestamp: int)

  // hash -> header; hashes identify headers.
  type Tree = map<string, Header>

  ghost predicate Linked(t: Tree, h: string)
    requires h in t
  {
    && t[h].hash == h
    && t[h].number >= 0
    && (t[h].parentHash in t ==> t[t[h].parentHash].number == t[h].number - 1)
  }

  ghost predicate ValidTree(t: Tree) {
    forall h {:trigger Linked(t, h)} :: h in t ==> Linked(t, h)
  }

  // No header above height 0 is an orphan.
  ghost predicate Complete(t: Tree) {
    && ValidTree(t)
    && forall h {:trigger Linked(t, h)} :: h in t && t[h].number > 0 ==> t[h].parentHash in t
  }

  ghost predicate InTree(t: Tree, h: Header) {
    h.hash in t && t[h.hash] == h
  }

  // The k-th ancestor of h; h itself for k = 0.
  ghost function Anc(t: Tree, h: Header, k: nat): Option<Header>
    decreases k
  {
    if k == 0 then Some(h)
    else if h.parentHash in t then Anc(t, t[h.parentHash], k - 1)
    else None
  }

  // h and its k nearest ancestors, oldest first, recomputed from the tree.
  ghost function Ancestry(t: Tree, h: Header, k: nat): seq<Header>
    requires Anc(t, h, k).Some?
    decreases k
  {
    if k == 0 then [h] else Ancestry(t, t[h.parentHash], k - 1) + [h]
  }

  ghost predicate IsAncestor(t: Tree, a: Header, h: Header) {
    a.number < h.number && Anc(t, h, h.number - a.number) == Some(a)
  }

  // A stretch of one branch, oldest first.
  ghost predicate Chain(t: Tree, s: seq<Header>) {
    && (forall i :: 0 <= i < |s| ==> InTree(t, s[i]))
    && (forall i, j :: 0 <= i < j < |s| && j == i + 1 ==> s[j].parentHash == s[i].hash)
  }

  lemma {:induction false} ChainNumbers(t: Tree, s: seq<Header>, i: nat)
    requires ValidTree(t) && Chain(t, s) && i < |s|
    ensures s[i].number == s[0].number + i
  {
    if i > 0 {
      ChainNumbers(t, s, i - 1);
      assert Linked(t, s[i].hash);
      assert InTree(t, s[i - 1]);
    }
  }

  lemma ChainHeights(t: Tree, s: seq<Header>)
    requires ValidTree(t) && Chain(t, s)
    ensures forall i :: 0 <= i < |s| ==> s[i].number == s[0].number + i
  {
    forall i | 0 <= i < |s| ensures s[i].number == s[0].number + i {
      ChainNumbers(t, s, i);
    }
  }

  // A chain is determined by its last header and its length: it is that
  // header's ancestry, recomputed from the tree.
  lemma {:induction false} ChainIsAncestry(t: Tree, s: seq<Header>)
    requires Chain(t, s) && |s| > 0
    ensures Anc(t, s[|s| - 1], |s| - 1).Some?
    ensures s == Ancestry(t, s[|s| - 1], |s| - 1)
  {
    if |s| > 1 {
      var front := s[..|s| - 1];
      assert InTree(t, s[|s| - 2]);
      ChainIsAncestry(t, front);
      assert t[s[|s| - 1].parentHash] == front[|front| - 1];
    }
  }

  lemma {:induction false} ChainAncestor(t: Tree, s: seq<Header>, i: nat)
    requires Chain(t, s) && i < |s|
    ensures Anc(t, s[|s| - 1], |s| - 1 - i) == Some(s[i])
  {
    if i < |s| - 1 {
      assert InTree(t, s[|s| - 2]);
      ChainAncestor(t, s[..|s| - 1], i);
    }
  }

  lemma {:induction false} AncStep(t: Tree, h: Header, k: nat)
    ensures Anc(t, h, k + 1) ==
            (match Anc(t, h, k)
             case None => None
             case Some(a) => if a.parentHash in t then Some(t[a.parentHash]) else None)
    decreases k
  {
    if k > 0 && h.parentHash in t {
      AncStep(t, t[h.parentHash], k - 1);
    }
  }

  lemma {:induction false} AncNumber(t: Tree, h: Header, k: nat)
    requires ValidTree(t) && InTree(t, h) && Anc(t, h, k).Some?
    ensures InTree(t, Anc(t, h, k).value)
    ensures Anc(t, h, k).value.number == h.number - k
    ensures k <= h.number
    decreases k
  {
    assert Linked(t, h.hash);
    if k > 0 {
      assert Linked(t, h.parentHash);
      AncNumber(t, t[h.parentHash], k - 1);
    }
  }

  // In a tree without orphans every height down to 0 has an ancestor.
  lemma {:induction false} AncExists(t: Tree, h: Header, k: nat)
    requires Complete(t) && InTree(t, h) && k <= h.number
    ensures Anc(t, h, k).Some?
    decreases k
  {
    if k > 0 {
      assert Linked(t, h.hash);
      assert Linked(t, h.parentHash);
      AncExists(t, t[h.parentHash], k - 1);
    }
  }
}

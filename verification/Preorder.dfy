/** Subtrees and children in a pre-order listing, and the pending-children count that walks them. */
module PreorderLists {
  import opened JsmnSpec
  import opened JsmnForest

  /** Node k is t or one of its descendants. */
  ghost predicate InSubtree(par: seq<int>, t: int, k: int)
    requires 0 <= t && 0 <= k < |par| && forall i :: 0 <= i < |par| ==> -1 <= par[i] < i
    decreases k
  {
    k == t || (par[k] >= 0 && InSubtree(par, t, par[k]))
  }

  /** The pre-order condition says exactly that every subtree is a contiguous run of nodes. */
  lemma PreorderIffContiguous(par: seq<int>)
    requires forall i :: 0 <= i < |par| ==> -1 <= par[i] < i
    ensures Preorder(par) <==>
            forall t, j, k :: 0 <= t < j < k < |par| && InSubtree(par, t, k) ==> InSubtree(par, t, j)
  {
    if Preorder(par) {
      forall t, j, k | 0 <= t < j < k < |par| && InSubtree(par, t, k) ensures InSubtree(par, t, j) {
        Contiguous(par, t, j, k);
      }
    } else {
      var t, j, k := CrossingSplitsSubtree(par);
      assert InSubtree(par, t, k) && !InSubtree(par, t, j);
    }
  }

  lemma CrossingSplitsSubtree(par: seq<int>) returns (t: int, j: int, k: int)
    requires (forall i :: 0 <= i < |par| ==> -1 <= par[i] < i) && !Preorder(par)
    ensures 0 <= t < j < k < |par| && InSubtree(par, t, k) && !InSubtree(par, t, j)
  {
    j, k :| 0 <= j < k < |par| && par[j] < par[k] < j;
    t := par[k];
    if InSubtree(par, t, j) {
      AncestorIsBefore(par, t, par[j]);
    }
  }

  lemma {:induction false} AncestorIsBefore(par: seq<int>, t: int, k: int)
    requires forall i :: 0 <= i < |par| ==> -1 <= par[i] < i
    requires 0 <= t && 0 <= k < |par| && InSubtree(par, t, k)
    ensures t <= k
    decreases k
  {
    if k != t {
      AncestorIsBefore(par, t, par[k]);
    }
  }

  lemma {:induction false} Contiguous(par: seq<int>, t: int, j: int, k: int)
    requires Preorder(par) && 0 <= t < j < k < |par| && InSubtree(par, t, k)
    ensures InSubtree(par, t, j)
    decreases k, j
  {
    var p := par[k];
    AncestorIsBefore(par, t, p);
    if p > j {
      Contiguous(par, t, j, p);
    } else if p < j && par[j] > t {
      Contiguous(par, t, par[j], k);
    }
  }

  /** The first node after t's subtree, or the number of nodes. */
  ghost function SubtreeEnd(par: seq<int>, t: nat): (e: nat)
    requires t < |par|
    ensures t < e <= |par|
    ensures forall k :: t < k < e ==> par[k] >= t
    ensures e < |par| ==> par[e] < t
  {
    FirstBelow(par, t, t + 1)
  }

  ghost function FirstBelow(par: seq<int>, t: nat, from: nat): (e: nat)
    requires from <= |par|
    ensures from <= e <= |par|
    ensures forall k :: from <= k < e ==> par[k] >= t
    ensures e < |par| ==> par[e] < t
    decreases |par| - from
  {
    if from == |par| || par[from] < t then from else FirstBelow(par, t, from + 1)
  }

  /** t's subtree is exactly the run from t up to SubtreeEnd. */
  lemma SubtreeIsRange(par: seq<int>, t: nat, k: nat)
    requires Preorder(par) && t < |par| && k < |par|
    ensures InSubtree(par, t, k) <==> t <= k < SubtreeEnd(par, t)
  {
    var e := SubtreeEnd(par, t);
    if t <= k < e {
      InsideRange(par, t, k);
    } else if InSubtree(par, t, k) {
      AncestorIsBefore(par, t, k);
      if k > e {
        Contiguous(par, t, e, k);
      }
      AncestorIsBefore(par, t, par[e]);
    }
  }

  lemma {:induction false} InsideRange(par: seq<int>, t: nat, k: nat)
    requires Preorder(par) && t < |par| && t <= k < SubtreeEnd(par, t)
    ensures InSubtree(par, t, k)
    decreases k
  {
    if k > t {
      InsideRange(par, t, par[k]);
    }
  }

  /** A child's child stands inside the subtree. */
  lemma GrandchildInside(par: seq<int>, t: nat, m: nat)
    requires Preorder(par) && m + 1 < |par| && par[m] == t && par[m + 1] == m
    ensures InSubtree(par, t, m + 1) && m + 1 < SubtreeEnd(par, t)
  {
    assert InSubtree(par, t, t) && InSubtree(par, t, m);
    SubtreeIsRange(par, t, m + 1);
  }

  /** How many nodes from `from` on have a parent in [lo, hi). */
  ghost function Attached(par: seq<int>, from: nat, lo: int, hi: int): nat
    requires from <= |par|
    decreases |par| - from
  {
    if from == |par| then 0
    else (if lo <= par[from] < hi then 1 else 0) + Attached(par, from + 1, lo, hi)
  }

  lemma {:induction false} AttachedSplits(par: seq<int>, from: nat, lo: int, mid: int, hi: int)
    requires from <= |par| && lo <= mid <= hi
    ensures Attached(par, from, lo, hi) == Attached(par, from, lo, mid) + Attached(par, from, mid, hi)
    decreases |par| - from
  {
    if from < |par| {
      AttachedSplits(par, from + 1, lo, mid, hi);
    }
  }

  lemma {:induction false} AttachedIsCount(par: seq<int>, from: nat, i: int)
    requires from <= |par|
    ensures Attached(par, from, i, i + 1) == multiset(par[from..])[i]
    decreases |par| - from
  {
    if from < |par| {
      AttachedIsCount(par, from + 1, i);
      assert par[from..] == [par[from]] + par[from + 1..];
    }
  }

  lemma {:induction false} NoneAttachedBefore(par: seq<int>, from: nat, to: nat, i: int)
    requires from <= to <= |par| && forall k :: from <= k < to ==> par[k] != i
    ensures Attached(par, from, i, i + 1) == Attached(par, to, i, i + 1)
    decreases |par| - from
  {
    if from < to {
      NoneAttachedBefore(par, from + 1, to, i);
    }
  }

  lemma {:induction false} AttachedWitness(par: seq<int>, from: nat, lo: int, hi: int) returns (k: nat)
    requires from <= |par| && Attached(par, from, lo, hi) > 0
    ensures from <= k < |par| && lo <= par[k] < hi
    decreases |par| - from
  {
    if lo <= par[from] < hi {
      k := from;
    } else {
      k := AttachedWitness(par, from + 1, lo, hi);
    }
  }

  lemma {:induction false} AttachedNone(par: seq<int>, from: nat, lo: int, hi: int, k: nat)
    requires from <= k < |par| && lo <= par[k] < hi
    ensures Attached(par, from, lo, hi) > 0
    decreases |par| - from
  {
    if from < k {
      AttachedNone(par, from + 1, lo, hi, k);
    }
  }

  lemma SizeIsAttachedLater(toks: seq<Token>, par: seq<int>, i: nat)
    requires IsForest(toks, par) && i < |toks|
    ensures toks[i].size == Attached(par, i + 1, i, i + 1)
  {
    AttachedIsCount(par, 0, i);
    assert par[0..] == par;
    NoneAttachedBefore(par, 0, i + 1, i);
  }

  /**
   One turn of the walk over t's subtree. `pending`, the number of nodes still to come, is the number of
   later nodes attached to the part already walked; it cannot reach 0 inside the subtree.
   */
  lemma PendingStep(toks: seq<Token>, par: seq<int>, t: nat, idx: nat)
    requires IsForest(toks, par) && t < idx < |par| && Attached(par, idx, t, idx) > 0
    ensures par[idx] >= t
    ensures Attached(par, idx + 1, t, idx + 1) == Attached(par, idx, t, idx) + toks[idx].size - 1
  {
    var k := AttachedWitness(par, idx, t, idx);
    AttachedSplits(par, idx + 1, t, idx, idx + 1);
    SizeIsAttachedLater(toks, par, idx);
  }

  lemma PendingDone(par: seq<int>, t: nat, idx: nat)
    requires Preorder(par) && t < idx < |par| && Attached(par, idx, t, idx) == 0
    ensures par[idx] < t
  {
    if par[idx] >= t {
      AttachedNone(par, idx, t, idx, idx);
    }
  }

  lemma FirstBelowAt(par: seq<int>, t: nat, from: nat, e: nat)
    requires from <= e <= |par| && (forall k :: from <= k < e ==> par[k] >= t) && (e < |par| ==> par[e] < t)
    ensures FirstBelow(par, t, from) == e
  {
  }

  /** The children of o from node `from` on, in order. */
  ghost function ChildrenFrom(par: seq<int>, o: int, from: nat): (kids: seq<nat>)
    requires from <= |par|
    ensures forall i :: 0 <= i < |kids| ==> from <= kids[i] < |par| && par[kids[i]] == o
    ensures |kids| == Attached(par, from, o, o + 1)
    decreases |par| - from
  {
    if from == |par| then []
    else (if par[from] == o then [from] else []) + ChildrenFrom(par, o, from + 1)
  }

  /** The children of o: every one of them, in order. */
  ghost function Children(par: seq<int>, o: int): (kids: seq<nat>)
    ensures forall i :: 0 <= i < |kids| ==> kids[i] < |par| && par[kids[i]] == o
    ensures forall k: nat {:trigger k in kids} :: k < |par| && par[k] == o ==> k in kids
  {
    assert forall k: nat {:trigger k in ChildrenFrom(par, o, 0)} :: k < |par| && par[k] == o ==> k in ChildrenFrom(par, o, 0) by {
      forall k: nat | k < |par| && par[k] == o ensures k in ChildrenFrom(par, o, 0) {
        ChildListed(par, o, 0, k);
      }
    }
    ChildrenFrom(par, o, 0)
  }

  lemma {:induction false} ChildListed(par: seq<int>, o: int, from: nat, k: nat)
    requires from <= k < |par| && par[k] == o
    ensures k in ChildrenFrom(par, o, from)
    decreases |par| - from
  {
    if from < k {
      ChildListed(par, o, from + 1, k);
    }
  }

  /** The size field is the number of children. */
  lemma SizeIsChildren(toks: seq<Token>, par: seq<int>, i: nat)
    requires IsForest(toks, par) && i < |toks|
    ensures toks[i].size == |Children(par, i)| == Attached(par, i + 1, i, i + 1)
  {
    SizeIsAttachedLater(toks, par, i);
    NoneAttachedBefore(par, 0, i + 1, i);
  }

  lemma {:induction false} ChildrenSkip(par: seq<int>, o: int, from: nat, to: nat)
    requires from <= to <= |par| && forall k :: from <= k < to ==> par[k] != o
    ensures ChildrenFrom(par, o, from) == ChildrenFrom(par, o, to)
    decreases |par| - from
  {
    if from < to {
      ChildrenSkip(par, o, from + 1, to);
    }
  }

  /** A node of size 0 ends its own subtree. */
  lemma LeafEnd(toks: seq<Token>, par: seq<int>, m: nat)
    requires IsForest(toks, par) && m < |toks| && toks[m].size == 0
    ensures SubtreeEnd(par, m) == m + 1
  {
    SizeIsAttachedLater(toks, par, m);
    if m + 1 < |par| {
      PendingDone(par, m, m + 1);
    }
    FirstBelowAt(par, m, m + 1, m + 1);
  }

  /** A node with children is followed by the first of them. */
  lemma FirstChild(toks: seq<Token>, par: seq<int>, o: nat)
    requires IsForest(toks, par) && o < |toks| && toks[o].size > 0
    ensures o + 1 < |toks| && par[o + 1] == o
    ensures Children(par, o) == ChildrenFrom(par, o, o + 1)
  {
    SizeIsAttachedLater(toks, par, o);
    var k := AttachedWitness(par, o + 1, o, o + 1);
    ChildrenSkip(par, o, 0, o + 1);
  }

  /** After child c of o come c's subtree and then the remaining children. */
  lemma NextSibling(par: seq<int>, o: nat, c: nat)
    requires Preorder(par) && c < |par| && par[c] == o
    ensures var e := SubtreeEnd(par, c);
            && ChildrenFrom(par, o, c) == [c] + ChildrenFrom(par, o, e)
            && (e == |par| || par[e] == o || ChildrenFrom(par, o, e) == [])
  {
    var e := SubtreeEnd(par, c);
    ChildrenSkip(par, o, c + 1, e);
    if e < |par| && par[e] < o {
      forall k | e <= k < |par| ensures par[k] != o {}
      ChildrenSkip(par, o, e, |par|);
    }
  }

  /** The subtree of an only child ends with its parent's. */
  lemma OnlyChildEnd(toks: seq<Token>, par: seq<int>, m: nat)
    requires IsForest(toks, par) && m < |toks| && toks[m].size == 1
    ensures m + 1 < |toks| && par[m + 1] == m
    ensures SubtreeEnd(par, m + 1) == SubtreeEnd(par, m)
  {
    FirstChild(toks, par, m);
    SizeIsAttachedLater(toks, par, m);
    forall k | m + 2 <= k < |par| ensures par[k] != m {
      if par[k] == m {
        AttachedNone(par, m + 2, m, m + 1, k);
      }
    }
    FirstBelowAt(par, m + 1, m + 2, SubtreeEnd(par, m));
  }

  // ---- The sizes determine the parents ----

  /** After a node k whose parent lies before c, no later node is a child of c. */
  lemma NoLaterChild(par: seq<int>, k: nat, c: int)
    requires Preorder(par) && k < |par| && par[k] < c < k
    ensures multiset(par[k..])[c] == 0
  {
    assert forall j :: 0 <= j < |par[k..]| ==> par[k..][j] == par[k + j];
  }

  lemma CountSplits(par: seq<int>, k: nat, c: int)
    requires k <= |par|
    ensures multiset(par)[c] == multiset(par[..k])[c] + multiset(par[k..])[c]
  {
    assert par == par[..k] + par[k..];
  }

  lemma ParentNotBefore(toks: seq<Token>, p: seq<int>, q: seq<int>, k: nat)
    requires IsForest(toks, p) && IsForest(toks, q) && k < |toks| && p[..k] == q[..k]
    ensures p[k] >= q[k]
  {
    if p[k] < q[k] {
      hide Preorder;
      var c := q[k];
      assert c < k && c >= 0 by { ParentBefore(p, k); ParentBefore(q, k); }
      NoLaterChild(p, k, c);
      CountSplits(p, k, c);
      CountSplits(q, k, c);
      FirstCounts(q[k..]);
      assert false;
    }
  }

  lemma ParentBefore(par: seq<int>, k: nat)
    requires Preorder(par) && k < |par|
    ensures -1 <= par[k] < k
  {
  }

  lemma FirstCounts(s: seq<int>)
    requires s != []
    ensures multiset(s)[s[0]] > 0
  {
    assert s[0] in multiset(s);
  }

  /** Tokens have at most one list of parents: the sizes alone determine it. */
  lemma ForestUnique(toks: seq<Token>, p: seq<int>, q: seq<int>)
    requires IsForest(toks, p) && IsForest(toks, q)
    ensures p == q
  {
    assert p[..|p|] == p && q[..|q|] == q;
    SameParents(toks, p, q, |toks|);
  }

  lemma {:induction false} SameParents(toks: seq<Token>, p: seq<int>, q: seq<int>, k: nat)
    requires IsForest(toks, p) && IsForest(toks, q) && k <= |toks|
    ensures p[..k] == q[..k]
  {
    if k > 0 {
      SameParents(toks, p, q, k - 1);
      ParentNotBefore(toks, p, q, k - 1);
      ParentNotBefore(toks, q, p, k - 1);
      assert p[..k] == p[..k - 1] + [p[k - 1]] && q[..k] == q[..k - 1] + [q[k - 1]];
    }
  }
}

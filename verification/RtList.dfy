/** Circular doubly linked lists: the kernel's intrusive lists, and the two lists that run
    through the headers of a memheap. */
module RtList {
  import opened IpcList

  type Links = map<int, int>

  function Succ(s: seq<int>, k: nat): int
    requires k < |s|
  {
    if k + 1 < |s| then s[k + 1] else s[0]
  }

  function Pred(s: seq<int>, k: nat): int
    requires k < |s|
  {
    if k > 0 then s[k - 1] else s[|s| - 1]
  }

  ghost predicate LinkAt(next: Links, prev: Links, s: seq<int>, k: nat)
    requires k < |s|
  {
    && s[k] in next && s[k] in prev
    && next[s[k]] == Succ(s, k) && prev[s[k]] == Pred(s, k)
  }

  /** Following `next` from `s[0]` visits `s` in order and comes back; `prev` undoes `next`. */
  ghost predicate Ring(next: Links, prev: Links, s: seq<int>) {
    && |s| > 0 && Distinct(s)
    && forall k :: 0 <= k < |s| ==> LinkAt(next, prev, s, k)
  }

  function Inserted(s: seq<int>, k: nat, a: int): seq<int>
    requires k < |s|
  {
    s[..k + 1] + [a] + s[k + 1..]
  }

  function Removed(s: seq<int>, k: nat): seq<int>
    requires k < |s|
  {
    s[..k] + s[k + 1..]
  }

  function NextInsert(next: Links, p: int, a: int): Links
    requires p in next
  {
    next[a := next[p]][p := a]
  }

  function PrevInsert(next: Links, prev: Links, p: int, a: int): Links
    requires p in next
  {
    prev[a := p][next[p] := a]
  }

  function NextRemove(next: Links, prev: Links, a: int): Links
    requires a in next && a in prev
  {
    next[prev[a] := next[a]]
  }

  function PrevRemove(next: Links, prev: Links, a: int): Links
    requires a in next && a in prev
  {
    prev[next[a] := prev[a]]
  }

  lemma InsertRing(next: Links, prev: Links, s: seq<int>, k: nat, a: int)
    requires Ring(next, prev, s) && k < |s| && a !in s
    ensures s[k] in next
    ensures Ring(NextInsert(next, s[k], a), PrevInsert(next, prev, s[k], a), Inserted(s, k, a))
  {
    assert LinkAt(next, prev, s, k);
    var r, n, v := Inserted(s, k, a), NextInsert(next, s[k], a), PrevInsert(next, prev, s[k], a);
    assert forall i :: 0 <= i < |r| ==> r[i] == if i <= k then s[i] else if i == k + 1 then a else s[i - 1];
    forall i | 0 <= i < |r| ensures LinkAt(n, v, r, i) {
      if i <= k { assert LinkAt(next, prev, s, i); }
      if i > k + 1 { assert LinkAt(next, prev, s, i - 1); }
    }
  }

  lemma RemoveRing(next: Links, prev: Links, s: seq<int>, k: nat)
    requires Ring(next, prev, s) && k < |s| && |s| > 1
    ensures s[k] in next && s[k] in prev
    ensures Ring(NextRemove(next, prev, s[k]), PrevRemove(next, prev, s[k]), Removed(s, k))
  {
    assert LinkAt(next, prev, s, k);
    var r, n, v := Removed(s, k), NextRemove(next, prev, s[k]), PrevRemove(next, prev, s[k]);
    assert forall i :: 0 <= i < |r| ==> r[i] == if i < k then s[i] else s[i + 1];
    forall i | 0 <= i < |r| ensures LinkAt(n, v, r, i) {
      if i < k { assert LinkAt(next, prev, s, i); } else { assert LinkAt(next, prev, s, i + 1); }
    }
  }

  /** Links outside `s` and `a` are as before. */
  ghost predicate Outside(next: Links, next': Links, s: seq<int>, a: int) {
    forall x :: x in next && x !in s && x != a ==> x in next' && next'[x] == next[x]
  }

  /** A list that shares no node with the nodes written to is still that list. */
  lemma OtherRing(next: Links, prev: Links, next': Links, prev': Links, s: seq<int>, a: int, t: seq<int>)
    requires Ring(next, prev, t) && Outside(next, next', s, a) && Outside(prev, prev', s, a)
    requires forall i :: 0 <= i < |t| ==> t[i] !in s && t[i] != a
    ensures Ring(next', prev', t)
  {
    forall k | 0 <= k < |t| ensures LinkAt(next', prev', t, k) {
      assert LinkAt(next, prev, t, k);
    }
  }

  /** The memory of all list nodes: `next` and `prev` of the node at each address. */
  class ListNodes {
    var next: Links
    var prev: Links

    constructor ()
      ensures next == map[] && prev == map[]
    {
      next, prev := map[], map[];
    }

    /** `rt_list_init` */
    method Init(l: int)
      modifies this
      ensures Ring(next, prev, [l])
      ensures Outside(old(next), next, [], l) && Outside(old(prev), prev, [], l)
    {
      next, prev := next[l := l], prev[l := l];
      assert LinkAt(next, prev, [l], 0);
    }

    /** `rt_list_insert_after` */
    method InsertAfter(l: int, n: int, ghost s: seq<int>, ghost k: nat)
      requires Ring(next, prev, s) && k < |s| && s[k] == l && n !in s
      modifies this
      ensures Ring(next, prev, Inserted(s, k, n))
      ensures l in old(next) && n in next && n in prev && l in next
      ensures next[l] == n && prev[n] == l && next[n] == old(next[l])
      ensures Outside(old(next), next, s, n) && Outside(old(prev), prev, s, n)
    {
      InsertRing(next, prev, s, k, n);
      assert LinkAt(next, prev, s, k);
      assert Succ(s, k) in s;
      prev := prev[next[l] := n];
      next := next[n := next[l]];
      next := next[l := n];
      prev := prev[n := l];
      assert next == NextInsert(old(next), l, n) && prev == PrevInsert(old(next), old(prev), l, n);
    }

    /** `rt_list_insert_before`; before the head of a list is at its end. */
    method InsertBefore(l: int, n: int, ghost s: seq<int>, ghost k: nat)
      requires Ring(next, prev, s) && k < |s| && s[k] == l && n !in s
      modifies this
      ensures Ring(next, prev, Inserted(s, if k > 0 then k - 1 else |s| - 1, n))
      ensures l in old(prev) && n in next && n in prev && l in prev
      ensures prev[l] == n && next[n] == l && prev[n] == old(prev[l])
      ensures Outside(old(next), next, s, n) && Outside(old(prev), prev, s, n)
    {
      ghost var j := if k > 0 then k - 1 else |s| - 1;
      InsertRing(next, prev, s, j, n);
      assert LinkAt(next, prev, s, k) && LinkAt(next, prev, s, j);
      assert Pred(s, k) in s;
      next := next[prev[l] := n];
      prev := prev[n := prev[l]];
      prev := prev[l := n];
      next := next[n := l];
      assert next == NextInsert(old(next), s[j], n) && prev == PrevInsert(old(next), old(prev), s[j], n);
    }

    /** `rt_list_remove`: the node leaves its list and becomes a list of its own. */
    method Remove(n: int, ghost s: seq<int>, ghost k: nat)
      requires Ring(next, prev, s) && k < |s| && s[k] == n
      modifies this
      ensures Ring(next, prev, [n])
      ensures |s| > 1 ==> Ring(next, prev, Removed(s, k))
      ensures Outside(old(next), next, s, n) && Outside(old(prev), prev, s, n)
    {
      assert LinkAt(next, prev, s, k);
      assert Pred(s, k) in s && Succ(s, k) in s;
      ghost var n0, p0 := next, prev;
      prev := prev[next[n] := prev[n]];
      next := next[prev[n] := next[n]];
      if |s| > 1 {
        RemoveRing(n0, p0, s, k);
        assert next == NextRemove(n0, p0, n) && prev == PrevRemove(n0, p0, n);
      }
      ghost var n1, p1 := next, prev;
      next, prev := next[n := n], prev[n := n];
      assert LinkAt(next, prev, [n], 0);
      if |s| > 1 {
        assert n !in Removed(s, k) by { RemovedOut(s, k); }
        OtherRing(n1, p1, next, prev, [], n, Removed(s, k));
      }
    }

    /** `rt_list_isempty` */
    method IsEmpty(l: int, ghost s: seq<int>) returns (r: bool)
      requires Ring(next, prev, s) && s[0] == l
      ensures r <==> s == [l]
    {
      assert LinkAt(next, prev, s, 0);
      r := next[l] == l;
    }

    /** `rt_list_len` */
    method Len(l: int, ghost s: seq<int>) returns (len: nat)
      requires Ring(next, prev, s) && s[0] == l
      ensures len == |s| - 1
    {
      len := 0;
      var p := l;
      assert LinkAt(next, prev, s, 0);
      while next[p] != l
        invariant len < |s| && s[len] == p && p in next
        invariant LinkAt(next, prev, s, len)
        decreases |s| - len
      {
        p := next[p];
        len := len + 1;
        assert LinkAt(next, prev, s, len);
      }
    }
  }

  lemma RemovedOut(s: seq<int>, k: nat)
    requires Distinct(s) && k < |s|
    ensures s[k] !in Removed(s, k) && forall x :: x in Removed(s, k) ==> x in s
  {
    var r := Removed(s, k);
    assert forall i :: 0 <= i < |r| ==> r[i] == if i < k then s[i] else s[i + 1];
  }
}

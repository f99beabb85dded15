/** The suspend list every IPC object keeps: first-come-first-served, or by priority with ties
    in order of arrival.  A smaller number is a more urgent priority. */
module IpcList {

  type Tid = nat
  type Priority = p: nat | p < 256

  datatype Flag = Fifo | Prio

  ghost predicate Distinct<T>(s: seq<T>) {
    forall i, j :: 0 <= i < j < |s| ==> s[i] != s[j]
  }

  ghost predicate Known(list: seq<Tid>, prio: map<Tid, Priority>) {
    forall t :: t in list ==> t in prio
  }

  /** Most urgent first. */
  ghost predicate Sorted(list: seq<Tid>, prio: map<Tid, Priority>)
    requires Known(list, prio)
  {
    forall i, j :: 0 <= i < j < |list| ==> prio[list[i]] <= prio[list[j]]
  }

  /** The list after thread `t` has been put to wait. */
  function Enqueue(list: seq<Tid>, t: Tid, flag: Flag, prio: map<Tid, Priority>): (r: seq<Tid>)
    requires Known(list, prio) && t in prio
    ensures |r| == |list| + 1
  {
    if flag == Fifo then list + [t]
    else if list == [] then [t]
    else if prio[t] < prio[list[0]] then [t] + list
    else [list[0]] + Enqueue(list[1..], t, flag, prio)
  }

  /** Where thread `t` is put: at the end, or in front of the first waiter that is less urgent. */
  function PlaceOf(list: seq<Tid>, t: Tid, flag: Flag, prio: map<Tid, Priority>): (k: nat)
    requires Known(list, prio) && t in prio
    ensures k <= |list|
  {
    if flag == Fifo then |list|
    else if list == [] || prio[t] < prio[list[0]] then 0
    else 1 + PlaceOf(list[1..], t, flag, prio)
  }

  /** Waiting adds `t` at one place and moves nobody else. */
  lemma {:induction false} EnqueueInserts(list: seq<Tid>, t: Tid, flag: Flag, prio: map<Tid, Priority>) returns (k: nat)
    requires Known(list, prio) && t in prio
    ensures k == PlaceOf(list, t, flag, prio)
    ensures k <= |list| && Enqueue(list, t, flag, prio) == list[..k] + [t] + list[k..]
    ensures flag == Fifo ==> k == |list|
    ensures flag == Prio ==> k < |list| ==> prio[t] < prio[list[k]]
    ensures flag == Prio ==> forall i :: 0 <= i < k ==> prio[list[i]] <= prio[t]
  {
    if flag == Fifo {
      k := |list|;
    } else if list == [] || prio[t] < prio[list[0]] {
      k := 0;
    } else {
      var k' := EnqueueInserts(list[1..], t, flag, prio);
      k := k' + 1;
      assert [list[0]] + (list[1..][..k'] + [t] + list[1..][k'..]) == list[..k] + [t] + list[k..];
      forall i | 0 <= i < k ensures prio[list[i]] <= prio[t] {
        if i > 0 { assert list[i] == list[1..][i - 1]; }
      }
    }
  }

  lemma InsertMembers(list: seq<Tid>, k: nat, t: Tid)
    requires k <= |list|
    ensures forall u :: u in list[..k] + [t] + list[k..] <==> u in list || u == t
  {
    assert list == list[..k] + list[k..];
  }

  lemma InsertDistinct(list: seq<Tid>, k: nat, t: Tid)
    requires k <= |list| && t !in list && Distinct(list)
    ensures Distinct(list[..k] + [t] + list[k..])
  {
    var r := list[..k] + [t] + list[k..];
    assert forall i :: 0 <= i < |r| ==> r[i] == if i < k then list[i] else if i == k then t else list[i - 1];
  }

  lemma EnqueueKeeps(list: seq<Tid>, t: Tid, flag: Flag, prio: map<Tid, Priority>)
    requires Known(list, prio) && t in prio
    ensures var r := Enqueue(list, t, flag, prio);
            && Known(r, prio)
            && (forall u :: u in r <==> u in list || u == t)
            && (t !in list && Distinct(list) ==> Distinct(r))
            && r[0] == (if list == [] then t else if flag == Prio && prio[t] < prio[list[0]] then t else list[0])
  {
    var k := EnqueueInserts(list, t, flag, prio);
    InsertMembers(list, k, t);
    if t !in list && Distinct(list) { InsertDistinct(list, k, t); }
  }

  lemma ConsSorted(x: Tid, list: seq<Tid>, prio: map<Tid, Priority>)
    requires Known(list, prio) && Sorted(list, prio) && x in prio
    requires forall u :: u in list ==> prio[x] <= prio[u]
    ensures Known([x] + list, prio) && Sorted([x] + list, prio)
  {
  }

  lemma {:induction false} EnqueueSorted(list: seq<Tid>, t: Tid, prio: map<Tid, Priority>)
    requires Known(list, prio) && t in prio && Sorted(list, prio)
    ensures Known(Enqueue(list, t, Prio, prio), prio) && Sorted(Enqueue(list, t, Prio, prio), prio)
  {
    if list == [] {
    } else {
      SortedTail(list, prio);
      if prio[t] < prio[list[0]] {
        assert list == [list[0]] + list[1..];
        ConsSorted(t, list, prio);
      } else {
        EnqueueSorted(list[1..], t, prio);
        EnqueueKeeps(list[1..], t, Prio, prio);
        ConsSorted(list[0], Enqueue(list[1..], t, Prio, prio), prio);
      }
    }
  }

  lemma SortedTail(list: seq<Tid>, prio: map<Tid, Priority>)
    requires Known(list, prio) && Sorted(list, prio) && list != []
    ensures Known(list[1..], prio) && Sorted(list[1..], prio)
    ensures forall u :: u in list[1..] ==> prio[list[0]] <= prio[u]
  {
    assert forall i :: 0 <= i < |list[1..]| ==> list[1..][i] == list[i + 1];
    forall u | u in list[1..] ensures prio[list[0]] <= prio[u] {
      var k :| 0 <= k < |list[1..]| && list[1..][k] == u;
    }
  }

  function Without(list: seq<Tid>, t: Tid): seq<Tid> {
    if list == [] then []
    else if list[0] == t then Without(list[1..], t)
    else [list[0]] + Without(list[1..], t)
  }

  lemma {:induction false} WithoutKeeps(list: seq<Tid>, t: Tid)
    ensures var r := Without(list, t);
            && (forall u :: u in r <==> u in list && u != t)
            && (Distinct(list) ==> Distinct(r))
            && |r| <= |list| && (t in list ==> |r| < |list|)
  {
    if list == [] {
    } else {
      WithoutKeeps(list[1..], t);
      var r, r1 := Without(list, t), Without(list[1..], t);
      forall u ensures u in r <==> u in list && u != t {
        assert u in list <==> u == list[0] || u in list[1..];
        if list[0] != t { assert u in r <==> u == list[0] || u in r1; }
      }
      if Distinct(list) && list[0] != t {
        assert Distinct(list[1..]);
        assert list[0] !in list[1..];
      }
    }
  }

  lemma {:induction false} WithoutSorted(list: seq<Tid>, t: Tid, prio: map<Tid, Priority>)
    requires Known(list, prio) && Sorted(list, prio)
    ensures Known(Without(list, t), prio) && Sorted(Without(list, t), prio)
  {
    WithoutKeeps(list, t);
    if list == [] {
    } else {
      SortedTail(list, prio);
      WithoutSorted(list[1..], t, prio);
      WithoutKeeps(list[1..], t);
      hide Sorted;
      if list[0] != t { ConsSorted(list[0], Without(list[1..], t), prio); }
    }
  }

  /** `u` stands in front of `v`. */
  ghost predicate Before(list: seq<Tid>, u: Tid, v: Tid) {
    exists i, j :: 0 <= i < j < |list| && list[i] == u && list[j] == v
  }

  lemma EnqueueOrder(list: seq<Tid>, t: Tid, flag: Flag, prio: map<Tid, Priority>, u: Tid, v: Tid)
    requires Known(list, prio) && t in prio && Before(list, u, v)
    ensures Before(Enqueue(list, t, flag, prio), u, v)
  {
    hide Enqueue, PlaceOf;
    var k := EnqueueInserts(list, t, flag, prio);
    StillBefore(list, k, t, u, v);
  }

  lemma StillBefore(list: seq<Tid>, k: nat, t: Tid, u: Tid, v: Tid)
    requires k <= |list| && Before(list, u, v)
    ensures Before(list[..k] + [t] + list[k..], u, v)
  {
    var r := list[..k] + [t] + list[k..];
    var i, j :| 0 <= i < j < |list| && list[i] == u && list[j] == v;
    var i', j' := if i < k then i else i + 1, if j < k then j else j + 1;
    assert r[i'] == u && r[j'] == v;
  }

  lemma BeforeTail(list: seq<Tid>, u: Tid, v: Tid)
    requires list != []
    ensures Before(list, u, v) <==> (list[0] == u && v in list[1..]) || Before(list[1..], u, v)
  {
    var rest := list[1..];
    assert forall i :: 0 < i < |list| ==> list[i] == rest[i - 1];
    if Before(list, u, v) {
      var i, j :| 0 <= i < j < |list| && list[i] == u && list[j] == v;
      assert rest[j - 1] == v;
    }
    if list[0] == u && v in rest {
      var j :| 0 <= j < |rest| && rest[j] == v;
      assert list[j + 1] == v;
    }
    if Before(rest, u, v) {
      var i, j :| 0 <= i < j < |rest| && rest[i] == u && rest[j] == v;
      assert list[i + 1] == u && list[j + 1] == v;
    }
  }

  lemma {:induction false} WithoutOrder(list: seq<Tid>, t: Tid, u: Tid, v: Tid)
    requires u != t && v != t && Before(list, u, v)
    ensures Before(Without(list, t), u, v)
  {
    if list == [] {
    } else {
      BeforeTail(list, u, v);
      WithoutKeeps(list[1..], t);
      if Before(list[1..], u, v) { WithoutOrder(list[1..], t, u, v); }
      if list[0] != t {
        var r := Without(list, t);
        assert r[1..] == Without(list[1..], t);
        BeforeTail(r, u, v);
      }
    }
  }

  /** The insertion loop: walk to the first waiter that is less urgent. */
  method SuspendPlace(list: seq<Tid>, t: Tid, flag: Flag, prio: map<Tid, Priority>) returns (k: nat)
    requires Known(list, prio) && t in prio
    ensures k == PlaceOf(list, t, flag, prio)
  {
    if flag == Fifo {
      return |list|;
    }
    k := 0;
    assert list[0..] == list;
    while k < |list| && !(prio[t] < prio[list[k]])
      invariant k <= |list|
      invariant PlaceOf(list, t, flag, prio) == k + PlaceOf(list[k..], t, flag, prio)
    {
      assert list[k..][1..] == list[k + 1..];
      k := k + 1;
    }
  }

  method SuspendInsert(list: seq<Tid>, t: Tid, flag: Flag, prio: map<Tid, Priority>) returns (r: seq<Tid>)
    requires Known(list, prio) && t in prio
    ensures r == Enqueue(list, t, flag, prio)
  {
    var k := SuspendPlace(list, t, flag, prio);
    ghost var k' := EnqueueInserts(list, t, flag, prio);
    r := list[..k] + [t] + list[k..];
  }
}

/** The intrusive circular list: every operation rewires `next` and `prev` in place, and refines an
    operation on the sequence of nodes. */
module LinuxList {

  /** `null` stands for the two poison addresses, which point at no node. */
  class ListHead {
    var next: ListHead?
    var prev: ListHead?

    constructor ()
      ensures Ring([this])
    {
      next, prev := this, this;
    }
  }

  function After(s: seq<ListHead>, i: nat): ListHead
    requires i < |s|
  {
    if i + 1 < |s| then s[i + 1] else s[0]
  }

  function Before(s: seq<ListHead>, i: nat): ListHead
    requires i < |s|
  {
    if i > 0 then s[i - 1] else s[|s| - 1]
  }

  ghost predicate Distinct(s: seq<ListHead>) {
    forall i, j :: 0 <= i < j < |s| ==> s[i] != s[j]
  }

  /** The nodes of `s`, the list head first, form one circle. */
  ghost predicate Ring(s: seq<ListHead>)
    reads s
  {
    && |s| > 0 && Distinct(s)
    && (forall i {:trigger s[i].next} :: 0 <= i < |s| ==> s[i].next == After(s, i))
    && (forall i {:trigger s[i].prev} :: 0 <= i < |s| ==> s[i].prev == Before(s, i))
  }

  ghost predicate Apart(s: seq<ListHead>, t: seq<ListHead>) {
    forall i, j :: 0 <= i < |s| && 0 <= j < |t| ==> s[i] != t[j]
  }

  function Inserted(s: seq<ListHead>, k: nat, x: ListHead): seq<ListHead>
    requires k <= |s|
  {
    s[..k] + [x] + s[k..]
  }

  function Removed(s: seq<ListHead>, k: nat): seq<ListHead>
    requires k < |s|
  {
    s[..k] + s[k + 1..]
  }

  // ---------- adding ----------

  /** `__list_add`: between node `k` and its successor. */
  method AddBetween(newp: ListHead, prev: ListHead, next: ListHead, ghost s: seq<ListHead>, ghost k: nat)
    requires Ring(s) && newp !in s && k < |s| && prev == s[k] && next == After(s, k)
    modifies newp, prev`next, next`prev
    ensures Ring(Inserted(s, k + 1, newp))
  {
    next.prev := newp;
    newp.next := next;
    newp.prev := prev;
    prev.next := newp;
  }

  method Add(newp: ListHead, head: ListHead, ghost s: seq<ListHead>)
    requires Ring(s) && newp !in s && head == s[0]
    modifies newp, s
    ensures Ring([head, newp] + s[1..])
  {
    AddBetween(newp, head, head.next, s, 0);
    assert Inserted(s, 1, newp) == [head, newp] + s[1..];
  }

  method AddTail(newp: ListHead, head: ListHead, ghost s: seq<ListHead>)
    requires Ring(s) && newp !in s && head == s[0]
    modifies newp, s
    ensures Ring(s + [newp])
  {
    AddBetween(newp, head.prev, head, s, |s| - 1);
    assert Inserted(s, |s|, newp) == s + [newp];
  }

  // ---------- removing ----------

  /** `__list_del` on the neighbours of node `k`. */
  method DelBetween(prev: ListHead, next: ListHead, ghost s: seq<ListHead>, ghost k: nat)
    requires Ring(s) && 1 <= k < |s| && prev == Before(s, k) && next == After(s, k)
    modifies prev`next, next`prev
    ensures Ring(Removed(s, k))
  {
    next.prev := prev;
    prev.next := next;
  }

  method Del(entry: ListHead, ghost s: seq<ListHead>, ghost k: nat)
    requires Ring(s) && 1 <= k < |s| && entry == s[k]
    modifies s
    ensures Ring(Removed(s, k)) && entry.next == null && entry.prev == null
  {
    DelBetween(entry.prev, entry.next, s, k);
    entry.next := null;
    entry.prev := null;
  }

  method DelInit(entry: ListHead, ghost s: seq<ListHead>, ghost k: nat)
    requires Ring(s) && 1 <= k < |s| && entry == s[k]
    modifies s
    ensures Ring(Removed(s, k)) && Ring([entry])
  {
    DelBetween(entry.prev, entry.next, s, k);
    entry.next := entry;
    entry.prev := entry;
  }

  // ---------- moving ----------

  /** Within one list. */
  method Move(list: ListHead, head: ListHead, ghost s: seq<ListHead>, ghost k: nat)
    requires Ring(s) && 1 <= k < |s| && list == s[k] && head == s[0]
    modifies s
    ensures Ring([head, list] + Removed(s, k)[1..])
  {
    DelBetween(list.prev, list.next, s, k);
    Add(list, head, Removed(s, k));
  }

  method MoveTail(list: ListHead, head: ListHead, ghost s: seq<ListHead>, ghost k: nat)
    requires Ring(s) && 1 <= k < |s| && list == s[k] && head == s[0]
    modifies s
    ensures Ring(Removed(s, k) + [list])
  {
    DelBetween(list.prev, list.next, s, k);
    AddTail(list, head, Removed(s, k));
  }

  /** From one list to the front of another. */
  method MoveAcross(list: ListHead, head: ListHead, ghost s: seq<ListHead>, ghost k: nat, ghost t: seq<ListHead>)
    requires Ring(s) && 1 <= k < |s| && list == s[k] && Ring(t) && head == t[0] && Apart(s, t)
    modifies s, t
    ensures Ring(Removed(s, k)) && Ring([head, list] + t[1..])
  {
    DelBetween(list.prev, list.next, s, k);
    label L:
    assert Ring(t);
    ghost var rest := Removed(s, k);
    Add(list, head, t);
    assert forall i :: 0 <= i < |rest| ==> rest[i] in s && rest[i] != list && rest[i] !in t;
    assert forall i :: 0 <= i < |rest| ==> rest[i].next == old@L(rest[i].next) && rest[i].prev == old@L(rest[i].prev);
  }

  // ---------- joining ----------

  method IsEmpty(head: ListHead, ghost s: seq<ListHead>) returns (r: bool)
    requires Ring(s) && head == s[0]
    ensures r <==> s == [head]
  {
    r := head.next == head;
  }

  /** `__list_splice` of a list that is not empty; its head is left out of the result. */
  method SpliceNodes(list: ListHead, head: ListHead, ghost s: seq<ListHead>, ghost t: seq<ListHead>)
    requires Ring(s) && |s| > 1 && list == s[0] && Ring(t) && head == t[0] && Apart(s, t)
    modifies s, t
    ensures Ring([head] + s[1..] + t[1..])
  {
    var first := list.next;
    var last := list.prev;
    var at := head.next;
    first.prev := head;
    head.next := first;
    last.next := at;
    at.prev := last;
    ghost var n, r := |s|, [head] + s[1..] + t[1..];
    assert forall i :: 1 <= i < n ==> r[i] == s[i];
    assert forall i :: n <= i < |r| ==> r[i] == t[i - n + 1];
    assert Distinct(r);
  }

  method SpliceInit(list: ListHead, head: ListHead, ghost s: seq<ListHead>, ghost t: seq<ListHead>)
    requires Ring(s) && list == s[0] && Ring(t) && head == t[0] && Apart(s, t)
    modifies s, t
    ensures Ring([list]) && Ring([head] + s[1..] + t[1..])
  {
    if list.next != list {
      SpliceNodes(list, head, s, t);
      list.next := list;
      list.prev := list;
    } else {
      assert s == [list];
      assert [head] + s[1..] + t[1..] == t;
    }
  }

  // ---------- iterating ----------

  function Kept(xs: seq<ListHead>, drop: ListHead -> bool): (r: seq<ListHead>) {
    if xs == [] then [] else Kept(xs[..|xs| - 1], drop) + if drop(xs[|xs| - 1]) then [] else [xs[|xs| - 1]]
  }

  lemma {:induction false} KeptIn(xs: seq<ListHead>, drop: ListHead -> bool, x: ListHead)
    ensures x in Kept(xs, drop) <==> x in xs && !drop(x)
  {
    if xs != [] {
      var n := |xs| - 1;
      KeptIn(xs[..n], drop, x);
      assert xs == xs[..n] + [xs[n]];
    }
  }

  /** `list_for_each`: forwards over every node but the head. */
  method ForEach(head: ListHead, ghost s: seq<ListHead>) returns (visited: seq<ListHead>)
    requires Ring(s) && head == s[0]
    ensures visited == s[1..]
  {
    visited := [];
    var pos := head.next;
    ghost var i := 1;
    while pos != head
      invariant 1 <= i <= |s| && visited == s[1..i]
      invariant pos == if i < |s| then s[i] else head
      decreases |s| - i
    {
      visited := visited + [pos];
      pos := pos.next;
      i := i + 1;
    }
  }

  /** The circle when the iteration has come to place `i` of the original nodes. */
  function Current(s: seq<ListHead>, drop: ListHead -> bool, i: nat): (cur: seq<ListHead>)
    requires 1 <= i <= |s|
  {
    [s[0]] + Kept(s[1..i], drop) + s[i..]
  }

  lemma CurrentNodes(s: seq<ListHead>, drop: ListHead -> bool, i: nat)
    requires 1 <= i <= |s|
    ensures forall j :: 0 <= j < |Current(s, drop, i)| ==> Current(s, drop, i)[j] in s
  {
    var kept, cur := Kept(s[1..i], drop), Current(s, drop, i);
    forall j | 0 <= j < |cur|
      ensures cur[j] in s
    {
      if 1 <= j <= |kept| {
        assert cur[j] == kept[j - 1] && kept[j - 1] in kept;
        KeptIn(s[1..i], drop, kept[j - 1]);
        var q :| 0 <= q < i - 1 && s[1..i][q] == cur[j];
        assert cur[j] == s[q + 1];
      } else if j > |kept| {
        assert cur[j] == s[i + j - |kept| - 1];
      }
    }
  }

  lemma KeptOneMore(s: seq<ListHead>, drop: ListHead -> bool, i: nat)
    requires 1 <= i < |s|
    ensures Kept(s[1..i + 1], drop) == Kept(s[1..i], drop) + if drop(s[i]) then [] else [s[i]]
  {
    assert s[1..i + 1][..i - 1] == s[1..i];
  }

  lemma InTheMiddle(h: ListHead, kept: seq<ListHead>, x: ListHead, rest: seq<ListHead>)
    ensures
      var cur, k := [h] + kept + ([x] + rest), |kept| + 1;
      && k < |cur| && cur[0] == h && cur[k] == x && After(cur, k) == (if rest == [] then h else rest[0])
      && Removed(cur, k) == [h] + kept + rest && cur == [h] + (kept + [x]) + rest
  {
  }

  lemma OneFurther(s: seq<ListHead>, drop: ListHead -> bool, i: nat)
    requires 1 <= i < |s|
    ensures
      var cur, k := Current(s, drop, i), |Kept(s[1..i], drop)| + 1;
      && k < |cur| && cur[0] == s[0] && cur[k] == s[i] && After(cur, k) == After(s, i)
      && Current(s, drop, i + 1) == if drop(s[i]) then Removed(cur, k) else cur
  {
    hide Kept;
    KeptOneMore(s, drop, i);
    InTheMiddle(s[0], Kept(s[1..i], drop), s[i], s[i + 1..]);
    assert s[i..] == [s[i]] + s[i + 1..];
    assert Kept(s[1..i], drop) + [] == Kept(s[1..i], drop);
  }

  lemma CurrentEnds(s: seq<ListHead>, drop: ListHead -> bool)
    requires |s| > 0
    ensures Current(s, drop, 1) == s && Current(s, drop, |s|) == [s[0]] + Kept(s[1..], drop)
  {
    assert s[1..1] == [] && s[1..|s|] == s[1..];
  }

  method Visit(pos: ListHead, drop: ListHead -> bool, ghost s: seq<ListHead>, ghost i: nat)
    requires 1 <= i < |s| && pos == s[i] && Ring(Current(s, drop, i))
    modifies s
    ensures Ring(Current(s, drop, i + 1)) && old(pos.next) == After(s, i)
  {
    OneFurther(s, drop, i);
    CurrentNodes(s, drop, i);
    ghost var cur, k := Current(s, drop, i), |Kept(s[1..i], drop)| + 1;
    assert cur[k].next == After(cur, k);
    if drop(pos) {
      Del(pos, cur, k);
    }
  }

  /** `list_for_each_entry_safe` with a body that may delete the current node: every node of the
      original list is visited exactly once, in order, and exactly the chosen ones are gone. */
  method ForEachSafe(head: ListHead, ghost s: seq<ListHead>, drop: ListHead -> bool) returns (visited: seq<ListHead>)
    requires Ring(s) && head == s[0]
    modifies s
    ensures visited == s[1..]
    ensures Ring([head] + Kept(s[1..], drop))
  {
    hide Kept;
    visited := [];
    var pos := head.next;
    var n := pos.next;
    ghost var i := 1;
    CurrentEnds(s, drop);
    while pos != head
      invariant 1 <= i <= |s| && visited == s[1..i]
      invariant Ring(Current(s, drop, i))
      invariant pos == (if i < |s| then s[i] else head) && n == pos.next
      decreases |s| - i
    {
      visited := visited + [pos];
      Visit(pos, drop, s, i);
      i := i + 1;
      pos := n;
      n := n.next;
    }
  }
}

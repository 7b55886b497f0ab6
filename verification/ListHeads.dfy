/** include/list.h: circular doubly linked lists of nodes that are embedded in their owners. */
module ListHeads {

  class ListHead {
    var next: ListHead
    var prev: ListHead

    /** `INIT_LIST_HEAD` on a new head. */
    constructor ()
      ensures Ring([this])
    {
      next := this;
      prev := this;
    }
  }

  ghost predicate Distinct(s: seq<ListHead>)
  {
    forall i, j :: 0 <= i < j < |s| ==> s[i] != s[j]
  }

  /** The nodes of `s`, and no others, form one cycle in that order, `next` and `prev` being
      inverse. As a list, `s[0]` is its head and `s[1..]` its entries. */
  ghost predicate Ring(s: seq<ListHead>)
    reads s
  {
    && s != [] && Distinct(s)
    && (forall i {:trigger s[i].next} :: 0 <= i < |s| - 1 ==> s[i].next == s[i + 1])
    && (forall i {:trigger s[i].prev} :: 1 <= i < |s| ==> s[i].prev == s[i - 1])
    && s[|s| - 1].next == s[0] && s[0].prev == s[|s| - 1]
  }

  /** A node of a cycle, and its neighbours. */
  lemma {:induction false} Links(s: seq<ListHead>, i: nat)
    requires Ring(s) && i < |s|
    ensures s[i].next == (if i + 1 < |s| then s[i + 1] else s[0]) && s[i].next in s
    ensures s[i].prev == (if i > 0 then s[i - 1] else s[|s| - 1]) && s[i].prev in s
  {
  }

  /** Walking on to the head is walking to the end. */
  lemma {:induction false} AtHead(s: seq<ListHead>, i: nat)
    requires Ring(s) && 0 < i <= |s| && (i < |s| ==> s[i] == s[0])
    ensures i == |s|
  {
  }

  // ---- Adding and deleting ----

  /** `__list_add`, between two neighbours of a cycle. */
  method AddBetween(cnew: ListHead, before: ListHead, after: ListHead)
    requires cnew != before && cnew != after
    modifies cnew, before, after
    ensures cnew.next == after && cnew.prev == before && before.next == cnew && after.prev == cnew
    ensures before != after ==> after.next == old(after.next) && before.prev == old(before.prev)
  {
    after.prev := cnew;
    cnew.next := after;
    cnew.prev := before;
    before.next := cnew;
  }

  /** `list_add`: right after the head, as on a stack. */
  method ListAdd(cnew: ListHead, head: ListHead, ghost s: seq<ListHead>)
    requires Ring(s) && s[0] == head && cnew !in s
    modifies cnew, head, head.next
    ensures Ring([head, cnew] + s[1..])
  {
    AddBetween(cnew, head, head.next);
  }

  /** `list_add_tail`: right before the head, as on a queue. */
  method ListAddTail(cnew: ListHead, head: ListHead, ghost s: seq<ListHead>)
    requires Ring(s) && s[0] == head && cnew !in s
    modifies cnew, head, head.prev
    ensures Ring(s + [cnew])
  {
    AddBetween(cnew, head.prev, head);
  }

  /** `list_del`: the entry's own links are left as they were. */
  method ListDel(entry: ListHead, ghost s: seq<ListHead>, ghost i: nat)
    requires Ring(s) && 0 < i < |s| && s[i] == entry
    modifies entry.prev, entry.next
    ensures Ring(s[..i] + s[i + 1..])
    ensures entry.next == old(entry.next) && entry.prev == old(entry.prev)
  {
    var p, n := entry.prev, entry.next;
    n.prev := p;
    p.next := n;
  }

  /** `list_move_tail`: to the tail of another list, or of the entry's own. */
  method ListMoveTail(entry: ListHead, head: ListHead, ghost s: seq<ListHead>, ghost i: nat, ghost t: seq<ListHead>)
    requires Ring(s) && 0 < i < |s| && s[i] == entry
    requires Ring(t) && t[0] == head && (t == s || forall x :: x in s ==> x !in t)
    modifies entry, entry.prev, entry.next, head, head.prev
    ensures t != s ==> Ring(s[..i] + s[i + 1..]) && Ring(t + [entry])
    ensures t == s ==> Ring(s[..i] + s[i + 1..] + [entry])
  {
    WithoutEntry(s, i);
    Links(s, i);
    Links(t, 0);
    hide Ring;
    ghost var rest, before, last := s[..i] + s[i + 1..], entry.prev, head.prev;
    assert t != s ==> head != before && head != entry.next by { assert t[0] in t; }
    ListDel(entry, s, i);
    if t == s {
      Links(rest, 0);
      assert head.prev == rest[|rest| - 1];
    } else {
      assert head.prev == last;
    }
    ghost var onto := if t == s then rest else t;
    ListAddTail(entry, head, onto);
  }

  /** `list_move`: to the front of another list, or of the entry's own. */
  method ListMove(entry: ListHead, head: ListHead, ghost s: seq<ListHead>, ghost i: nat, ghost t: seq<ListHead>)
    requires Ring(s) && 0 < i < |s| && s[i] == entry
    requires Ring(t) && t[0] == head && (t == s || forall x :: x in s ==> x !in t)
    modifies entry, entry.prev, entry.next, head, head.next
    ensures t != s ==> Ring(s[..i] + s[i + 1..]) && Ring([head, entry] + t[1..])
    ensures t == s ==> Ring([head, entry] + (s[1..i] + s[i + 1..]))
  {
    WithoutEntry(s, i);
    Links(s, i);
    Links(t, 0);
    hide Ring;
    ghost var rest, after, first := s[..i] + s[i + 1..], entry.next, head.next;
    assert t != s ==> head != after && head != entry.prev by { assert t[0] in t; }
    ListDel(entry, s, i);
    if t == s {
      Links(rest, 0);
      assert head.next == if |rest| > 1 then rest[1] else rest[0];
    } else {
      assert head.next == first;
    }
    ghost var onto := if t == s then rest else t;
    ListAdd(entry, head, onto);
    assert t == s ==> onto[1..] == s[1..i] + s[i + 1..];
  }

  /** What is left without the entry. */
  lemma {:induction false} WithoutEntry(s: seq<ListHead>, i: nat)
    requires Distinct(s) && 0 < i < |s|
    ensures var rest := s[..i] + s[i + 1..];
            && rest[1..] == s[1..i] + s[i + 1..] && s[i] !in rest && (forall x :: x in rest ==> x in s)
            && (rest[|rest| - 1] == s[|s| - 1] || rest[|rest| - 1] == s[i - 1])
            && (rest[if |rest| > 1 then 1 else 0] == s[1] || rest[if |rest| > 1 then 1 else 0] == s[if i + 1 < |s| then i + 1 else 0])
  {
    var rest := s[..i] + s[i + 1..];
    forall j | 0 <= j < |rest|
      ensures rest[j] in s && rest[j] != s[i]
    {
      assert rest[j] == s[if j < i then j else j + 1];
    }
  }

  // ---- Asking ----

  method ListEmpty(head: ListHead, ghost s: seq<ListHead>) returns (empty: bool)
    requires Ring(s) && s[0] == head
    ensures empty <==> |s| == 1
  {
    empty := head.next == head;
  }

  method ListIsSingular(head: ListHead, ghost s: seq<ListHead>) returns (one: bool)
    requires Ring(s) && s[0] == head
    ensures one <==> |s| == 2
  {
    one := head.next != head && head.next == head.prev;
  }

  /** `list_for_each` meets every entry once, in order. */
  method ListForEach(head: ListHead, ghost s: seq<ListHead>) returns (entries: seq<ListHead>)
    requires Ring(s) && s[0] == head
    ensures entries == s[1..]
  {
    entries := [];
    var pos := head.next;
    while pos != head
      invariant |entries| < |s| && entries == s[1..|entries| + 1]
      invariant pos == if |entries| + 1 < |s| then s[|entries| + 1] else head
      decreases |s| - |entries|
    {
      entries := entries + [pos];
      pos := pos.next;
    }
  }

  // ---- Deleting while walking ----

  function Filtered(s: seq<ListHead>, keep: ListHead -> bool): seq<ListHead>
  {
    if s == [] then [] else Filtered(s[..|s| - 1], keep) + (if keep(s[|s| - 1]) then [s[|s| - 1]] else [])
  }

  /** `list_for_each` with `list_del` and a step back to the previous node: it meets every entry
      once, in order, and leaves those to keep, in order. */
  method ListForEachDeleting(head: ListHead, keep: ListHead -> bool, ghost s: seq<ListHead>)
    returns (entries: seq<ListHead>)
    requires Ring(s) && s[0] == head
    modifies s
    ensures entries == s[1..]
    ensures Ring([head] + Filtered(s[1..], keep))
  {
    entries := [];
    ghost var ring, d := s, 1;
    Links(s, 0);
    WalkStarts(s, keep);
    hide Ring, Walked;
    var plist := head.next;
    while plist != head
      invariant Ring(ring) && Walked(ring, d, s, entries, keep)
      invariant 1 <= d <= |ring| && ring[0] == head && (forall x :: x in ring ==> x in s)
      invariant plist == if d < |ring| then ring[d] else head
      decreases |ring| - d
    {
      Links(ring, d);
      WalkGoesOn(ring, d, s, entries, keep);
      entries := entries + [plist];
      if keep(plist) {
        d := d + 1;
        Links(ring, d - 1);
      } else {
        var prev := plist.prev;
        ListDel(plist, ring, d);
        ring := ring[..d] + ring[d + 1..];
        plist := prev;
        Links(ring, d - 1);
      }
      plist := plist.next;
    }
    AtHead(ring, d);
    WalkEnds(ring, s, entries, keep);
  }

  // The walk as sequences: `ring[..d]` is what it kept, `ring[d..]` what is to come.

  ghost predicate Walked(ring: seq<ListHead>, d: nat, s: seq<ListHead>, entries: seq<ListHead>, keep: ListHead -> bool)
  {
    && 1 <= d <= |ring| && |entries| < |s| && entries == s[1..|entries| + 1] && ring[d..] == s[|entries| + 1..]
    && ring[..d] == [s[0]] + Filtered(entries, keep)
  }

  lemma {:induction false} WalkStarts(s: seq<ListHead>, keep: ListHead -> bool)
    requires s != []
    ensures Walked(s, 1, s, [], keep)
  {
    assert s[..1] == [s[0]] + [];
  }

  /** Over the entry at `d`, or without it. */
  lemma {:induction false} WalkGoesOn(ring: seq<ListHead>, d: nat, s: seq<ListHead>, entries: seq<ListHead>, keep: ListHead -> bool)
    requires Walked(ring, d, s, entries, keep) && d < |ring|
    ensures keep(ring[d]) ==> Walked(ring, d + 1, s, entries + [ring[d]], keep)
    ensures var r := ring[..d] + ring[d + 1..];
            && (!keep(ring[d]) ==> Walked(r, d, s, entries + [ring[d]], keep))
            && r[0] == ring[0] && r[d - 1] == ring[d - 1] && (d < |r| ==> r[d] == ring[d + 1])
            && forall x :: x in r ==> x in ring
  {
    var n, r := |entries|, ring[..d] + ring[d + 1..];
    assert ring[d..][0] == s[n + 1..][0] && ring[d..][1..] == s[n + 1..][1..];
    assert s[1..n + 1] + [ring[d]] == s[1..n + 2];
    assert ring[..d + 1] == ring[..d] + [ring[d]] && r[..d] == ring[..d] && r[d..] == ring[d + 1..];
    FilteredOne(entries, ring[d], keep);
  }

  lemma {:induction false} WalkEnds(ring: seq<ListHead>, s: seq<ListHead>, entries: seq<ListHead>, keep: ListHead -> bool)
    requires Walked(ring, |ring|, s, entries, keep)
    ensures entries == s[1..] && ring == [s[0]] + Filtered(s[1..], keep)
  {
    assert |s[|entries| + 1..]| == 0;
    assert entries == s[1..] && ring == ring[..|ring|];
  }

  lemma {:induction false} FilteredOne(s: seq<ListHead>, x: ListHead, keep: ListHead -> bool)
    ensures Filtered(s + [x], keep) == Filtered(s, keep) + (if keep(x) then [x] else [])
  {
    assert (s + [x])[..|s|] == s;
  }

  // ---- Joining and cutting ----

  lemma {:induction false} Apart(l: seq<ListHead>, s: seq<ListHead>)
    requires Distinct(l) && Distinct(s) && l != [] && s != [] && forall x :: x in l ==> x !in s
    ensures forall i, j :: 0 <= i < |l| && 0 <= j < |s| ==> l[i] != s[j]
    ensures Distinct(s + l[1..]) && Distinct([s[0]] + l[1..] + s[1..])
  {
    assert forall i :: 0 <= i < |l| ==> l[i] in l;
    assert forall j :: 0 <= j < |s| ==> s[j] in s;
  }

  /** `list_splice`: the entries of `list` go right after `head`; `list` itself is left as it
      was. */
  method ListSplice(list: ListHead, head: ListHead, ghost l: seq<ListHead>, ghost s: seq<ListHead>)
    requires Ring(l) && l[0] == list && Ring(s) && s[0] == head && forall x :: x in l ==> x !in s
    modifies l, s
    ensures Ring([head] + l[1..] + s[1..])
    ensures list.next == old(list.next) && list.prev == old(list.prev)
  {
    if list.next != list {
      var first, last, after := list.next, list.prev, head.next;
      assert first == l[1] && last == l[|l| - 1];
      Apart(l, s);
      first.prev := head;
      head.next := first;
      last.next := after;
      after.prev := last;
    } else {
      assert |l| == 1;
      assert [head] + l[1..] + s[1..] == s;
    }
  }

  /** `list_splice_tail`: the entries of `list` go right before `head`. */
  method ListSpliceTail(list: ListHead, head: ListHead, ghost l: seq<ListHead>, ghost s: seq<ListHead>)
    requires Ring(l) && l[0] == list && Ring(s) && s[0] == head && forall x :: x in l ==> x !in s
    modifies l, s
    ensures Ring(s + l[1..])
    ensures list.next == old(list.next) && list.prev == old(list.prev)
  {
    if list.next != list {
      var first, last, before := list.next, list.prev, head.prev;
      assert first == l[1] && last == l[|l| - 1];
      Apart(l, s);
      first.prev := before;
      before.next := first;
      last.next := head;
      head.prev := last;
    } else {
      assert |l| == 1;
      assert s + l[1..] == s;
    }
  }

  /** `__list_cut_position`: the entries up to and including `entry`, of which there is one at
      least, go to `list`. */
  method CutAfter(list: ListHead, head: ListHead, entry: ListHead, ghost s: seq<ListHead>, ghost i: nat)
    requires Ring(s) && s[0] == head && 0 < i < |s| && s[i] == entry && list !in s
    modifies list, s
    ensures Ring([list] + s[1..i + 1])
    ensures Ring([head] + s[i + 1..])
  {
    var newFirst := entry.next;
    assert newFirst == if i + 1 < |s| then s[i + 1] else head;
    list.next := head.next;
    list.next.prev := list;
    list.prev := entry;
    entry.next := list;
    head.next := newFirst;
    newFirst.prev := head;
    ghost var l, rest := [list] + s[1..i + 1], [head] + s[i + 1..];
    assert forall j :: 0 <= j < |l| ==> l[j] == if j == 0 then list else s[j];
    assert forall j :: 0 <= j < |rest| ==> rest[j] == if j == 0 then head else s[j + i];
  }

  /** `list_cut_position`: the entries up to and including `entry` go to `list`. When `head`
      is empty `list` is not touched, and with it whatever it held. */
  method ListCutPosition(list: ListHead, head: ListHead, entry: ListHead, ghost s: seq<ListHead>, ghost i: nat)
    requires Ring(s) && s[0] == head && i < |s| && s[i] == entry && list !in s
    modifies list, s
    ensures |s| == 1 ==> list.next == old(list.next) && list.prev == old(list.prev)
    ensures |s| > 1 ==> Ring([list] + s[1..i + 1])
    ensures Ring([head] + s[i + 1..])
  {
    AtFirst(s, i);
    hide Ring;
    var empty := ListEmpty(head, s);
    if empty {
      assert [head] + s[i + 1..] == s;
      return;
    }
    var one := ListIsSingular(head, s);
    if one && head.next != entry && head != entry {
      assert false;
      return;
    }
    if entry == head {
      assert [list] + s[1..1] == [list] && [head] + s[1..] == s;
      list.next := list;
      list.prev := list;
      Alone(list);
    } else {
      CutAfter(list, head, entry, s, i);
    }
  }

  lemma {:induction false} AtFirst(s: seq<ListHead>, i: nat)
    requires Ring(s) && i < |s|
    ensures s[i] == s[0] <==> i == 0
    ensures |s| == 2 ==> s[0].next == s[1]
  {
  }

  lemma Alone(x: ListHead)
    requires x.next == x && x.prev == x
    ensures Ring([x])
  {
  }

  /** Cutting into an empty list and splicing back is the identity on the list. */
  method CutThenSplice(list: ListHead, head: ListHead, entry: ListHead, ghost s: seq<ListHead>, ghost i: nat)
    requires Ring(s) && s[0] == head && i < |s| && s[i] == entry && list !in s && Ring([list])
    modifies list, s
    ensures Ring(s)
  {
    ListCutPosition(list, head, entry, s, i);
    ghost var l, rest := [list] + s[1..i + 1], [head] + s[i + 1..];
    CutParts(list, s, i);
    ListSplice(list, head, l, rest);
  }

  lemma {:induction false} CutParts(list: ListHead, s: seq<ListHead>, i: nat)
    requires Distinct(s) && i < |s| && list !in s
    ensures var l, rest := [list] + s[1..i + 1], [s[0]] + s[i + 1..];
            && (forall x :: x in l ==> x == list || x in s) && (forall x :: x in rest ==> x in s)
            && (forall x :: x in l ==> x !in rest)
            && [s[0]] + l[1..] + rest[1..] == s
  {
    var l, rest := [list] + s[1..i + 1], [s[0]] + s[i + 1..];
    assert l[1..] == s[1..i + 1] && rest[1..] == s[i + 1..];
    assert forall j :: 0 <= j < |l| ==> l[j] == if j == 0 then list else s[j];
    assert forall j :: 0 <= j < |rest| ==> rest[j] == if j == 0 then s[0] else s[j + i];
  }
}

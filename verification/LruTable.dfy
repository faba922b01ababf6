/**
 The bounded LRU table of the native flow engine: a slab of nodes threaded on a doubly
 linked list (oldest at `head`), a free list of dead slots, and a key index.
 */
module LruTables {
  import opened Prelude
  import opened OrderedDict

  /** `usize::MAX` in the source: the end of the list. */
  const NIL: int := -1

  datatype Node<K, V> = Node(key: K, state: V, prev: int, next: int)

  type Slab<K, V> = seq<Option<Node<K, V>>>

  predicate Live<K, V>(nodes: Slab<K, V>, slot: int) {
    0 <= slot < |nodes| && nodes[slot].Some?
  }

  ghost predicate AllLive<K, V>(nodes: Slab<K, V>, order: seq<nat>) {
    forall i {:trigger order[i]} :: 0 <= i < |order| ==> Live(nodes, order[i])
  }

  /** The element of `order` at position `i`, or NIL off either end. */
  ghost function At(order: seq<nat>, i: int): int {
    if 0 <= i < |order| then order[i] else NIL
  }

  ghost function Without<T>(s: seq<T>, i: nat): seq<T>
    requires i < |s|
  {
    s[..i] + s[i + 1..]
  }

  /** The links of the node at position `i` are its neighbours in `order`. */
  ghost predicate LinkAt<K, V>(nodes: Slab<K, V>, order: seq<nat>, i: int)
    requires AllLive(nodes, order) && 0 <= i < |order|
  {
    nodes[order[i]].value.prev == At(order, i - 1) && nodes[order[i]].value.next == At(order, i + 1)
  }

  /** `order` is the list read from head to tail, and every link agrees with it. */
  ghost predicate Linked<K, V>(nodes: Slab<K, V>, order: seq<nat>, head: int, tail: int) {
    && Distinct(order)
    && AllLive(nodes, order)
    && head == At(order, 0)
    && tail == At(order, |order| - 1)
    && (forall i {:trigger LinkAt(nodes, order, i)} :: 0 <= i < |order| ==> LinkAt(nodes, order, i))
  }

  /** The index maps exactly the keys on the list, each to its slot. */
  ghost predicate Indexed<K, V>(nodes: Slab<K, V>, order: seq<nat>, index: map<K, nat>) {
    && |index| == |order|
    && AllLive(nodes, order)
    && (forall i {:trigger order[i]} :: 0 <= i < |order| ==>
          nodes[order[i]].value.key in index && index[nodes[order[i]].value.key] == order[i])
    && (forall k :: k in index ==> index[k] in order && nodes[index[k]].value.key == k)
  }

  /** The free list holds every dead slot once, and nothing else; every live slot is on the list. */
  ghost predicate FreeExact<K, V>(nodes: Slab<K, V>, order: seq<nat>, free: seq<nat>) {
    && Distinct(free)
    && (forall s :: s in free ==> s < |nodes|)
    && (forall s {:trigger nodes[s]} :: 0 <= s < |nodes| ==> (s in free <==> nodes[s].None?))
    && (forall s {:trigger nodes[s]} :: 0 <= s < |nodes| ==> (s in order <==> nodes[s].Some?))
  }

  ghost function Pair<K, V>(nodes: Slab<K, V>, slot: int): (K, V)
    requires Live(nodes, slot)
  {
    (nodes[slot].value.key, nodes[slot].value.state)
  }

  /** The key/value pairs in list order. */
  ghost function Entries<K, V>(nodes: Slab<K, V>, order: seq<nat>): (d: Dict<K, V>)
    requires AllLive(nodes, order)
    ensures |d| == |order|
    ensures forall i {:trigger d[i]} :: 0 <= i < |order| ==> Live(nodes, order[i]) && d[i] == Pair(nodes, order[i])
  {
    if order == [] then [] else
      assert forall i :: 0 <= i < |order[1..]| ==> order[1..][i] == order[i + 1];
      [Pair(nodes, order[0])] + Entries(nodes, order[1..])
  }

  /** Only links differ between the two slabs. */
  ghost predicate SamePayload<K, V>(a: Slab<K, V>, b: Slab<K, V>) {
    && |a| == |b|
    && forall s {:trigger a[s]} {:trigger b[s]} :: 0 <= s < |a| ==>
         a[s].Some? == b[s].Some? &&
         (a[s].Some? ==> a[s].value.key == b[s].value.key && a[s].value.state == b[s].value.state)
  }

  class LruTable<K(==), V> {
    var index: map<K, nat>
    var nodes: Slab<K, V>
    var free: seq<nat>
    var head: int
    var tail: int
    const max: Pos
    ghost var order: seq<nat>

    ghost predicate Valid()
      reads this
    {
      && Linked(nodes, order, head, tail)
      && Indexed(nodes, order, index)
      && FreeExact(nodes, order, free)
      && |order| <= max
    }

    /** The abstract value: what the Python `OrderedDict` would hold. */
    ghost function Contents(): (d: Dict<K, V>)
      requires Valid()
      reads this
      ensures WellFormed(d) && |d| == |index| <= max
    {
      Entries(nodes, order)
    }

    constructor (max: Pos)
      ensures Valid() && Contents() == [] && this.max == max
    {
      index, nodes, free, head, tail := map[], [], [], NIL, NIL;
      this.max := max;
      order := [];
    }

    method Unlink(slot: nat, ghost p: nat)
      requires Linked(nodes, order, head, tail)
      requires p < |order| && order[p] == slot
      modifies this`nodes, this`head, this`tail, this`order
      ensures order == Without(old(order), p)
      ensures Linked(nodes, order, head, tail)
      ensures SamePayload(old(nodes), nodes)
    {
      assert LinkAt(nodes, order, p);
      var prev, next := nodes[slot].value.prev, nodes[slot].value.next;
      UnlinkKeepsLinked(nodes, order, head, tail, p);
      if prev == NIL {
        head := next;
      } else {
        nodes := SetNext(nodes, prev, next);
      }
      if next == NIL {
        tail := prev;
      } else {
        nodes := SetPrev(nodes, next, prev);
      }
      order := Without(order, p);
    }

    method LinkTail(slot: nat)
      requires Linked(nodes, order, head, tail)
      requires Live(nodes, slot) && slot !in order
      modifies this`nodes, this`head, this`tail, this`order
      ensures order == old(order) + [slot]
      ensures Linked(nodes, order, head, tail)
      ensures SamePayload(old(nodes), nodes)
    {
      LinkTailKeepsLinked(nodes, order, head, tail, slot);
      nodes := SetNext(SetPrev(nodes, slot, tail), slot, NIL);
      if tail == NIL {
        head := slot;
      } else {
        nodes := SetNext(nodes, tail, slot);
      }
      tail := slot;
      order := order + [slot];
    }

    method MoveToTail(slot: nat, ghost p: nat)
      requires Linked(nodes, order, head, tail)
      requires p < |order| && order[p] == slot
      modifies this`nodes, this`head, this`tail, this`order
      ensures order == Without(old(order), p) + [slot]
      ensures Linked(nodes, order, head, tail)
      ensures SamePayload(old(nodes), nodes)
    {
      Unlink(slot, p);
      assert slot !in order by { WithoutMembers(old(order), p); }
      LinkTail(slot);
    }

    /** Look up and mark most recently used. The slot stands for the `&mut` the source returns. */
    method GetMut(key: K) returns (slot: Option<nat>)
      requires Valid()
      modifies this
      ensures Valid()
      ensures slot.None? <==> !Has(old(Contents()), key)
      ensures slot.None? ==> Contents() == old(Contents())
      ensures slot.Some? ==> order != [] && slot.value == order[|order| - 1]
      ensures slot.Some? <==> Lookup(old(Contents()), key).Some?
      ensures slot.Some? ==> Contents() == PutLast(old(Contents()), key, Lookup(old(Contents()), key).value)
    {
      KeyPosition(nodes, order, index, key);
      LookupAbsent(Contents(), key);
      if key !in index {
        return None;
      }
      var s := index[key];
      ghost var p :| 0 <= p < |order| && order[p] == s;
      PutLastAt(nodes, order, p);
      Touch(s, p);
      slot := Some(s);
    }

    method Touch(slot: nat, ghost p: nat)
      requires Valid() && p < |order| && order[p] == slot
      modifies this
      ensures Valid() && order != [] && order[|order| - 1] == slot
      ensures Contents() == Without(old(Contents()), p) + [old(Contents())[p]]
    {
      if tail != slot {
        MoveToTail(slot, p);
        MovePosition(old(nodes), nodes, old(order), index, free, p);
      }
    }

    /** Write through the reference `GetMut` returned. */
    method Store(slot: nat, state: V, ghost p: nat)
      requires Valid()
      requires p < |order| && order[p] == slot
      modifies this`nodes
      ensures Valid()
      ensures Contents() == old(Contents())[p := (old(Contents())[p].0, state)]
    {
      nodes := nodes[slot := Some(nodes[slot].value.(state := state))];
      StoreKeepsLinked(old(nodes), nodes, order, head, tail);
      StoreEntries(old(nodes), nodes, order, p, state);
    }

    method Pop(key: K) returns (state: Option<V>)
      requires Valid()
      modifies this
      ensures Valid()
      ensures state == Lookup(old(Contents()), key)
      ensures Contents() == Delete(old(Contents()), key)
    {
      KeyPosition(nodes, order, index, key);
      if key !in index {
        DeleteAbsent(Contents(), key);
        LookupAbsent(Contents(), key);
        return None;
      }
      var slot := index[key];
      ghost var p :| 0 <= p < |order| && order[p] == slot;
      index := index - {key};
      var node := Take(slot, p);
      Popped(old(nodes), nodes, old(order), old(index), old(free), p, key);
      state := Some(node.state);
    }

    /** Unlink a slot, empty it and put it on the free list. */
    method Take(slot: nat, ghost p: nat) returns (node: Node<K, V>)
      requires Linked(nodes, order, head, tail)
      requires p < |order| && order[p] == slot
      modifies this`nodes, this`head, this`tail, this`order, this`free
      ensures order == Without(old(order), p) && free == old(free) + [slot]
      ensures Linked(nodes, order, head, tail)
      ensures Removed(old(nodes), nodes, slot)
      ensures (node.key, node.state) == Pair(old(nodes), slot)
    {
      Unlink(slot, p);
      node := nodes[slot].value;
      ghost var unlinked := nodes;
      nodes := nodes[slot := None];
      free := free + [slot];
      assert forall i {:trigger order[i]} :: 0 <= i < |order| ==> order[i] != slot by {
        WithoutAt(old(order), p);
      }
      LinkedFrame(unlinked, nodes, order, head, tail);
    }

    /** Insert an absent key, evicting the oldest entry when the table is full. */
    method Insert(key: K, state: V) returns (evicted: Option<V>)
      requires Valid() && !Has(Contents(), key)
      modifies this
      ensures Valid()
      ensures Contents() == EvictOldest(old(Contents()), max) + [(key, state)]
      ensures evicted == if |old(Contents())| >= max && old(Contents()) != [] then Some(old(Contents())[0].1) else None
    {
      evicted := MakeRoom(key);
      Append(key, state);
    }

    method Append(key: K, state: V)
      requires Valid() && !Has(Contents(), key) && |Contents()| < max
      modifies this
      ensures Valid() && Contents() == old(Contents()) + [(key, state)]
    {
      KeyPosition(nodes, order, index, key);
      var slot := Place(Node(key, state, NIL, NIL));
      ghost var placed := nodes;
      LinkTail(slot);
      Appended(old(nodes), placed, nodes, old(order), index, free, key, slot);
      index := index[key := slot];
    }

    /** Put a node in a free slot, or in a new one. It is not on the list yet. */
    method Place(node: Node<K, V>) returns (slot: nat)
      requires Linked(nodes, order, head, tail) && FreeExact(nodes, order, free)
      modifies this`nodes, this`free
      ensures slot !in order && slot < |nodes| && nodes[slot] == Some(node)
      ensures SameOn(old(nodes), nodes, order)
      ensures Linked(nodes, order, head, tail) && FreeExact(nodes, order + [slot], free)
    {
      if free != [] {
        slot := free[|free| - 1];
        assert free == free[..|free| - 1] + [slot];
        ReuseFree(nodes, order, free[..|free| - 1], slot, node);
        nodes := nodes[slot := Some(node)];
        free := free[..|free| - 1];
      } else {
        nodes := nodes + [Some(node)];
        slot := |nodes| - 1;
      }
      LinkedFrame(old(nodes), nodes, order, head, tail);
    }

    method MakeRoom(key: K) returns (evicted: Option<V>)
      requires Valid() && !Has(Contents(), key)
      modifies this
      ensures Valid() && !Has(Contents(), key)
      ensures Contents() == EvictOldest(old(Contents()), max)
      ensures |Contents()| < max
      ensures evicted == if |old(Contents())| >= max && old(Contents()) != [] then Some(old(Contents())[0].1) else None
    {
      evicted := None;
      if |index| >= max && head != NIL {
        DeleteAt(Contents(), 0);
        evicted := Pop(nodes[head].value.key);
      }
    }

    /** Slots oldest first. */
    method Slots() returns (out: seq<nat>)
      requires Valid()
      ensures out == order
      ensures forall i :: 0 <= i < |out| ==> Live(nodes, out[i]) && Pair(nodes, out[i]) == Contents()[i]
    {
      out := [];
      var cursor := head;
      while cursor != NIL
        invariant |out| <= |order|
        invariant forall i :: 0 <= i < |out| ==> out[i] == order[i]
        invariant cursor == At(order, |out|)
        decreases |order| - |out|
      {
        assert LinkAt(nodes, order, |out|);
        out := out + [cursor];
        cursor := nodes[cursor].value.next;
      }
    }

    /** Needs nothing of the fields: it also repairs a table whose links are half-updated. */
    method Clear()
      modifies this
      ensures Valid() && Contents() == []
    {
      index, nodes, free, head, tail := map[], [], [], NIL, NIL;
      order := [];
    }
  }

  // ---------------------------------------------------------- what each edit keeps

  lemma KeyPosition<K, V>(nodes: Slab<K, V>, order: seq<nat>, index: map<K, nat>, key: K)
    requires Indexed(nodes, order, index)
    ensures key in index <==> Has(Entries(nodes, order), key)
    ensures key in index ==> exists p :: 0 <= p < |order| && order[p] == index[key]
  {
    var d := Entries(nodes, order);
    if key in index {
      var p :| 0 <= p < |order| && order[p] == index[key];
      assert d[p].0 == key;
    }
  }

  lemma WithoutMembers<T>(s: seq<T>, p: nat)
    requires Distinct(s) && p < |s|
    ensures forall x :: x in Without(s, p) <==> x in s && x != s[p]
  {
    WithoutAt(s, p);
    forall x | x in s && x != s[p] ensures x in Without(s, p) {
      var i :| 0 <= i < |s| && s[i] == x;
      assert Without(s, p)[if i < p then i else i - 1] == x;
    }
  }

  /** `after` is `before` with `slot` emptied and possibly other links. */
  ghost predicate Removed<K, V>(before: Slab<K, V>, after: Slab<K, V>, slot: nat) {
    && |after| == |before| && Live(before, slot) && after[slot].None?
    && forall s {:trigger after[s]} {:trigger before[s]} :: 0 <= s < |before| && s != slot ==>
         after[s].Some? == before[s].Some? &&
         (after[s].Some? ==> after[s].value.key == before[s].value.key && after[s].value.state == before[s].value.state)
  }

  lemma EntriesWithout<K, V>(before: Slab<K, V>, after: Slab<K, V>, order: seq<nat>, p: nat)
    requires AllLive(before, order) && p < |order|
    requires AllLive(after, Without(order, p)) && Removed(before, after, order[p])
    ensures Entries(after, Without(order, p)) == Without(Entries(before, order), p)
  {
    WithoutAt(order, p);
    WithoutAt(Entries(before, order), p);
  }

  /** What taking out the slot of a key leaves. */
  lemma Popped<K, V>(
    before: Slab<K, V>, after: Slab<K, V>, order: seq<nat>, index: map<K, nat>, free: seq<nat>, p: nat, key: K)
    requires Distinct(order) && Indexed(before, order, index) && FreeExact(before, order, free) && p < |order|
    requires key == before[order[p]].value.key && WellFormed(Entries(before, order))
    requires Removed(before, after, order[p]) && AllLive(after, Without(order, p))
    ensures Indexed(after, Without(order, p), index - {key})
    ensures FreeExact(after, Without(order, p), free + [order[p]])
    ensures Entries(after, Without(order, p)) == Delete(Entries(before, order), key)
    ensures Lookup(Entries(before, order), key) == Some(before[order[p]].value.state)
  {
    DeleteAt(Entries(before, order), p);
    RemoveIndexed(before, after, order, index, p);
    RemoveFree(before, after, order, free, p);
    EntriesWithout(before, after, order, p);
  }

  lemma MoveEntries<K, V>(before: Slab<K, V>, after: Slab<K, V>, order: seq<nat>, p: nat)
    requires AllLive(before, order) && p < |order| && SamePayload(before, after)
    requires AllLive(after, Without(order, p) + [order[p]])
    ensures Entries(after, Without(order, p) + [order[p]]) ==
            Without(Entries(before, order), p) + [Entries(before, order)[p]]
  {
    WithoutAt(order, p);
    WithoutAt(Entries(before, order), p);
  }

  lemma MovePosition<K, V>(
    before: Slab<K, V>, after: Slab<K, V>, order: seq<nat>, index: map<K, nat>, free: seq<nat>, p: nat)
    requires Distinct(order) && Indexed(before, order, index) && FreeExact(before, order, free) && p < |order|
    requires SamePayload(before, after)
    ensures
      var moved := Without(order, p) + [order[p]];
      && Indexed(after, moved, index) && FreeExact(after, moved, free)
      && Entries(after, moved) == Without(Entries(before, order), p) + [Entries(before, order)[p]]
  {
    var moved := Without(order, p) + [order[p]];
    assert forall x :: x in moved <==> x in order by { WithoutMembers(order, p); }
    IndexedFrame(before, after, order, moved, index);
    MoveEntries(before, after, order, p);
  }

  lemma PutLastAt<K, V>(nodes: Slab<K, V>, order: seq<nat>, p: nat)
    requires AllLive(nodes, order) && p < |order| && WellFormed(Entries(nodes, order))
    ensures
      var d := Entries(nodes, order);
      && Lookup(d, d[p].0) == Some(d[p].1)
      && PutLast(d, d[p].0, d[p].1) == Without(d, p) + [d[p]]
  {
    DeleteAt(Entries(nodes, order), p);
  }

  /** The list does not see changes to slots that are not on it. */
  lemma LinkedFrame<K, V>(before: Slab<K, V>, after: Slab<K, V>, order: seq<nat>, head: int, tail: int)
    requires Linked(before, order, head, tail)
    requires forall i {:trigger order[i]} :: 0 <= i < |order| ==>
      order[i] < |after| && after[order[i]] == before[order[i]]
    ensures Linked(after, order, head, tail)
  {
    forall i | 0 <= i < |order| ensures LinkAt(after, order, i) {
      assert LinkAt(before, order, i);
    }
  }

  lemma StoreKeepsLinked<K, V>(before: Slab<K, V>, after: Slab<K, V>, order: seq<nat>, head: int, tail: int)
    requires Linked(before, order, head, tail) && |before| == |after|
    requires forall s {:trigger after[s]} :: 0 <= s < |before| ==>
      && after[s].Some? == before[s].Some?
      && (after[s].Some? ==> after[s].value.prev == before[s].value.prev && after[s].value.next == before[s].value.next)
    ensures Linked(after, order, head, tail)
  {
    forall i | 0 <= i < |order| ensures LinkAt(after, order, i) {
      assert LinkAt(before, order, i);
    }
  }

  lemma StoreEntries<K, V>(before: Slab<K, V>, after: Slab<K, V>, order: seq<nat>, p: nat, state: V)
    requires Distinct(order) && AllLive(before, order) && p < |order|
    requires after == before[order[p] := Some(before[order[p]].value.(state := state))]
    ensures AllLive(after, order)
    ensures Entries(after, order) == Entries(before, order)[p := (Entries(before, order)[p].0, state)]
  {
  }

  lemma IndexedFrame<K, V>(before: Slab<K, V>, after: Slab<K, V>, order: seq<nat>, moved: seq<nat>, index: map<K, nat>)
    requires Indexed(before, order, index) && SamePayload(before, after) && |moved| == |order|
    requires forall x :: x in moved <==> x in order
    ensures Indexed(after, moved, index)
  {
    forall i | 0 <= i < |moved|
      ensures Live(after, moved[i])
      ensures after[moved[i]].value.key in index && index[after[moved[i]].value.key] == moved[i]
    {
      assert moved[i] in order;
    }
  }

  lemma RemoveIndexed<K, V>(before: Slab<K, V>, after: Slab<K, V>, order: seq<nat>, index: map<K, nat>, p: nat)
    requires Distinct(order) && Indexed(before, order, index) && p < |order|
    requires Removed(before, after, order[p])
    ensures Indexed(after, Without(order, p), index - {before[order[p]].value.key})
  {
    var key, rest := before[order[p]].value.key, Without(order, p);
    var index' := index - {key};
    WithoutMembers(order, p);
    assert index'.Keys == index.Keys - {key};
    forall i | 0 <= i < |rest|
      ensures Live(after, rest[i])
      ensures after[rest[i]].value.key in index' && index'[after[rest[i]].value.key] == rest[i]
    {
      assert rest[i] in rest;
    }
  }

  lemma RemoveFree<K, V>(before: Slab<K, V>, after: Slab<K, V>, order: seq<nat>, free: seq<nat>, p: nat)
    requires Distinct(order) && FreeExact(before, order, free) && p < |order|
    requires Removed(before, after, order[p])
    ensures FreeExact(after, Without(order, p), free + [order[p]])
  {
    WithoutMembers(order, p);
  }

  lemma ReuseFree<K, V>(before: Slab<K, V>, order: seq<nat>, free: seq<nat>, slot: nat, node: Node<K, V>)
    requires FreeExact(before, order, free + [slot])
    ensures slot < |before| && slot !in order
    ensures FreeExact(before[slot := Some(node)], order + [slot], free)
  {
    assert (free + [slot])[|free|] == slot;
    assert slot in free + [slot];
    assert before[slot].None?;
    var both, after := free + [slot], before[slot := Some(node)];
    assert forall s :: s in free ==> s in both;
    assert forall i :: 0 <= i < |free| ==> both[i] == free[i];
    forall s {:trigger after[s]} | 0 <= s < |after|
      ensures s in free <==> after[s].None?
      ensures s in order + [slot] <==> after[s].Some?
    {
      assert s in both <==> before[s].None?;
    }
  }

  /** Adding a fresh key at a dead or new slot. */
  lemma AddIndexed<K, V>(before: Slab<K, V>, after: Slab<K, V>, order: seq<nat>, index: map<K, nat>, key: K, slot: nat)
    requires Indexed(before, order, index) && key !in index && slot !in order
    requires Live(after, slot) && after[slot].value.key == key
    requires SameOn(before, after, order)
    ensures Indexed(after, order + [slot], index[key := slot])
  {
  }

  ghost predicate SameOn<K, V>(before: Slab<K, V>, after: Slab<K, V>, order: seq<nat>)
    requires AllLive(before, order)
  {
    forall i {:trigger order[i]} :: 0 <= i < |order| ==>
      Live(after, order[i]) && Pair(after, order[i]) == Pair(before, order[i])
  }

  lemma AddEntries<K, V>(before: Slab<K, V>, after: Slab<K, V>, order: seq<nat>, slot: nat)
    requires AllLive(before, order) && SameOn(before, after, order) && Live(after, slot)
    ensures AllLive(after, order + [slot])
    ensures Entries(after, order + [slot]) == Entries(before, order) + [Pair(after, slot)]
  {
  }

  /** What placing a new key's node and linking it at the tail leaves. */
  lemma Appended<K, V>(
    before: Slab<K, V>, placed: Slab<K, V>, after: Slab<K, V>, order: seq<nat>, index: map<K, nat>, free: seq<nat>,
    key: K, slot: nat)
    requires Indexed(before, order, index) && key !in index && slot !in order
    requires Live(placed, slot) && placed[slot].value.key == key
    requires SameOn(before, placed, order) && SamePayload(placed, after) && FreeExact(placed, order + [slot], free)
    ensures Indexed(after, order + [slot], index[key := slot]) && FreeExact(after, order + [slot], free)
    ensures Entries(after, order + [slot]) == Entries(before, order) + [Pair(placed, slot)]
  {
    assert SameOn(before, after, order);
    AddIndexed(before, after, order, index, key, slot);
    AddEntries(before, after, order, slot);
  }

  // ---------------------------------------------------------------- link surgery

  function SetNext<K, V>(nodes: Slab<K, V>, slot: int, next: int): (r: Slab<K, V>)
    requires Live(nodes, slot)
    ensures SamePayload(nodes, r)
    ensures forall s {:trigger r[s]} :: 0 <= s < |nodes| && nodes[s].Some? ==>
      r[s].value.prev == nodes[s].value.prev && r[s].value.next == if s == slot then next else nodes[s].value.next
  {
    nodes[slot := Some(nodes[slot].value.(next := next))]
  }

  function SetPrev<K, V>(nodes: Slab<K, V>, slot: int, prev: int): (r: Slab<K, V>)
    requires Live(nodes, slot)
    ensures SamePayload(nodes, r)
    ensures forall s {:trigger r[s]} :: 0 <= s < |nodes| && nodes[s].Some? ==>
      r[s].value.next == nodes[s].value.next && r[s].value.prev == if s == slot then prev else nodes[s].value.prev
  {
    nodes[slot := Some(nodes[slot].value.(prev := prev))]
  }

  ghost function Unlinked<K, V>(nodes: Slab<K, V>, prev: int, next: int): Slab<K, V>
    requires prev == NIL || Live(nodes, prev)
    requires next == NIL || Live(nodes, next)
  {
    var n := if prev == NIL then nodes else SetNext(nodes, prev, next);
    if next == NIL then n else SetPrev(n, next, prev)
  }

  lemma WithoutAt<T>(s: seq<T>, p: nat)
    requires p < |s|
    ensures |Without(s, p)| == |s| - 1
    ensures forall j :: 0 <= j < |s| - 1 ==> Without(s, p)[j] == s[if j < p then j else j + 1]
    ensures Distinct(s) ==> Distinct(Without(s, p)) && s[p] !in Without(s, p)
  {
  }

  lemma UnlinkKeepsLinked<K, V>(nodes: Slab<K, V>, order: seq<nat>, head: int, tail: int, p: nat)
    requires Linked(nodes, order, head, tail) && p < |order|
    ensures var prev, next := At(order, p - 1), At(order, p + 1);
      && Linked(Unlinked(nodes, prev, next), Without(order, p),
                if prev == NIL then next else head, if next == NIL then prev else tail)
      && SamePayload(nodes, Unlinked(nodes, prev, next))
  {
    var prev, next := At(order, p - 1), At(order, p + 1);
    var after, rest := Unlinked(nodes, prev, next), Without(order, p);
    WithoutAt(order, p);
    assert AllLive(after, rest);
    forall j | 0 <= j < |rest|
      ensures LinkAt(after, rest, j)
    {
      assert LinkAt(nodes, order, if j < p then j else j + 1);
    }
  }

  lemma LinkTailKeepsLinked<K, V>(nodes: Slab<K, V>, order: seq<nat>, head: int, tail: int, slot: nat)
    requires Linked(nodes, order, head, tail)
    requires Live(nodes, slot) && slot !in order
    ensures
      var n := SetNext(SetPrev(nodes, slot, tail), slot, NIL);
      && (tail != NIL ==> Live(n, tail))
      && var after := if tail == NIL then n else SetNext(n, tail, slot);
      && Linked(after, order + [slot], if tail == NIL then slot else head, slot)
      && SamePayload(nodes, after)
  {
    var n := SetNext(SetPrev(nodes, slot, tail), slot, NIL);
    var after := if tail == NIL then n else SetNext(n, tail, slot);
    var longer := order + [slot];
    assert AllLive(after, longer);
    forall j | 0 <= j < |longer|
      ensures LinkAt(after, longer, j)
    {
      assert j < |order| ==> LinkAt(nodes, order, j);
    }
  }
}

/**
 * The resource registry: an ordered handle -> value table (an `IndexMap`,
 * whose order `swap_remove` rearranges) together with a handle counter from which fresh handles are
 * allocated independently of insertion.
 *
 * The table is a sequence of (handle, value) pairs whose handles are pairwise
 * distinct; a position in the sequence is the table's "index". rend3's
 * atomic `usize` counter becomes a plain unbounded counter: its uses here
 * are sequential, and its wrap-around is not modelled.
 */
module Registry {
  import opened Wrappers

  type Handle = nat

  /** No handle occurs twice in the table. */
  predicate DistinctKeys<T>(es: seq<(Handle, T)>) {
    forall i, j :: 0 <= i < j < |es| ==> es[i].0 != es[j].0
  }

  /** The entries of an index map: handles are unique. */
  type Table<T> = es: seq<(Handle, T)> | DistinctKeys(es) witness []

  datatype ResourceRegistry<T> = ResourceRegistry(entries: Table<T>, next: nat)

  datatype Allocated<T> = Allocated(handle: Handle, registry: ResourceRegistry<T>)
  datatype Inserted<T> = Inserted(index: nat, registry: ResourceRegistry<T>)
  datatype Removed<T> = Removed(index: nat, value: T, registry: ResourceRegistry<T>)

  /** The position of `h` in `es`, if any (the index map's hash lookup). */
  function IndexOf<T>(es: seq<(Handle, T)>, h: Handle): (r: Option<nat>)
    ensures r.Some? ==> r.value < |es| && es[r.value].0 == h
    ensures r.None? <==> forall j :: 0 <= j < |es| ==> es[j].0 != h
  {
    if |es| == 0 then None
    else if es[0].0 == h then Some(0)
    else match IndexOf(es[1..], h)
      case Some(i) => Some(i + 1)
      case None => None
  }

  /** With unique handles the position of a handle is the only one that carries it. */
  lemma IndexOfUnique<T>(es: Table<T>, h: Handle, i: nat)
    requires i < |es| && es[i].0 == h
    ensures IndexOf(es, h) == Some(i)
  {
  }

  predicate Contains<T>(r: ResourceRegistry<T>, h: Handle) {
    IndexOf(r.entries, h).Some?
  }

  /** The set of handles present in a table. */
  function KeySet<T>(es: seq<(Handle, T)>): set<Handle> {
    set i | 0 <= i < |es| :: es[i].0
  }

  /** `new`: an empty table whose first allocation yields handle 0. */
  function New<T>(): (r: ResourceRegistry<T>)
    ensures Count(r) == 0
    ensures forall h :: TryGet(r, h).None?
    ensures Allocate(r).handle == 0
  {
    ResourceRegistry([], 0)
  }

  /** `allocate`: hands out the counter's value and bumps the counter; the table is untouched. */
  function Allocate<T>(r: ResourceRegistry<T>): (a: Allocated<T>)
    ensures a.registry.entries == r.entries
    ensures a.handle == r.next && a.registry.next == r.next + 1
  {
    Allocated(r.next, r.(next := r.next + 1))
  }

  /** The handles returned by `n` successive allocations. */
  function Allocations<T>(r: ResourceRegistry<T>, n: nat): seq<Handle>
    decreases n
  {
    if n == 0 then [] else [Allocate(r).handle] + Allocations(Allocate(r).registry, n - 1)
  }

  /**
   * Successive allocations are strictly increasing, never below the counter's
   * starting value, and hence pairwise distinct.
   */
  lemma {:induction false} AllocationsIncrease<T>(r: ResourceRegistry<T>, n: nat)
    ensures |Allocations(r, n)| == n
    ensures forall i :: 0 <= i < n ==> Allocations(r, n)[i] == r.next + i
    ensures forall i, j :: 0 <= i < j < n ==> Allocations(r, n)[i] < Allocations(r, n)[j]
    decreases n
  {
    if n > 0 {
      AllocationsIncrease(Allocate(r).registry, n - 1);
    }
  }

  /** `allocate_or_reuse`: a present handle is returned as is, an absent one triggers `allocate`. */
  function AllocateOrReuse<T>(r: ResourceRegistry<T>, h: Handle): (a: Allocated<T>)
    ensures Contains(r, h) ==> a == Allocated(h, r)
    ensures !Contains(r, h) ==> a == Allocate(r)
  {
    if Contains(r, h) then Allocated(h, r) else Allocate(r)
  }

  /** `try_get`: the value stored under `h`, if any. */
  function TryGet<T>(r: ResourceRegistry<T>, h: Handle): (o: Option<T>)
    ensures o.Some? <==> Contains(r, h)
  {
    match IndexOf(r.entries, h)
    case Some(i) => Some(r.entries[i].1)
    case None => None
  }

  /** `try_get(h)` is `Some(v)` exactly when the pair (h, v) is in the table. */
  lemma TryGetMeansMember<T>(r: ResourceRegistry<T>, h: Handle, v: T)
    ensures TryGet(r, h) == Some(v) <==> (h, v) in r.entries
  {
    if (h, v) in r.entries {
      var i :| 0 <= i < |r.entries| && r.entries[i] == (h, v);
      IndexOfUnique(r.entries, h, i);
    }
  }

  /** `get`: the value under a handle that must be present (the Rust code unwraps). */
  function Get<T>(r: ResourceRegistry<T>, h: Handle): (v: T)
    requires Contains(r, h)
    ensures (h, v) in r.entries
    ensures TryGet(r, h) == Some(v)
  {
    r.entries[IndexOf(r.entries, h).value].1
  }

  /** `get_index_of`: the index of a handle that must be present. */
  function GetIndexOf<T>(r: ResourceRegistry<T>, h: Handle): (i: nat)
    requires Contains(r, h)
    ensures i < Count(r) && r.entries[i].0 == h
  {
    IndexOf(r.entries, h).value
  }

  /**
   * `get_mut` followed by a write through the returned reference: the value of
   * a handle that must be present is replaced by `edit` of it, in its slot.
   */
  function GetMut<T>(r: ResourceRegistry<T>, h: Handle, edit: T -> T): (r': ResourceRegistry<T>)
    requires Contains(r, h)
    ensures r'.next == r.next && |r'.entries| == |r.entries|
    ensures r'.entries[GetIndexOf(r, h)] == (h, edit(Get(r, h)))
    ensures forall j :: 0 <= j < |r.entries| && j != GetIndexOf(r, h) ==> r'.entries[j] == r.entries[j]
  {
    var i := IndexOf(r.entries, h).value;
    r.(entries := SetSlot(r.entries, i, edit(r.entries[i].1)))
  }

  /** After `get_mut`, the edited handle reads as the edited value and every other handle reads as before. */
  lemma GetMutLookup<T>(r: ResourceRegistry<T>, h: Handle, edit: T -> T, k: Handle)
    requires Contains(r, h)
    ensures TryGet(GetMut(r, h, edit), k) == (if k == h then Some(edit(Get(r, h))) else TryGet(r, k))
  {
    SetSlotLookup(r, IndexOf(r.entries, h).value, edit(Get(r, h)), k);
  }

  /** `count`: the number of handles in the table. */
  function Count<T>(r: ResourceRegistry<T>): (c: nat)
    ensures c == |KeySet(r.entries)|
  {
    DistinctKeySetSize(r.entries);
    |r.entries|
  }

  lemma {:induction false} DistinctKeySetSize<T>(es: Table<T>)
    ensures |KeySet(es)| == |es|
    decreases |es|
  {
    if |es| > 0 {
      var n := |es| - 1;
      var init: Table<T> := es[..n];
      DistinctKeySetSize(init);
      assert KeySet(es) == KeySet(init) + {es[n].0} by {
        forall k | k in KeySet(es) ensures k in KeySet(init) + {es[n].0} {
          var i :| 0 <= i < |es| && es[i].0 == k;
          if i < n { assert init[i].0 == k; }
        }
        forall k | k in KeySet(init) ensures k in KeySet(es) {
          var i :| 0 <= i < |init| && init[i].0 == k;
          assert es[i].0 == k;
        }
      }
      assert es[n].0 !in KeySet(init);
    }
  }

  /** Replacing the value of slot `i` keeps the handles, so the table stays a table. */
  function SetSlot<T>(es: Table<T>, i: nat, v: T): (es': Table<T>)
    requires i < |es|
    ensures es' == es[i := (es[i].0, v)]
  {
    var s := es[i := (es[i].0, v)];
    assert forall j :: 0 <= j < |s| ==> s[j].0 == es[j].0;
    s
  }

  /** The swap-with-last removal of slot `i` keeps handles unique. */
  function SwapRemove<T>(es: Table<T>, i: nat): (es': Table<T>)
    requires i < |es|
    ensures |es'| == |es| - 1
    ensures i < |es'| ==> es'[i] == es[|es| - 1]
    ensures forall j :: 0 <= j < |es'| && j != i ==> es'[j] == es[j]
  {
    var last := |es| - 1;
    var s := if i == last then es[..last] else es[..last][i := es[last]];
    assert DistinctKeys(s) by {
      forall a, b | 0 <= a < b < |s| ensures s[a].0 != s[b].0 {
        var a' := if a == i then last else a;
        var b' := if b == i then last else b;
        assert s[a] == es[a'] && s[b] == es[b'];
      }
    }
    s
  }

  lemma SetSlotLookup<T>(r: ResourceRegistry<T>, i: nat, v: T, k: Handle)
    requires i < |r.entries|
    ensures TryGet(r.(entries := SetSlot(r.entries, i, v)), k)
         == (if k == r.entries[i].0 then Some(v) else TryGet(r, k))
  {
    var es := SetSlot(r.entries, i, v);
    match IndexOf(r.entries, k)
    case Some(j) => IndexOfUnique(es, k, j);
    case None =>
  }

  lemma AppendLookup<T>(r: ResourceRegistry<T>, h: Handle, v: T, k: Handle)
    requires !Contains(r, h)
    ensures DistinctKeys(r.entries + [(h, v)])
    ensures TryGet(r.(entries := r.entries + [(h, v)]), k) == (if k == h then Some(v) else TryGet(r, k))
  {
    var es: Table<T> := r.entries + [(h, v)];
    match IndexOf(r.entries, k)
    case Some(j) => IndexOfUnique(es, k, j);
    case None => if k == h { IndexOfUnique(es, k, |r.entries|); }
  }

  lemma SwapRemoveLookup<T>(r: ResourceRegistry<T>, h: Handle, k: Handle)
    requires Contains(r, h)
    ensures var r' := r.(entries := SwapRemove(r.entries, IndexOf(r.entries, h).value));
      TryGet(r', k) == (if k == h then None else TryGet(r, k))
  {
    var i := IndexOf(r.entries, h).value;
    var last := |r.entries| - 1;
    var es := SwapRemove(r.entries, i);
    // Every slot of the new table holds an entry of the old one.
    if IndexOf(es, k).Some? {
      var j := IndexOf(es, k).value;
      var j' := if j == i then last else j;
      assert es[j] == r.entries[j'];
      IndexOfUnique(r.entries, k, j');
      assert k != h;
    }
    if k != h && IndexOf(r.entries, k).Some? {
      var j := IndexOf(r.entries, k).value;
      var j' := if j == last then i else j;
      assert es[j'] == r.entries[j];
      IndexOfUnique(es, k, j');
    }
  }

  /**
   * `insert` (an upsert): a present handle keeps its slot and gets the new
   * value, an absent one is appended at index `count`; the index of the handle
   * is returned. The handle counter is untouched.
   */
  function Insert<T>(r: ResourceRegistry<T>, h: Handle, v: T): (res: Inserted<T>)
    ensures res.registry.next == r.next
    ensures res.index < |res.registry.entries| && res.registry.entries[res.index] == (h, v)
    ensures Contains(r, h) ==>
      && res.index == GetIndexOf(r, h)
      && |res.registry.entries| == |r.entries|
      && forall j :: 0 <= j < |r.entries| && j != res.index ==> res.registry.entries[j] == r.entries[j]
    ensures !Contains(r, h) ==>
      && res.index == |r.entries|
      && res.registry.entries == r.entries + [(h, v)]
    ensures forall k :: TryGet(res.registry, k) == (if k == h then Some(v) else TryGet(r, k))
  {
    match IndexOf(r.entries, h)
    case Some(i) =>
      var r' := r.(entries := SetSlot(r.entries, i, v));
      assert forall k :: TryGet(r', k) == (if k == h then Some(v) else TryGet(r, k)) by {
        forall k { SetSlotLookup(r, i, v, k); }
      }
      Inserted(i, r')
    case None =>
      AppendLookup(r, h, v, h);
      var r' := r.(entries := r.entries + [(h, v)]);
      assert forall k :: TryGet(r', k) == (if k == h then Some(v) else TryGet(r, k)) by {
        forall k { AppendLookup(r, h, v, k); }
      }
      Inserted(|r.entries|, r')
  }

  /**
   * `remove` (`swap_remove_full`): the handle must be present. Its former
   * index and value are returned; the previously-last entry moves into the
   * vacated slot, every other entry keeps its index, and the counter is
   * untouched.
   */
  function Remove<T>(r: ResourceRegistry<T>, h: Handle): (res: Removed<T>)
    requires Contains(r, h)
    ensures res.index == GetIndexOf(r, h) && res.value == Get(r, h)
    ensures res.registry.next == r.next
    ensures |res.registry.entries| == |r.entries| - 1
    ensures res.index < |res.registry.entries| ==> res.registry.entries[res.index] == r.entries[|r.entries| - 1]
    ensures forall j :: 0 <= j < |res.registry.entries| && j != res.index ==> res.registry.entries[j] == r.entries[j]
    ensures !Contains(res.registry, h) && TryGet(res.registry, h) == None
    ensures forall k :: k != h ==> TryGet(res.registry, k) == TryGet(r, k)
  {
    var i := IndexOf(r.entries, h).value;
    var r' := r.(entries := SwapRemove(r.entries, i));
    assert forall k :: TryGet(r', k) == (if k == h then None else TryGet(r, k)) by {
      forall k { SwapRemoveLookup(r, h, k); }
    }
    Removed(i, r.entries[i].1, r')
  }

  /** The values in table order (`values()`), the order in which managers iterate. */
  function Values<T>(r: ResourceRegistry<T>): (vs: seq<T>)
    ensures |vs| == Count(r)
    ensures forall i :: 0 <= i < |vs| ==> vs[i] == r.entries[i].1
  {
    seq(|r.entries|, i requires 0 <= i < |r.entries| => r.entries[i].1)
  }
}

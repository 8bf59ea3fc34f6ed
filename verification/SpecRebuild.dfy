/** Sorting by depth and attaching along scopes builds the forest `Rebuild` describes, for
    every list of pending entries; and `Rebuild` undoes `Flatten` exactly on the forests in
    which every parent is found under its own name. */
module SpecRebuild {
  import opened Sequences
  import opened SpecForest

  lemma {:induction false} RebuildAt(items: seq<Pending>, k: nat)
    requires k < |Tops(items)|
    ensures Rebuild(items)[k] == Tops(items)[k].(children := Rebuild(Group(items, Tops(items), k)))
  {
    assert Rebuild(items)[k] == Rebuilt(items, k);
  }

  /** Same entries but for the children. */
  ghost predicate Alike(a: seq<Entry>, b: seq<Entry>) {
    |a| == |b| && forall i :: 0 <= i < |a| ==> Bare(a[i]) == Bare(b[i])
  }

  lemma {:induction false} FindSubAlike(a: seq<Entry>, b: seq<Entry>, name: string)
    requires Alike(a, b)
    ensures FindSub(a, name) == FindSub(b, name)
  {
    if a != [] {
      assert Bare(a[0]) == Bare(b[0]);
      assert Takes(a[0], name) == Takes(Bare(a[0]), name) && Takes(b[0], name) == Takes(Bare(b[0]), name);
      FindSubAlike(a[1..], b[1..], name);
    }
  }

  lemma {:induction false} RebuildAlike(items: seq<Pending>)
    ensures Alike(Rebuild(items), Tops(items))
  {
    forall i | 0 <= i < |Tops(items)| ensures Bare(Rebuild(items)[i]) == Bare(Tops(items)[i]) {
      RebuildAt(items, i);
    }
  }

  /** Two item lists with the same tops and the same groups rebuild to the same forest. */
  lemma {:induction false} RebuildEqual(a: seq<Pending>, b: seq<Pending>)
    requires Tops(a) == Tops(b)
    requires forall j :: 0 <= j < |Tops(a)| ==> Rebuild(Group(a, Tops(a), j)) == Rebuild(Group(b, Tops(a), j))
    ensures Rebuild(a) == Rebuild(b)
  {
    forall j | 0 <= j < |Tops(a)| ensures Rebuild(a)[j] == Rebuild(b)[j] {
      RebuildAt(a, j);
      RebuildAt(b, j);
    }
  }

  lemma {:induction false} TopsAppend(a: seq<Pending>, b: seq<Pending>)
    ensures Tops(a + b) == Tops(a) + Tops(b)
  {
    FilterAppend(AtTop, a, b);
    MapAppend(EntryOf, Filter(AtTop, a), Filter(AtTop, b));
  }

  lemma {:induction false} GroupAppend(a: seq<Pending>, b: seq<Pending>, tops: seq<Entry>, j: int)
    ensures Group(a + b, tops, j) == Group(a, tops, j) + Group(b, tops, j)
  {
    FilterAppend(GoesTo(tops, j), a, b);
    MapAppend(Inner, Filter(GoesTo(tops, j), a), Filter(GoesTo(tops, j), b));
  }

  lemma {:induction false} GroupDepth(items: seq<Pending>, tops: seq<Entry>, j: int, depth: nat)
    requires forall k :: 0 <= k < |items| ==> |items[k].scope| <= depth + 1
    ensures forall k :: 0 <= k < |Group(items, tops, j)| ==> |Group(items, tops, j)[k].scope| <= depth
  {
    if items != [] {
      GroupDepth(items[1..], tops, j, depth);
      GroupCons(items, tops, j);
    }
  }

  lemma {:induction false} NoGroups(items: seq<Pending>, tops: seq<Entry>, j: int)
    requires forall k :: 0 <= k < |items| ==> items[k].scope == []
    ensures Group(items, tops, j) == []
  {
    FilterNone(GoesTo(tops, j), items);
  }

  lemma {:induction false} SingleGroup(x: Pending, tops: seq<Entry>, j: int)
    ensures Group([x], tops, j) == if GoesTo(tops, j)(x) then [Inner(x)] else []
    ensures Tops([x]) == if AtTop(x) then [x.entry] else []
  {
    GroupCons([x], tops, j);
    assert [x][1..] == [];
  }

  /** What the attached entry changes: the subtree it goes to, and no other. */
  lemma {:induction false} AttachLastAt(items: seq<Pending>, x: Pending, i: int, j: nat)
    requires x.scope != [] && i == FindSub(Tops(items), x.scope[0]) && j < |Tops(items)|
    requires Tops(items + [x]) == Tops(items)
    requires i == j ==>
        Attach(Rebuild(Group(items, Tops(items), j)), Inner(x).scope, x.entry)
            == Rebuild(Group(items, Tops(items), j) + [Inner(x)])
    ensures Rebuild(items + [x])[j] ==
      if i == j then Rebuild(items)[j].(children := Attach(Rebuild(items)[j].children, Inner(x).scope, x.entry))
      else Rebuild(items)[j]
  {
    var tops := Tops(items);
    RebuildAt(items, j);
    RebuildAt(items + [x], j);
    GroupAppend(items, [x], tops, j);
    SingleGroup(x, tops, j);
    NoneBefore(Group(items, tops, j));
  }

  /** Attaching one entry that lies at least as deep as all before it. */
  lemma {:induction false} AttachLast(items: seq<Pending>, x: Pending)
    requires Bare(x.entry) == x.entry
    requires forall k :: 0 <= k < |items| ==> |items[k].scope| <= |x.scope|
    ensures Attach(Rebuild(items), x.scope, x.entry) == Rebuild(items + [x])
    decreases |x.scope|
  {
    var tops := Tops(items);
    if x.scope == [] {
      AttachTop(items, x);
    } else {
      var i := FindSub(tops, x.scope[0]);
      RebuildAlike(items);
      FindSubAlike(Rebuild(items), tops, x.scope[0]);
      TopsUnchanged(items, x);
      if i != -1 {
        GroupDepth(items, tops, i, |x.scope| - 1);
        AttachLast(Group(items, tops, i), Inner(x));
      }
      forall j | 0 <= j < |tops| ensures Attach(Rebuild(items), x.scope, x.entry)[j] == Rebuild(items + [x])[j] {
        AttachLastAt(items, x, i, j);
      }
    }
  }

  lemma TopsUnchanged(items: seq<Pending>, x: Pending)
    requires x.scope != []
    ensures Tops(items + [x]) == Tops(items)
  {
    TopsAppend(items, [x]);
    SingleGroup(x, [], 0);
    NoneBefore(Tops(items));
  }

  /** Without scopes, every entry is a leaf at the top. */
  lemma {:induction false} TopLeaf(items: seq<Pending>, j: nat)
    requires j < |Tops(items)| && forall k :: 0 <= k < |items| ==> items[k].scope == []
    ensures Rebuild(items)[j] == Tops(items)[j].(children := [])
  {
    RebuildAt(items, j);
    NoGroups(items, Tops(items), j);
  }

  lemma {:induction false} AttachTop(items: seq<Pending>, x: Pending)
    requires Bare(x.entry) == x.entry && x.scope == []
    requires forall k :: 0 <= k < |items| ==> items[k].scope == []
    ensures Rebuild(items) + [x.entry] == Rebuild(items + [x])
  {
    var all := items + [x];
    SingleGroup(x, [], 0);
    TopsAppend(items, [x]);
    forall j | 0 <= j < |Tops(all)| ensures (Rebuild(items) + [x.entry])[j] == Rebuild(all)[j] {
      TopLeaf(all, j);
      if j < |Tops(items)| { TopLeaf(items, j); }
    }
  }

  /** Attaching a list sorted by depth, entry after entry. */
  lemma {:induction false} AttachSorted(items: seq<Pending>)
    requires Sorted(Shallower, items)
    requires forall k :: 0 <= k < |items| ==> Bare(items[k].entry) == items[k].entry
    ensures AttachAll([], items) == Rebuild(items)
    decreases |items|
  {
    if items != [] {
      var n := |items| - 1;
      AttachSorted(items[..n]);
      assert items == items[..n] + [items[n]];
      forall k | 0 <= k < n ensures |items[..n][k].scope| <= |items[n].scope| {
        assert !Shallower(items[n], items[k]);
      }
      AttachLast(items[..n], items[n]);
    }
  }

  lemma {:induction false} SortKeepsTops(items: seq<Pending>)
    ensures Tops(Sort(Shallower, items)) == Tops(items)
  {
    SortFilter(Shallower, AtTop, items);
    var tied := Filter(AtTop, items);
    FilterMembers(AtTop, items);
    if tied != [] {
      assert tied[0] in tied;
      SortTied(Shallower, tied[0], tied);
    }
  }

  lemma {:induction false} SortKeepsGroups(items: seq<Pending>, tops: seq<Entry>, j: int)
    ensures Group(Sort(Shallower, items), tops, j) == Sort(Shallower, Group(items, tops, j))
  {
    SortFilter(Shallower, GoesTo(tops, j), items);
    var chosen := Filter(GoesTo(tops, j), items);
    FilterMembers(GoesTo(tops, j), items);
    forall a, b | 0 <= a < |chosen| && 0 <= b < |chosen|
      ensures Shallower(chosen[a], chosen[b]) == Shallower(Inner(chosen[a]), Inner(chosen[b]))
    {
      assert chosen[a] in chosen && chosen[b] in chosen;
    }
    SortMap(Shallower, Shallower, Inner, chosen);
  }

  /** The order of entries of different depth does not matter. */
  lemma {:induction false} SortKeepsForest(items: seq<Pending>)
    ensures Rebuild(Sort(Shallower, items)) == Rebuild(items)
    decreases Weight(items)
  {
    SortKeepsTops(items);
    var tops := Tops(items);
    forall j | 0 <= j < |tops|
      ensures Rebuild(Group(Sort(Shallower, items), tops, j)) == Rebuild(Group(items, tops, j))
    {
      SortKeepsGroups(items, tops, j);
      GroupSmaller(items, tops, j);
      SortKeepsForest(Group(items, tops, j));
    }
    RebuildEqual(Sort(Shallower, items), items);
  }

  /** The parser's sort and attachment loop, on every list of pending entries. */
  lemma {:induction false} SortAndAttach(items: seq<Pending>)
    requires forall k :: 0 <= k < |items| ==> Bare(items[k].entry) == items[k].entry
    ensures AttachAll([], Sort(Shallower, items)) == Rebuild(items)
  {
    var sorted := Sort(Shallower, items);
    SortSorted(Shallower, items);
    SortMembers(Shallower, items);
    forall k | 0 <= k < |sorted| ensures Bare(sorted[k].entry) == sorted[k].entry {
      assert sorted[k] in sorted;
      assert sorted[k] in items;
    }
    AttachSorted(sorted);
    SortKeepsForest(items);
  }
}

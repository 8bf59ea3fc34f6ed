/** `Rebuild` undoes `Flatten` exactly on the forests in which every parent is a subcommand
    that is the first of its siblings to go by its own name. */
module SpecPreorder {
  import opened Sequences
  import opened SpecForest
  import opened SpecRebuild

  predicate Addressable(entries: seq<Entry>)
    decreases entries
  {
    forall i :: 0 <= i < |entries| ==>
      && (entries[i].children != [] ==> Found(entries, i))
      && Addressable(entries[i].children)
  }

  predicate Found(entries: seq<Entry>, i: nat)
    requires i < |entries|
  {
    entries[i].kind == KindSubcommand && FindSub(entries, entries[i].text) == i
  }

  function Bares(entries: seq<Entry>): (r: seq<Entry>)
    ensures |r| == |entries|
    ensures forall i :: 0 <= i < |r| ==> r[i] == Bare(entries[i])
  {
    seq(|entries|, i requires 0 <= i < |entries| => Bare(entries[i]))
  }

  /** The part of the flat list that leads through entry `j` of `tops`. */
  function Routed(entries: seq<Entry>, tops: seq<Entry>, j: int): seq<Pending>
  {
    if entries == [] then []
    else Share(entries[0], tops, j) + Routed(entries[1..], tops, j)
  }

  function Share(e: Entry, tops: seq<Entry>, j: int): seq<Pending> {
    if e.kind == KindSubcommand && FindSub(tops, e.text) == j then Flatten(e.children) else []
  }

  lemma {:induction false} UnderScopes(text: string, items: seq<Pending>)
    ensures forall k :: 0 <= k < |items| ==> Under(text, items)[k] == Pending([text] + items[k].scope, items[k].entry)
  {
  }

  lemma {:induction false} UnderTops(text: string, items: seq<Pending>)
    ensures Tops(Under(text, items)) == []
  {
    UnderScopes(text, items);
    FilterNone(AtTop, Under(text, items));
  }

  lemma {:induction false} UnderGroup(text: string, items: seq<Pending>, tops: seq<Entry>, j: int)
    ensures Group(Under(text, items), tops, j) == if FindSub(tops, text) == j then items else []
  {
    var below := Under(text, items);
    UnderScopes(text, items);
    if FindSub(tops, text) == j {
      FilterAll(GoesTo(tops, j), below);
      forall k | 0 <= k < |items| ensures Map(Inner, below)[k] == items[k] {
        assert ([text] + items[k].scope)[1..] == items[k].scope;
      }
    } else {
      FilterNone(GoesTo(tops, j), below);
    }
  }

  lemma {:induction false} FlattenCons(entries: seq<Entry>)
    requires entries != []
    ensures Flatten(entries) == [Pending([], Bare(entries[0]))]
        + (Below(entries[0]) + Flatten(entries[1..]))
  {
  }

  function Below(e: Entry): seq<Pending> {
    if e.kind == KindSubcommand then Under(e.text, Flatten(e.children)) else []
  }

  lemma {:induction false} BelowTops(e: Entry)
    ensures Tops(Below(e)) == []
  {
    if e.kind == KindSubcommand { UnderTops(e.text, Flatten(e.children)); }
  }

  lemma {:induction false} FlattenTopsCons(entries: seq<Entry>)
    requires entries != []
    ensures Tops(Flatten(entries)) == [Bare(entries[0])] + Tops(Flatten(entries[1..]))
  {
    var head := Pending([], Bare(entries[0]));
    FlattenCons(entries);
    TopsThree(head, Below(entries[0]), Flatten(entries[1..]));
    BelowTops(entries[0]);
  }

  lemma {:induction false} TopsThree(head: Pending, below: seq<Pending>, rest: seq<Pending>)
    requires head.scope == []
    ensures Tops([head] + (below + rest)) == [head.entry] + (Tops(below) + Tops(rest))
  {
    TopsAppend([head], below + rest);
    TopsAppend(below, rest);
    SingleGroup(head, [], 0);
  }

  lemma {:induction false} FlattenTops(entries: seq<Entry>)
    ensures Tops(Flatten(entries)) == Bares(entries)
    decreases |entries|
  {
    if entries != [] {
      FlattenTops(entries[1..]);
      FlattenTopsCons(entries);
      assert Bares(entries) == [Bare(entries[0])] + Bares(entries[1..]);
    }
  }

  lemma {:induction false} FlattenGroup(entries: seq<Entry>, tops: seq<Entry>, j: int)
    ensures Group(Flatten(entries), tops, j) == Routed(entries, tops, j)
    decreases |entries|
  {
    if entries != [] {
      var e := entries[0];
      var below := Below(e);
      var head := Pending([], Bare(e));
      FlattenGroup(entries[1..], tops, j);
      FlattenCons(entries);
      GroupAppend([head], below + Flatten(entries[1..]), tops, j);
      GroupAppend(below, Flatten(entries[1..]), tops, j);
      SingleGroup(head, tops, j);
      UnderGroup(e.text, Flatten(e.children), tops, j);
    }
  }

  lemma {:induction false} FlattenEmpty(entries: seq<Entry>)
    ensures Flatten(entries) == [] <==> entries == []
  {
  }

  lemma {:induction false} ShareOwn(entries: seq<Entry>, k: nat, j: nat)
    requires k < |entries| && j < |entries|
    requires entries[k].children != [] ==> Found(entries, k)
    ensures Share(entries[k], Bares(entries), j) == if k == j then Flatten(entries[k].children) else []
  {
    var e := entries[k];
    FindSubAlike(entries, Bares(entries), e.text);
    FlattenEmpty(e.children);
  }

  ghost predicate AllFound(entries: seq<Entry>) {
    forall i :: 0 <= i < |entries| && entries[i].children != [] ==> Found(entries, i)
  }

  lemma {:induction false} RoutedCons(entries: seq<Entry>, k: nat, tops: seq<Entry>, j: int)
    requires k < |entries|
    ensures Routed(entries[k..], tops, j) == Share(entries[k], tops, j) + Routed(entries[k + 1..], tops, j)
  {
    assert entries[k..][1..] == entries[k + 1..] && entries[k..][0] == entries[k];
  }

  lemma {:induction false} ShareFound(entries: seq<Entry>, k: nat, j: nat)
    requires k < |entries| && j < |entries| && AllFound(entries)
    ensures Share(entries[k], Bares(entries), j) == if k == j then Flatten(entries[j].children) else []
  {
    ShareOwn(entries, k, j);
  }

  lemma {:induction false} Appended(share: seq<Pending>, rest: seq<Pending>, whole: seq<Pending>, before: bool,
      at: bool)
    requires share == if at then whole else []
    requires rest == if before && !at then whole else []
    ensures share + rest == if before then whole else if at then whole else []
  {
  }

  ghost predicate SharesOnly(entries: seq<Entry>, tops: seq<Entry>, j: int, whole: seq<Pending>) {
    forall i :: 0 <= i < |entries| ==> Share(entries[i], tops, j) == if i == j then whole else []
  }

  lemma {:induction false} RoutedShare(entries: seq<Entry>, tops: seq<Entry>, k: nat, j: nat, whole: seq<Pending>)
    requires k <= |entries| && j < |entries| && SharesOnly(entries, tops, j, whole)
    ensures Routed(entries[k..], tops, j) == if k <= j then whole else []
    decreases |entries| - k
  {
    if k < |entries| {
      var share, rest := Share(entries[k], tops, j), Routed(entries[k + 1..], tops, j);
      RoutedShare(entries, tops, k + 1, j, whole);
      RoutedCons(entries, k, tops, j);
      Appended(share, rest, whole, k <= j, k == j);
    } else {
      assert entries[k..] == [];
    }
  }

  /** With every parent found under its own name, each group is the parent's own subtree. */
  lemma {:induction false} RoutedOwn(entries: seq<Entry>, k: nat, j: nat)
    requires k <= |entries| && j < |entries| && AllFound(entries)
    ensures Routed(entries[k..], Bares(entries), j) == if k <= j then Flatten(entries[j].children) else []
  {
    var whole := Flatten(entries[j].children);
    forall i | 0 <= i < |entries| ensures Share(entries[i], Bares(entries), j) == if i == j then whole else [] {
      ShareFound(entries, i, j);
    }
    RoutedShare(entries, Bares(entries), k, j, whole);
  }

  lemma {:induction false} FlatAt(entries: seq<Entry>, j: nat)
    requires j < |entries|
    ensures |Rebuild(Flatten(entries))| == |entries|
    ensures Rebuild(Flatten(entries))[j] == Bare(entries[j]).(children := Rebuild(Routed(entries, Bares(entries), j)))
  {
    FlattenTops(entries);
    RebuildAt(Flatten(entries), j);
    FlattenGroup(entries, Bares(entries), j);
  }

  lemma {:induction false} AddressableRebuilt(entries: seq<Entry>)
    requires Addressable(entries)
    ensures Rebuild(Flatten(entries)) == entries
    decreases entries
  {
    FlattenTops(entries);
    forall j | 0 <= j < |entries| ensures Rebuild(Flatten(entries))[j] == entries[j] {
      FlatAt(entries, j);
      RoutedOwn(entries, 0, j);
      assert entries[0..] == entries;
      AddressableRebuilt(entries[j].children);
    }
  }

  /** An entry nobody else's children are routed to gets no children. */
  lemma {:induction false} RoutedNone(entries: seq<Entry>, tops: seq<Entry>, j: int)
    requires forall k :: 0 <= k < |entries| && entries[k].children != [] ==>
        entries[k].kind != KindSubcommand || FindSub(tops, entries[k].text) != j
    ensures Routed(entries, tops, j) == []
    decreases |entries|
  {
    if entries != [] {
      FlattenEmpty(entries[0].children);
      RoutedNone(entries[1..], tops, j);
    }
  }

  /** Names resolve to the entry itself or an earlier one. */
  lemma {:induction false} FindsNoLater(entries: seq<Entry>, k: nat)
    requires k < |entries| && entries[k].kind == KindSubcommand
    ensures 0 <= FindSub(entries, entries[k].text) <= k
  {
    assert Takes(entries[k], entries[k].text);
  }

  lemma {:induction false} NobodyRoutes(entries: seq<Entry>, j: nat, k: nat)
    requires j < |entries| && entries[j].children != [] && !Found(entries, j)
    requires k < |entries| && entries[k].children != [] && entries[k].kind == KindSubcommand
    requires k > j ==> Found(entries, k)
    ensures FindSub(Bares(entries), entries[k].text) != j
  {
    FindSubAlike(entries, Bares(entries), entries[k].text);
    FindsNoLater(entries, k);
  }

  /** The last entry that is not found under its own name loses its children. */
  lemma {:induction false} LastLoses(entries: seq<Entry>, j: nat)
    requires j < |entries| && entries[j].children != [] && !Found(entries, j)
    requires forall k :: j < k < |entries| && entries[k].children != [] ==> Found(entries, k)
    ensures |Rebuild(Flatten(entries))| == |entries|
    ensures Rebuild(Flatten(entries))[j].children == []
  {
    forall k | 0 <= k < |entries| && entries[k].children != []
      ensures entries[k].kind != KindSubcommand || FindSub(Bares(entries), entries[k].text) != j
    {
      if entries[k].kind == KindSubcommand { NobodyRoutes(entries, j, k); }
    }
    RoutedNone(entries, Bares(entries), j);
    FlatAt(entries, j);
    RebuildNothing();
  }

  lemma {:induction false} RebuildNothing()
    ensures Rebuild([]) == []
  {
  }

  lemma {:induction false} LastNotFound(entries: seq<Entry>, n: nat) returns (j: nat)
    requires n <= |entries|
    requires exists i :: 0 <= i < n && entries[i].children != [] && !Found(entries, i)
    requires forall k :: n <= k < |entries| && entries[k].children != [] ==> Found(entries, k)
    ensures j < |entries| && entries[j].children != [] && !Found(entries, j)
    ensures forall k :: j < k < |entries| && entries[k].children != [] ==> Found(entries, k)
    decreases n
  {
    if entries[n - 1].children != [] && !Found(entries, n - 1) {
      j := n - 1;
    } else {
      j := LastNotFound(entries, n - 1);
    }
  }

  lemma {:induction false} RebuiltAddressable(entries: seq<Entry>)
    requires Rebuild(Flatten(entries)) == entries
    ensures Addressable(entries)
    decreases entries
  {
    if i :| 0 <= i < |entries| && entries[i].children != [] && !Found(entries, i) {
      var j := LastNotFound(entries, |entries|);
      LastLoses(entries, j);
    } else {
      forall j | 0 <= j < |entries| ensures Addressable(entries[j].children) {
        FlatAt(entries, j);
        RoutedOwn(entries, 0, j);
        assert entries[0..] == entries;
        RebuiltAddressable(entries[j].children);
      }
    }
  }

  /** Preorder flattening, sorting by depth and attaching by path is the identity exactly on
      the addressable forests. */
  lemma ForestRoundTrip(entries: seq<Entry>)
    ensures AttachAll([], Sort(Shallower, Flatten(entries))) == entries <==> Addressable(entries)
  {
    FlattenBare(entries);
    SortAndAttach(Flatten(entries));
    if Addressable(entries) { AddressableRebuilt(entries); }
    if Rebuild(Flatten(entries)) == entries { RebuiltAddressable(entries); }
  }

  lemma {:induction false} FlattenBare(entries: seq<Entry>)
    ensures forall k :: 0 <= k < |Flatten(entries)| ==> Bare(Flatten(entries)[k].entry) == Flatten(entries)[k].entry
    decreases entries
  {
    if entries != [] {
      FlattenBare(entries[0].children);
      FlattenBare(entries[1..]);
      UnderScopes(entries[0].text, Flatten(entries[0].children));
    }
  }
}

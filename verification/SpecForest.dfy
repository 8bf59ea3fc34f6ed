/** The tree of completion entries: preorder flattening, and the rebuilding by a stable sort
    on scope length followed by one path lookup per entry. */
module SpecForest {
  import opened Sequences
  import opened SpecCodec

  datatype EntryKind = KindOption | KindSubcommand | KindPositional

  datatype Requirement = ReqNone | ReqRequired | ReqOptional

  datatype ValueType =
    TypeNone | TypeText | TypeFile | TypeDirectory | TypeEnum | TypeCommand | TypeBranch | TypeProcess | TypeCustom

  datatype Separator = SepSpace | SepEquals | SepEither

  datatype ValueSpec = ValueSpec(
    requirement: Requirement,
    kind: ValueType,
    separator: Separator,
    name: string,
    choices: seq<string>,
    provider: string)

  datatype Entry = Entry(
    text: string,
    description: string,
    kind: EntryKind,
    aliases: seq<string>,
    value: ValueSpec,
    conflicts: seq<string>,
    dependencies: seq<string>,
    repeatable: bool,
    deprecated: bool,
    positionalIndex: Size,
    variadic: bool,
    children: seq<Entry>)

  /** An entry without its children, and the path of subcommand names to its parent. */
  datatype Pending = Pending(scope: seq<string>, entry: Entry)

  function Bare(e: Entry): Entry {
    e.(children := [])
  }

  /** `entry_matches_token`. */
  predicate Matches(e: Entry, token: string) {
    e.text == token || token in e.aliases
  }

  predicate Takes(e: Entry, name: string) {
    e.kind == KindSubcommand && Matches(e, name)
  }

  /** `find_subcommand`: the first subcommand that goes by `name`, or -1. */
  function FindSub(entries: seq<Entry>, name: string): (r: int)
    ensures -1 <= r < |entries|
    ensures r >= 0 ==> Takes(entries[r], name) && forall i :: 0 <= i < r ==> !Takes(entries[i], name)
    ensures r >= 0 ==> entries[r].kind == KindSubcommand && (entries[r].text == name || name in entries[r].aliases)
    ensures r == -1 ==> forall i :: 0 <= i < |entries| ==> !Takes(entries[i], name)
    ensures r == -1 ==> forall i :: 0 <= i < |entries| && entries[i].kind == KindSubcommand ==>
      entries[i].text != name && name !in entries[i].aliases
  {
    if entries == [] then -1
    else if Takes(entries[0], name) then 0
    else
      var r := FindSub(entries[1..], name);
      assert forall i :: 1 <= i < |entries| ==> entries[i] == entries[1..][i - 1];
      if r == -1 then -1 else r + 1
  }

  /** The walk along a scope and the final `push_back`; entries of unknown scope are dropped. */
  function Attach(entries: seq<Entry>, scope: seq<string>, e: Entry): (r: seq<Entry>)
    decreases |scope|
  {
    if scope == [] then entries + [e]
    else
      var i := FindSub(entries, scope[0]);
      if i == -1 then entries
      else entries[i := entries[i].(children := Attach(entries[i].children, scope[1..], e))]
  }

  function AttachAll(entries: seq<Entry>, items: seq<Pending>): seq<Entry>
    decreases |items|
  {
    if items == [] then entries
    else
      var last := items[|items| - 1];
      Attach(AttachAll(entries, items[..|items| - 1]), last.scope, last.entry)
  }

  /** The comparison of the sort. */
  predicate Shallower(a: Pending, b: Pending) {
    |a.scope| < |b.scope|
  }

  // ---------------------------------------------------------------- flattening

  function Under(text: string, items: seq<Pending>): (r: seq<Pending>)
  {
    Map((p: Pending) => Pending([text] + p.scope, p.entry), items)
  }

  /** Preorder, with scopes relative to the forest. */
  function Flatten(entries: seq<Entry>): seq<Pending>
    decreases entries
  {
    if entries == [] then []
    else
      var e := entries[0];
      [Pending([], Bare(e))]
      + (if e.kind == KindSubcommand then Under(e.text, Flatten(e.children)) else [])
      + Flatten(entries[1..])
  }

  // ---------------------------------------------------------------- rebuilding, by reference

  predicate AtTop(p: Pending) {
    p.scope == []
  }

  function EntryOf(p: Pending): Entry {
    p.entry
  }

  /** The entries with an empty scope, in order. */
  function Tops(items: seq<Pending>): seq<Entry> {
    Map(EntryOf, Filter(AtTop, items))
  }

  function GoesTo(tops: seq<Entry>, j: int): Pending -> bool {
    (p: Pending) => p.scope != [] && FindSub(tops, p.scope[0]) == j
  }

  function Inner(p: Pending): Pending {
    if p.scope == [] then p else Pending(p.scope[1..], p.entry)
  }

  /** The items that belong below the `j`-th top entry, with scopes relative to it. */
  function Group(items: seq<Pending>, tops: seq<Entry>, j: int): seq<Pending> {
    Map(Inner, Filter(GoesTo(tops, j), items))
  }

  function Weight(items: seq<Pending>): nat {
    if items == [] then 0 else |items[0].scope| + 1 + Weight(items[1..])
  }

  lemma {:induction false} GroupSmaller(items: seq<Pending>, tops: seq<Entry>, j: int)
    ensures Weight(Group(items, tops, j)) + |Tops(items)| <= Weight(items)
  {
    if items != [] {
      GroupSmaller(items[1..], tops, j);
      GroupCons(items, tops, j);
    }
  }

  lemma GroupCons(items: seq<Pending>, tops: seq<Entry>, j: int)
    requires items != []
    ensures Group(items, tops, j)
         == (if GoesTo(tops, j)(items[0]) then [Inner(items[0])] else []) + Group(items[1..], tops, j)
    ensures Tops(items) == (if AtTop(items[0]) then [items[0].entry] else []) + Tops(items[1..])
  {
    if GoesTo(tops, j)(items[0]) {
      assert ([items[0]] + Filter(GoesTo(tops, j), items[1..]))[1..] == Filter(GoesTo(tops, j), items[1..]);
    }
    if AtTop(items[0]) {
      assert ([items[0]] + Filter(AtTop, items[1..]))[1..] == Filter(AtTop, items[1..]);
    }
  }

  /** The forest that the flat list describes: the entries with empty scope, each over the
      forest of the items whose scope leads through it. */
  function Rebuild(items: seq<Pending>): (r: seq<Entry>)
    ensures |r| == |Tops(items)|
    decreases Weight(items), 1
  {
    seq(|Tops(items)|, j requires 0 <= j < |Tops(items)| => Rebuilt(items, j))
  }

  function Rebuilt(items: seq<Pending>, j: nat): Entry
    requires j < |Tops(items)|
    decreases Weight(items), 0
  {
    GroupSmaller(items, Tops(items), j);
    Tops(items)[j].(children := Rebuild(Group(items, Tops(items), j)))
  }
}

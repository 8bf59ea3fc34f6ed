/** What parsing a serialized document gives back, for every command and document, and
    exactly when it is the document itself. */
module SpecRoundTrip {
  import opened Text
  import opened Sequences
  import opened Optional
  import opened SpecCodec
  import opened SpecForest
  import opened SpecRebuild
  import opened SpecPreorder
  import opened SpecFile

  /** An entry after its list fields went through the list codec. */
  function NormalEntry(e: Entry): Entry {
    e.(aliases := Normal(e.aliases), value := e.value.(choices := Normal(e.value.choices)),
       conflicts := Normal(e.conflicts), dependencies := Normal(e.dependencies), children := [])
  }

  function NormalPending(p: Pending): Pending {
    Pending(Normal(p.scope), NormalEntry(p.entry))
  }

  // ---------------------------------------------------------------- one line

  lemma NamesRoundTrip(e: Entry)
    ensures KindFromCode(KindCode(e.kind)) == e.kind
    ensures ParseRequirement(RequirementName(e.value.requirement)) == e.value.requirement
    ensures ParseType(TypeName(e.value.kind)) == e.value.kind
    ensures ParseSeparator(SeparatorName(e.value.separator)) == e.value.separator
    ensures ParseBool(Flag(e.repeatable)) == e.repeatable && ParseBool(Flag(e.deprecated)) == e.deprecated
    ensures ParseBool(Flag(e.variadic)) == e.variadic
  {
  }

  /** The fields of an entry line by their place. */
  predicate TextsAre(f: seq<string>, p: Pending) {
    && |f| == 18
    && f[3] == EncodeField(p.entry.text) && f[4] == EncodeField(p.entry.description)
    && f[8] == EncodeField(p.entry.value.name) && f[14] == EncodeField(p.entry.value.provider)
  }

  predicate ListsAre(f: seq<string>, p: Pending) {
    && |f| == 18
    && f[2] == EncodeList(p.scope) && f[5] == EncodeList(p.entry.aliases) && f[9] == EncodeList(p.entry.value.choices)
    && f[10] == EncodeList(p.entry.conflicts) && f[11] == EncodeList(p.entry.dependencies)
  }

  predicate NamesAre(f: seq<string>, p: Pending) {
    && |f| == 18
    && f[1] == KindCode(p.entry.kind) && f[6] == RequirementName(p.entry.value.requirement)
    && f[7] == TypeName(p.entry.value.kind) && f[17] == SeparatorName(p.entry.value.separator)
  }

  predicate FlagsAre(f: seq<string>, p: Pending) {
    && |f| == 18
    && f[12] == Flag(p.entry.repeatable) && f[13] == Flag(p.entry.deprecated) && f[16] == Flag(p.entry.variadic)
    && f[15] == ToDecimal(p.entry.positionalIndex)
  }

  lemma TextsWritten(p: Pending)
    ensures TextsAre(EntryFields(p.scope, p.entry), p)
  {
  }

  lemma ListsWritten(p: Pending)
    ensures ListsAre(EntryFields(p.scope, p.entry), p)
  {
  }

  lemma NamesWritten(p: Pending)
    ensures NamesAre(EntryFields(p.scope, p.entry), p)
  {
  }

  lemma FlagsWritten(p: Pending)
    ensures FlagsAre(EntryFields(p.scope, p.entry), p)
  {
  }

  /** The encoded fields decode to the normalized ones. */
  lemma TextsDecode(f: seq<string>, p: Pending)
    requires TextsAre(f, p)
    ensures DecodeField(f[3]) == Some(p.entry.text) && DecodeField(f[4]) == Some(p.entry.description)
    ensures DecodeField(f[8]) == Some(p.entry.value.name) && DecodeField(f[14]) == Some(p.entry.value.provider)
  {
    FieldRoundTrip(p.entry.text);
    FieldRoundTrip(p.entry.description);
    FieldRoundTrip(p.entry.value.name);
    FieldRoundTrip(p.entry.value.provider);
  }

  lemma ListsDecode(f: seq<string>, p: Pending)
    requires ListsAre(f, p)
    ensures DecodeList(f[2]) == Some(Normal(p.scope)) && DecodeList(f[5]) == Some(Normal(p.entry.aliases))
    ensures DecodeList(f[9]) == Some(Normal(p.entry.value.choices))
    ensures DecodeList(f[10]) == Some(Normal(p.entry.conflicts))
    ensures DecodeList(f[11]) == Some(Normal(p.entry.dependencies))
  {
    ListRoundTrip(p.scope);
    ListRoundTrip(p.entry.aliases);
    ListRoundTrip(p.entry.value.choices);
    ListRoundTrip(p.entry.conflicts);
    ListRoundTrip(p.entry.dependencies);
  }

  lemma NamesRead(f: seq<string>, p: Pending)
    requires NamesAre(f, p)
    ensures KindFromCode(f[1]) == p.entry.kind && ParseRequirement(f[6]) == p.entry.value.requirement
    ensures ParseType(f[7]) == p.entry.value.kind && ParseSeparator(f[17]) == p.entry.value.separator
  {
    NamesRoundTrip(p.entry);
  }

  lemma FlagsRead(f: seq<string>, p: Pending)
    requires FlagsAre(f, p)
    ensures ParseBool(f[12]) == p.entry.repeatable && ParseBool(f[13]) == p.entry.deprecated
    ensures ParseBool(f[16]) == p.entry.variadic && ParseIndex(f[15]) == p.entry.positionalIndex
  {
    NamesRoundTrip(p.entry);
    IndexRoundTrip(p.entry.positionalIndex);
  }

  /** A line with these fields is read as this entry. */
  lemma FieldsRead(f: seq<string>, p: Pending)
    requires |f| == 18
    requires DecodeField(f[3]) == Some(p.entry.text) && DecodeField(f[4]) == Some(p.entry.description)
    requires DecodeField(f[8]) == Some(p.entry.value.name) && DecodeField(f[14]) == Some(p.entry.value.provider)
    requires DecodeList(f[2]) == Some(p.scope) && DecodeList(f[5]) == Some(p.entry.aliases)
    requires DecodeList(f[9]) == Some(p.entry.value.choices)
    requires DecodeList(f[10]) == Some(p.entry.conflicts) && DecodeList(f[11]) == Some(p.entry.dependencies)
    requires KindFromCode(f[1]) == p.entry.kind && ParseRequirement(f[6]) == p.entry.value.requirement
    requires ParseType(f[7]) == p.entry.value.kind && ParseSeparator(f[17]) == p.entry.value.separator
    requires ParseBool(f[12]) == p.entry.repeatable && ParseBool(f[13]) == p.entry.deprecated
    requires ParseBool(f[16]) == p.entry.variadic && ParseIndex(f[15]) == p.entry.positionalIndex
    ensures ParseEntry(f) == Some(Pending(p.scope, p.entry.(children := [])))
  {
  }

  lemma EntryParsed(p: Pending)
    ensures ParseEntry(EntryFields(p.scope, p.entry)) == Some(NormalPending(p))
  {
    var f := EntryFields(p.scope, p.entry);
    TextsWritten(p);
    ListsWritten(p);
    NamesWritten(p);
    FlagsWritten(p);
    TextsDecode(f, p);
    ListsDecode(f, p);
    NamesRead(f, p);
    FlagsRead(f, p);
    FieldsRead(f, NormalPending(p));
  }

  /** Neither a tab nor a newline. */
  predicate Plain(s: string) {
    '\t' !in s && '\n' !in s
  }

  lemma FieldPlain(value: string)
    ensures Plain(EncodeField(value))
  {
    FieldHasNoSeparator(value);
  }

  lemma ListPlain(values: seq<string>)
    ensures Plain(EncodeList(values))
  {
    ListHasNoSeparator(values);
  }

  lemma KindPlain(kind: EntryKind)
    ensures Plain(KindCode(kind))
  {
  }

  lemma RequirementPlain(requirement: Requirement)
    ensures Plain(RequirementName(requirement))
  {
  }

  lemma TypePlain(kind: ValueType)
    ensures Plain(TypeName(kind))
  {
  }

  lemma SeparatorPlain(separator: Separator)
    ensures Plain(SeparatorName(separator))
  {
  }

  lemma FlagPlain(b: bool)
    ensures Plain(Flag(b)) && Plain("E")
  {
  }

  lemma NamesPlain(e: Entry)
    ensures Plain("E") && Plain(KindCode(e.kind)) && Plain(RequirementName(e.value.requirement))
    ensures Plain(TypeName(e.value.kind)) && Plain(SeparatorName(e.value.separator))
    ensures Plain(Flag(e.repeatable)) && Plain(Flag(e.deprecated)) && Plain(Flag(e.variadic))
  {
    KindPlain(e.kind);
    RequirementPlain(e.value.requirement);
    TypePlain(e.value.kind);
    SeparatorPlain(e.value.separator);
    FlagPlain(e.repeatable);
    FlagPlain(e.deprecated);
    FlagPlain(e.variadic);
  }

  lemma FieldsPlain(p: Pending)
    ensures forall k :: 0 <= k < 18 ==> Plain(EntryFields(p.scope, p.entry)[k])
  {
    var e := p.entry;
    NamesPlain(e);
    ListPlain(p.scope);
    FieldPlain(e.text);
    FieldPlain(e.description);
    ListPlain(e.aliases);
    FieldPlain(e.value.name);
    ListPlain(e.value.choices);
    ListPlain(e.conflicts);
    ListPlain(e.dependencies);
    FieldPlain(e.value.provider);
    assert Plain(ToDecimal(e.positionalIndex)) by { DecimalHasNoSeparator(e.positionalIndex); }
  }

  lemma LineSplits(p: Pending)
    ensures Split(EntryLine(p), '\t', 0) == EntryFields(p.scope, p.entry)
    ensures '\n' !in EntryLine(p)
    ensures EntryLine(p) != "" && EntryLine(p)[0] == 'E'
  {
    var f := EntryFields(p.scope, p.entry);
    FieldsPlain(p);
    FreeEach(f, '\t');
    SplitJoin(f, '\t');
    JoinHas(f, '\t', '\n');
    assert EntryLine(p) == f[0] + ['\t'] + Join(f[1..], '\t');
  }

  lemma EntryLineParsed(st: ParseState, p: Pending)
    ensures ParseLine(st, EntryLine(p)) == Some(st.(pending := st.pending + [NormalPending(p)]))
  {
    LineSplits(p);
    EntryParsed(p);
    var line := EntryLine(p);
    assert !(FORMAT_PREFIX <= line) by { assert FORMAT_PREFIX[0] == 'f'; }
    assert !(SUMMARY_PREFIX <= line) by { assert SUMMARY_PREFIX[0] == 's'; }
    assert !(PATH_PREFIX <= line) by { assert PATH_PREFIX[0] == 'p'; }
  }

  // ---------------------------------------------------------------- all entry lines

  function Scoped(scope: seq<string>): Pending -> Pending {
    (p: Pending) => Pending(scope + p.scope, p.entry)
  }

  lemma {:induction false} ScopedUnder(scope: seq<string>, text: string, items: seq<Pending>)
    ensures Map(Scoped(scope), Under(text, items)) == Map(Scoped(scope + [text]), items)
  {
    UnderScopes(text, items);
    forall k | 0 <= k < |items|
      ensures Map(Scoped(scope), Under(text, items))[k] == Map(Scoped(scope + [text]), items)[k]
    {
      Assoc(scope, [text], items[k].scope);
    }
  }

  lemma BareLine(scope: seq<string>, e: Entry)
    ensures EntryLine(Pending(scope, Bare(e))) == EntryLine(Pending(scope, e))
  {
  }

  lemma {:induction false} OwnLinesFlat(e: Entry, scope: seq<string>)
    ensures OwnLines(e, scope) == Map(EntryLine, Map(Scoped(scope), [Pending([], Bare(e))] + Below(e)))
    decreases e, 0
  {
    var head := Pending([], Bare(e));
    MapAppend(Scoped(scope), [head], Below(e));
    MapAppend(EntryLine, Map(Scoped(scope), [head]), Map(Scoped(scope), Below(e)));
    BareLine(scope, e);
    assert scope + [] == scope;
    assert Map(EntryLine, Map(Scoped(scope), [head])) == [EntryLine(Pending(scope, e))];
    if e.kind == KindSubcommand {
      ScopedUnder(scope, e.text, Flatten(e.children));
      EntryLinesFlat(e.children, scope + [e.text]);
    }
  }

  /** The lines written are those of the flat list, in order. */
  lemma {:induction false} EntryLinesFlat(entries: seq<Entry>, scope: seq<string>)
    ensures EntryLines(entries, scope) == Map(EntryLine, Map(Scoped(scope), Flatten(entries)))
    decreases entries, 1
  {
    if entries != [] {
      var head := [Pending([], Bare(entries[0]))] + Below(entries[0]);
      OwnLinesFlat(entries[0], scope);
      EntryLinesFlat(entries[1..], scope);
      FlattenCons(entries);
      Assoc([Pending([], Bare(entries[0]))], Below(entries[0]), Flatten(entries[1..]));
      MapAppend(Scoped(scope), head, Flatten(entries[1..]));
      MapAppend(EntryLine, Map(Scoped(scope), head), Map(Scoped(scope), Flatten(entries[1..])));
    }
  }

  lemma {:induction false} UnscopedFlat(items: seq<Pending>)
    ensures Map(Scoped([]), items) == items
  {
    forall k | 0 <= k < |items| ensures Map(Scoped([]), items)[k] == items[k] {
      NoneBefore(items[k].scope);
    }
  }

  lemma {:induction false} EntryLinesParsed(st: ParseState, items: seq<Pending>)
    ensures ParseLines(st, Map(EntryLine, items)) == Some(st.(pending := st.pending + Map(NormalPending, items)))
    decreases |items|
  {
    if items == [] {
      NoneBefore(st.pending);
    } else {
      var next := st.(pending := st.pending + [NormalPending(items[0])]);
      EntryLineParsed(st, items[0]);
      MapTail(EntryLine, items);
      MapTail(NormalPending, items);
      assert Map(EntryLine, items)[1..] == Map(EntryLine, items[1..]);
      EntryLinesParsed(next, items[1..]);
      Assoc(st.pending, [NormalPending(items[0])], Map(NormalPending, items[1..]));
    }
  }

  // ---------------------------------------------------------------- the whole file

  /** The pending entries that the parser collects from a serialized document. */
  function Reloaded(doc: CommandDoc): seq<Pending> {
    Map(NormalPending, Flatten(doc.entries))
  }

  lemma EntryLinesPlain(entries: seq<Entry>, k: nat)
    requires k < |EntryLines(entries, [])|
    ensures '\n' !in EntryLines(entries, [])[k]
  {
    EntryLinesFlat(entries, []);
    UnscopedFlat(Flatten(entries));
    LineSplits(Flatten(entries)[k]);
  }

  lemma HeadLinesPlain(doc: CommandDoc)
    ensures '\n' !in FORMAT_PREFIX + ToDecimal(FORMAT_VERSION)
    ensures '\n' !in SUMMARY_PREFIX + EncodeField(doc.summary)
    ensures '\n' !in PATH_PREFIX + EncodeField(doc.executablePath)
  {
    FieldHasNoSeparator(doc.summary);
    FieldHasNoSeparator(doc.executablePath);
    DecimalHasNoSeparator(FORMAT_VERSION);
  }

  lemma DocLinesPlain(doc: CommandDoc)
    ensures forall k :: 0 <= k < |DocLines(doc)| ==> '\n' !in DocLines(doc)[k]
  {
    HeadLinesPlain(doc);
    forall k | 0 <= k < |EntryLines(doc.entries, [])| ensures '\n' !in EntryLines(doc.entries, [])[k] {
      EntryLinesPlain(doc.entries, k);
    }
  }

  lemma PrefixLines(doc: CommandDoc)
    ensures ParseLine(START, DocLines(doc)[0]) == Some(START.(version := 2))
    ensures ParseLine(START.(version := 2), DocLines(doc)[1]) == Some(START.(version := 2, summary := doc.summary))
    ensures ParseLine(START.(version := 2, summary := doc.summary), DocLines(doc)[2])
         == Some(START.(version := 2, summary := doc.summary, path := doc.executablePath))
  {
    FormatLine();
    FieldRoundTrip(doc.summary);
    FieldRoundTrip(doc.executablePath);
    var s := SUMMARY_PREFIX + EncodeField(doc.summary);
    assert s[|SUMMARY_PREFIX|..] == EncodeField(doc.summary) && s[0] == 's' && FORMAT_PREFIX[0] == 'f';
    var p := PATH_PREFIX + EncodeField(doc.executablePath);
    assert p[|PATH_PREFIX|..] == EncodeField(doc.executablePath) && p[0] == 'p' && SUMMARY_PREFIX[0] == 's';
  }

  lemma FormatLine()
    ensures ParseLine(START, FORMAT_PREFIX + ToDecimal(FORMAT_VERSION)) == Some(START.(version := 2))
  {
    var f := FORMAT_PREFIX + ToDecimal(FORMAT_VERSION);
    assert f[|FORMAT_PREFIX|..] == ToDecimal(FORMAT_VERSION);
    IndexRoundTrip(FORMAT_VERSION);
  }

  lemma DocLinesParsed(doc: CommandDoc)
    ensures ParseLines(START, DocLines(doc)) == Some(ParseState(doc.summary, doc.executablePath, 2, Reloaded(doc)))
  {
    var lines := DocLines(doc);
    var s1 := START.(version := 2);
    var s2 := s1.(summary := doc.summary);
    var s3 := s2.(path := doc.executablePath);
    PrefixLines(doc);
    EntryLinesFlat(doc.entries, []);
    UnscopedFlat(Flatten(doc.entries));
    EntryLinesParsed(s3, Flatten(doc.entries));
    NoneBefore(Reloaded(doc));
    var rest := EntryLines(doc.entries, []);
    assert lines[1..][1..][1..] == rest;
    assert ParseLines(s2, lines[1..][1..]) == ParseLines(s3, rest);
    assert ParseLines(s1, lines[1..]) == ParseLines(s2, lines[1..][1..]);
  }

  lemma SerializedLines(command: string, doc: CommandDoc)
    requires '\n' !in command
    ensures Lines(Serialize(command, doc), 0) == [HEADER_PREFIX + command] + DocLines(doc)
  {
    var head := HEADER_PREFIX + command;
    var lines := [head] + DocLines(doc);
    assert '\n' !in HEADER_PREFIX;
    DocLinesPlain(doc);
    FreeEach(lines, '\n');
    assert lines[1..] == DocLines(doc);
    LinesUnlines(lines);
  }

  /** Parsing a serialized document never fails when the command holds no newline; the
      entries come back as the forest of the normalized flat list. */
  lemma SerializedParsed(command: string, doc: CommandDoc)
    requires '\n' !in command
    ensures Parse(command, Serialize(command, doc))
         == Some(CommandDoc(Rebuild(Reloaded(doc)), doc.summary, doc.executablePath, true))
  {
    SerializedLines(command, doc);
    DocLinesParsed(doc);
    assert ([HEADER_PREFIX + command] + DocLines(doc))[1..] == DocLines(doc);
    SortAndAttach(Reloaded(doc));
  }

  /** A newline in the command makes the file unreadable. */
  lemma NewlineUnreadable(command: string, doc: CommandDoc)
    requires '\n' in command
    ensures Parse(command, Serialize(command, doc)) == None
  {
    var s := Serialize(command, doc);
    var k := Find(s, '\n', 0);
    var m :| 0 <= m < |command| && command[m] == '\n';
    assert s[|HEADER_PREFIX| + m] == '\n';
    FindBound(s, '\n', 0, |HEADER_PREFIX| + m);
    assert |s[0..k]| < |HEADER_PREFIX + command|;
  }

  lemma {:induction false} FindBound(s: string, c: char, from: nat, k: nat)
    requires from <= k < |s| && s[k] == c
    ensures from <= Find(s, c, from) <= k
    decreases k - from
  {
    if s[from] != c { FindBound(s, c, from + 1, k); }
  }

  // ---------------------------------------------------------------- exactly when it is faithful

  /** No list field anywhere in the forest is exactly `[""]`. */
  predicate Clean(entries: seq<Entry>)
    decreases entries
  {
    forall i :: 0 <= i < |entries| ==> CleanFields(entries[i]) && Clean(entries[i].children)
  }

  predicate CleanFields(e: Entry) {
    e.aliases != [""] && e.value.choices != [""] && e.conflicts != [""] && e.dependencies != [""]
  }

  /** A parent at the top level has a name: its children's scope would read as no scope. */
  predicate NamedParents(entries: seq<Entry>) {
    forall i :: 0 <= i < |entries| && entries[i].kind == KindSubcommand && entries[i].children != [] ==>
        entries[i].text != ""
  }

  /** The documents the file format can hold. */
  predicate Representable(doc: CommandDoc) {
    doc.summaryPresent && Clean(doc.entries) && NamedParents(doc.entries) && Addressable(doc.entries)
  }

  ghost predicate CleanItems(items: seq<Pending>) {
    forall k :: 0 <= k < |items| ==> CleanFields(items[k].entry)
  }

  lemma {:induction false} FlattenClean(entries: seq<Entry>)
    requires Clean(entries)
    ensures CleanItems(Flatten(entries))
    decreases entries
  {
    if entries != [] {
      FlattenClean(entries[0].children);
      assert Clean(entries[1..]) by {
        assert forall i :: 0 <= i < |entries[1..]| ==> entries[1..][i] == entries[i + 1];
      }
      FlattenClean(entries[1..]);
      FlattenCons(entries);
      UnderScopes(entries[0].text, Flatten(entries[0].children));
      assert CleanFields(Bare(entries[0]));
    }
  }

  lemma {:induction false} TopsFromItems(items: seq<Pending>, k: nat)
    requires k < |Tops(items)|
    ensures exists m :: 0 <= m < |items| && items[m].entry == Tops(items)[k]
  {
    FilterMembers(AtTop, items);
    var kept := Filter(AtTop, items);
    assert kept[k] in kept;
    var m :| 0 <= m < |items| && items[m] == kept[k];
  }

  lemma {:induction false} GroupFromItems(items: seq<Pending>, tops: seq<Entry>, j: int, k: nat)
    requires k < |Group(items, tops, j)|
    ensures exists m :: 0 <= m < |items| && items[m].entry == Group(items, tops, j)[k].entry
  {
    FilterMembers(GoesTo(tops, j), items);
    var kept := Filter(GoesTo(tops, j), items);
    assert kept[k] in kept;
    var m :| 0 <= m < |items| && items[m] == kept[k];
  }

  lemma {:induction false} RebuildClean(items: seq<Pending>)
    requires CleanItems(items)
    ensures Clean(Rebuild(items))
    decreases Weight(items)
  {
    var tops := Tops(items);
    forall j | 0 <= j < |tops| ensures CleanFields(Rebuild(items)[j]) && Clean(Rebuild(items)[j].children) {
      RebuildAt(items, j);
      TopsFromItems(items, j);
      var g := Group(items, tops, j);
      forall k | 0 <= k < |g| ensures CleanFields(g[k].entry) { GroupFromItems(items, tops, j, k); }
      GroupSmaller(items, tops, j);
      RebuildClean(g);
    }
  }

  lemma {:induction false} ReloadedClean(doc: CommandDoc)
    ensures CleanItems(Reloaded(doc))
  {
  }

  /** Without `[""]` lists, only a scope of exactly `[""]` is changed by the file. */
  lemma {:induction false} NormalSame(p: Pending)
    requires CleanFields(p.entry) && Bare(p.entry) == p.entry
    ensures NormalPending(p) == Pending(Normal(p.scope), p.entry)
  {
  }

  lemma {:induction false} NestedScopes(entries: seq<Entry>)
    requires NamedParents(entries)
    ensures forall k :: 0 <= k < |Flatten(entries)| ==> Flatten(entries)[k].scope != [""]
    decreases |entries|
  {
    if entries != [] {
      var e := entries[0];
      assert NamedParents(entries[1..]);
      NestedScopes(entries[1..]);
      FlattenCons(entries);
      UnderScopes(e.text, Flatten(e.children));
      FlattenEmpty(e.children);
      forall k | 0 <= k < |Below(e)| ensures Below(e)[k].scope != [""] {
        assert Below(e)[k].scope[0] == e.text;
      }
    }
  }

  lemma {:induction false} ReloadedSame(doc: CommandDoc)
    requires Clean(doc.entries) && NamedParents(doc.entries)
    ensures Reloaded(doc) == Flatten(doc.entries)
  {
    var items := Flatten(doc.entries);
    FlattenClean(doc.entries);
    FlattenBare(doc.entries);
    NestedScopes(doc.entries);
    forall k | 0 <= k < |items| ensures Reloaded(doc)[k] == items[k] {
      NormalSame(items[k]);
    }
  }

  // A nameless parent at the top level sends its children to the top level.

  lemma {:induction false} NamelessBelow(e: Entry)
    requires e.kind == KindSubcommand && e.text == "" && e.children != []
    ensures |Tops(Map(NormalPending, Below(e)))| > 0
  {
    var items := Flatten(e.children);
    FlattenCons(e.children);
    UnderScopes(e.text, items);
    assert Below(e)[0] == Pending([""], Bare(e.children[0]));
    assert NormalPending(Below(e)[0]).scope == [];
    MapTail(NormalPending, Below(e));
    TopsAppend([NormalPending(Below(e)[0])], Map(NormalPending, Below(e)[1..]));
    SingleGroup(NormalPending(Below(e)[0]), [], 0);
  }

  lemma {:induction false} ReloadedTopsCons(entries: seq<Entry>)
    requires entries != []
    ensures |Tops(Map(NormalPending, Flatten(entries)))|
         == 1 + |Tops(Map(NormalPending, Below(entries[0])))| + |Tops(Map(NormalPending, Flatten(entries[1..])))|
  {
    var head := Pending([], Bare(entries[0]));
    FlattenCons(entries);
    MapAppend(NormalPending, [head], Below(entries[0]) + Flatten(entries[1..]));
    MapAppend(NormalPending, Below(entries[0]), Flatten(entries[1..]));
    assert Map(NormalPending, [head]) == [NormalPending(head)];
    TopsThree(NormalPending(head), Map(NormalPending, Below(entries[0])), Map(NormalPending, Flatten(entries[1..])));
  }

  lemma {:induction false} TopsGrow(entries: seq<Entry>)
    ensures |Tops(Map(NormalPending, Flatten(entries)))| >= |entries|
    ensures |Tops(Map(NormalPending, Flatten(entries)))| == |entries| ==> NamedParents(entries)
    decreases |entries|
  {
    if entries != [] {
      TopsGrow(entries[1..]);
      ReloadedTopsCons(entries);
      var e := entries[0];
      if e.kind == KindSubcommand && e.children != [] && e.text == "" {
        NamelessBelow(e);
      }
      if NamedParents(entries[1..]) && (e.kind == KindSubcommand && e.children != [] ==> e.text != "") {
        forall i | 0 <= i < |entries| && entries[i].kind == KindSubcommand && entries[i].children != []
            ensures entries[i].text != "" {
          if i > 0 { assert entries[1..][i - 1] == entries[i]; }
        }
      }
    }
  }

  /** The file round trip: reading back what was written gives the same document exactly
      when the command holds no newline and the document is representable. */
  lemma SpecFileRoundTrip(command: string, doc: CommandDoc)
    ensures Parse(command, Serialize(command, doc)) == Some(doc) <==> '\n' !in command && Representable(doc)
  {
    if '\n' in command {
      NewlineUnreadable(command, doc);
    } else {
      SerializedParsed(command, doc);
      if Representable(doc) {
        ReloadedSame(doc);
        AddressableRebuilt(doc.entries);
      }
      if doc == CommandDoc(Rebuild(Reloaded(doc)), doc.summary, doc.executablePath, true) {
        FaithfulRepresentable(doc);
      }
    }
  }

  lemma FaithfulRepresentable(doc: CommandDoc)
    requires doc.summaryPresent && Rebuild(Reloaded(doc)) == doc.entries
    ensures Representable(doc)
  {
    ReloadedClean(doc);
    RebuildClean(Reloaded(doc));
    TopsGrow(doc.entries);
    ReloadedSame(doc);
    RebuiltAddressable(doc.entries);
  }

  // Two documents the format does not hold.

  function Command(text: string, aliases: seq<string>, children: seq<Entry>): Entry {
    Entry(text, "", KindSubcommand, aliases, ValueSpec(ReqNone, TypeNone, SepSpace, "", [], ""), [], [], false,
        false, 0, false, children)
  }

  /** A subcommand whose name is an alias of an earlier sibling loses its children to it. */
  lemma ShadowedParentLost()
    ensures var doc := CommandDoc([Command("a", ["b"], []), Command("b", [], [Command("c", [], [])])], "", "", true);
      Parse("x", Serialize("x", doc)) != Some(doc)
  {
    var entries := [Command("a", ["b"], []), Command("b", [], [Command("c", [], [])])];
    var doc := CommandDoc(entries, "", "", true);
    SpecFileRoundTrip("x", doc);
    assert Takes(entries[0], "b") && !Found(entries, 1);
  }

  /** The children of a nameless subcommand at the top level are read back beside it. */
  lemma NamelessParentLost()
    ensures var doc := CommandDoc([Command("", [], [Command("c", [], [])])], "", "", true);
      Parse("x", Serialize("x", doc)) != Some(doc)
  {
    var entries := [Command("", [], [Command("c", [], [])])];
    var doc := CommandDoc(entries, "", "", true);
    SpecFileRoundTrip("x", doc);
    assert entries[0].children != [] && !NamedParents(entries);
  }
}

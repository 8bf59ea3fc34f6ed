/** The spec file as it stands on disk, line by line, and what a reader makes of each line: the
    names, places and failures of the format, spelled out. */
module SpecLines {
  import opened Optional
  import opened Sequences
  import opened SpecCodec
  import opened SpecForest
  import opened SpecFile
  import opened SpecRoundTrip
  import opened SpecText

  // ---------------------------------------------------------------- writing

  /** The columns of a line, with tabs between. */
  function Tabbed(columns: seq<string>): string {
    if columns == [] then ""
    else if |columns| == 1 then columns[0]
    else columns[0] + "\t" + Tabbed(columns[1..])
  }

  function Kind(e: Entry): string {
    if e.kind.KindSubcommand? then "S" else if e.kind.KindPositional? then "P" else "O"
  }

  function Requirement(e: Entry): string {
    if e.value.requirement.ReqRequired? then "required"
    else if e.value.requirement.ReqOptional? then "optional"
    else "none"
  }

  function Type(e: Entry): string {
    if e.value.kind.TypeText? then "text"
    else if e.value.kind.TypeFile? then "file"
    else if e.value.kind.TypeDirectory? then "directory"
    else if e.value.kind.TypeEnum? then "enum"
    else if e.value.kind.TypeCommand? then "command"
    else if e.value.kind.TypeBranch? then "branch"
    else if e.value.kind.TypeProcess? then "process"
    else if e.value.kind.TypeCustom? then "custom"
    else "none"
  }

  function Separation(e: Entry): string {
    if e.value.separator.SepEquals? then "equals" else if e.value.separator.SepEither? then "either" else "space"
  }

  function Yes(b: bool): string {
    if b then "1" else "0"
  }

  /** The 18 columns of an entry below the subcommands of `scope`. */
  function Columns(scope: seq<string>, e: Entry): (r: seq<string>)
    ensures |r| == 18
  {
    ["E", Kind(e), SpeltList(scope), Spelt(e.text), Spelt(e.description), SpeltList(e.aliases), Requirement(e), Type(e),
     Spelt(e.value.name), SpeltList(e.value.choices), SpeltList(e.conflicts), SpeltList(e.dependencies),
     Yes(e.repeatable), Yes(e.deprecated), Spelt(e.value.provider), ToDecimal(e.positionalIndex), Yes(e.variadic),
     Separation(e)]
  }

  /** The entries one after the other, each subcommand followed by its children. */
  function Body(entries: seq<Entry>, scope: seq<string>): string
    decreases entries
  {
    if entries == [] then ""
    else
      Tabbed(Columns(scope, entries[0])) + "\n"
      + (if entries[0].kind.KindSubcommand? then Body(entries[0].children, scope + [entries[0].text]) else "")
      + Body(entries[1..], scope)
  }

  lemma {:induction false} TabbedIsJoin(columns: seq<string>)
    ensures Join(columns, '\t') == Tabbed(columns)
  {
    if |columns| > 1 { TabbedIsJoin(columns[1..]); }
  }

  lemma TextColumns(p: Pending, f: seq<string>)
    requires TextsAre(f, p)
    ensures f[3] == Spelt(p.entry.text) && f[4] == Spelt(p.entry.description)
    ensures f[8] == Spelt(p.entry.value.name) && f[14] == Spelt(p.entry.value.provider)
  {
    FieldSpelt(p.entry.text);
    FieldSpelt(p.entry.description);
    FieldSpelt(p.entry.value.name);
    FieldSpelt(p.entry.value.provider);
  }

  lemma ListColumns(p: Pending, f: seq<string>)
    requires ListsAre(f, p)
    ensures f[2] == SpeltList(p.scope) && f[5] == SpeltList(p.entry.aliases)
    ensures f[9] == SpeltList(p.entry.value.choices) && f[10] == SpeltList(p.entry.conflicts)
        && f[11] == SpeltList(p.entry.dependencies)
  {
    ListSpelt(p.scope);
    ListSpelt(p.entry.aliases);
    ListSpelt(p.entry.value.choices);
    ListSpelt(p.entry.conflicts);
    ListSpelt(p.entry.dependencies);
  }

  /** The columns that are names, flags and numbers. */
  predicate NamesSpelt(f: seq<string>, e: Entry) {
    && |f| == 18
    && f[0] == "E" && f[1] == Kind(e) && f[6] == Requirement(e) && f[7] == Type(e)
    && f[12] == Yes(e.repeatable) && f[13] == Yes(e.deprecated) && f[15] == ToDecimal(e.positionalIndex)
    && f[16] == Yes(e.variadic) && f[17] == Separation(e)
  }

  lemma KindWritten(e: Entry)
    ensures KindCode(e.kind) == Kind(e)
  {
  }

  lemma RequirementWritten(e: Entry)
    ensures RequirementName(e.value.requirement) == Requirement(e)
  {
  }

  lemma TypeWritten(e: Entry)
    ensures TypeName(e.value.kind) == Type(e)
  {
  }

  lemma SeparationWritten(e: Entry)
    ensures SeparatorName(e.value.separator) == Separation(e)
  {
  }

  lemma NameColumns(p: Pending, f: seq<string>)
    requires |f| == 18 && f[0] == "E" && NamesAre(f, p) && FlagsAre(f, p)
    ensures NamesSpelt(f, p.entry)
  {
    KindWritten(p.entry);
    RequirementWritten(p.entry);
    TypeWritten(p.entry);
    SeparationWritten(p.entry);
  }

  lemma Eighteen(f: seq<string>, a: string, b: string, c: string, d: string, e: string, g: string, h: string, i: string,
      j: string, k: string, l: string, m: string, n: string, o: string, p: string, q: string, r: string, s: string)
    requires |f| == 18
    requires f[0] == a && f[1] == b && f[2] == c && f[3] == d && f[4] == e && f[5] == g && f[6] == h && f[7] == i
    requires f[8] == j && f[9] == k && f[10] == l && f[11] == m && f[12] == n && f[13] == o && f[14] == p
    requires f[15] == q && f[16] == r && f[17] == s
    ensures f == [a, b, c, d, e, g, h, i, j, k, l, m, n, o, p, q, r, s]
  {
  }

  lemma SameColumns(p: Pending, f: seq<string>)
    requires TextsAre(f, p) && ListsAre(f, p) && NamesSpelt(f, p.entry)
    ensures f == Columns(p.scope, p.entry)
  {
    TextColumns(p, f);
    ListColumns(p, f);
    var e := p.entry;
    Eighteen(f, "E", Kind(e), SpeltList(p.scope), Spelt(e.text), Spelt(e.description), SpeltList(e.aliases),
        Requirement(e), Type(e), Spelt(e.value.name), SpeltList(e.value.choices), SpeltList(e.conflicts),
        SpeltList(e.dependencies), Yes(e.repeatable), Yes(e.deprecated), Spelt(e.value.provider),
        ToDecimal(e.positionalIndex), Yes(e.variadic), Separation(e));
  }

  lemma ColumnsWritten(scope: seq<string>, e: Entry)
    ensures EntryFields(scope, e) == Columns(scope, e)
  {
    var p := Pending(scope, e);
    TextsWritten(p);
    ListsWritten(p);
    NamesWritten(p);
    FlagsWritten(p);
    NameColumns(p, EntryFields(scope, e));
    SameColumns(p, EntryFields(scope, e));
  }

  lemma LineWritten(scope: seq<string>, e: Entry)
    ensures EntryLine(Pending(scope, e)) == Tabbed(Columns(scope, e))
  {
    ColumnsWritten(scope, e);
    TabbedIsJoin(Columns(scope, e));
  }

  lemma {:induction false} BodyWritten(entries: seq<Entry>, scope: seq<string>)
    ensures Unlines(EntryLines(entries, scope)) == Body(entries, scope)
    decreases entries, 0
  {
    if entries != [] {
      OwnWritten(entries[0], scope);
      BodyWritten(entries[1..], scope);
      UnlinesAppend(OwnLines(entries[0], scope), EntryLines(entries[1..], scope));
    }
  }

  lemma {:induction false} OwnWritten(e: Entry, scope: seq<string>)
    ensures Unlines(OwnLines(e, scope)) == Tabbed(Columns(scope, e)) + "\n"
      + if e.kind.KindSubcommand? then Body(e.children, scope + [e.text]) else ""
    decreases e, 1
  {
    var line := EntryLine(Pending(scope, e));
    var below := if e.kind.KindSubcommand? then EntryLines(e.children, scope + [e.text]) else [];
    LineWritten(scope, e);
    assert ([line] + below)[1..] == below;
    if e.kind.KindSubcommand? { BodyWritten(e.children, scope + [e.text]); }
  }

  lemma ThreeThen(a: string, b: string, c: string, rest: seq<string>)
    ensures Unlines([a, b, c] + rest) == a + "\n" + (b + "\n" + (c + "\n" + Unlines(rest)))
  {
    assert [a, b, c] + rest == [a] + ([b] + ([c] + rest));
    LineThen(c, rest);
    LineThen(b, [c] + rest);
    LineThen(a, [b] + ([c] + rest));
  }

  lemma LineThen(line: string, rest: seq<string>)
    ensures Unlines([line] + rest) == line + "\n" + Unlines(rest)
  {
    assert ([line] + rest)[1..] == rest;
  }

  lemma HeadWritten(doc: CommandDoc)
    ensures DocLines(doc)
         == ["format: 2", "summary: " + Spelt(doc.summary), "path: " + Spelt(doc.executablePath)]
          + EntryLines(doc.entries, [])
  {
    FieldSpelt(doc.summary);
    FieldSpelt(doc.executablePath);
    assert ToDecimal(2) == "2";
    assert FORMAT_PREFIX + ToDecimal(FORMAT_VERSION) == "format: 2";
  }

  /** The whole file, for every document. */
  lemma FileWritten(command: string, doc: CommandDoc)
    ensures Serialize(command, doc)
         == "generated by cjsh from man page for " + command + "\n" + ("format: 2" + "\n"
            + ("summary: " + Spelt(doc.summary) + "\n" + ("path: " + Spelt(doc.executablePath) + "\n"
               + Body(doc.entries, []))))
  {
    HeadWritten(doc);
    BodyWritten(doc.entries, []);
    ThreeThen("format: 2", "summary: " + Spelt(doc.summary), "path: " + Spelt(doc.executablePath),
        EntryLines(doc.entries, []));
  }

  // ---------------------------------------------------------------- reading a line

  /** What the nine text columns hold can be decoded. */
  predicate Decodable(f: seq<string>)
    requires |f| >= 18
  {
    && DecodeList(f[2]).Some? && DecodeField(f[3]).Some? && DecodeField(f[4]).Some? && DecodeList(f[5]).Some?
    && DecodeField(f[8]).Some? && DecodeList(f[9]).Some? && DecodeList(f[10]).Some? && DecodeList(f[11]).Some?
    && DecodeField(f[14]).Some?
  }

  predicate TextsFrom(f: seq<string>, p: Pending)
    requires |f| >= 18
  {
    && Some(p.scope) == DecodeList(f[2]) && Some(p.entry.text) == DecodeField(f[3])
    && Some(p.entry.description) == DecodeField(f[4]) && Some(p.entry.aliases) == DecodeList(f[5])
    && Some(p.entry.value.name) == DecodeField(f[8]) && Some(p.entry.value.choices) == DecodeList(f[9])
    && Some(p.entry.conflicts) == DecodeList(f[10]) && Some(p.entry.dependencies) == DecodeList(f[11])
    && Some(p.entry.value.provider) == DecodeField(f[14])
  }

  predicate Says(word: string, yes: bool) {
    yes <==> word == "1" || word == "true" || word == "yes"
  }

  /** A word that is none of the names of its column stands for an option, a value that is not
      there, a type that is not there, or a space. */
  predicate NamesFrom(f: seq<string>, e: Entry)
    requires |f| >= 18
  {
    && (e.kind.KindSubcommand? <==> f[1] == "S") && (e.kind.KindPositional? <==> f[1] == "P")
    && (e.value.requirement.ReqRequired? <==> f[6] == "required")
    && (e.value.requirement.ReqOptional? <==> f[6] == "optional")
    && (e.value.kind.TypeText? <==> f[7] == "text") && (e.value.kind.TypeFile? <==> f[7] == "file")
    && (e.value.kind.TypeDirectory? <==> f[7] == "directory") && (e.value.kind.TypeEnum? <==> f[7] == "enum")
    && (e.value.kind.TypeCommand? <==> f[7] == "command") && (e.value.kind.TypeBranch? <==> f[7] == "branch")
    && (e.value.kind.TypeProcess? <==> f[7] == "process") && (e.value.kind.TypeCustom? <==> f[7] == "custom")
    && (e.value.separator.SepEquals? <==> f[17] == "equals") && (e.value.separator.SepEither? <==> f[17] == "either")
    && Says(f[12], e.repeatable) && Says(f[13], e.deprecated) && Says(f[16], e.variadic)
    && e.positionalIndex == ParseIndex(f[15]) && e.children == []
  }

  lemma KindRead(f: string)
    ensures KindFromCode(f).KindSubcommand? <==> f == "S"
    ensures KindFromCode(f).KindPositional? <==> f == "P"
  {
  }

  lemma RequirementRead(f: string)
    ensures ParseRequirement(f).ReqRequired? <==> f == "required"
    ensures ParseRequirement(f).ReqOptional? <==> f == "optional"
  {
  }

  lemma SeparatorRead(f: string)
    ensures ParseSeparator(f).SepEquals? <==> f == "equals"
    ensures ParseSeparator(f).SepEither? <==> f == "either"
  {
  }

  lemma TypeRead(f: string)
    ensures ParseType(f).TypeText? <==> f == "text"
    ensures ParseType(f).TypeFile? <==> f == "file"
    ensures ParseType(f).TypeDirectory? <==> f == "directory"
    ensures ParseType(f).TypeEnum? <==> f == "enum"
    ensures ParseType(f).TypeCommand? <==> f == "command"
    ensures ParseType(f).TypeBranch? <==> f == "branch"
    ensures ParseType(f).TypeProcess? <==> f == "process"
    ensures ParseType(f).TypeCustom? <==> f == "custom"
  {
  }

  lemma EntryRead(f: seq<string>)
    requires |f| >= 18
    ensures ParseEntry(f).Some? <==> Decodable(f)
    ensures ParseEntry(f).Some? ==> TextsFrom(f, ParseEntry(f).value) && NamesFrom(f, ParseEntry(f).value.entry)
  {
    KindRead(f[1]);
    RequirementRead(f[6]);
    TypeRead(f[7]);
    SeparatorRead(f[17]);
  }

  /** The lines of a spec file: a blank one, one of the three headers, or columns. */
  datatype Line = Blank | Format(text: string) | Summary(text: string) | Path(text: string) | Row(columns: seq<string>)

  function LineText(l: Line): string {
    match l
    case Blank => ""
    case Format(text) => "format: " + text
    case Summary(text) => "summary: " + text
    case Path(text) => "path: " + text
    case Row(columns) => Tabbed(columns)
  }

  /** Columns hold no tab, and do not read as one of the other lines. */
  predicate IsLine(l: Line) {
    l.Row? ==>
      && l.columns != [] && (forall k :: 0 <= k < |l.columns| ==> '\t' !in l.columns[k])
      && l.columns != [""] && !("format: " <= l.columns[0]) && !("summary: " <= l.columns[0])
      && !("path: " <= l.columns[0])
  }

  /** An entry of the first version: all that is not in its three columns is left empty, and it may
      be repeated. */
  predicate Legacy(columns: seq<string>, p: Pending)
    requires |columns| >= 3
  {
    && p.scope == [] && p.entry.text == columns[1] && p.entry.description == columns[2]
    && p.entry.kind == (if columns[0] == "S" then KindSubcommand else if columns[0] == "P" then KindPositional
                        else KindOption)
    && p.entry.aliases == [] && p.entry.value == ValueSpec(ReqNone, TypeNone, SepSpace, "", [], "")
    && p.entry.conflicts == [] && p.entry.dependencies == [] && p.entry.repeatable && !p.entry.deprecated
    && p.entry.positionalIndex == 0 && !p.entry.variadic && p.entry.children == []
  }

  lemma {:induction false} TabbedStarts(columns: seq<string>, prefix: string)
    requires columns != [] && '\t' !in prefix && prefix <= Tabbed(columns)
    ensures prefix <= columns[0]
  {
    var line, first := Tabbed(columns), columns[0];
    assert first <= line;
    if |columns| > 1 { assert line[|first|] == '\t'; }
    assert forall k :: 0 <= k < |prefix| ==> prefix[k] == line[k];
  }

  lemma RowSplits(columns: seq<string>)
    requires columns != [] && forall k :: 0 <= k < |columns| ==> '\t' !in columns[k]
    ensures Split(Tabbed(columns), '\t', 0) == columns
  {
    FreeEach(columns, '\t');
    SplitJoin(columns, '\t');
    TabbedIsJoin(columns);
  }

  lemma RowIsRow(columns: seq<string>)
    requires IsLine(Row(columns))
    ensures var line := Tabbed(columns);
      line != "" && !(FORMAT_PREFIX <= line) && !(SUMMARY_PREFIX <= line) && !(PATH_PREFIX <= line)
  {
    var line := Tabbed(columns);
    if FORMAT_PREFIX <= line { TabbedStarts(columns, FORMAT_PREFIX); }
    if SUMMARY_PREFIX <= line { TabbedStarts(columns, SUMMARY_PREFIX); }
    if PATH_PREFIX <= line { TabbedStarts(columns, PATH_PREFIX); }
  }

  /** What is read from one line: of a version above 2, or none, nothing; of the other headers the
      text, decoded from version 2 on; of 18 columns an entry; and of three columns, of which the
      first is one character, an entry of the first version. Anything else is passed over. */
  predicate LineIs(st: ParseState, l: Line, r: Option<ParseState>) {
    match l
    case Blank => r == Some(st)
    case Format(text) =>
      var version := ParseIndex(text) % 4294967296;
      r == if version == 1 || version == 2 then Some(st.(version := version)) else None
    case Summary(text) =>
      var value := if st.version >= 2 then DecodeField(text) else Some(text);
      r == if value.Some? then Some(st.(summary := value.value)) else None
    case Path(text) =>
      var value := if st.version >= 2 then DecodeField(text) else Some(text);
      r == if value.Some? then Some(st.(path := value.value)) else None
    case Row(columns) =>
      if |columns| >= 18 && columns[0] == "E" then
        && (r.Some? <==> Decodable(columns))
        && (r.Some? ==>
            && |r.value.pending| == |st.pending| + 1 && r.value == st.(pending := r.value.pending)
            && r.value.pending[..|st.pending|] == st.pending
            && TextsFrom(columns, r.value.pending[|st.pending|])
            && NamesFrom(columns, r.value.pending[|st.pending|].entry))
      else if |columns| >= 3 && |columns[0]| == 1 then
        && r.Some? && |r.value.pending| == |st.pending| + 1 && r.value == st.(pending := r.value.pending)
        && r.value.pending[..|st.pending|] == st.pending && Legacy(columns, r.value.pending[|st.pending|])
      else r == Some(st)
  }

  lemma HeaderRead(st: ParseState, l: Line)
    requires l.Format? || l.Summary? || l.Path?
    ensures LineIs(st, l, ParseLine(st, LineText(l)))
  {
    var line := LineText(l);
    assert FORMAT_PREFIX[0] == 'f' && SUMMARY_PREFIX[0] == 's' && PATH_PREFIX[0] == 'p';
    match l
    case Format(text) => assert line[|FORMAT_PREFIX|..] == text && FORMAT_PREFIX <= line;
    case Summary(text) => assert line[|SUMMARY_PREFIX|..] == text && SUMMARY_PREFIX <= line;
    case Path(text) => assert line[|PATH_PREFIX|..] == text && PATH_PREFIX <= line;
  }

  lemma RowRead(st: ParseState, columns: seq<string>)
    requires IsLine(Row(columns))
    ensures LineIs(st, Row(columns), ParseLine(st, Tabbed(columns)))
  {
    RowIsRow(columns);
    RowSplits(columns);
    if |columns| >= 18 { EntryRead(columns); }
  }

  /** Every line is read like that. */
  lemma LineRead(st: ParseState, l: Line)
    requires IsLine(l)
    ensures LineIs(st, l, ParseLine(st, LineText(l)))
  {
    match l
    case Blank =>
    case Row(columns) => RowRead(st, columns);
    case _ => HeaderRead(st, l);
  }

  // ---------------------------------------------------------------- reading a file

  function LineTexts(lines: seq<Line>): (r: seq<string>)
    ensures |r| == |lines|
    ensures forall k :: 0 <= k < |r| ==> r[k] == LineText(lines[k])
  {
    seq(|lines|, k requires 0 <= k < |lines| => LineText(lines[k]))
  }

  /** Lines as they may follow each other in a file. */
  predicate AreLines(lines: seq<Line>) {
    forall k :: 0 <= k < |lines| ==> IsLine(lines[k]) && '\n' !in LineText(lines[k])
  }

  /** The lines are read one after the other, up to the first that is refused. */
  ghost predicate Reads(st: ParseState, lines: seq<Line>, r: Option<ParseState>)
    decreases |lines|
  {
    if lines == [] then r == Some(st)
    else
      || (LineIs(st, lines[0], None) && r == None)
      || exists next: ParseState :: LineIs(st, lines[0], Some(next)) && Reads(next, lines[1..], r)
  }

  lemma {:induction false} LinesRead(st: ParseState, lines: seq<Line>)
    requires AreLines(lines)
    ensures Reads(st, lines, ParseLines(st, LineTexts(lines)))
    decreases |lines|
  {
    if lines != [] {
      var next := ParseLine(st, LineText(lines[0]));
      LineRead(st, lines[0]);
      assert LineTexts(lines)[1..] == LineTexts(lines[1..]);
      if next.Some? { LinesRead(next.value, lines[1..]); }
    }
  }

  /** A file is refused when its first line is not the header of the command, or one of the others
      is refused; otherwise its entries are those of its rows, sorted and attached. */
  lemma FileRead(command: string, head: string, lines: seq<Line>)
    requires '\n' !in head && AreLines(lines)
    ensures var doc := Parse(command, Unlines([head] + LineTexts(lines)));
      if head != "generated by cjsh from man page for " + command then doc == None
      else
        exists r: Option<ParseState> :: Reads(ParseState("", "", 1, []), lines, r)
          && doc == (if r.None? then None
                     else Some(CommandDoc(AttachAll([], Sort(Shallower, r.value.pending)), r.value.summary,
                                          r.value.path, true)))
  {
    var all := [head] + LineTexts(lines);
    FreeEach(all, '\n');
    LinesUnlines(all);
    assert all[1..] == LineTexts(lines);
    LinesRead(START, lines);
  }

  // ---------------------------------------------------------------- the format line

  lemma LinesOf(head: string, rest: seq<string>)
    requires '\n' !in head && forall k :: 0 <= k < |rest| ==> '\n' !in rest[k]
    ensures Lines(Unlines([head] + rest), 0) == [head] + rest
  {
    FreeEach([head] + rest, '\n');
    LinesUnlines([head] + rest);
  }

  lemma ParsedLines(command: string, contents: string, head: string, rest: seq<string>)
    requires Lines(contents, 0) == [head] + rest && head == HEADER_PREFIX + command
    ensures var r := ParseLines(START, rest);
      Parse(command, contents)
      == if r.None? then None
         else Some(CommandDoc(AttachAll([], Sort(Shallower, r.value.pending)), r.value.summary, r.value.path, true))
  {
    assert ([head] + rest)[1..] == rest;
  }

  /** What is read of a file behind its header. */
  lemma BehindHeader(command: string, rest: seq<string>)
    requires '\n' !in command && forall k :: 0 <= k < |rest| ==> '\n' !in rest[k]
    ensures var r := ParseLines(START, rest);
      Parse(command, Unlines(["generated by cjsh from man page for " + command] + rest))
      == if r.None? then None
         else Some(CommandDoc(AttachAll([], Sort(Shallower, r.value.pending)), r.value.summary, r.value.path, true))
  {
    var head := "generated by cjsh from man page for " + command;
    assert '\n' !in HEADER_PREFIX;
    LinesOf(head, rest);
    ParsedLines(command, Unlines([head] + rest), head, rest);
  }

  lemma OneLine(st: ParseState, line: string)
    ensures ParseLines(st, [line]) == ParseLine(st, line)
  {
    assert [line][1..] == [];
  }

  lemma FormatRead(st: ParseState, text: string)
    ensures var version := ParseIndex(text) % 4294967296;
      ParseLine(st, "format: " + text).Some? <==> version == 1 || version == 2
  {
    LineRead(st, Format(text));
  }

  lemma FormatFile(command: string, text: string, line: string)
    requires '\n' !in command && '\n' !in text && line == "format: " + text
    ensures var version := ParseIndex(text) % 4294967296;
      Parse(command, Unlines(["generated by cjsh from man page for " + command] + [line])).Some?
      <==> version == 1 || version == 2
  {
    assert '\n' !in "format: ";
    FormatRead(START, text);
    OneLine(START, line);
    BehindHeader(command, [line]);
  }

  /** The version is cut to 32 bits, so a file is accepted when the number in its format line fits
      in 64 bits and is 1 or 2 modulo 2 to the power of 32. */
  lemma FormatAccepted(command: string, n: nat)
    requires '\n' !in command
    ensures var file := Unlines(["generated by cjsh from man page for " + command] + ["format: " + ToDecimal(n)]);
      Parse(command, file).Some?
      <==> n < 0x1_0000_0000_0000_0000 && (n % 4294967296 == 1 || n % 4294967296 == 2)
  {
    DecimalHasNoSeparator(n);
    FormatFile(command, ToDecimal(n), "format: " + ToDecimal(n));
    FormatNumber(n);
  }

  lemma FormatNumber(n: nat)
    ensures ParseIndex(ToDecimal(n)) == if n < 0x1_0000_0000_0000_0000 then n else 0
  {
    NumberWritten(n);
    IndexRead("", "", ToDecimal(n));
    NoneBefore(ToDecimal(n));
  }

  // ---------------------------------------------------------------- files of the first version

  /** An entry as the first version writes it: a letter, the text and the description. */
  datatype Old = Old(kind: EntryKind, text: string, description: string)

  function OldRow(o: Old): Line {
    Row([if o.kind.KindSubcommand? then "S" else if o.kind.KindPositional? then "P" else "O", o.text, o.description])
  }

  function OldEntry(o: Old): Entry {
    Entry(o.text, o.description, o.kind, [], ValueSpec(ReqNone, TypeNone, SepSpace, "", [], ""), [], [], true, false, 0,
        false, [])
  }

  function OldRows(os: seq<Old>): (r: seq<Line>)
    ensures |r| == |os|
    ensures forall k :: 0 <= k < |r| ==> r[k] == OldRow(os[k])
  {
    seq(|os|, k requires 0 <= k < |os| => OldRow(os[k]))
  }

  function OldEntries(os: seq<Old>): (r: seq<Entry>)
    ensures |r| == |os|
    ensures forall k :: 0 <= k < |r| ==> r[k] == OldEntry(os[k])
  {
    seq(|os|, k requires 0 <= k < |os| => OldEntry(os[k]))
  }

  /** Neither a tab nor a newline in what was written. */
  predicate AreOld(os: seq<Old>) {
    forall k :: 0 <= k < |os| ==> Plain(os[k].text) && Plain(os[k].description)
  }

  function AtTopLevel(es: seq<Entry>): (r: seq<Pending>)
    ensures |r| == |es|
    ensures forall k :: 0 <= k < |r| ==> r[k] == Pending([], es[k])
  {
    seq(|es|, k requires 0 <= k < |es| => Pending([], es[k]))
  }

  lemma OldLineRead(st: ParseState, o: Old)
    requires Plain(o.text) && Plain(o.description)
    ensures ParseLine(st, LineText(OldRow(o))) == Some(st.(pending := st.pending + [Pending([], OldEntry(o))]))
  {
    LineRead(st, OldRow(o));
    var r := ParseLine(st, LineText(OldRow(o))).value.pending;
    assert r == st.pending + [r[|st.pending|]];
  }

  lemma FirstThen(st: ParseState, line: string, rest: seq<string>, next: ParseState)
    requires ParseLine(st, line) == Some(next)
    ensures ParseLines(st, [line] + rest) == ParseLines(next, rest)
  {
    assert ([line] + rest)[1..] == rest;
  }

  lemma OldRowsCons(os: seq<Old>)
    requires os != []
    ensures LineTexts(OldRows(os)) == [LineText(OldRow(os[0]))] + LineTexts(OldRows(os[1..]))
  {
    var all, rest := LineTexts(OldRows(os)), LineTexts(OldRows(os[1..]));
    forall k | 0 <= k < |rest| ensures all[1..][k] == rest[k] { assert os[1..][k] == os[k + 1]; }
    assert all[1..] == rest;
    Uncons(all);
  }

  lemma OldEntriesCons(os: seq<Old>)
    requires os != []
    ensures AtTopLevel(OldEntries(os)) == [Pending([], OldEntry(os[0]))] + AtTopLevel(OldEntries(os[1..]))
  {
    var all, rest := AtTopLevel(OldEntries(os)), AtTopLevel(OldEntries(os[1..]));
    forall k | 0 <= k < |rest| ensures all[1..][k] == rest[k] { assert os[1..][k] == os[k + 1]; }
    assert all[1..] == rest;
    Uncons(all);
  }

  lemma {:induction false} OldLinesRead(st: ParseState, os: seq<Old>)
    requires AreOld(os)
    ensures ParseLines(st, LineTexts(OldRows(os)))
         == Some(st.(pending := st.pending + AtTopLevel(OldEntries(os))))
    decreases |os|
  {
    if os == [] {
      NoneBefore(st.pending);
    } else {
      var first := Pending([], OldEntry(os[0]));
      var next := st.(pending := st.pending + [first]);
      OldLineRead(st, os[0]);
      FirstThen(st, LineText(OldRow(os[0])), LineTexts(OldRows(os[1..])), next);
      OldRowsCons(os);
      OldEntriesCons(os);
      OldLinesRead(next, os[1..]);
      Assoc(st.pending, [first], AtTopLevel(OldEntries(os[1..])));
    }
  }

  lemma {:induction false} AttachedAtTop(es: seq<Entry>)
    ensures AttachAll([], AtTopLevel(es)) == es
  {
    if es != [] {
      var n := |es| - 1;
      AttachedAtTop(es[..n]);
      assert AtTopLevel(es)[..n] == AtTopLevel(es[..n]);
      assert es[..n] + [es[n]] == es;
    }
  }

  lemma SortedAtTop(es: seq<Entry>)
    ensures Sort(Shallower, AtTopLevel(es)) == AtTopLevel(es)
  {
    if es != [] {
      var first := AtTopLevel(es)[0];
      forall x | x in AtTopLevel(es) ensures Equivalent(Shallower, first)(x) {
        assert !Shallower(x, first) && !Shallower(first, x);
      }
      SortTied(Shallower, first, AtTopLevel(es));
    }
  }

  /** The text of an old row holds no newline. */
  lemma OldRowPlain(o: Old)
    requires Plain(o.text) && Plain(o.description)
    ensures IsLine(OldRow(o)) && '\n' !in LineText(OldRow(o))
  {
    var c := OldRow(o).columns;
    assert Tabbed(c) == c[0] + "\t" + Tabbed(c[1..]) && Tabbed(c[1..]) == c[1] + "\t" + Tabbed(c[1..][1..]);
  }

  /** A file of the first version comes back whole: its entries at the top level, in order, and the
      summary and the path as they stand there, percent signs and all. */
  lemma OldFileRead(command: string, summary: string, path: string, os: seq<Old>)
    requires '\n' !in command && '\n' !in summary && '\n' !in path && AreOld(os)
    ensures var rest := ["summary: " + summary, "path: " + path] + LineTexts(OldRows(os));
      Parse(command, Unlines(["generated by cjsh from man page for " + command] + rest))
      == Some(CommandDoc(OldEntries(os), summary, path, true))
  {
    var rows := LineTexts(OldRows(os));
    forall k | 0 <= k < |rows| ensures '\n' !in rows[k] { OldRowPlain(os[k]); }
    assert '\n' !in SUMMARY_PREFIX && '\n' !in PATH_PREFIX;
    OldFileLines(summary, path, os, rows);
    BehindHeader(command, ["summary: " + summary, "path: " + path] + rows);
    SortedAtTop(OldEntries(os));
    AttachedAtTop(OldEntries(os));
  }

  lemma OldFileLines(summary: string, path: string, os: seq<Old>, rows: seq<string>)
    requires AreOld(os) && rows == LineTexts(OldRows(os))
    ensures ParseLines(START, ["summary: " + summary, "path: " + path] + rows)
         == Some(ParseState(summary, path, 1, AtTopLevel(OldEntries(os))))
  {
    var a, b := "summary: " + summary, "path: " + path;
    var s1, s2 := START.(summary := summary), START.(summary := summary, path := path);
    TextsTaken(START, summary, path);
    assert [a, b] + rows == [a] + ([b] + rows);
    FirstThen(START, a, [b] + rows, s1);
    FirstThen(s1, b, rows, s2);
    OldLinesRead(s2, os);
    NoneBefore(AtTopLevel(OldEntries(os)));
  }

  lemma TextsTaken(st: ParseState, summary: string, path: string)
    requires st.version == 1
    ensures ParseLine(st, "summary: " + summary) == Some(st.(summary := summary))
    ensures ParseLine(st.(summary := summary), "path: " + path) == Some(st.(summary := summary, path := path))
  {
    LineRead(st, Summary(summary));
    LineRead(st.(summary := summary), Path(path));
  }
}

/** Reading and writing a completion-spec file. */
module SpecFile {
  import opened Text
  import opened Sequences
  import opened Optional
  import opened SpecCodec
  import opened SpecForest

  const HEADER_PREFIX := "generated by cjsh from man page for "
  const FORMAT_PREFIX := "format: "
  const SUMMARY_PREFIX := "summary: "
  const PATH_PREFIX := "path: "
  const FORMAT_VERSION: nat := 2

  datatype CommandDoc = CommandDoc(entries: seq<Entry>, summary: string, executablePath: string, summaryPresent: bool)

  // ---------------------------------------------------------------- names and codes

  function KindCode(kind: EntryKind): string {
    match kind
    case KindSubcommand => "S"
    case KindPositional => "P"
    case KindOption => "O"
  }

  function KindFromCode(value: string): EntryKind {
    if value == "S" then KindSubcommand else if value == "P" then KindPositional else KindOption
  }

  function RequirementName(r: Requirement): string {
    match r
    case ReqRequired => "required"
    case ReqOptional => "optional"
    case ReqNone => "none"
  }

  function ParseRequirement(value: string): Requirement {
    if value == "required" then ReqRequired else if value == "optional" then ReqOptional else ReqNone
  }

  function TypeName(t: ValueType): string {
    match t
    case TypeText => "text"
    case TypeFile => "file"
    case TypeDirectory => "directory"
    case TypeEnum => "enum"
    case TypeCommand => "command"
    case TypeBranch => "branch"
    case TypeProcess => "process"
    case TypeCustom => "custom"
    case TypeNone => "none"
  }

  function ParseType(value: string): ValueType {
    if value == "text" then TypeText
    else if value == "file" then TypeFile
    else if value == "directory" then TypeDirectory
    else if value == "enum" then TypeEnum
    else if value == "command" then TypeCommand
    else if value == "branch" then TypeBranch
    else if value == "process" then TypeProcess
    else if value == "custom" then TypeCustom
    else TypeNone
  }

  function SeparatorName(s: Separator): string {
    match s
    case SepEquals => "equals"
    case SepEither => "either"
    case SepSpace => "space"
  }

  function ParseSeparator(value: string): Separator {
    if value == "equals" then SepEquals else if value == "either" then SepEither else SepSpace
  }

  function Flag(b: bool): string {
    if b then "1" else "0"
  }

  predicate ParseBool(value: string) {
    value == "1" || value == "true" || value == "yes"
  }

  // ---------------------------------------------------------------- writing

  function EntryFields(scope: seq<string>, e: Entry): (r: seq<string>)
    ensures |r| == 18
  {
    ["E", KindCode(e.kind), EncodeList(scope), EncodeField(e.text), EncodeField(e.description), EncodeList(e.aliases),
     RequirementName(e.value.requirement), TypeName(e.value.kind), EncodeField(e.value.name),
     EncodeList(e.value.choices),
     EncodeList(e.conflicts), EncodeList(e.dependencies), Flag(e.repeatable), Flag(e.deprecated),
     EncodeField(e.value.provider), ToDecimal(e.positionalIndex), Flag(e.variadic), SeparatorName(e.value.separator)]
  }

  function EntryLine(p: Pending): string {
    Join(EntryFields(p.scope, p.entry), '\t')
  }

  /** `serialize_entries`, line by line. */
  function EntryLines(entries: seq<Entry>, scope: seq<string>): seq<string>
    decreases entries
  {
    if entries == [] then [] else OwnLines(entries[0], scope) + EntryLines(entries[1..], scope)
  }

  function OwnLines(e: Entry, scope: seq<string>): seq<string>
    decreases e
  {
    [EntryLine(Pending(scope, e))]
    + if e.kind == KindSubcommand && e.children != [] then EntryLines(e.children, scope + [e.text]) else []
  }

  function DocLines(doc: CommandDoc): seq<string> {
    [FORMAT_PREFIX + ToDecimal(FORMAT_VERSION), SUMMARY_PREFIX + EncodeField(doc.summary),
     PATH_PREFIX + EncodeField(doc.executablePath)]
    + EntryLines(doc.entries, [])
  }

  /** `serialize_command_doc`. */
  function Serialize(command: string, doc: CommandDoc): string {
    HEADER_PREFIX + command + ['\n'] + Unlines(DocLines(doc))
  }

  /** The output stream and the scope vector that `serialize_entries` pushes and pops. */
  class Writer {
    var stream: string
    var scope: seq<string>

    constructor ()
      ensures stream == "" && scope == []
    {
      stream, scope := "", [];
    }

    method WriteEntry(e: Entry)
      modifies this`stream
      ensures stream == old(stream) + EntryLine(Pending(scope, e)) + ['\n']
    {
      var scopeText := WriteList(scope);
      var text := WriteField(e.text);
      var description := WriteField(e.description);
      var aliases := WriteList(e.aliases);
      var name := WriteField(e.value.name);
      var choices := WriteList(e.value.choices);
      var conflicts := WriteList(e.conflicts);
      var dependencies := WriteList(e.dependencies);
      var provider := WriteField(e.value.provider);
      var fields := ["E", KindCode(e.kind), scopeText, text, description, aliases,
                     RequirementName(e.value.requirement), TypeName(e.value.kind), name, choices,
                     conflicts, dependencies, Flag(e.repeatable), Flag(e.deprecated),
                     provider, ToDecimal(e.positionalIndex), Flag(e.variadic), SeparatorName(e.value.separator)];
      assert fields == EntryFields(scope, e);
      stream := stream + Join(fields, '\t') + ['\n'];
    }

    /** One turn of the loop: the entry, then its children one scope deeper. */
    method WriteOwn(e: Entry)
      modifies this
      ensures stream == old(stream) + Unlines(OwnLines(e, scope))
      ensures scope == old(scope)
      decreases e
    {
      ghost var outer := scope;
      ghost var line := EntryLine(Pending(scope, e));
      WriteEntry(e);
      if e.kind == KindSubcommand && e.children != [] {
        scope := scope + [e.text];
        WriteEntries(e.children);
        scope := scope[..|scope| - 1];
        assert scope == outer;
        FirstAndBelow(old(stream), line, EntryLines(e.children, scope + [e.text]));
      } else {
        FirstAndBelow(old(stream), line, []);
      }
    }

    method WriteEntries(entries: seq<Entry>)
      modifies this
      ensures stream == old(stream) + Unlines(EntryLines(entries, scope))
      ensures scope == old(scope)
      decreases entries
    {
      ghost var start := stream;
      NoneBefore(stream);
      for k := 0 to |entries|
        invariant stream == start + Unlines(EntryLines(entries[..k], scope))
        invariant scope == old(scope)
      {
        EntryLinesSnoc(entries, k, scope);
        UnlinesAppend(EntryLines(entries[..k], scope), OwnLines(entries[k], scope));
        Assoc(start, Unlines(EntryLines(entries[..k], scope)), Unlines(OwnLines(entries[k], scope)));
        WriteOwn(entries[k]);
      }
      assert entries[..|entries|] == entries;
    }

    method WriteDoc(command: string, doc: CommandDoc)
      requires stream == "" && scope == []
      modifies this
      ensures stream == Serialize(command, doc)
    {
      stream := HEADER_PREFIX + command + ['\n'];
      ghost var head := stream;
      var summary := WriteField(doc.summary);
      var path := WriteField(doc.executablePath);
      ghost var three := [FORMAT_PREFIX + ToDecimal(FORMAT_VERSION), SUMMARY_PREFIX + summary, PATH_PREFIX + path];
      stream := stream + (FORMAT_PREFIX + ToDecimal(FORMAT_VERSION) + ['\n']);
      stream := stream + (SUMMARY_PREFIX + summary + ['\n']);
      stream := stream + (PATH_PREFIX + path + ['\n']);
      ThreeLines(head, three[0], three[1], three[2]);
      UnlinesAppend(three, EntryLines(doc.entries, []));
      WriteEntries(doc.entries);
      Assoc(head, Unlines(three), Unlines(EntryLines(doc.entries, [])));
    }
  }

  lemma ThreeLines(head: string, a: string, b: string, c: string)
    ensures head + (a + ['\n']) + (b + ['\n']) + (c + ['\n']) == head + Unlines([a, b, c])
  {
    assert Unlines([c]) == c + ['\n'] + Unlines([]);
    assert [b, c][1..] == [c] && [a, b, c][1..] == [b, c];
  }

  lemma FirstAndBelow(stream: string, line: string, below: seq<string>)
    ensures stream + line + ['\n'] + Unlines(below) == stream + Unlines([line] + below)
  {
    assert ([line] + below)[1..] == below;
  }

  lemma {:induction false} EntryLinesAppend(a: seq<Entry>, b: seq<Entry>, scope: seq<string>)
    ensures EntryLines(a + b, scope) == EntryLines(a, scope) + EntryLines(b, scope)
    decreases |a|
  {
    if a == [] {
      NoneBefore(b);
      NoneBefore(EntryLines(b, scope));
    } else {
      EntryLinesAppend(a[1..], b, scope);
      assert (a + b)[1..] == a[1..] + b && (a + b)[0] == a[0];
      Assoc(OwnLines(a[0], scope), EntryLines(a[1..], scope), EntryLines(b, scope));
    }
  }

  lemma EntryLinesSnoc(entries: seq<Entry>, k: nat, scope: seq<string>)
    requires k < |entries|
    ensures EntryLines(entries[..k + 1], scope) == EntryLines(entries[..k], scope) + OwnLines(entries[k], scope)
  {
    assert entries[..k + 1] == entries[..k] + [entries[k]];
    EntryLinesAppend(entries[..k], [entries[k]], scope);
    assert [entries[k]][1..] == [];
    NoneBefore(OwnLines(entries[k], scope));
  }

  // ---------------------------------------------------------------- reading

  datatype ParseState = ParseState(summary: string, path: string, version: nat, pending: seq<Pending>)

  const START := ParseState("", "", 1, [])

  /** An entry line of version 2. */
  function ParseEntry(fields: seq<string>): Option<Pending>
    requires |fields| >= 18
  {
    var scope := DecodeList(fields[2]);
    var text := DecodeField(fields[3]);
    var description := DecodeField(fields[4]);
    var aliases := DecodeList(fields[5]);
    var name := DecodeField(fields[8]);
    var choices := DecodeList(fields[9]);
    var conflicts := DecodeList(fields[10]);
    var dependencies := DecodeList(fields[11]);
    var provider := DecodeField(fields[14]);
    if scope.None? || text.None? || description.None? || aliases.None? || name.None? || choices.None? || conflicts.None?
       || dependencies.None? || provider.None? then None
    else
      Some(Pending(scope.value, Entry(
        text.value, description.value, KindFromCode(fields[1]), aliases.value,
        ValueSpec(ParseRequirement(fields[6]), ParseType(fields[7]), ParseSeparator(fields[17]), name.value,
            choices.value, provider.value),
        conflicts.value, dependencies.value, ParseBool(fields[12]), ParseBool(fields[13]), ParseIndex(fields[15]),
        ParseBool(fields[16]), [])))
  }

  /** An entry line of version 1. */
  function LegacyEntry(fields: seq<string>): Pending
    requires |fields| >= 3
  {
    Pending([], Entry(fields[1], fields[2], KindFromCode(fields[0]), [],
        ValueSpec(ReqNone, TypeNone, SepSpace, "", [], ""),
                      [], [], true, false, 0, false, []))
  }

  function Decoded(version: nat, raw: string): Option<string> {
    if version >= 2 then DecodeField(raw) else Some(raw)
  }

  /** One turn of the parsing loop. */
  function ParseLine(st: ParseState, line: string): Option<ParseState> {
    if line == "" then Some(st)
    else if FORMAT_PREFIX <= line then
      var version := ParseIndex(line[|FORMAT_PREFIX|..]) % 0x1_0000_0000;
      if version == 0 || version > FORMAT_VERSION then None else Some(st.(version := version))
    else if SUMMARY_PREFIX <= line then
      var value := Decoded(st.version, line[|SUMMARY_PREFIX|..]);
      if value.None? then None else Some(st.(summary := value.value))
    else if PATH_PREFIX <= line then
      var value := Decoded(st.version, line[|PATH_PREFIX|..]);
      if value.None? then None else Some(st.(path := value.value))
    else
      var fields := Split(line, '\t', 0);
      if |fields| >= 18 && fields[0] == "E" then
        var p := ParseEntry(fields);
        if p.None? then None else Some(st.(pending := st.pending + [p.value]))
      else if |fields| >= 3 && |fields[0]| == 1 then Some(st.(pending := st.pending + [LegacyEntry(fields)]))
      else Some(st)
  }

  function ParseLines(st: ParseState, lines: seq<string>): Option<ParseState>
    decreases |lines|
  {
    if lines == [] then Some(st)
    else
      match ParseLine(st, lines[0])
      case None => None
      case Some(next) => ParseLines(next, lines[1..])
  }

  /** `parse_command_doc`. */
  function Parse(command: string, contents: string): Option<CommandDoc> {
    var lines := Lines(contents, 0);
    if lines == [] || lines[0] != HEADER_PREFIX + command then None
    else
      match ParseLines(START, lines[1..])
      case None => None
      case Some(st) => Some(CommandDoc(AttachAll([], Sort(Shallower, st.pending)), st.summary, st.path, true))
  }

  method ReadLine(contents: string, start: nat) returns (line: string, next: nat)
    requires start < |contents|
    ensures start < next <= |contents|
    ensures Lines(contents, start) == [line] + Lines(contents, next)
  {
    var k := Find(contents, '\n', start);
    if k == NPOS {
      line, next := contents[start..], |contents|;
    } else {
      line, next := contents[start..k], k + 1;
    }
  }

  method ReadEntry(fields: seq<string>) returns (result: Option<Pending>)
    requires |fields| >= 18
    ensures result == ParseEntry(fields)
  {
    var scope := ReadList(fields[2]);
    var text := ReadField(fields[3]);
    var description := ReadField(fields[4]);
    var aliases := ReadList(fields[5]);
    var name := ReadField(fields[8]);
    var choices := ReadList(fields[9]);
    var conflicts := ReadList(fields[10]);
    var dependencies := ReadList(fields[11]);
    var provider := ReadField(fields[14]);
    if scope.None? || text.None? || description.None? || aliases.None? || name.None? || choices.None? || conflicts.None?
       || dependencies.None? || provider.None? {
      return None;
    }
    var value := ValueSpec(ParseRequirement(fields[6]), ParseType(fields[7]), ParseSeparator(fields[17]),
        name.value, choices.value, provider.value);
    return Some(Pending(scope.value, Entry(
      text.value, description.value, KindFromCode(fields[1]), aliases.value, value,
      conflicts.value, dependencies.value, ParseBool(fields[12]), ParseBool(fields[13]), ParseIndex(fields[15]),
      ParseBool(fields[16]), [])));
  }

  /** The body of the parsing loop. */
  method ParseNext(st: ParseState, line: string) returns (next: Option<ParseState>)
    ensures next == ParseLine(st, line)
  {
    if line == "" { return Some(st); }
    if FORMAT_PREFIX <= line {
      var version := ParseIndex(line[|FORMAT_PREFIX|..]) % 0x1_0000_0000;
      if version == 0 || version > FORMAT_VERSION { return None; }
      return Some(st.(version := version));
    }
    if SUMMARY_PREFIX <= line {
      var raw := line[|SUMMARY_PREFIX|..];
      var value := Some(raw);
      if st.version >= 2 { value := ReadField(raw); }
      if value.None? { return None; }
      return Some(st.(summary := value.value));
    }
    if PATH_PREFIX <= line {
      var raw := line[|PATH_PREFIX|..];
      var value := Some(raw);
      if st.version >= 2 { value := ReadField(raw); }
      if value.None? { return None; }
      return Some(st.(path := value.value));
    }
    var fields := SplitAt(line, '\t');
    if |fields| >= 18 && fields[0] == "E" {
      var p := ReadEntry(fields);
      if p.None? { return None; }
      return Some(st.(pending := st.pending + [p.value]));
    }
    if |fields| >= 3 && |fields[0]| == 1 {
      return Some(st.(pending := st.pending + [LegacyEntry(fields)]));
    }
    return Some(st);
  }

  method ParseCommandDoc(command: string, contents: string) returns (doc: Option<CommandDoc>)
    ensures doc == Parse(command, contents)
  {
    if contents == "" { return None; }
    var line, pos := ReadLine(contents, 0);
    if line != HEADER_PREFIX + command { return None; }
    var st := START;
    ghost var all := ParseLines(START, Lines(contents, pos));
    while pos < |contents|
      invariant pos <= |contents|
      invariant all == ParseLines(st, Lines(contents, pos))
    {
      ghost var rest := Lines(contents, pos);
      line, pos := ReadLine(contents, pos);
      assert rest[1..] == Lines(contents, pos);
      var next := ParseNext(st, line);
      if next.None? { return None; }
      st := next.value;
    }
    var sorted := Sort(Shallower, st.pending);
    var entries: seq<Entry> := [];
    for k := 0 to |sorted|
      invariant entries == AttachAll([], sorted[..k])
    {
      assert sorted[..k + 1][..k] == sorted[..k];
      entries := Attach(entries, sorted[k].scope, sorted[k].entry);
    }
    assert sorted[..|sorted|] == sorted;
    return Some(CommandDoc(entries, st.summary, st.path, true));
  }
}

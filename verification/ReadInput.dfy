/** Collecting the input of `read`: a buffered reader that seeks back, and the one-byte reads
    it must be equal to. */
module ReadInput {
  import opened Text
  import opened Sequences

  const BUFFER_SIZE: nat := 4096

  datatype Status = Success | EndOfFileNoData | EndOfFile

  datatype Options = Options(rawMode: bool, nchars: int, delim: string, posix: bool)

  /** What one `read` yields and where it leaves the file offset. */
  datatype Collected = Collected(input: string, status: Status, offset: nat)

  // ---------------------------------------------------------------- one byte at a time

  /** Whether the character after `c` is escaped. */
  predicate EscapesNext(o: Options, c: char, escaped: bool) {
    o.posix && !o.rawMode && c == '\\' && !escaped
  }

  predicate Stops(o: Options, c: char, escaped: bool) {
    c in o.delim && !escaped
  }

  /** The position of the delimiter, or the end of the file. */
  function Scan(bytes: string, o: Options, at: nat, escaped: bool): (r: nat)
    ensures at <= r
    ensures r <= |bytes| || r == at
    decreases |bytes| - at
  {
    if at >= |bytes| || Stops(o, bytes[at], escaped) then at
    else Scan(bytes, o, at + 1, EscapesNext(o, bytes[at], escaped))
  }

  function StatusOf(o: Options, input: string, eof: bool): Status {
    if eof && input == "" then EndOfFileNoData
    else if eof && o.posix then EndOfFile
    else Success
  }

  /** How far the input goes. */
  function EndOf(bytes: string, o: Options, at: nat): (r: nat)
    ensures at <= r && (r <= |bytes| || r == at)
  {
    if o.nchars > 0 then (if at + o.nchars <= |bytes| then at + o.nchars else if at <= |bytes| then |bytes| else at)
    else Scan(bytes, o, at, false)
  }

  /** Whether the end of the file was seen. */
  predicate AtEof(bytes: string, o: Options, at: nat) {
    if o.nchars > 0 then at + o.nchars > |bytes| else EndOf(bytes, o, at) >= |bytes|
  }

  function Collect(bytes: string, o: Options, at: nat): Collected {
    var end := EndOf(bytes, o, at);
    var input := Slice(bytes, at, end);
    Collected(input, StatusOf(o, input, AtEof(bytes, o, at)), if o.nchars <= 0 && end < |bytes| then end + 1 else end)
  }

  // ---------------------------------------------------------------- the file and the reader

  /** A regular file open for reading. A read may be short, but not empty before the end. */
  class File {
    const bytes: string
    var offset: nat

    constructor (bytes: string, offset: nat)
      ensures this.bytes == bytes && this.offset == offset
    {
      this.bytes, this.offset := bytes, offset;
    }

    method Read(buffer: array<char>, max: nat) returns (count: nat)
      requires 1 <= max <= buffer.Length
      modifies this`offset, buffer
      ensures count <= max && offset == old(offset) + count
      ensures count == 0 <==> old(offset) >= |bytes|
      ensures count > 0 ==> offset <= |bytes| && buffer[..count] == bytes[old(offset)..offset]
    {
      if offset >= |bytes| { return 0; }
      count :| 1 <= count <= max && count <= |bytes| - offset;
      for k := 0 to count
        invariant offset == old(offset)
        invariant buffer[..k] == bytes[offset..offset + k]
      {
        buffer[k] := bytes[offset + k];
        assert buffer[..k + 1] == buffer[..k] + [buffer[k]];
        assert bytes[offset..offset + k + 1] == bytes[offset..offset + k] + [bytes[offset + k]];
      }
      offset := offset + count;
    }

    method SeekBack(n: nat)
      requires n <= offset
      modifies this`offset
      ensures offset == old(offset) - n
    {
      offset := offset - n;
    }
  }

  /** The state of `collect_input`'s `read_char`. */
  class Reader {
    const file: File
    const buffer: array<char>
    const bufferedFile: bool
    var buffered: nat
    var consumed: nat
    var reachedEof: bool

    ghost predicate Valid()
      reads this, file, buffer
    {
      && buffer.Length == BUFFER_SIZE
      && consumed <= buffered <= BUFFER_SIZE
      && buffered - consumed <= file.offset
      && (consumed < buffered ==> file.offset <= |file.bytes|)
      && (consumed < buffered ==> buffer[consumed..buffered] == file.bytes[Position()..file.offset])
    }

    /** The position of the next character, wherever it is kept. */
    function Position(): int
      reads this, file
    {
      file.offset - (buffered - consumed)
    }

    constructor (file: File, bufferedFile: bool)
      ensures Valid() && fresh(buffer) && this.file == file && this.bufferedFile == bufferedFile
      ensures Position() == file.offset && buffered == consumed == 0 && !reachedEof
    {
      this.file, this.bufferedFile := file, bufferedFile;
      buffer := new char[BUFFER_SIZE];
      buffered, consumed, reachedEof := 0, 0, false;
    }

    method ReadChar() returns (ok: bool, c: char)
      requires Valid()
      modifies this, file`offset, buffer
      ensures Valid()
      ensures ok == (old(Position()) < |file.bytes|)
      ensures ok ==>
          c == file.bytes[old(Position())] && Position() == old(Position()) + 1 && reachedEof == old(reachedEof)
      ensures !ok ==> reachedEof && Position() == old(Position()) && consumed == buffered
    {
      if consumed < buffered {
        c := buffer[consumed];
        assert buffer[consumed..buffered][0] == file.bytes[Position()..file.offset][0];
        assert buffer[consumed + 1..buffered] == buffer[consumed..buffered][1..];
        assert file.bytes[Position() + 1..file.offset] == file.bytes[Position()..file.offset][1..];
        consumed := consumed + 1;
        return true, c;
      }
      var count := file.Read(buffer, if bufferedFile then BUFFER_SIZE else 1);
      if count == 0 {
        reachedEof := true;
        return false, ' ';
      }
      buffered, consumed := count, 1;
      c := buffer[0];
      assert buffer[..count][0] == c;
      assert buffer[1..count] == buffer[..count][1..];
      assert file.bytes[file.offset - count..file.offset][1..] == file.bytes[file.offset - count + 1..file.offset];
      return true, c;
    }
  }

  // ---------------------------------------------------------------- the loops

  lemma SliceNext(bytes: string, from: nat, to: nat)
    requires from <= to < |bytes|
    ensures Slice(bytes, from, to + 1) == Slice(bytes, from, to) + [bytes[to]]
  {
  }

  /** The `-n` loop. */
  method ReadCount(reader: Reader, o: Options) returns (input: string)
    requires reader.Valid() && o.nchars > 0 && !reader.reachedEof
    modifies reader, reader.file`offset, reader.buffer
    ensures reader.Valid()
    ensures reader.Position() == EndOf(reader.file.bytes, o, old(reader.Position()))
    ensures input == Slice(reader.file.bytes, old(reader.Position()), reader.Position())
    ensures reader.reachedEof == AtEof(reader.file.bytes, o, old(reader.Position()))
  {
    input := "";
    var charsRead := 0;
    ghost var bytes, at := reader.file.bytes, reader.Position();
    while charsRead < o.nchars
      invariant reader.Valid() && !reader.reachedEof
      invariant 0 <= charsRead <= o.nchars && reader.Position() == at + charsRead
      invariant input == Slice(bytes, at, at + charsRead)
      invariant charsRead > 0 ==> at + charsRead <= |bytes|
    {
      var ok, c := reader.ReadChar();
      if !ok { break; }
      SliceNext(bytes, at, at + charsRead);
      input := input + [c];
      charsRead := charsRead + 1;
    }
  }

  /** The loop up to a delimiter. */
  method ReadToDelimiter(reader: Reader, o: Options) returns (input: string)
    requires reader.Valid() && o.nchars <= 0 && !reader.reachedEof
    modifies reader, reader.file`offset, reader.buffer
    ensures reader.Valid()
    ensures var c := Collect(reader.file.bytes, o, old(reader.Position()));
      input == c.input && reader.Position() == c.offset
    ensures reader.reachedEof == AtEof(reader.file.bytes, o, old(reader.Position()))
  {
    input := "";
    var escaped := false;
    ghost var bytes, at := reader.file.bytes, reader.Position();
    while true
      invariant reader.Valid() && !reader.reachedEof
      invariant at <= reader.Position() && (reader.Position() <= |bytes| || reader.Position() == at)
      invariant Scan(bytes, o, at, false) == Scan(bytes, o, reader.Position(), escaped)
      invariant input == Slice(bytes, at, reader.Position())
      decreases |bytes| - reader.Position()
    {
      ghost var k := reader.Position();
      var ok, c := reader.ReadChar();
      if !ok { break; }
      if c in o.delim && !escaped { break; }
      SliceNext(bytes, at, k);
      input := input + [c];
      escaped := o.posix && !o.rawMode && c == '\\' && !escaped;
    }
  }

  /** `collect_input`. For any short reads, the buffered reader and the one-byte reader give
      the string, the status and the file offset of `Collect`. */
  method CollectInput(file: File, o: Options, bufferedFile: bool) returns (input: string, status: Status)
    modifies file`offset
    ensures Collected(input, status, file.offset) == Collect(file.bytes, o, old(file.offset))
  {
    var reader := new Reader(file, bufferedFile);
    if o.nchars > 0 {
      input := ReadCount(reader, o);
    } else {
      input := ReadToDelimiter(reader, o);
    }
    if reader.consumed < reader.buffered {
      file.SeekBack(reader.buffered - reader.consumed);
    }
    if reader.reachedEof && input == "" {
      return input, EndOfFileNoData;
    }
    if reader.reachedEof && o.posix {
      return input, EndOfFile;
    }
    return input, Success;
  }

  // ---------------------------------------------------------------- what is collected

  /** Whether the character at `k` is escaped, for a read that started at `from`. */
  predicate EscapedAt(bytes: string, o: Options, from: nat, k: nat)
    requires k <= |bytes|
  {
    k > from && EscapesNext(o, bytes[k - 1], EscapedAt(bytes, o, from, k - 1))
  }

  /** The number of backslashes right before `k`. */
  function Backslashes(bytes: string, from: nat, k: nat): nat
    requires k <= |bytes|
  {
    if k > from && bytes[k - 1] == '\\' then Backslashes(bytes, from, k - 1) + 1 else 0
  }

  /** A character is escaped if and only if an odd number of backslashes stands before it, in
      POSIX mode and without `-r`. */
  lemma {:induction false} EscapedIsOdd(bytes: string, o: Options, from: nat, k: nat)
    requires k <= |bytes|
    ensures EscapedAt(bytes, o, from, k) <==> o.posix && !o.rawMode && Backslashes(bytes, from, k) % 2 == 1
  {
    if k > from { EscapedIsOdd(bytes, o, from, k - 1); }
  }

  lemma {:induction false} ScanIsFirst(bytes: string, o: Options, from: nat, at: nat)
    requires from <= at <= |bytes|
    ensures var end := Scan(bytes, o, at, EscapedAt(bytes, o, from, at));
      && end <= |bytes|
      && (end < |bytes| ==> bytes[end] in o.delim && !EscapedAt(bytes, o, from, end))
      && forall k :: at <= k < end ==> !(bytes[k] in o.delim && !EscapedAt(bytes, o, from, k))
    decreases |bytes| - at
  {
    if at < |bytes| && !Stops(o, bytes[at], EscapedAt(bytes, o, from, at)) {
      ScanIsFirst(bytes, o, from, at + 1);
    }
  }

  /** Without `-n`, the input is everything before the first unescaped delimiter, which is
      consumed; without one, it is the rest of the file, and that is a failure unless the
      shell is not in POSIX mode and the rest is not empty. */
  lemma CollectsToDelimiter(bytes: string, o: Options, at: nat)
    requires o.nchars <= 0 && at <= |bytes|
    ensures var c := Collect(bytes, o, at); var end := at + |c.input|;
      && end <= |bytes| && c.input == bytes[at..end]
      && (forall k :: at <= k < end ==> !(bytes[k] in o.delim && !EscapedAt(bytes, o, at, k)))
      && (if end < |bytes|
          then bytes[end] in o.delim && !EscapedAt(bytes, o, at, end) && c.offset == end + 1 && c.status == Success
          else c.offset == end && (c.status == Success <==> !o.posix && c.input != ""))
  {
    ScanIsFirst(bytes, o, at, at);
  }

  /** With `-n`, the input is that many characters or the rest of the file. */
  lemma CollectsCount(bytes: string, o: Options, at: nat)
    requires o.nchars > 0 && at <= |bytes|
    ensures var c := Collect(bytes, o, at);
      && c.offset == at + |c.input| <= |bytes| && c.input == bytes[at..c.offset]
      && (|c.input| == o.nchars || (|c.input| < o.nchars && c.offset == |bytes|))
      && (|c.input| == o.nchars ==> c.status == Success)
      && (|c.input| < o.nchars ==> (c.status == Success <==> !o.posix && c.input != ""))
  {
  }

  /** The results of successive reads, each from where the one before it stopped, up to the end
      of the file. */
  function ReadAll(bytes: string, o: Options, at: nat): seq<Collected>
    decreases |bytes| - at
  {
    var c := Collect(bytes, o, at);
    if c.offset >= |bytes| || c.offset <= at then [c] else [c] + ReadAll(bytes, o, c.offset)
  }

  /** What a read from `at` consumed without returning it. */
  function Dropped(bytes: string, at: nat, c: Collected): string {
    Slice(bytes, at + |c.input|, c.offset)
  }

  /** The strings that reads from `at` on returned, each followed by what was dropped. */
  function Reassembled(bytes: string, at: nat, results: seq<Collected>): string
    decreases |results|
  {
    if results == [] then ""
    else results[0].input + Dropped(bytes, at, results[0]) + Reassembled(bytes, results[0].offset, results[1..])
  }

  /** A read from `at` dropped nothing, or, without `-n`, one delimiter that was not escaped. */
  predicate DropsDelimiter(bytes: string, o: Options, at: nat, c: Collected) {
    || c.offset == at + |c.input|
    || (o.nchars <= 0 && c.offset == at + |c.input| + 1 <= |bytes|
        && bytes[c.offset - 1] in o.delim && !EscapedAt(bytes, o, at, c.offset - 1))
  }

  predicate AllDropDelimiters(bytes: string, o: Options, at: nat, results: seq<Collected>)
    decreases |results|
  {
    results == []
    || (DropsDelimiter(bytes, o, at, results[0]) && AllDropDelimiters(bytes, o, results[0].offset, results[1..]))
  }

  /** One read: what it returned and dropped is what it moved over. */
  lemma ReadMovesOver(bytes: string, o: Options, at: nat)
    requires at <= |bytes|
    ensures var c := Collect(bytes, o, at);
      && at <= c.offset <= |bytes| && DropsDelimiter(bytes, o, at, c)
      && c.input + Dropped(bytes, at, c) == bytes[at..c.offset]
      && (at < |bytes| ==> at < c.offset)
  {
    if o.nchars > 0 { CollectsCount(bytes, o, at); } else { CollectsToDelimiter(bytes, o, at); }
    var c := Collect(bytes, o, at);
    assert bytes[at..c.offset] == bytes[at..at + |c.input|] + bytes[at + |c.input|..c.offset];
  }

  lemma ReadsCons(bytes: string, o: Options, at: nat, c: Collected, rest: seq<Collected>)
    ensures Reassembled(bytes, at, [c] + rest) == c.input + Dropped(bytes, at, c) + Reassembled(bytes, c.offset, rest)
    ensures AllDropDelimiters(bytes, o, at, [c] + rest)
      <==> DropsDelimiter(bytes, o, at, c) && AllDropDelimiters(bytes, o, c.offset, rest)
  {
    assert ([c] + rest)[0] == c && ([c] + rest)[1..] == rest;
  }

  /** A read and the results of the reads after it. */
  lemma ReadThenRest(bytes: string, o: Options, at: nat, c: Collected, rest: seq<Collected>)
    requires at <= c.offset <= |bytes| && DropsDelimiter(bytes, o, at, c)
    requires c.input + Dropped(bytes, at, c) == bytes[at..c.offset]
    requires Reassembled(bytes, c.offset, rest) == bytes[c.offset..] && AllDropDelimiters(bytes, o, c.offset, rest)
    ensures Reassembled(bytes, at, [c] + rest) == bytes[at..] && AllDropDelimiters(bytes, o, at, [c] + rest)
  {
    ReadsCons(bytes, o, at, c, rest);
    assert bytes[at..c.offset] + bytes[c.offset..] == bytes[at..];
  }

  /** Successive reads up to the end of the file lose and repeat nothing: the strings they return
      and the delimiters they drop, at most one each, are the rest of the file. */
  lemma {:induction false} SuccessiveReadsCover(bytes: string, o: Options, at: nat)
    requires at <= |bytes|
    ensures Reassembled(bytes, at, ReadAll(bytes, o, at)) == bytes[at..]
    ensures AllDropDelimiters(bytes, o, at, ReadAll(bytes, o, at))
    decreases |bytes| - at
  {
    var c := Collect(bytes, o, at);
    ReadMovesOver(bytes, o, at);
    if c.offset >= |bytes| || c.offset <= at {
      assert [c] + [] == [c];
      ReadThenRest(bytes, o, at, c, []);
    } else {
      SuccessiveReadsCover(bytes, o, c.offset);
      ReadThenRest(bytes, o, at, c, ReadAll(bytes, o, c.offset));
    }
  }

  function Returned(results: seq<Collected>): string {
    if results == [] then "" else results[0].input + Returned(results[1..])
  }

  /** With `-n` nothing is dropped: the returned strings alone are the rest of the file. */
  lemma {:induction false} CountedReadsReturnAll(bytes: string, o: Options, at: nat)
    requires at <= |bytes| && o.nchars > 0
    ensures Returned(ReadAll(bytes, o, at)) == bytes[at..]
    decreases |bytes| - at
  {
    var c := Collect(bytes, o, at);
    CollectsCount(bytes, o, at);
    if c.offset >= |bytes| || c.offset <= at {
      assert [c][1..] == [];
      NoneBefore(c.input);
      assert bytes[at..|bytes|] == bytes[at..];
    } else {
      CountedReadsReturnAll(bytes, o, c.offset);
      assert ([c] + ReadAll(bytes, o, c.offset))[1..] == ReadAll(bytes, o, c.offset);
      assert bytes[at..c.offset] + bytes[c.offset..] == bytes[at..];
    }
  }
}

/** The browser's reader of the log event stream: a carry buffer, record extraction and a window on the last lines. */
module LogStream {
  import opened JsonText
  import opened Sequences
  import opened TextSplit

  const WINDOW := 500
  const PREFIX := "data: "

  /** The text of a data line; one that is not a JSON string is shown as it came. */
  function Decode(raw: string): string {
    match Parse(raw)
    case Some(text) => text
    case None => raw
  }

  /** The log lines in a list of stream lines: those that start with the data prefix, decoded. */
  function DataLines(lines: seq<string>): seq<string> {
    if lines == [] then []
    else
      DataLines(lines[..|lines| - 1]) +
      if PREFIX <= lines[|lines| - 1] then [Decode(lines[|lines| - 1][|PREFIX|..])] else []
  }

  /** The log lines of one record. */
  function RecordData(): string -> seq<string> {
    record => DataLines(SplitLines(record))
  }

  function RecordLines(records: seq<string>): seq<string> {
    if records == [] then [] else RecordLines(records[..|records| - 1]) + DataLines(SplitLines(records[|records| - 1]))
  }

  /** The finished records of a text, and the unfinished remainder. */
  function Finished(text: string): seq<string> {
    var parts := SplitBlank(text);
    parts[..|parts| - 1]
  }

  function Remainder(text: string): string {
    var parts := SplitBlank(text);
    parts[|parts| - 1]
  }

  /** What is on screen once a text has been received, however it was cut into chunks. */
  function Shown(text: string): seq<string> {
    LastN(RecordLines(Finished(text)), WINDOW)
  }

  /** A window takes in one more element without a look at what it has dropped. */
  lemma WindowSlides<T>(prior: seq<T>, done: seq<T>, x: T, n: nat)
    ensures LastN(LastN(prior + done, n) + [x], n) == LastN(prior + (done + [x]), n)
  {
    ConcatAssoc(prior, done, [x]);
  }

  lemma {:induction false} DataLinesSnoc(done: seq<string>, line: string)
    ensures DataLines(done + [line])
         == DataLines(done) + if PREFIX <= line then [Decode(line[|PREFIX|..])] else []
  {
    assert (done + [line])[..|done|] == done;
  }

  lemma {:induction false} RecordLinesAre(records: seq<string>)
    ensures RecordLines(records) == FlatMap(records, RecordData())
  {
    if records != [] {
      RecordLinesAre(records[..|records| - 1]);
    }
  }

  lemma {:induction false} RecordLinesConcat(a: seq<string>, b: seq<string>)
    ensures RecordLines(a + b) == RecordLines(a) + RecordLines(b)
  {
    RecordLinesAre(a);
    RecordLinesAre(b);
    RecordLinesAre(a + b);
    FlatMapConcat(a, b, RecordData());
  }

  /** Carrying the remainder over makes chunk boundaries invisible. */
  lemma ChunkIndependent(text: string, chunk: string)
    ensures Finished(text + chunk) == Finished(text) + Finished(Remainder(text) + chunk)
    ensures Remainder(text + chunk) == Remainder(Remainder(text) + chunk)
  {
    SplitBlankConcat(text, chunk);
  }

  lemma OneLine(line: string)
    ensures DataLines([line]) == if PREFIX <= line then [Decode(line[|PREFIX|..])] else []
  {
    DataLinesSnoc([], line);
    assert [] + [line] == [line];
  }

  /** A data line whose value is not a JSON string is shown as it came, and a line of another field not at all. */
  lemma OtherLines(raw: string, other: string)
    requires Parse(raw) == None && !("data: " <= other)
    ensures DataLines(["data: " + raw]) == [raw] && DataLines([other]) == []
  {
    OneLine("data: " + raw);
    OneLine(other);
    assert ("data: " + raw)[6..] == raw;
  }

  class LogStream {
    var lines: seq<string>
    var buffer: string
    ghost var received: string

    /** Buffer and window are functions of the text received, whatever the chunks were. */
    ghost predicate Valid()
      reads this
    {
      buffer == Remainder(received) && lines == Shown(received)
    }

    constructor ()
      ensures Valid() && received == ""
    {
      lines := [];
      buffer := "";
      received := "";
    }

    method Push(line: string)
      modifies this`lines
      ensures lines == LastN(old(lines) + [line], WINDOW)
    {
      var next := lines + [line];
      lines := if |next| > WINDOW then next[|next| - WINDOW..] else next;
    }

    /** The lines of one record, added to a window on `prior`. */
    method ShowRecord(part: string, ghost prior: seq<string>)
      requires lines == LastN(prior, WINDOW)
      modifies this`lines
      ensures lines == LastN(prior + DataLines(SplitLines(part)), WINDOW)
    {
      var split := SplitLines(part);
      assert prior + [] == prior;
      for i := 0 to |split|
        invariant lines == LastN(prior + DataLines(split[..i]), WINDOW)
      {
        DataLinesSnoc(split[..i], split[i]);
        assert split[..i + 1] == split[..i] + [split[i]];
        if PREFIX <= split[i] {
          var text := Decode(split[i][|PREFIX|..]);
          WindowSlides(prior, DataLines(split[..i]), text, WINDOW);
          Push(text);
        }
      }
      assert split[..|split|] == split;
    }

    /** One iteration of the read loop. */
    method Receive(chunk: string)
      requires Valid()
      modifies this
      ensures Valid() && received == old(received) + chunk
    {
      ChunkIndependent(received, chunk);
      var parts := SplitBlank(buffer + chunk);
      buffer := parts[|parts| - 1];
      parts := parts[..|parts| - 1];
      ghost var prior := RecordLines(Finished(received));
      assert prior + [] == prior;
      for i := 0 to |parts|
        invariant lines == LastN(prior + RecordLines(parts[..i]), WINDOW)
        invariant buffer == Remainder(old(received) + chunk) && received == old(received)
      {
        assert parts[..i + 1][..i] == parts[..i];
        ShowRecord(parts[i], prior + RecordLines(parts[..i]));
        ConcatAssoc(prior, RecordLines(parts[..i]), DataLines(SplitLines(parts[i])));
      }
      assert parts[..|parts|] == parts;
      RecordLinesConcat(Finished(received), parts);
      received := received + chunk;
    }

    /** The whole read loop, from an empty window to the end of the stream. */
    method Run(chunks: seq<string>)
      requires Valid() && received == ""
      modifies this
      ensures Valid() && received == Flatten(chunks)
      ensures lines == Shown(Flatten(chunks)) && buffer == Remainder(Flatten(chunks))
    {
      for i := 0 to |chunks|
        invariant Valid() && received == Flatten(chunks[..i])
      {
        assert chunks[..i + 1] == chunks[..i] + [chunks[i]];
        FlattenSnoc(chunks[..i], chunks[i]);
        Receive(chunks[i]);
      }
      assert chunks[..|chunks|] == chunks;
    }
  }
}

/** From the container's log to the screen: server, wire and browser together. */
module LogPipeline {
  import opened ContainerLogs
  import opened DockerFrames
  import opened JsonText
  import opened LogStream
  import opened Sequences
  import opened TextSplit

  /** An event without its separator. */
  function RecordOf(line: string): string {
    PREFIX + Marshal(line)
  }

  function RecordsOf(lines: seq<string>): seq<string> {
    if lines == [] then [] else RecordsOf(lines[..|lines| - 1]) + [RecordOf(lines[|lines| - 1])]
  }

  lemma {:induction false} RecordsSnoc(lines: seq<string>, line: string)
    ensures RecordsOf(lines + [line]) == RecordsOf(lines) + [RecordOf(line)]
  {
    assert (lines + [line])[..|lines|] == lines;
  }

  lemma RecordIsOneLine(line: string)
    ensures LineFree(RecordOf(line)) && Event(line) == RecordOf(line) + [LF, LF]
  {
    MarshalHasNoLineFeed(line);
    assert "\n\n" == [LF, LF];
  }

  lemma RecordDecodes(line: string)
    ensures DataLines(SplitLines(RecordOf(line))) == [line]
  {
    var r := RecordOf(line);
    RecordIsOneLine(line);
    SplitLineFree(r);
    RoundTrip(line);
    assert r[|PREFIX|..] == Marshal(line);
    var none: seq<string> := [r][..0];
    assert none == [];
  }

  lemma {:induction false} RecordsAre(lines: seq<string>)
    ensures |RecordsOf(lines)| == |lines|
    ensures forall i :: 0 <= i < |lines| ==> RecordsOf(lines)[i] == RecordOf(lines[i])
  {
    if lines != [] {
      RecordsAre(lines[..|lines| - 1]);
    }
  }

  lemma {:induction false} RecordsDecode(lines: seq<string>)
    ensures RecordLines(RecordsOf(lines)) == lines
  {
    var records := RecordsOf(lines);
    RecordsAre(lines);
    forall i | 0 <= i < |records|
      ensures RecordData()(records[i]) == [lines[i]]
    {
      RecordDecodes(lines[i]);
    }
    FlatMapOnes(records, RecordData(), lines);
    RecordLinesAre(records);
  }

  /** An event never runs into what follows it. */
  lemma {:induction false} EventSplits(line: string, rest: string)
    ensures SplitBlank(Event(line) + rest) == [RecordOf(line)] + SplitBlank(rest)
  {
    RecordIsOneLine(line);
    SplitAtBlank(RecordOf(line), rest);
    assert Event(line) + rest == RecordOf(line) + [LF, LF] + rest;
  }

  lemma {:induction false} WireSplits(lines: seq<string>)
    ensures SplitBlank(Wire(lines)) == RecordsOf(lines) + [""]
  {
    if lines != [] {
      var front, last := lines[..|lines| - 1], lines[|lines| - 1];
      WireSplits(front);
      WireSnoc(front, last);
      assert lines == front + [last];
      SplitBlankConcat(Wire(front), Event(last));
      EventSplits(last, "");
      assert "" + Event(last) == Event(last) == Event(last) + "";
      assert SplitBlank("") == [""];
      var p := SplitBlank(Wire(front));
      assert p[..|p| - 1] == RecordsOf(front);
      RecordsSnoc(front, last);
    }
  }

  /** A part of an event that lacks its end is never taken for a record. */
  lemma PartOfEvent(line: string, n: nat)
    requires n < |Event(line)|
    ensures SplitBlank(Event(line)[..n]) == [Event(line)[..n]]
  {
    RecordIsOneLine(line);
    var t := Event(line)[..n];
    assert !HasBlank(t) by {
      forall i | 0 <= i < |t| - 1
        ensures !(t[i] == LF && t[i + 1] == LF)
      {
        assert i < |RecordOf(line)|;
        assert t[i] == RecordOf(line)[i];
      }
    }
    SplitNoBlank(t);
  }

  /** The text received is the first `k` events whole, and no more than a part of the next. */
  ghost predicate WholeEvents(lines: seq<string>, received: string, k: nat) {
    && k <= |lines|
    && |Wire(lines[..k])| <= |received| <= |Wire(lines)|
    && received == Wire(lines)[..|received|]
    && (k < |lines| ==> |received| < |Wire(lines[..k + 1])|)
    && (k == |lines| ==> received == Wire(lines))
  }

  lemma {:induction false} WirePrefix(lines: seq<string>, k: nat)
    requires k <= |lines|
    ensures Wire(lines[..k]) <= Wire(lines)
  {
    assert lines == lines[..k] + lines[k..];
    WireConcat(lines[..k], lines[k..]);
  }

  /** What has arrived after the first `k` events is text without a separator. */
  lemma PartialTail(lines: seq<string>, received: string, k: nat)
    requires WholeEvents(lines, received, k)
    ensures Wire(lines[..k]) <= received
    ensures SplitBlank(received[|Wire(lines[..k])|..]) == [received[|Wire(lines[..k])|..]]
  {
    var head := Wire(lines[..k]);
    WirePrefix(lines, k);
    var tail := received[|head|..];
    if k < |lines| {
      WirePrefix(lines, k + 1);
      assert lines[..k + 1] == lines[..k] + [lines[k]];
      WireSnoc(lines[..k], lines[k]);
      assert tail == Event(lines[k])[..|tail|];
      PartOfEvent(lines[k], |tail|);
    } else {
      assert lines[..k] == lines;
    }
  }

  lemma {:induction false} FinishedRecords(lines: seq<string>, tail: string)
    requires SplitBlank(tail) == [tail]
    ensures Finished(Wire(lines) + tail) == RecordsOf(lines)
  {
    var p := SplitBlank(Wire(lines));
    WireSplits(lines);
    SplitBlankConcat(Wire(lines), tail);
    assert p[..|p| - 1] == RecordsOf(lines) && p[|p| - 1] == "";
    assert "" + tail == tail;
  }

  /**
   At every moment of the stream, however it is cut into chunks, the screen holds the last 500 of the lines whose events
   have arrived whole.
   */
  lemma ShownSoFar(lines: seq<string>, received: string, k: nat)
    requires WholeEvents(lines, received, k)
    ensures Shown(received) == LastN(lines[..k], WINDOW)
  {
    var head := Wire(lines[..k]);
    PartialTail(lines, received, k);
    assert received == head + received[|head|..];
    FinishedRecords(lines[..k], received[|head|..]);
    RecordsDecode(lines[..k]);
  }

  /** The end-to-end round trip: the browser ends with the last 500 of exactly the lines the server wrote. */
  lemma {:induction false} EndToEnd(lines: seq<string>, chunks: seq<string>)
    requires Flatten(chunks) == Wire(lines)
    ensures Shown(Flatten(chunks)) == LastN(lines, WINDOW)
    ensures |lines| <= 500 ==> Shown(Flatten(chunks)) == lines
    ensures |lines| > 500 ==> Shown(Flatten(chunks)) == lines[|lines| - 500..]
  {
    assert lines[..|lines|] == lines;
    ShownSoFar(lines, Flatten(chunks), |lines|);
  }

  /**
   From Docker's frames to the screen: when every frame but the last is a whole line, none is empty, no header hides a
   line feed and no read of the server stops inside a line, the browser ends with the last 500 lines the container
   wrote, for every chunking of the stream.
   */
  lemma {:induction false} DockerToBrowser(fs: seq<DockerFrames.Frame>, buffers: seq<string>, chunks: seq<string>)
    requires AllWellFormed(fs) && Recoverable(fs)
    requires Flatten(buffers) == EncodeAll(fs) && !SomeCutMidLine(buffers)
    requires Flatten(chunks) == Wire(StreamLines(buffers))
    ensures Shown(Flatten(chunks)) == LastN(Texts(fs), WINDOW)
  {
    StreamAgreesIff(buffers);
    LinesIff(fs);
    EndToEnd(Texts(fs), chunks);
  }
}

/**
 The two server paths for container logs. The batch path strips the Docker frame headers of the whole log; the
 streaming path does it read by read and keeps nothing between reads. Characters stand for bytes.
 */
module ContainerLogs {
  import opened JsonText
  import opened Sequences
  import opened TextSplit

  const HEADER := 8

  function StripHeader(line: string): string {
    if |line| > HEADER && line[0] <= 2 as char then line[HEADER..] else line
  }

  /** What one path makes of a list of lines: empty lines go, the others lose their header. */
  function Clean(lines: seq<string>): seq<string> {
    if lines == [] then []
    else (if lines[0] == "" then [] else [StripHeader(lines[0])]) + Clean(lines[1..])
  }

  /** The log lines of a text. */
  function LogLines(data: string): seq<string> {
    Clean(SplitLines(data))
  }

  /** The log lines the streaming path emits for a series of reads. */
  function StreamLines(buffers: seq<string>): seq<string> {
    if buffers == [] then [] else StreamLines(buffers[..|buffers| - 1]) + LogLines(buffers[|buffers| - 1])
  }

  /** One server-sent event per line. */
  function Event(line: string): string {
    "data: " + Marshal(line) + "\n\n"
  }

  function Events(lines: seq<string>): seq<string> {
    seq(|lines|, i requires 0 <= i < |lines| => Event(lines[i]))
  }

  function Wire(lines: seq<string>): string {
    Flatten(Events(lines))
  }

  lemma {:induction false} CleanConcat(a: seq<string>, b: seq<string>)
    ensures Clean(a + b) == Clean(a) + Clean(b)
  {
    if a == [] {
      assert a + b == b;
    } else {
      assert (a + b)[1..] == a[1..] + b;
      CleanConcat(a[1..], b);
    }
  }

  lemma CleanOne(line: string)
    ensures Clean([line]) == if line == "" then [] else [StripHeader(line)]
  {
    assert [line][1..] == [];
  }

  /** Stripping never empties a line, so the streaming path's second emptiness test drops nothing. */
  lemma {:induction false} CleanNonEmpty(lines: seq<string>)
    ensures forall l :: l in Clean(lines) ==> l != ""
  {
    if lines != [] {
      CleanNonEmpty(lines[1..]);
    }
  }

  lemma EventsConcat(a: seq<string>, b: seq<string>)
    ensures Events(a + b) == Events(a) + Events(b)
  {
  }

  lemma WireConcat(a: seq<string>, b: seq<string>)
    ensures Wire(a + b) == Wire(a) + Wire(b)
  {
    EventsConcat(a, b);
    FlattenAppend(Events(a), Events(b));
  }

  lemma WireSnoc(lines: seq<string>, line: string)
    ensures Wire(lines + [line]) == Wire(lines) + Event(line)
  {
    EventsConcat(lines, [line]);
    FlattenSnoc(Events(lines), Event(line));
    assert Events([line]) == [Event(line)];
  }

  /** What one more line adds to the stream. */
  lemma {:induction false} WireOnLine(done: seq<string>, line: string)
    ensures line == "" ==> Wire(Clean(done + [line])) == Wire(Clean(done))
    ensures line != "" ==> Wire(Clean(done + [line])) == Wire(Clean(done)) + Event(StripHeader(line))
  {
    CleanConcat(done, [line]);
    CleanOne(line);
    if line == "" {
      assert Clean(done) + [] == Clean(done);
    } else {
      WireSnoc(Clean(done), StripHeader(line));
    }
  }

  /** The event of a line that needs no escaping, as it goes over the wire. */
  lemma EventOfPlain(line: string)
    requires forall c :: c in line ==> Inert(c) && c != '\"' && c != '\\'
    ensures Event(line) == "data: \"" + line + "\"\n\n"
  {
    PlainEscapes(line);
    assert "data: " + ("\"" + line + "\"") + "\n\n" == "data: \"" + line + "\"\n\n";
  }

  lemma {:induction false} PlainEscapes(line: string)
    requires forall c :: c in line ==> Inert(c) && c != '\"' && c != '\\'
    ensures EscapeAll(line) == line
  {
    if line != "" {
      assert line[0] in line && forall c :: c in line[1..] ==> c in line;
      PlainStays(line[0]);
      PlainEscapes(line[1..]);
      assert [line[0]] + line[1..] == line;
    }
  }

  /** The batch path (`stripDockerLogHeaders`). */
  method StripDockerLogHeaders(data: string) returns (text: string)
    ensures text == JoinLines(LogLines(data))
  {
    var lines := SplitLines(data);
    var out: seq<string> := [];
    for i := 0 to |lines|
      invariant out == Clean(lines[..i])
    {
      assert lines[..i + 1] == lines[..i] + [lines[i]];
      CleanConcat(lines[..i], [lines[i]]);
      CleanOne(lines[i]);
      if lines[i] == "" {
        continue;
      }
      out := out + [StripHeader(lines[i])];
    }
    assert lines[..|lines|] == lines;
    text := JoinLines(out);
  }

  /** The streaming path: what it writes for the reads its source returned before it ended. */
  method StreamLogs(buffers: seq<string>) returns (out: string)
    ensures out == Wire(StreamLines(buffers))
  {
    out := "";
    for r := 0 to |buffers|
      invariant out == Wire(StreamLines(buffers[..r]))
    {
      assert buffers[..r + 1][..r] == buffers[..r];
      var written := WriteRead(buffers[r]);
      WireConcat(StreamLines(buffers[..r]), LogLines(buffers[r]));
      out := out + written;
    }
    assert buffers[..|buffers|] == buffers;
  }

  /** The body of the read loop for one read; a read of no bytes writes nothing. */
  method WriteRead(read: string) returns (out: string)
    ensures out == Wire(LogLines(read))
  {
    out := "";
    if |read| == 0 {
      CleanOne("");
      return;
    }
    var lines := SplitLines(read);
    for i := 0 to |lines|
      invariant out == Wire(Clean(lines[..i]))
    {
      assert lines[..i + 1] == lines[..i] + [lines[i]];
      WireOnLine(lines[..i], lines[i]);
      if lines[i] == "" {
        continue;
      }
      var clean := StripHeader(lines[i]);
      assert clean != "";
      if clean == "" {
        continue;
      }
      out := out + Event(clean);
    }
    assert lines[..|lines|] == lines;
  }

  /** Lines that could not be mistaken for a framed one. */
  predicate Plain(line: string) {
    |line| <= HEADER || line[0] > 2 as char
  }

  lemma {:induction false} CleanPlain(lines: seq<string>)
    requires forall l :: l in lines ==> l != ""
    ensures |Clean(lines)| == |lines|
    ensures Clean(lines) == lines <==> forall l :: l in lines ==> Plain(l)
  {
    if lines != [] {
      assert lines[0] in lines && forall l :: l in lines[1..] ==> l in lines;
      CleanPlain(lines[1..]);
      assert lines == [lines[0]] + lines[1..];
      assert StripHeader(lines[0]) == lines[0] <==> Plain(lines[0]);
      assert Clean(lines) == [StripHeader(lines[0])] + Clean(lines[1..]);
      assert Clean(lines) == lines ==> Clean(lines[1..]) == lines[1..] && StripHeader(lines[0]) == lines[0];
    }
  }

  /** An unframed log, as a container with a terminal writes it, comes through exactly when all its lines are plain. */
  lemma {:induction false} UnframedIff(lines: seq<string>)
    requires lines != [] && forall l :: l in lines ==> l != "" && LineFree(l)
    ensures LogLines(JoinLines(lines)) == lines <==> forall l :: l in lines ==> Plain(l)
  {
    SplitJoin(lines);
    CleanPlain(lines);
  }

  // ---------- Streaming against batch ----------

  /** The cut between the text read so far and the next read falls inside a line. */
  predicate MidLine(before: string, read: string) {
    before != "" && before[|before| - 1] != LF && read != "" && read[0] != LF
  }

  ghost predicate SomeCutMidLine(buffers: seq<string>) {
    exists i :: 0 <= i < |buffers| && MidLine(Flatten(buffers[..i]), buffers[i])
  }

  lemma {:induction false} CleanLast(p: seq<string>)
    requires p != []
    ensures Clean(p) == Clean(p[..|p| - 1]) + Clean([p[|p| - 1]])
  {
    CleanConcat(p[..|p| - 1], [p[|p| - 1]]);
    assert p == p[..|p| - 1] + [p[|p| - 1]];
  }

  lemma CleanGlue(p: seq<string>, q: seq<string>)
    requires p != [] && q != []
    ensures Clean(Glue(p, q)) == Clean(p[..|p| - 1]) + Clean([p[|p| - 1] + q[0]]) + Clean(q[1..])
  {
    CleanConcat(p[..|p| - 1], [p[|p| - 1] + q[0]]);
    CleanConcat(p[..|p| - 1] + [p[|p| - 1] + q[0]], q[1..]);
  }

  /** A cut that is not inside a line costs nothing; one that is makes two lines of one. */
  lemma LinesAcrossCut(a: string, b: string)
    ensures !MidLine(a, b) ==> LogLines(a + b) == LogLines(a) + LogLines(b)
    ensures MidLine(a, b) ==> |LogLines(a + b)| + 1 == |LogLines(a)| + |LogLines(b)|
  {
    var p, q := SplitLines(a), SplitLines(b);
    var last, first := p[|p| - 1], q[0];
    SplitConcat(a, b);
    LastPart(a);
    FirstPart(b);
    assert MidLine(a, b) <==> last != "" && first != "";
    CleanGlue(p, q);
    CleanLast(p);
    CleanConcat([first], q[1..]);
    assert q == [first] + q[1..];
    CleanAcross(Clean(p[..|p| - 1]), last, first, Clean(q[1..]));
  }

  lemma CleanAcross(left: seq<string>, last: string, first: string, right: seq<string>)
    ensures last == "" || first == "" ==>
              left + Clean([last + first]) + right == (left + Clean([last])) + (Clean([first]) + right)
    ensures last != "" && first != "" ==>
              |Clean([last])| == |Clean([first])| == |Clean([last + first])| == 1
  {
    CleanOne(last);
    CleanOne(first);
    CleanOne(last + first);
    assert last == "" ==> last + first == first;
    assert first == "" ==> last + first == last;
  }

  /** The streaming path never emits fewer lines than the batch path, and emits more once a cut is inside a line. */
  lemma {:induction false} StreamCount(buffers: seq<string>)
    ensures |LogLines(Flatten(buffers))| <= |StreamLines(buffers)|
    ensures SomeCutMidLine(buffers) ==> |LogLines(Flatten(buffers))| < |StreamLines(buffers)|
    ensures !SomeCutMidLine(buffers) ==> LogLines(Flatten(buffers)) == StreamLines(buffers)
  {
    if buffers == [] {
      CleanOne("");
    } else {
      var front, last := buffers[..|buffers| - 1], buffers[|buffers| - 1];
      StreamCount(front);
      assert buffers == front + [last];
      FlattenSnoc(front, last);
      LinesAcrossCut(Flatten(front), last);
      assert forall i :: 0 <= i < |front| ==> front[..i] == buffers[..i];
      assert SomeCutMidLine(buffers) <==> SomeCutMidLine(front) || MidLine(Flatten(front), last) by {
        CutsOfFront(buffers);
      }
    }
  }

  lemma CutsOfFront(buffers: seq<string>)
    requires buffers != []
    ensures var front, last := buffers[..|buffers| - 1], buffers[|buffers| - 1];
      SomeCutMidLine(buffers) <==> SomeCutMidLine(front) || MidLine(Flatten(front), last)
  {
    var front, last := buffers[..|buffers| - 1], buffers[|buffers| - 1];
    assert forall i :: 0 <= i < |front| ==> front[..i] == buffers[..i];
    if SomeCutMidLine(buffers) {
      var i :| 0 <= i < |buffers| && MidLine(Flatten(buffers[..i]), buffers[i]);
      assert i < |front| ==> MidLine(Flatten(front[..i]), front[i]);
    }
    if SomeCutMidLine(front) {
      var i :| 0 <= i < |front| && MidLine(Flatten(front[..i]), front[i]);
      assert MidLine(Flatten(buffers[..i]), buffers[i]);
    }
    if MidLine(Flatten(front), last) {
      assert buffers[..|buffers| - 1] == front;
      assert MidLine(Flatten(buffers[..|buffers| - 1]), buffers[|buffers| - 1]);
    }
  }

  /** Streaming agrees with batch exactly when no read boundary falls inside a line. */
  lemma {:induction false} StreamAgreesIff(buffers: seq<string>)
    ensures StreamLines(buffers) == LogLines(Flatten(buffers)) <==> !SomeCutMidLine(buffers)
  {
    StreamCount(buffers);
  }

  /** A line in two reads: the batch path has it whole, the streaming path as two lines. */
  lemma CutLineDiffers()
    ensures var buffers := ["ab", "cd\n"];
      StreamLines(buffers) != LogLines(Flatten(buffers))
  {
    var buffers := ["ab", "cd\n"];
    assert buffers[..1] == ["ab"];
    FlattenOne("ab");
    assert MidLine(Flatten(buffers[..1]), buffers[1]);
    StreamAgreesIff(buffers);
  }
}

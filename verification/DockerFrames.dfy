/**
 Docker's multiplexed log format against the header stripping of the batch path. Stripping works line by line, so it
 recovers the log exactly when every frame is a whole, non-empty line and no header hides a line feed. Docker sends a
 long line as several frames of which only the last ends it.
 */
module DockerFrames {
  import opened ContainerLogs
  import opened Sequences
  import opened TextSplit

  /** One frame: the stream it belongs to, its text without line feed, and whether a line feed follows. */
  datatype Frame = Frame(stream: nat, text: string, ends: bool)

  function Ending(f: Frame): string {
    if f.ends then [LF] else ""
  }

  function Payload(f: Frame): string {
    f.text + Ending(f)
  }

  ghost predicate WellFormed(f: Frame) {
    f.stream <= 2 && LineFree(f.text) && |Payload(f)| < 0x1_0000_0000
  }

  /** The lowest `k` bytes of a number, big-endian. */
  function BigEndian(n: nat, k: nat): (s: string)
    ensures |s| == k
  {
    if k == 0 then "" else BigEndian(n / 0x100, k - 1) + [(n % 0x100) as char]
  }

  function LengthBytes(n: nat): (s: string)
    ensures |s| == 4
  {
    BigEndian(n, 4)
  }

  /** Lengths below 2^32 are what their bytes say. */
  lemma LengthBytesAre(n: nat, a: nat, b: nat, c: nat, d: nat)
    requires a < 0x100 && b < 0x100 && c < 0x100 && d < 0x100
    requires n == ((a * 0x100 + b) * 0x100 + c) * 0x100 + d
    ensures LengthBytes(n) == [a as char, b as char, c as char, d as char]
  {
    assert BigEndian(a, 1) == BigEndian(0, 0) + [a as char] == [a as char];
    assert BigEndian(a * 0x100 + b, 2) == BigEndian(a, 1) + [b as char];
    assert BigEndian((a * 0x100 + b) * 0x100 + c, 3) == BigEndian(a * 0x100 + b, 2) + [c as char];
  }

  function Header(f: Frame): (h: string)
    requires f.stream <= 2
    ensures |h| == HEADER && h[0] <= 2 as char && h[0] != LF
  {
    [f.stream as char, 0 as char, 0 as char, 0 as char] + LengthBytes(|Payload(f)|)
  }

  function Encode(f: Frame): string
    requires f.stream <= 2
  {
    Header(f) + Payload(f)
  }

  ghost predicate AllWellFormed(fs: seq<Frame>) {
    forall i :: 0 <= i < |fs| ==> WellFormed(fs[i])
  }

  ghost function EncodeAll(fs: seq<Frame>): string
    requires AllWellFormed(fs)
  {
    if fs == [] then "" else Encode(fs[0]) + EncodeAll(fs[1..])
  }

  /** What the container wrote. */
  function Written(fs: seq<Frame>): string {
    if fs == [] then "" else Payload(fs[0]) + Written(fs[1..])
  }

  /** The lines the container wrote; the last may lack its line feed. */
  function Texts(fs: seq<Frame>): (ts: seq<string>)
    ensures fs == [] <==> ts == []
  {
    if fs == [] then []
    else if fs[0].ends || |fs| == 1 then [fs[0].text] + Texts(fs[1..])
    else
      var rest := Texts(fs[1..]);
      [fs[0].text + rest[0]] + rest[1..]
  }

  lemma {:induction false} TextsAreWritten(fs: seq<Frame>)
    requires fs != []
    ensures JoinLines(Texts(fs)) + Ending(fs[|fs| - 1]) == Written(fs)
  {
    var f, rest := fs[0], fs[1..];
    if rest == [] {
      assert Texts(fs) == [f.text];
    } else {
      TextsAreWritten(rest);
      var ts := Texts(rest);
      if f.ends {
        assert Texts(fs)[1..] == ts;
      } else {
        JoinFirst(f.text, ts);
      }
      assert rest[|rest| - 1] == fs[|fs| - 1];
    }
  }

  lemma {:induction false} JoinFirst(text: string, ts: seq<string>)
    requires ts != []
    ensures JoinLines([text + ts[0]] + ts[1..]) == text + JoinLines(ts)
  {
    var longer := [text + ts[0]] + ts[1..];
    assert longer[1..] == ts[1..];
  }

  /** The length of the payload has no byte 0x0A. */
  predicate LengthVisible(f: Frame) {
    LineFree(LengthBytes(|Payload(f)|))
  }

  /** The frame survives line-by-line stripping. */
  predicate Transparent(f: Frame) {
    f.text != "" && LengthVisible(f)
  }

  /** Every frame is transparent, and only the last may leave its line unfinished. */
  ghost predicate Recoverable(fs: seq<Frame>) {
    forall i :: 0 <= i < |fs| ==> Transparent(fs[i]) && (fs[i].ends || i == |fs| - 1)
  }

  lemma RecoverableFirst(fs: seq<Frame>)
    requires fs != []
    ensures Recoverable(fs) <==>
              Transparent(fs[0]) && (fs[0].ends || |fs| == 1) && Recoverable(fs[1..])
  {
    var rest := fs[1..];
    assert forall i :: 0 <= i < |rest| ==> rest[i] == fs[i + 1];
    assert forall i :: 0 < i < |fs| ==> fs[i] == rest[i - 1];
  }

  // ---------- Lines of what Docker sends ----------

  /** A single line, finished or not. */
  lemma LinesOfLine(line: string, end: string)
    requires LineFree(line) && line != "" && (end == "" || end == [LF])
    ensures LogLines(line + end) == [StripHeader(line)]
  {
    if end == "" {
      assert line + end == line;
      SplitLineFree(line);
    } else {
      SplitAtLF(line, "");
      assert line + [LF] + "" == line + end;
      CleanConcat([line], [""]);
      CleanOne("");
      assert Clean([line]) + [] == Clean([line]);
    }
    CleanOne(line);
  }

  lemma {:induction false} SomeLine(s: string, i: nat)
    requires i < |s| && s[i] != LF
    ensures LogLines(s) != []
  {
    if s[0] == LF {
      assert s[1..][i - 1] == s[i];
      SomeLine(s[1..], i - 1);
      assert SplitLines(s) == [""] + SplitLines(s[1..]);
      CleanConcat([""], SplitLines(s[1..]));
      CleanOne("");
    } else {
      FirstPart(s);
    }
  }

  /** Text up to a line feed, and what follows it, do not mix. */
  lemma LinesApart(a: string, b: string)
    requires a == "" || a[|a| - 1] == LF || b == ""
    ensures LogLines(a + b) == LogLines(a) + LogLines(b)
  {
    LinesAcrossCut(a, b);
  }

  lemma {:induction false} EncodeAllFirst(q: string, fs: seq<Frame>)
    requires AllWellFormed(fs) && fs != []
    ensures q + EncodeAll(fs) == (q + Encode(fs[0])) + EncodeAll(fs[1..])
  {
  }

  /** At least one line comes out for every line that went in, whatever is in front. */
  lemma {:induction false} AtLeastOnePerLine(q: string, fs: seq<Frame>)
    requires AllWellFormed(fs)
    ensures |LogLines(q + EncodeAll(fs))| >= |Texts(fs)|
    decreases |fs|
  {
    if fs != [] {
      var f, rest := fs[0], fs[1..];
      var first := q + Encode(f);
      EncodeAllFirst(q, fs);
      if f.ends || rest == [] {
        LinesApart(first, EncodeAll(rest));
        assert first[|q|] == Header(f)[0];
        SomeLine(first, |q|);
        AtLeastOnePerLine("", rest);
        assert "" + EncodeAll(rest) == EncodeAll(rest);
      } else {
        AtLeastOnePerLine(first, rest);
      }
    }
  }

  /** A header with a line feed in it makes one line more than there were. */
  lemma {:induction false} HiddenLineFeedAdds(p: string, fs: seq<Frame>)
    requires AllWellFormed(fs) && fs != [] && !LengthVisible(fs[0])
    ensures |LogLines(p + EncodeAll(fs))| > |Texts(fs)|
  {
    var f, rest := fs[0], fs[1..];
    var k := LineFeedIn(f);
    var h := Header(f);
    var a, q := p + h[..5 + k], h[5 + k..] + Payload(f);
    assert p + Encode(f) == a + q;
    EncodeAllFirst(p, fs);
    ConcatAssoc(a, q, EncodeAll(rest));
    LinesApart(a, q + EncodeAll(rest));
    assert a[|p|] == h[0];
    SomeLine(a, |p|);
    PayloadLines(h[5 + k..], fs);
  }

  /** The payload that follows the rest of a broken header. */
  lemma {:induction false} PayloadLines(s: string, fs: seq<Frame>)
    requires AllWellFormed(fs) && fs != [] && fs[0].text != ""
    ensures |LogLines(s + Payload(fs[0]) + EncodeAll(fs[1..]))| >= |Texts(fs)|
  {
    var f, rest := fs[0], fs[1..];
    var q := s + Payload(f);
    if f.ends || rest == [] {
      LinesApart(q, EncodeAll(rest));
      assert q[|s|] == f.text[0];
      SomeLine(q, |s|);
      AtLeastOnePerLine("", rest);
      assert "" + EncodeAll(rest) == EncodeAll(rest);
    } else {
      AtLeastOnePerLine(q, rest);
    }
  }

  /** Where the line feed is; such a payload is at least ten long. */
  lemma LineFeedIn(f: Frame) returns (k: nat)
    requires WellFormed(f) && !LengthVisible(f)
    ensures k < 4 && Header(f)[4 + k] == LF && f.text != ""
  {
    k :| 0 <= k < 4 && LengthBytes(|Payload(f)|)[k] == LF;
    if f.text == "" {
      ShortLengths(|Payload(f)|);
    }
  }

  lemma ShortLengths(n: nat)
    requires n <= 1
    ensures LineFree(LengthBytes(n))
  {
    LengthBytesAre(n, 0, 0, 0, n);
  }

  /**
   An unfinished line `p` takes the next header into its middle: should the number of lines still be right, the first
   comes out too long.
   */
  lemma {:induction false} UnfinishedLeaks(p: string, fs: seq<Frame>)
    requires AllWellFormed(fs) && fs != [] && LineFree(p) && |p| >= HEADER
    ensures var out := LogLines(p + EncodeAll(fs));
      && |out| >= |Texts(fs)|
      && (|out| == |Texts(fs)| ==> |out[0]| >= |p| + |Texts(fs)[0]|)
    decreases |fs|
  {
    var f, rest := fs[0], fs[1..];
    AtLeastOnePerLine(p, fs);
    if !LengthVisible(f) {
      HiddenLineFeedAdds(p, fs);
    } else {
      var line := p + Header(f) + f.text;
      if f.ends || rest == [] {
        WholeLine(p, fs, f, rest);
      } else {
        EncodeAllFirst(p, fs);
        assert p + Encode(f) == line;
        UnfinishedLeaks(line, rest);
      }
    }
  }

  /** The lines of what Docker sends are the lines written exactly when the frames are recoverable. */
  lemma {:induction false} LinesIff(fs: seq<Frame>)
    requires AllWellFormed(fs)
    ensures Recovers(fs) <==> Recoverable(fs)
  {
    if fs == [] {
      CleanOne("");
    } else {
      var f, rest := fs[0], fs[1..];
      RecoverableFirst(fs);
      EncodeAllFirst("", fs);
      assert "" + EncodeAll(fs) == EncodeAll(fs) && "" + Encode(f) == Encode(f);
      if !LengthVisible(f) {
        HiddenLineFeedAdds("", fs);
      } else if f.ends || rest == [] {
        LinesIff(rest);
        WholeFirst(fs, f, rest);
      } else {
        var p := Header(f) + f.text;
        assert Encode(f) == p;
        UnfinishedLeaks(p, rest);
        assert |Texts(fs)[0]| < |p| + |Texts(rest)[0]|;
      }
    }
  }

  lemma StripsToText(f: Frame)
    requires f.stream <= 2
    ensures StripHeader(Header(f) + f.text) == f.text <==> f.text != ""
  {
  }

  lemma {:induction false} TextsFirst(fs: seq<Frame>)
    requires fs != [] && (fs[0].ends || |fs| == 1)
    ensures Texts(fs) == [fs[0].text] + Texts(fs[1..])
  {
  }

  lemma SameFirst<T>(x: T, a: seq<T>, y: T, b: seq<T>)
    ensures [x] + a == [y] + b <==> x == y && a == b
  {
    var s, t := [x] + a, [y] + b;
    assert s[0] == x && t[0] == y && s[1..] == a && t[1..] == b;
  }

  lemma LineApart(line: string, end: string, tail: string)
    requires LineFree(line) && line != "" && (end == [LF] || end == tail == "")
    ensures LogLines(line + end + tail) == [StripHeader(line)] + LogLines(tail)
  {
    LinesApart(line + end, tail);
    LinesOfLine(line, end);
  }

  lemma {:induction false} EncodedLine(p: string, fs: seq<Frame>)
    requires AllWellFormed(fs) && fs != []
    ensures p + EncodeAll(fs) == (p + Header(fs[0]) + fs[0].text) + Ending(fs[0]) + EncodeAll(fs[1..])
  {
    EncodeAllFirst(p, fs);
    assert p + Encode(fs[0]) == (p + Header(fs[0]) + fs[0].text) + Ending(fs[0]);
  }

  lemma LineIsFree(p: string, f: Frame)
    requires LineFree(p) && WellFormed(f) && LengthVisible(f)
    ensures LineFree(p + Header(f) + f.text) && p + Header(f) + f.text != ""
  {
  }

  /** What follows a header whose line ends with the frame, or with the log, comes out apart from the rest. */
  lemma {:induction false} WholeLine(p: string, fs: seq<Frame>, f: Frame, rest: seq<Frame>)
    requires AllWellFormed(fs) && fs != [] && f == fs[0] && rest == fs[1..]
    requires LengthVisible(f) && (f.ends || rest == []) && LineFree(p)
    ensures AllWellFormed(rest)
    ensures LogLines(p + EncodeAll(fs)) == [StripHeader(p + Header(f) + f.text)] + LogLines(EncodeAll(rest))
  {
    var line, tail := p + Header(f) + f.text, EncodeAll(rest);
    assert p + EncodeAll(fs) == line + Ending(f) + tail by {
      EncodedLine(p, fs);
    }
    LineIsFree(p, f);
    LineApart(line, Ending(f), tail);
  }

  lemma {:induction false} FirstLine(fs: seq<Frame>, f: Frame, rest: seq<Frame>)
    requires AllWellFormed(fs) && fs != [] && f == fs[0] && rest == fs[1..]
    requires LengthVisible(f) && (f.ends || rest == [])
    ensures AllWellFormed(rest)
    ensures LogLines(EncodeAll(fs)) == [StripHeader(Header(f) + f.text)] + LogLines(EncodeAll(rest))
  {
    WholeLine("", fs, f, rest);
    assert "" + EncodeAll(fs) == EncodeAll(fs) && "" + Header(f) == Header(f);
  }

  /** The lines written, from the texts they were split into. */
  ghost predicate Recovers(fs: seq<Frame>)
    requires AllWellFormed(fs)
  {
    LogLines(EncodeAll(fs)) == Texts(fs)
  }

  /** A whole line first: it comes out as its text, or as its header when it is empty. */
  lemma WholeFirst(fs: seq<Frame>, f: Frame, rest: seq<Frame>)
    requires AllWellFormed(fs) && fs != [] && f == fs[0] && rest == fs[1..]
    requires LengthVisible(f) && (f.ends || rest == [])
    ensures AllWellFormed(rest)
    ensures Recovers(fs) <==> f.text != "" && Recovers(rest)
  {
    var out := LogLines(EncodeAll(rest));
    var x := StripHeader(Header(f) + f.text);
    assert LogLines(EncodeAll(fs)) == [x] + out by {
      FirstLine(fs, f, rest);
    }
    assert Texts(fs) == [f.text] + Texts(rest) by {
      TextsFirst(fs);
    }
    StripsToText(f);
    SameFirst(x, out, f.text, Texts(rest));
  }

  // ---------- The round trip ----------

  lemma {:induction false} CleanLineFree(lines: seq<string>)
    requires forall l :: l in lines ==> LineFree(l)
    ensures forall l :: l in Clean(lines) ==> LineFree(l)
  {
    if lines != [] {
      CleanLineFree(lines[1..]);
      assert LineFree(lines[0]);
      CleanOne(lines[0]);
    }
  }

  lemma {:induction false} TextsLineFree(fs: seq<Frame>)
    requires AllWellFormed(fs)
    ensures forall t :: t in Texts(fs) ==> LineFree(t)
  {
    if fs != [] {
      TextsLineFree(fs[1..]);
      assert WellFormed(fs[0]);
      assert |fs| > 1 ==> Texts(fs[1..])[0] in Texts(fs[1..]);
    }
  }

  lemma {:induction false} JoinInjective(a: seq<string>, b: seq<string>)
    requires a != [] && b != []
    requires (forall l :: l in a ==> LineFree(l)) && (forall l :: l in b ==> LineFree(l))
    ensures JoinLines(a) == JoinLines(b) <==> a == b
  {
    SplitJoin(a);
    SplitJoin(b);
  }

  /**
   The demultiplexing round trip: the batch path gives back what was written, but for a final line feed, exactly when
   every frame is transparent and none but the last leaves its line unfinished.
   */
  lemma {:induction false} DemultiplexIff(fs: seq<Frame>)
    requires AllWellFormed(fs)
    ensures JoinLines(LogLines(EncodeAll(fs))) == JoinLines(Texts(fs)) <==> Recoverable(fs)
  {
    LinesIff(fs);
    if fs != [] {
      AtLeastOnePerLine("", fs);
      assert "" + EncodeAll(fs) == EncodeAll(fs);
      JoinSplit(EncodeAll(fs));
      CleanLineFree(SplitLines(EncodeAll(fs)));
      TextsLineFree(fs);
      JoinInjective(LogLines(EncodeAll(fs)), Texts(fs));
    }
  }

  // ---------- Two inputs that break it ----------

  /** A log line of nine bytes: its payload length is ten, the byte of a line feed. */
  lemma NineByteLineBreaks()
    ensures var f := Frame(1, "123456789", true);
      AllWellFormed([f]) && JoinLines(LogLines(EncodeAll([f]))) != JoinLines(Texts([f]))
  {
    var f := Frame(1, "123456789", true);
    LengthBytesAre(10, 0, 0, 0, 10);
    assert LengthBytes(10)[3] == LF;
    DemultiplexIff([f]);
    assert !Transparent([f][0]);
  }

  lemma EncodedPair(f: Frame, g: Frame)
    requires WellFormed(f) && WellFormed(g) && !f.ends && g.ends
    ensures AllWellFormed([f, g])
    ensures EncodeAll([f, g]) == Header(f) + f.text + Header(g) + g.text + [LF]
  {
    assert [f, g][1..] == [g] && [g][1..] == [];
    assert EncodeAll([g]) == Encode(g);
    assert Encode(f) == Header(f) + f.text;
  }

  lemma PairTexts(f: Frame, g: Frame)
    requires !f.ends && g.ends
    ensures Texts([f, g]) == [f.text + g.text]
  {
    assert [f, g][1..] == [g] && [g][1..] == [];
    assert Texts([g]) == [g.text];
  }

  lemma WrittenPair(f: Frame, g: Frame)
    ensures Written([f, g]) == Payload(f) + Payload(g)
  {
    assert [f, g][1..] == [g] && [g][1..] == [];
    assert Written([g]) == Payload(g) + "" == Payload(g);
  }

  /** A line in two frames comes out with the second header in its middle. */
  lemma PartialFrame(f: Frame, g: Frame)
    requires WellFormed(f) && WellFormed(g) && Transparent(f) && !f.ends && LengthVisible(g) && g.ends
    ensures AllWellFormed([f, g]) && LogLines(EncodeAll([f, g])) == [f.text + Header(g) + g.text]
    ensures Texts([f, g]) == [f.text + g.text]
  {
    EncodedPair(f, g);
    PairTexts(f, g);
    LineIsFree("", f);
    LineIsFree("" + Header(f) + f.text, g);
    var line := Header(f) + f.text + Header(g) + g.text;
    assert "" + Header(f) == Header(f);
    LinesOfLine(line, [LF]);
    assert line[HEADER..] == f.text + Header(g) + g.text;
  }

  /** So does a line longer than the 16 KiB Docker puts into one frame, though both frames are transparent. */
  lemma LongLineBreaks() returns (fs: seq<Frame>)
    ensures AllWellFormed(fs) && (forall f :: f in fs ==> Transparent(f)) && |Written(fs)| == 16384 + 5
    ensures JoinLines(LogLines(EncodeAll(fs))) != JoinLines(Texts(fs))
  {
    var f, g := Frame(1, seq(16384, i => 'x'), false), Frame(1, "tail", true);
    fs := [f, g];
    LengthBytesAre(16384, 0, 0, 0x40, 0);
    LengthBytesAre(5, 0, 0, 0, 5);
    assert fs[1..] == [g] && [g][1..] == [];
    WrittenPair(f, g);
    DemultiplexIff(fs);
    assert !fs[0].ends;
  }
}

/** Splitting text at line feeds and at blank lines, and joining it back. */
module TextSplit {
  import opened Sequences

  const LF := '\n'

  predicate LineFree(s: string) {
    LF !in s
  }

  /** `strings.Split(s, "\n")`; the result is never empty. */
  function SplitLines(s: string): (parts: seq<string>)
    ensures parts != []
  {
    if s == "" then [""]
    else if s[0] == LF then [""] + SplitLines(s[1..])
    else
      var rest := SplitLines(s[1..]);
      [[s[0]] + rest[0]] + rest[1..]
  }

  /** `strings.Join(lines, "\n")` */
  function JoinLines(lines: seq<string>): string {
    if lines == [] then ""
    else if |lines| == 1 then lines[0]
    else lines[0] + [LF] + JoinLines(lines[1..])
  }

  lemma {:induction false} SplitLineFree(s: string)
    requires LineFree(s)
    ensures SplitLines(s) == [s]
  {
    if s != "" {
      SplitLineFree(s[1..]);
      assert [s[0]] + s[1..] == s;
    }
  }

  lemma {:induction false} SplitAtLF(a: string, b: string)
    requires LineFree(a)
    ensures SplitLines(a + [LF] + b) == [a] + SplitLines(b)
  {
    var s := a + [LF] + b;
    if a == "" {
      assert s[1..] == b;
    } else {
      assert s[1..] == a[1..] + [LF] + b;
      SplitAtLF(a[1..], b);
      assert [a[0]] + a[1..] == a;
    }
  }

  /** Splitting undoes joining, for a non-empty list of lines without line feeds. */
  lemma {:induction false} SplitJoin(lines: seq<string>)
    requires lines != [] && forall l :: l in lines ==> LineFree(l)
    ensures SplitLines(JoinLines(lines)) == lines
  {
    if |lines| == 1 {
      SplitLineFree(lines[0]);
    } else {
      SplitJoin(lines[1..]);
      SplitAtLF(lines[0], JoinLines(lines[1..]));
    }
  }

  /** The list is the lines of the text. */
  ghost predicate LinesOf(lines: seq<string>, s: string) {
    lines != [] && JoinLines(lines) == s && forall l :: l in lines ==> LineFree(l)
  }

  lemma {:induction false} JoinSplit(s: string)
    ensures LinesOf(SplitLines(s), s)
  {
    if s != "" {
      JoinSplit(s[1..]);
      assert s == [s[0]] + s[1..];
      if s[0] == LF {
        JoinBreak(SplitLines(s[1..]), s[1..]);
      } else {
        JoinCons(s[0], SplitLines(s[1..]), s[1..]);
      }
    }
  }

  lemma JoinBreak(lines: seq<string>, s: string)
    requires LinesOf(lines, s)
    ensures LinesOf([""] + lines, [LF] + s)
  {
    assert ([""] + lines)[1..] == lines;
  }

  /** One more character at the front of the first line. */
  lemma JoinCons(c: char, lines: seq<string>, s: string)
    requires LinesOf(lines, s) && c != LF
    ensures LinesOf([[c] + lines[0]] + lines[1..], [c] + s)
  {
    var longer := [[c] + lines[0]] + lines[1..];
    assert longer[1..] == lines[1..];
    assert LineFree(lines[0]);
    assert forall l :: l in lines[1..] ==> l in lines;
  }

  /** Two lists of lines, the last of one continued by the first of the other. */
  function Glue(p: seq<string>, q: seq<string>): seq<string>
    requires p != [] && q != []
  {
    p[..|p| - 1] + [p[|p| - 1] + q[0]] + q[1..]
  }

  lemma GlueCons(c: char, p: seq<string>, q: seq<string>)
    requires p != [] && q != []
    ensures Glue([""] + p, q) == [""] + Glue(p, q)
    ensures Glue([[c] + p[0]] + p[1..], q) == [[c] + Glue(p, q)[0]] + Glue(p, q)[1..]
  {
    var r := [[c] + p[0]] + p[1..];
    if |p| == 1 {
      assert [c] + (p[0] + q[0]) == ([c] + p[0]) + q[0];
    } else {
      assert r[|r| - 1] == p[|p| - 1];
    }
  }

  /** Splitting a concatenation glues the last line of the left to the first line of the right. */
  lemma {:induction false} SplitConcat(a: string, b: string)
    ensures SplitLines(a + b) == Glue(SplitLines(a), SplitLines(b))
  {
    if a == "" {
      assert a + b == b;
      var q := SplitLines(b);
      assert "" + q[0] == q[0];
    } else {
      assert (a + b)[1..] == a[1..] + b;
      SplitConcat(a[1..], b);
      GlueCons(a[0], SplitLines(a[1..]), SplitLines(b));
    }
  }

  /** The text after the last line feed is empty exactly at the start and after a line feed. */
  lemma {:induction false} LastPart(s: string)
    ensures var p := SplitLines(s); p[|p| - 1] == "" <==> s == "" || s[|s| - 1] == LF
  {
    if s != "" {
      LastPart(s[1..]);
    }
  }

  lemma {:induction false} FirstPart(s: string)
    ensures SplitLines(s)[0] == "" <==> s == "" || s[0] == LF
  {
  }

  // ---------- Blank-line separated records ----------

  /** `s.split("\n\n")`: leftmost, non-overlapping matches. */
  function SplitBlank(s: string): (parts: seq<string>)
    ensures parts != []
  {
    if |s| < 2 then [s]
    else if s[0] == LF && s[1] == LF then [""] + SplitBlank(s[2..])
    else
      var rest := SplitBlank(s[1..]);
      [[s[0]] + rest[0]] + rest[1..]
  }

  function JoinBlank(parts: seq<string>): string {
    if parts == [] then ""
    else if |parts| == 1 then parts[0]
    else parts[0] + [LF, LF] + JoinBlank(parts[1..])
  }

  predicate HasBlank(s: string) {
    exists i :: 0 <= i < |s| - 1 && s[i] == LF && s[i + 1] == LF
  }

  /** No separator inside any part, and no earlier match could have ended a part. */
  ghost predicate Leftmost(parts: seq<string>) {
    && (forall p :: p in parts ==> !HasBlank(p))
    && (forall i :: 0 <= i < |parts| - 1 ==> parts[i] == "" || parts[i][|parts[i]| - 1] != LF)
  }

  /** A record that cannot be confused with its separator, followed by the separator. */
  lemma {:induction false} SplitAtBlank(a: string, b: string)
    requires !HasBlank(a) && (a == "" || a[|a| - 1] != LF)
    ensures SplitBlank(a + [LF, LF] + b) == [a] + SplitBlank(b)
  {
    var s := a + [LF, LF] + b;
    if a == "" {
      assert s[2..] == b;
    } else {
      assert s[1..] == a[1..] + [LF, LF] + b;
      assert !(s[0] == LF && s[1] == LF) by {
        if |a| > 1 {
          assert a[0] == LF && a[1] == LF ==> HasBlank(a);
        }
      }
      assert !HasBlank(a[1..]) by {
        forall i | 0 <= i < |a[1..]| - 1
          ensures !(a[1..][i] == LF && a[1..][i + 1] == LF)
        {
          assert a[1..][i] == a[i + 1] && a[1..][i + 1] == a[i + 2];
        }
      }
      SplitAtBlank(a[1..], b);
      assert [a[0]] + a[1..] == a;
    }
  }

  lemma {:induction false} SplitNoBlank(s: string)
    requires !HasBlank(s)
    ensures SplitBlank(s) == [s]
  {
    if |s| >= 2 {
      assert !HasBlank(s[1..]) by {
        forall i | 0 <= i < |s[1..]| - 1
          ensures !(s[1..][i] == LF && s[1..][i + 1] == LF)
        {
          assert s[1..][i] == s[i + 1] && s[1..][i + 1] == s[i + 2];
        }
      }
      SplitNoBlank(s[1..]);
      assert [s[0]] + s[1..] == s;
    }
  }

  /** The two conditions determine the split: any leftmost list of parts is what its joined text splits into. */
  lemma {:induction false} SplitJoinBlank(parts: seq<string>)
    requires parts != [] && Leftmost(parts)
    ensures SplitBlank(JoinBlank(parts)) == parts
  {
    assert parts[0] in parts;
    if |parts| == 1 {
      SplitNoBlank(parts[0]);
    } else {
      var rest := parts[1..];
      assert forall i :: 0 <= i < |rest| ==> rest[i] == parts[i + 1];
      SplitJoinBlank(rest);
      SplitAtBlank(parts[0], JoinBlank(rest));
    }
  }

  /** The parts join to the text, and are what its leftmost separators leave. */
  ghost predicate PartsOf(parts: seq<string>, s: string) {
    parts != [] && JoinBlank(parts) == s && Leftmost(parts)
  }

  lemma {:induction false} SplitBlankLeftmost(s: string)
    ensures PartsOf(SplitBlank(s), s)
    decreases |s|
  {
    if |s| < 2 {
    } else if s[0] == LF && s[1] == LF {
      SplitBlankLeftmost(s[2..]);
      assert s == [LF, LF] + s[2..];
      SeparatorKeepsLeftmost(SplitBlank(s[2..]), s[2..]);
    } else {
      SplitBlankLeftmost(s[1..]);
      assert s == [s[0]] + s[1..];
      ConsKeepsLeftmost(s[0], SplitBlank(s[1..]), s[1..]);
    }
  }

  lemma SeparatorKeepsLeftmost(rest: seq<string>, tail: string)
    requires PartsOf(rest, tail)
    ensures PartsOf([""] + rest, [LF, LF] + tail)
  {
    var parts := [""] + rest;
    assert parts[1..] == rest;
    assert forall i :: 0 < i < |parts| ==> parts[i] == rest[i - 1];
  }

  /** Prepending a character that does not complete a separator. */
  lemma ConsKeepsLeftmost(c: char, rest: seq<string>, tail: string)
    requires PartsOf(rest, tail) && tail != "" && !(c == LF && tail[0] == LF)
    ensures PartsOf([[c] + rest[0]] + rest[1..], [c] + tail)
  {
    var first := [c] + rest[0];
    var parts := [first] + rest[1..];
    assert parts[1..] == rest[1..];
    assert rest[0] in rest;
    assert rest[0] != "" ==> tail[0] == rest[0][0];
    assert rest[0] == "" ==> |rest| > 1 && tail[0] == LF;
    ConsNoBlank(c, rest[0]);
    forall p | p in parts
      ensures !HasBlank(p)
    {
      if p != first {
        assert p in rest;
      }
    }
    forall i | 0 <= i < |parts| - 1
      ensures parts[i] == "" || parts[i][|parts[i]| - 1] != LF
    {
      assert i > 0 ==> parts[i] == rest[i];
    }
  }

  lemma ConsNoBlank(c: char, s: string)
    requires !HasBlank(s) && (s != "" && s[0] == LF ==> c != LF)
    ensures !HasBlank([c] + s)
  {
    var longer := [c] + s;
    forall i | 0 <= i < |longer| - 1
      ensures !(longer[i] == LF && longer[i + 1] == LF)
    {
      if i > 0 {
        assert longer[i] == s[i - 1] && longer[i + 1] == s[i];
      }
    }
  }

  /** A text and what follows it: the finished records of the text, then the carried remainder with what follows. */
  lemma {:induction false} SplitBlankConcat(a: string, b: string)
    ensures Carries(a, b)
    decreases |a|
  {
    if |a| < 2 {
      assert SplitBlank(a)[..0] == [];
    } else if a[0] == LF && a[1] == LF {
      SplitBlankConcat(a[2..], b);
      ConcatSeparator(a, b);
    } else {
      SplitBlankConcat(a[1..], b);
      ConcatCons(a, b);
    }
  }

  ghost predicate Carries(a: string, b: string) {
    var p := SplitBlank(a);
    SplitBlank(a + b) == p[..|p| - 1] + SplitBlank(p[|p| - 1] + b)
  }

  lemma ConcatSeparator(a: string, b: string)
    requires |a| >= 2 && a[0] == LF && a[1] == LF && Carries(a[2..], b)
    ensures Carries(a, b)
  {
    var p, q := SplitBlank(a), SplitBlank(a[2..]);
    assert (a + b)[2..] == a[2..] + b;
    assert p[..|p| - 1] == [""] + q[..|q| - 1];
  }

  lemma ConcatCons(a: string, b: string)
    requires |a| >= 2 && !(a[0] == LF && a[1] == LF)
    requires Carries(a[1..], b)
    ensures Carries(a, b)
  {
    var q, p := SplitBlank(a[1..]), SplitBlank(a);
    var whole := SplitBlank(a[1..] + b);
    assert (a + b)[1..] == a[1..] + b;
    assert SplitBlank(a + b) == [[a[0]] + whole[0]] + whole[1..];
    if |q| > 1 {
      assert p[..|p| - 1] == [[a[0]] + q[0]] + q[1..|q| - 1];
      assert p[|p| - 1] == q[|q| - 1];
    } else {
      assert q == [q[0]] && p == [[a[0]] + q[0]];
      WholeRemainder(a[1..]);
      assert q[0] == a[1..] && p[0] == a;
      assert p[..0] == [];
    }
  }

  /** A text with no separator is one part. */
  lemma {:induction false} WholeRemainder(s: string)
    requires |SplitBlank(s)| == 1
    ensures SplitBlank(s) == [s]
  {
    SplitBlankLeftmost(s);
  }
}

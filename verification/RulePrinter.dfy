/**
 Rules as they are written, against the scanner: every spelling of a Host rule gives back its host, and nothing else
 matches. The characters allowed in each place are listed here, apart from those the scanner tests for.
 */
module RulePrinter {
  import opened Sequences
  import opened TraefikRules

  const BLANKS: set<char> := {' ', '\t', '\n', '\r', '\U{0C}'}

  const SPACES: set<char> := {
    '\t', '\n', '\U{0B}', '\U{0C}', '\r', ' ', '\U{85}', '\U{A0}', '\U{1680}', '\U{2000}', '\U{2001}', '\U{2002}',
    '\U{2003}', '\U{2004}', '\U{2005}', '\U{2006}', '\U{2007}', '\U{2008}', '\U{2009}', '\U{200A}', '\U{2028}',
    '\U{2029}', '\U{202F}', '\U{205F}', '\U{3000}'
  }

  predicate Only(s: string, chars: set<char>) {
    forall c :: c in s ==> c in chars
  }

  /** Host in any mixture of upper and lower case; the long s counts as an s. */
  predicate HostWord(h: string) {
    && |h| == 4 && h[0] in {'h', 'H'} && h[1] in {'o', 'O'} && h[2] in {'s', 'S', '\U{017F}'} && h[3] in {'t', 'T'}
  }

  /** The parts of a Host rule, with blanks anywhere between its tokens. */
  datatype Rule = Rule(word: string, gap1: string, gap2: string, capture: string, gap3: string)

  ghost predicate WellSpelled(r: Rule) {
    && HostWord(r.word) && Only(r.gap1, BLANKS) && Only(r.gap2, BLANKS) && Only(r.gap3, BLANKS)
    && r.capture != "" && '`' !in r.capture
  }

  function Print(r: Rule): string {
    r.word + r.gap1 + "(" + r.gap2 + "`" + r.capture + "`" + r.gap3 + ")"
  }

  // ---------- What is printed matches ----------

  lemma BlankIs(c: char)
    ensures IsBlank(c) <==> c in BLANKS
  {
  }

  lemma SpaceIs(c: char)
    ensures IsSpace(c) <==> c in SPACES
  {
  }

  lemma LastPart(s: string, a: string, w: string)
    requires a + w <= s
    ensures a <= s && |a| + |w| <= |s| && s[|a|..|a| + |w|] == w
  {
    assert s[..|a + w|] == a + w;
    assert s[..|a|] == a;
  }

  lemma BlankPart(s: string, a: string, w: string)
    requires a + w <= s && Only(w, BLANKS)
    ensures a <= s && AllBlank(s, |a|, |a| + |w|)
  {
    LastPart(s, a, w);
    forall j | |a| <= j < |a| + |w|
      ensures IsBlank(s[j])
    {
      assert s[|a|..|a| + |w|][j - |a|] == w[j - |a|];
      BlankIs(s[j]);
    }
  }

  lemma CharPart(s: string, a: string, c: char)
    requires a + [c] <= s
    ensures a <= s && CharAt(s, |a|, c)
  {
    LastPart(s, a, [c]);
    assert s[|a|..|a| + 1][0] == c;
  }

  lemma TickFreePart(s: string, a: string, w: string)
    requires a + w <= s && '`' !in w
    ensures a <= s && TickFree(s, |a|, |a| + |w|)
  {
    LastPart(s, a, w);
    forall j | |a| <= j < |a| + |w|
      ensures s[j] != '`'
    {
      assert s[|a|..|a| + |w|][j - |a|] == w[j - |a|];
    }
  }

  lemma HostPart(s: string, a: string, h: string)
    requires a + h <= s && HostWord(h)
    ensures HostAt(s, |a|)
  {
    LastPart(s, a, h);
    var i := |a|;
    var word := s[i..i + 4];
    assert word[0] == s[i] && word[1] == s[i + 1] && word[2] == s[i + 2] && word[3] == s[i + 3];
  }

  /** A printed rule matches where it stands, with its own capture. */
  lemma PrintedMatches(before: string, r: Rule, after: string)
    requires WellSpelled(r)
    ensures var s := before + Print(r) + after;
      var p := |before| + 4 + |r.gap1|;
      var q := p + 1 + |r.gap2|;
      var b := q + 1 + |r.capture|;
      Matches(s, |before|, p, q, b, b + 1 + |r.gap3|) && b < |s| && s[q + 1..b] == r.capture
  {
    var s := before + Print(r) + after;
    var a1 := before + r.word;
    var a2 := a1 + r.gap1;
    var a3 := a2 + "(";
    var a4 := a3 + r.gap2;
    var a5 := a4 + "`";
    var a6 := a5 + r.capture;
    var a7 := a6 + "`";
    var a8 := a7 + r.gap3;
    assert s == a8 + ")" + after;
    CharPart(s, a8, ')');
    BlankPart(s, a7, r.gap3);
    CharPart(s, a6, '`');
    TickFreePart(s, a5, r.capture);
    LastPart(s, a5, r.capture);
    CharPart(s, a4, '`');
    BlankPart(s, a3, r.gap2);
    CharPart(s, a2, '(');
    BlankPart(s, a1, r.gap1);
    HostPart(s, before, r.word);
  }

  /** The round trip: a rule behind text without an h gives back its capture, trimmed, whatever follows it. */
  lemma RuleRoundTrip(before: string, r: Rule, after: string)
    requires WellSpelled(r) && 'h' !in before && 'H' !in before
    ensures ExtractHost(before + Print(r) + after) == TrimSpace(r.capture)
  {
    var s := before + Print(r) + after;
    var p := |before| + 4 + |r.gap1|;
    var q := p + 1 + |r.gap2|;
    var b := q + 1 + |r.capture|;
    PrintedMatches(before, r, after);
    forall k: nat | k < |before|
      ensures !MatchesAt(s, k)
    {
      assert s[k] == before[k];
    }
    HostIffMatch(s, |before|, p, q, b, b + 1 + |r.gap3|);
  }

  lemma {:induction false} TrimLeftIs(l: string, s: string)
    requires Only(l, SPACES) && s != "" && s[0] !in SPACES
    ensures TrimLeft(l + s) == s
  {
    if l == "" {
      assert l + s == s;
      SpaceIs(s[0]);
    } else {
      SpaceIs(l[0]);
      assert (l + s)[1..] == l[1..] + s;
      TrimLeftIs(l[1..], s);
    }
  }

  lemma {:induction false} TrimRightIs(s: string, r: string)
    requires Only(r, SPACES) && s != "" && s[|s| - 1] !in SPACES
    ensures TrimRight(s + r) == s
  {
    if r == "" {
      assert s + r == s;
      SpaceIs(s[|s| - 1]);
    } else {
      SpaceIs(r[|r| - 1]);
      assert (s + r)[..|s + r| - 1] == s + r[..|r| - 1];
      TrimRightIs(s, r[..|r| - 1]);
    }
  }

  /** Trimming takes the spaces of the list off both ends, and stops at anything else. */
  lemma TrimIs(l: string, core: string, r: string)
    requires Only(l, SPACES) && Only(r, SPACES)
    requires core != "" && core[0] !in SPACES && core[|core| - 1] !in SPACES
    ensures TrimSpace(l + core + r) == core
  {
    assert l + core + r == l + (core + r);
    TrimLeftIs(l, core + r);
    TrimRightIs(core, r);
  }

  // ---------- What matches is printed ----------

  lemma BlanksOf(s: string, lo: nat, hi: nat)
    requires lo <= hi <= |s| && AllBlank(s, lo, hi)
    ensures Only(s[lo..hi], BLANKS)
  {
    forall c | c in s[lo..hi]
      ensures c in BLANKS
    {
      var j :| 0 <= j < hi - lo && s[lo..hi][j] == c;
      assert s[lo + j] == c;
      BlankIs(c);
    }
  }

  /** Every match is a well-spelled rule: any other character between the tokens, and there is none. */
  lemma MatchIsPrinted(s: string, i: nat) returns (r: Rule, after: string)
    requires MatchesAt(s, i)
    ensures i <= |s| && WellSpelled(r) && s[i..] == Print(r) + after
  {
    var p: nat, q: nat, b: nat, e: nat :| Matches(s, i, p, q, b, e);
    r := Rule(s[i..i + 4], s[i + 4..p], s[p + 1..q], s[q + 1..b], s[b + 1..e]);
    after := s[e + 1..];
    BlanksOf(s, i + 4, p);
    BlanksOf(s, p + 1, q);
    BlanksOf(s, b + 1, e);
    SpelledOut(s, i, p, q, b, e);
  }

  lemma Peel(s: string, lo: nat, hi: nat, c: char)
    requires lo <= hi < |s| && s[hi] == c
    ensures s[lo..] == s[lo..hi] + [c] + s[hi + 1..]
  {
  }

  lemma Regroup(r: Rule, t1: string, t2: string, t3: string, t4: string, after: string)
    requires t1 == r.gap1 + "(" + t2 && t2 == r.gap2 + "`" + t3
    requires t3 == r.capture + "`" + t4 && t4 == r.gap3 + ")" + after
    ensures r.word + t1 == Print(r) + after
  {
    var a1 := r.word + r.gap1 + "(";
    var a2 := a1 + r.gap2 + "`";
    var a3 := a2 + r.capture + "`";
    assert r.word + t1 == a1 + t2;
    assert a1 + t2 == a2 + t3;
    assert a2 + t3 == a3 + t4;
    assert a3 + t4 == (a3 + r.gap3 + ")") + after;
  }

  lemma SpelledOut(s: string, i: nat, p: nat, q: nat, b: nat, e: nat)
    requires i + 4 <= p < q && q + 1 <= b < e < |s|
    requires s[p] == '(' && s[q] == '`' && s[b] == '`' && s[e] == ')'
    ensures s[i..] == Print(Rule(s[i..i + 4], s[i + 4..p], s[p + 1..q], s[q + 1..b], s[b + 1..e])) + s[e + 1..]
  {
    var r := Rule(s[i..i + 4], s[i + 4..p], s[p + 1..q], s[q + 1..b], s[b + 1..e]);
    assert s[i..] == r.word + s[i + 4..];
    Peel(s, i + 4, p, '(');
    Peel(s, p + 1, q, '`');
    Peel(s, q + 1, b, '`');
    Peel(s, b + 1, e, ')');
    Regroup(r, s[i + 4..], s[p + 1..], s[q + 1..], s[b + 1..], s[e + 1..]);
  }

  /** A rule has a host position exactly where a well-spelled rule stands. */
  lemma MatchIffPrinted(s: string, i: nat)
    requires i <= |s|
    ensures MatchesAt(s, i) <==> exists r, after :: WellSpelled(r) && s[i..] == Print(r) + after
  {
    if MatchesAt(s, i) {
      var r, after := MatchIsPrinted(s, i);
    }
    if r, after :| WellSpelled(r) && s[i..] == Print(r) + after {
      PrintedMatches(s[..i], r, after);
      assert s == s[..i] + Print(r) + after;
    }
  }

  // ---------- Labels ----------

  /** A router's rule label gives the URL of its host. */
  lemma RuleLabel(key: string, a: string, b: string, c: string, value: string)
    requires key == a + "traefik.http.routers" + b && key == c + ".rule"
    ensures UrlOf(key, value) == if ExtractHost(value) == "" then None else Some("https://" + ExtractHost(value))
  {
    assert OccursAt(key, "traefik.http.routers", |a|);
    assert key[|key| - 5..] == ".rule";
  }

  /** No other label does. */
  lemma OtherLabel(key: string, value: string) returns (a: string, b: string, c: string)
    requires UrlOf(key, value).Some?
    ensures key == a + "traefik.http.routers" + b && key == c + ".rule" && ExtractHost(value) != ""
  {
    var i :| 0 <= i <= |key| && OccursAt(key, ROUTER, i);
    a, b, c := key[..i], key[i + |ROUTER|..], key[..|key| - |RULE|];
    assert key == key[..i] + key[i..i + |ROUTER|] + key[i + |ROUTER|..];
    assert key == key[..|key| - |RULE|] + key[|key| - |RULE|..];
  }

  // ---------- Rules as users write them ----------

  lemma HostOf(r: Rule)
    requires WellSpelled(r) && r.capture[0] !in SPACES && r.capture[|r.capture| - 1] !in SPACES
    ensures ExtractHost(Print(r)) == r.capture
  {
    RuleRoundTrip("", r, "");
    TrimIs("", r.capture, "");
    assert "" + Print(r) + "" == Print(r);
    assert "" + r.capture + "" == r.capture;
  }

  /** A host with blanks on both sides of its quotation, or with none. */
  lemma BareRule(rule: string, word: string, gap: string, host: string)
    requires HostWord(word) && Only(gap, BLANKS) && host != "" && '`' !in host
    requires host[0] !in SPACES && host[|host| - 1] !in SPACES
    requires rule == word + "(" + gap + "`" + host + "`" + gap + ")"
    ensures ExtractHost(rule) == host
  {
    var r := Rule(word, "", gap, host, gap);
    assert word + "" == word;
    assert Print(r) == rule;
    HostOf(r);
  }

  lemma OneSpace(gap: string)
    requires gap == " "
    ensures Only(gap, BLANKS)
  {
  }

  lemma RuleWithSpaces(rule: string, host: string)
    requires host == "app.example.org" && rule == "Host( `" + host + "` )"
    ensures ExtractHost(rule) == "app.example.org"
  {
    var word, gap := "Host", " ";
    OneSpace(gap);
    assert rule == word + "(" + gap + "`" + host + "`" + gap + ")";
    BareRule(rule, word, gap, host);
  }

  lemma RuleInLowerCase(rule: string, host: string)
    requires host == "api.local.dev" && rule == "host(`" + host + "`)"
    ensures ExtractHost(rule) == "api.local.dev"
  {
    var word, gap := "host", "";
    assert rule == word + "(" + gap + "`" + host + "`" + gap + ")";
    BareRule(rule, word, gap, host);
  }
}

/**
 Public URLs from Traefik router labels: the Host(`...`) pattern as a deterministic scanner against a declarative match
 relation, and the two label parsers for every order in which Go may iterate the label map.
 */
module TraefikRules {
  import opened Sequences

  // ---------- The pattern (?i)Host\s*\(\s*`([^`]+)`\s*\) ----------

  /** `\s` of the regular expression engine. */
  predicate IsBlank(c: char) {
    c == ' ' || c == '\t' || c == '\n' || c == '\r' || c == '\U{0C}'
  }

  predicate AllBlank(s: string, lo: nat, hi: nat) {
    forall i :: lo <= i < hi && i < |s| ==> IsBlank(s[i])
  }

  /** The letters of Host in any case; the long s folds to s as well. */
  predicate HostAt(s: string, i: nat) {
    && i + 4 <= |s|
    && (s[i] == 'h' || s[i] == 'H')
    && (s[i + 1] == 'o' || s[i + 1] == 'O')
    && (s[i + 2] == 's' || s[i + 2] == 'S' || s[i + 2] == '\U{017F}')
    && (s[i + 3] == 't' || s[i + 3] == 'T')
  }

  predicate CharAt(s: string, i: nat, c: char) {
    i < |s| && s[i] == c
  }

  predicate TickFree(s: string, lo: nat, hi: nat) {
    forall i :: lo <= i < hi && i < |s| ==> s[i] != '`'
  }

  /**
   The pattern matches at `i`: blanks up to a parenthesis at `p`, blanks up to a backtick at `q`, a non-empty capture up
   to a backtick at `b`, blanks up to a parenthesis at `r`.
   */
  predicate Matches(s: string, i: nat, p: nat, q: nat, b: nat, r: nat) {
    && HostAt(s, i)
    && i + 4 <= p < q && q + 1 < b < r
    && AllBlank(s, i + 4, p) && CharAt(s, p, '(')
    && AllBlank(s, p + 1, q) && CharAt(s, q, '`')
    && TickFree(s, q + 1, b) && CharAt(s, b, '`')
    && AllBlank(s, b + 1, r) && CharAt(s, r, ')')
  }

  ghost predicate MatchesAt(s: string, i: nat) {
    exists p, q, b, r :: Matches(s, i, p, q, b, r)
  }

  /** The first position from `i` on that is not blank. */
  function SkipBlanks(s: string, i: nat): (j: nat)
    ensures i <= j && AllBlank(s, i, j) && (j < |s| ==> !IsBlank(s[j]))
    decreases |s| - i
  {
    if i < |s| && IsBlank(s[i]) then SkipBlanks(s, i + 1) else i
  }

  /** The first backtick from `i` on. */
  function NextTick(s: string, i: nat): (j: nat)
    ensures i <= j && TickFree(s, i, j) && (j < |s| ==> s[j] == '`')
    decreases |s| - i
  {
    if i < |s| && s[i] != '`' then NextTick(s, i + 1) else i
  }

  /** The capture of a match starting at `i`, found without backtracking. */
  function CaptureAt(s: string, i: nat): Option<string> {
    if !HostAt(s, i) then None
    else
      var p := SkipBlanks(s, i + 4);
      if !CharAt(s, p, '(') then None
      else
        var q := SkipBlanks(s, p + 1);
        if !CharAt(s, q, '`') then None
        else
          var b := NextTick(s, q + 1);
          if b == q + 1 || !CharAt(s, b, '`') then None
          else
            var r := SkipBlanks(s, b + 1);
            if !CharAt(s, r, ')') then None else Some(s[q + 1..b])
  }

  /** The capture of the leftmost match from `i` on. */
  function CaptureFrom(s: string, i: nat): Option<string>
    decreases |s| - i
  {
    if i >= |s| then None
    else if CaptureAt(s, i).Some? then CaptureAt(s, i)
    else CaptureFrom(s, i + 1)
  }

  /** Every match at `i` is the one the scanner follows: the pattern is unambiguous. */
  lemma {:induction false} ScannerFollows(s: string, i: nat, p: nat, q: nat, b: nat, r: nat)
    requires Matches(s, i, p, q, b, r)
    ensures p == SkipBlanks(s, i + 4) && q == SkipBlanks(s, p + 1)
    ensures b == NextTick(s, q + 1) && r == SkipBlanks(s, b + 1)
    ensures CaptureAt(s, i) == Some(s[q + 1..b])
  {
    BlanksEnd(s, i + 4, p);
    BlanksEnd(s, p + 1, q);
    TickEnd(s, q + 1, b);
    BlanksEnd(s, b + 1, r);
  }

  lemma {:induction false} BlanksEnd(s: string, i: nat, j: nat)
    requires i <= j < |s| && AllBlank(s, i, j) && !IsBlank(s[j])
    ensures SkipBlanks(s, i) == j
    decreases j - i
  {
    if i < j {
      BlanksEnd(s, i + 1, j);
    }
  }

  lemma {:induction false} TickEnd(s: string, i: nat, j: nat)
    requires i <= j && TickFree(s, i, j) && CharAt(s, j, '`')
    ensures NextTick(s, i) == j
    decreases j - i
  {
    if i < j {
      TickEnd(s, i + 1, j);
    }
  }

  /** The scanner finds a capture at `i` exactly when the pattern matches there. */
  lemma CaptureIffMatches(s: string, i: nat)
    ensures CaptureAt(s, i).Some? <==> MatchesAt(s, i)
  {
    if MatchesAt(s, i) {
      var p, q, b, r :| Matches(s, i, p, q, b, r);
      ScannerFollows(s, i, p, q, b, r);
    }
    if CaptureAt(s, i).Some? {
      CaptureMatches(s, i);
    }
  }

  lemma CaptureMatches(s: string, i: nat)
    requires CaptureAt(s, i).Some?
    ensures MatchesAt(s, i)
  {
    var p := SkipBlanks(s, i + 4);
    var q := SkipBlanks(s, p + 1);
    var b := NextTick(s, q + 1);
    var r := SkipBlanks(s, b + 1);
    assert AllBlank(s, i + 4, p) && AllBlank(s, p + 1, q) && AllBlank(s, b + 1, r);
    assert TickFree(s, q + 1, b);
    assert Matches(s, i, p, q, b, r);
  }

  /** The search returns the capture of the smallest matching start, and nothing exactly when nothing matches. */
  lemma {:induction false} CaptureIsLeftmost(s: string, i: nat)
    ensures CaptureFrom(s, i) == None <==> forall j: nat :: i <= j ==> !MatchesAt(s, j)
    ensures forall j: nat, p: nat, q: nat, b: nat, r: nat ::
              i <= j && Matches(s, j, p, q, b, r) && (forall k: nat :: i <= k < j ==> !MatchesAt(s, k)) ==>
                CaptureFrom(s, i) == Some(s[q + 1..b])
    decreases |s| - i
  {
    if i < |s| {
      CaptureIffMatches(s, i);
      CaptureIsLeftmost(s, i + 1);
      forall p: nat, q: nat, b: nat, r: nat | Matches(s, i, p, q, b, r)
        ensures CaptureFrom(s, i) == Some(s[q + 1..b])
      {
        ScannerFollows(s, i, p, q, b, r);
        assert MatchesAt(s, i);
      }
    }
  }

  // ---------- Host extraction ----------

  /** `unicode.IsSpace` */
  predicate IsSpace(c: char) {
    || '\t' <= c <= '\r' || c == ' ' || c == '\U{85}' || c == '\U{A0}' || c == '\U{1680}'
    || '\U{2000}' <= c <= '\U{200A}' || c == '\U{2028}' || c == '\U{2029}' || c == '\U{202F}'
    || c == '\U{205F}' || c == '\U{3000}'
  }

  predicate AllSpace(s: string) {
    forall c :: c in s ==> IsSpace(c)
  }

  function TrimLeft(s: string): string {
    if s != "" && IsSpace(s[0]) then TrimLeft(s[1..]) else s
  }

  function TrimRight(s: string): string {
    if s != "" && IsSpace(s[|s| - 1]) then TrimRight(s[..|s| - 1]) else s
  }

  function TrimSpace(s: string): string {
    TrimRight(TrimLeft(s))
  }

  function ExtractHost(rule: string): string {
    match CaptureFrom(rule, 0)
    case None => ""
    case Some(capture) => TrimSpace(capture)
  }

  lemma {:induction false} TrimLeftDrops(s: string) returns (left: string)
    ensures s == left + TrimLeft(s) && AllSpace(left)
    ensures TrimLeft(s) != "" ==> !IsSpace(TrimLeft(s)[0])
  {
    left := "";
    if s != "" && IsSpace(s[0]) {
      left := TrimLeftDrops(s[1..]);
      left := [s[0]] + left;
    }
  }

  lemma {:induction false} TrimRightDrops(s: string) returns (right: string)
    ensures s == TrimRight(s) + right && AllSpace(right)
    ensures TrimRight(s) != "" ==> !IsSpace(TrimRight(s)[|TrimRight(s)| - 1])
  {
    right := "";
    if s != "" && IsSpace(s[|s| - 1]) {
      right := TrimRightDrops(s[..|s| - 1]);
      right := right + [s[|s| - 1]];
    }
  }

  /** Trimming drops spaces at both ends, as many as there are, and nothing else. */
  lemma TrimSpaceDrops(s: string) returns (left: string, right: string)
    ensures s == left + TrimSpace(s) + right && AllSpace(left) && AllSpace(right)
    ensures var t := TrimSpace(s); t != "" ==> !IsSpace(t[0]) && !IsSpace(t[|t| - 1])
    ensures TrimSpace(s) == "" <==> AllSpace(s)
  {
    left := TrimLeftDrops(s);
    right := TrimRightDrops(TrimLeft(s));
    var t := TrimSpace(s);
    assert TrimLeft(s) == t + right;
    assert s == left + t + right;
    if t != "" {
      assert TrimLeft(s)[0] == t[0];
      assert t[0] in s;
    }
  }

  /** A rule yields a host exactly when it matches and the leftmost capture is not all spaces. */
  lemma HostIffMatch(rule: string, i: nat, p: nat, q: nat, b: nat, r: nat)
    requires Matches(rule, i, p, q, b, r) && forall k: nat :: k < i ==> !MatchesAt(rule, k)
    ensures ExtractHost(rule) == TrimSpace(rule[q + 1..b])
    ensures ExtractHost(rule) == "" <==> AllSpace(rule[q + 1..b])
  {
    CaptureIsLeftmost(rule, 0);
    var left, right := TrimSpaceDrops(rule[q + 1..b]);
  }

  lemma NoHostWithoutMatch(rule: string)
    requires forall k: nat :: !MatchesAt(rule, k)
    ensures ExtractHost(rule) == ""
  {
    CaptureIsLeftmost(rule, 0);
  }

  // ---------- The label parsers ----------

  const ROUTER := "traefik.http.routers"
  const RULE := ".rule"

  predicate OccursAt(s: string, t: string, i: int) {
    0 <= i <= |s| - |t| && s[i..i + |t|] == t
  }

  predicate Contains(s: string, t: string) {
    exists i :: 0 <= i <= |s| && OccursAt(s, t, i)
  }

  predicate HasSuffix(s: string, t: string) {
    |t| <= |s| && s[|s| - |t|..] == t
  }

  /** The URL a label contributes. */
  function UrlOf(key: string, value: string): Option<string> {
    if !Contains(key, ROUTER) || !HasSuffix(key, RULE) then None
    else if ExtractHost(value) != "" then Some("https://" + ExtractHost(value))
    else None
  }

  /** The image of the qualifying labels. */
  function Urls(labels: map<string, string>): set<string> {
    set k | k in labels && UrlOf(k, labels[k]).Some? :: UrlOf(k, labels[k]).value
  }

  /** `order` is an order in which the map may be iterated. */
  ghost predicate Iterates(order: seq<string>, labels: map<string, string>) {
    multiset(order) == multiset(labels.Keys)
  }

  lemma IteratesKeys(order: seq<string>, labels: map<string, string>)
    requires Iterates(order, labels)
    ensures forall k :: k in labels <==> k in order
  {
    assert forall k :: k in order <==> k in multiset(order);
    assert forall k :: k in labels.Keys <==> k in multiset(labels.Keys);
  }

  /** The URL of the first label in the order that has one. */
  function FirstUrl(order: seq<string>, labels: map<string, string>): string {
    if order == [] then ""
    else if order[0] in labels && UrlOf(order[0], labels[order[0]]).Some?
    then UrlOf(order[0], labels[order[0]]).value
    else FirstUrl(order[1..], labels)
  }

  lemma {:induction false} FirstUrlFound(order: seq<string>, labels: map<string, string>)
    requires forall k :: k in order ==> k in labels
    ensures FirstUrl(order, labels) != "" ==> FirstUrl(order, labels) in Urls(labels)
    ensures FirstUrl(order, labels) == "" <==> forall k :: k in order ==> UrlOf(k, labels[k]) == None
  {
    if order != [] {
      FirstUrlFound(order[1..], labels);
      assert order == [order[0]] + order[1..];
      assert UrlOf(order[0], labels[order[0]]).Some? ==> UrlOf(order[0], labels[order[0]]).value in Urls(labels);
    }
  }

  lemma {:induction false} FirstUrlOfMap(order: seq<string>, labels: map<string, string>)
    requires Iterates(order, labels)
    ensures FirstUrl(order, labels) == "" <==> Urls(labels) == {}
    ensures FirstUrl(order, labels) != "" ==> FirstUrl(order, labels) in Urls(labels)
  {
    IteratesKeys(order, labels);
    FirstUrlFound(order, labels);
    forall k | k in labels && UrlOf(k, labels[k]).Some?
      ensures UrlOf(k, labels[k]).value in Urls(labels)
    {
    }
  }

  method ParseTraefikURL(labels: map<string, string>, order: seq<string>) returns (url: string)
    requires Iterates(order, labels)
    ensures url == FirstUrl(order, labels)
    ensures url == "" <==> Urls(labels) == {}
    ensures url != "" ==> url in Urls(labels)
  {
    FirstUrlOfMap(order, labels);
    IteratesKeys(order, labels);
    if |labels| == 0 {
      assert Urls(labels) == {};
      return "";
    }
    for i := 0 to |order|
      invariant FirstUrl(order[i..], labels) == FirstUrl(order, labels)
    {
      var key := order[i];
      assert key in order;
      assert order[i..][1..] == order[i + 1..];
      if !Contains(key, ROUTER) || !HasSuffix(key, RULE) {
        continue;
      }
      var host := ExtractHost(labels[key]);
      if host != "" {
        return "https://" + host;
      }
    }
    assert order[|order|..] == [];
    return "";
  }

  /** The URLs of the labels visited. */
  ghost function Collected(order: seq<string>, labels: map<string, string>): set<string>
    requires forall k :: k in order ==> k in labels
  {
    set k | k in order && UrlOf(k, labels[k]).Some? :: UrlOf(k, labels[k]).value
  }

  lemma CollectedSnoc(order: seq<string>, k: string, labels: map<string, string>)
    requires forall x :: x in order + [k] ==> x in labels
    ensures k in order + [k]
    ensures forall x :: x in order ==> x in order + [k]
    ensures Collected(order + [k], labels) ==
              Collected(order, labels) + if UrlOf(k, labels[k]).Some? then {UrlOf(k, labels[k]).value} else {}
  {
    assert (order + [k])[|order|] == k;
    assert forall x :: x in order + [k] <==> x in order || x == k;
    assert forall x :: x in order ==> x in order + [k];
  }

  method ParseAllTraefikURLs(labels: map<string, string>, order: seq<string>) returns (urls: seq<string>)
    requires Iterates(order, labels)
    ensures forall i, j :: 0 <= i < j < |urls| ==> urls[i] != urls[j]
    ensures (set u | u in urls) == Urls(labels)
  {
    urls := [];
    IteratesKeys(order, labels);
    if |labels| == 0 {
      assert Urls(labels) == {};
      return;
    }
    var seen: set<string> := {};
    for i := 0 to |order|
      invariant forall j, k :: 0 <= j < k < |urls| ==> urls[j] != urls[k]
      invariant seen == set u | u in urls
      invariant forall k :: k in order[..i] ==> k in labels
      invariant seen == Collected(order[..i], labels)
    {
      var key := order[i];
      assert key in order && order[..i + 1] == order[..i] + [key];
      CollectedSnoc(order[..i], key, labels);
      if !Contains(key, ROUTER) || !HasSuffix(key, RULE) {
        continue;
      }
      var host := ExtractHost(labels[key]);
      if host != "" {
        var url := "https://" + host;
        if url !in seen {
          seen := seen + {url};
          urls := urls + [url];
        }
      }
    }
    assert order[..|order|] == order;
    assert Collected(order, labels) == Urls(labels);
  }

  /**
   With more than one URL among the labels the single-URL parser is not a function of the labels: each of them is what
   it returns under some iteration order.
   */
  lemma EveryUrlCanBeFirst(labels: map<string, string>, order: seq<string>, url: string) returns (order': seq<string>)
    requires Iterates(order, labels) && url in Urls(labels)
    ensures Iterates(order', labels) && FirstUrl(order', labels) == url
  {
    var k :| k in labels && UrlOf(k, labels[k]) == Some(url);
    IteratesKeys(order, labels);
    var i :| 0 <= i < |order| && order[i] == k;
    order' := [k] + order[..i] + order[i + 1..];
    assert order == order[..i] + [k] + order[i + 1..];
    assert order'[0] == k;
  }

  /** When all qualifying labels agree, the order cannot be observed. */
  lemma {:induction false} OneUrlIsStable(labels: map<string, string>, order1: seq<string>, order2: seq<string>)
    requires Iterates(order1, labels) && Iterates(order2, labels)
    requires forall u, v :: u in Urls(labels) && v in Urls(labels) ==> u == v
    ensures FirstUrl(order1, labels) == FirstUrl(order2, labels)
  {
    FirstUrlOfMap(order1, labels);
    FirstUrlOfMap(order2, labels);
  }

  // ---------- Two inputs that show the limits ----------

  const BLANK_THEN_VALID := "Host(` `)||Host(`a`)"

  /** The second Host of this rule matches and captures a host, but the search returns the blank first one. */
  lemma BlankHostHidesNext()
    ensures ExtractHost(BLANK_THEN_VALID) == ""
    ensures Matches(BLANK_THEN_VALID, 11, 15, 16, 18, 19) && !AllSpace(BLANK_THEN_VALID[17..18])
  {
    BlankMatchesFirst();
    HostIffMatch(BLANK_THEN_VALID, 0, 4, 5, 7, 8);
    ValidMatchesSecond();
  }

  lemma BlankMatchesFirst()
    ensures Matches(BLANK_THEN_VALID, 0, 4, 5, 7, 8) && AllSpace(BLANK_THEN_VALID[6..7])
  {
    assert BLANK_THEN_VALID[6..7] == " ";
  }

  lemma ValidMatchesSecond()
    ensures Matches(BLANK_THEN_VALID, 11, 15, 16, 18, 19) && !AllSpace(BLANK_THEN_VALID[17..18])
  {
    assert BLANK_THEN_VALID[17..18] == "a";
    assert 'a' in BLANK_THEN_VALID[17..18];
  }

  /** Two labels with different URLs: each order gives the URL it meets first. */
  lemma TwoUrls(k1: string, v1: string, k2: string, v2: string)
    requires k1 != k2 && UrlOf(k1, v1).Some? && UrlOf(k2, v2).Some?
    ensures var labels := map[k1 := v1, k2 := v2];
      && Iterates([k1, k2], labels) && FirstUrl([k1, k2], labels) == UrlOf(k1, v1).value
      && Iterates([k2, k1], labels) && FirstUrl([k2, k1], labels) == UrlOf(k2, v2).value
  {
    var labels := map[k1 := v1, k2 := v2];
    assert labels.Keys == {k1, k2};
    assert multiset([k1, k2]) == multiset{k1, k2} == multiset({k1, k2}) == multiset([k2, k1]);
  }

  const KEY_A := "traefik.http.routers.a.rule"
  const KEY_B := "traefik.http.routers.b.rule"

  lemma RouterKeys()
    ensures Contains(KEY_A, ROUTER) && HasSuffix(KEY_A, RULE)
    ensures Contains(KEY_B, ROUTER) && HasSuffix(KEY_B, RULE)
    ensures KEY_A != KEY_B
  {
    assert KEY_A[0..|ROUTER|] == ROUTER && KEY_B[0..|ROUTER|] == ROUTER;
    assert OccursAt(KEY_A, ROUTER, 0) && OccursAt(KEY_B, ROUTER, 0);
    assert KEY_A[21] != KEY_B[21];
  }

  lemma TrimOne(c: char)
    requires !IsSpace(c)
    ensures TrimSpace([c]) == [c]
  {
  }

  lemma HostA()
    ensures ExtractHost("Host(`a`)") == "a"
  {
    var rule := "Host(`a`)";
    assert Matches(rule, 0, 4, 5, 7, 8);
    HostIffMatch(rule, 0, 4, 5, 7, 8);
    assert rule[6..7] == "a";
    TrimOne('a');
  }

  lemma HostB()
    ensures ExtractHost("Host(`b`)") == "b"
  {
    var rule := "Host(`b`)";
    assert Matches(rule, 0, 4, 5, 7, 8);
    HostIffMatch(rule, 0, 4, 5, 7, 8);
    assert rule[6..7] == "b";
    TrimOne('b');
  }

  lemma UrlOfRouter(key: string, rule: string, host: string)
    requires Contains(key, ROUTER) && HasSuffix(key, RULE) && ExtractHost(rule) == host && host != ""
    ensures UrlOf(key, rule) == Some("https://" + host)
  {
  }

  /** With two routers the single-URL parser answers differently for two orders of the same labels. */
  lemma OrderDecides()
    ensures var labels := map[KEY_A := "Host(`a`)", KEY_B := "Host(`b`)"];
      && Iterates([KEY_A, KEY_B], labels) && FirstUrl([KEY_A, KEY_B], labels) == "https://" + "a"
      && Iterates([KEY_B, KEY_A], labels) && FirstUrl([KEY_B, KEY_A], labels) == "https://" + "b"
  {
    RouterKeys();
    HostA();
    HostB();
    UrlOfRouter(KEY_A, "Host(`a`)", "a");
    UrlOfRouter(KEY_B, "Host(`b`)", "b");
    TwoUrls(KEY_A, "Host(`a`)", KEY_B, "Host(`b`)");
  }
}

/** The five boolean detectors and the heuristic score that counts them
    (the "Heuristic Checks" section of the scanner). */
module Heuristics {
  import opened Strings
  import opened Foreign

  // ---- IP-literal hostname: re.match(r"^\d{1,3}(\.\d{1,3}){3}$", hostname) ----

  /** `\d`, for the ASCII digits. */
  predicate IsDigit(c: char) {
    '0' <= c <= '9'
  }

  /** The length of the run of digits at the start of `s`. */
  function DigitRun(s: string): (n: nat)
    ensures n <= |s|
    ensures forall i :: 0 <= i < n ==> IsDigit(s[i])
    ensures n < |s| ==> !IsDigit(s[n])
  {
    if s == [] || !IsDigit(s[0]) then 0 else 1 + DigitRun(s[1..])
  }

  /** `$` without MULTILINE: the end of the string, or just before a newline
      that ends it. */
  predicate AtEnd(t: string) {
    t == "" || t == "\n"
  }

  /** The regex matcher: `\d{1,3}` followed by `dots` more groups `\.\d{1,3}`
      and then `$`. Digits and dots never overlap, so the greedy run of digits
      is the only place a group can end: a run of four or more digits fails. */
  function MatchGroups(s: string, dots: nat): bool
    decreases dots
  {
    var n := DigitRun(s);
    1 <= n <= 3 &&
    if dots == 0 then AtEnd(s[n..])
    else n < |s| && s[n] == '.' && MatchGroups(s[n + 1..], dots - 1)
  }

  /** `urlparse(url).hostname or ""`. */
  function HostOf(h: Option<string>): string {
    match h
    case None => ""
    case Some(name) => name
  }

  /** `is_ip_domain`. */
  predicate IsIpDomain(libs: Libraries, url: string) {
    MatchGroups(HostOf(libs.hostname(url)), 3)
  }

  /** One to three digits, and nothing else. */
  predicate DigitGroup(g: string) {
    1 <= |g| <= 3 && forall i :: 0 <= i < |g| ==> IsDigit(g[i])
  }

  /** Two parts joined by a dot. */
  function Dot(g: string, t: string): string {
    g + "." + t
  }

  /** Four digit groups joined by dots. */
  function Quad(a: string, b: string, c: string, d: string): string {
    Dot(a, Dot(b, Dot(c, d)))
  }

  /** The reference reading of the pattern: the whole hostname is four groups of
      one to three digits separated by three dots, optionally followed by the
      single newline that `$` lets through. No octet is checked against 255. */
  ghost predicate DottedQuad(h: string) {
    exists a, b, c, d :: IsQuadOf(h, a, b, c, d)
  }

  /** `h` is the groups `a`, `b`, `c`, `d` joined by dots, perhaps with a
      newline after the last. */
  ghost predicate IsQuadOf(h: string, a: string, b: string, c: string, d: string) {
    DigitGroup(a) && DigitGroup(b) && DigitGroup(c) && DigitGroup(d) &&
    (h == Quad(a, b, c, d) || h == Quad(a, b, c, d + "\n"))
  }

  /** The digit run of a group followed by a dot stops at the dot. */
  lemma DigitRunOfDot(g: string, t: string)
    requires DigitGroup(g)
    ensures DigitRun(Dot(g, t)) == |g| && Dot(g, t)[|g|] == '.' && Dot(g, t)[|g| + 1..] == t
  {
    var s := Dot(g, t);
    assert forall i :: 0 <= i < |g| ==> s[i] == g[i];
    assert s[|g|] == '.';
  }

  /** A digit group followed by a dot is consumed as one group. */
  lemma MatchFirst(g: string, t: string, dots: nat)
    requires DigitGroup(g)
    ensures MatchGroups(Dot(g, t), dots + 1) == MatchGroups(t, dots)
  {
    DigitRunOfDot(g, t);
  }

  /** A final digit group, with or without the trailing newline, ends a match. */
  lemma MatchLast(g: string)
    requires DigitGroup(g)
    ensures MatchGroups(g, 0) && MatchGroups(g + "\n", 0)
  {
    var s := g + "\n";
    assert forall i :: 0 <= i < |g| ==> s[i] == g[i];
    assert s[|g|] == '\n';
    assert DigitRun(s) == |g|;
    assert s[|g|..] == "\n";
  }

  /** A successful match with dots left splits off its first group. */
  lemma MatchSplit(s: string, dots: nat) returns (g: string, t: string)
    requires MatchGroups(s, dots + 1)
    ensures DigitGroup(g) && s == Dot(g, t) && MatchGroups(t, dots)
  {
    var n := DigitRun(s);
    g, t := s[..n], s[n + 1..];
    assert s == s[..n] + [s[n]] + s[n + 1..];
  }

  /** A successful match of the last group leaves only the optional newline. */
  lemma MatchEnd(s: string) returns (g: string)
    requires MatchGroups(s, 0)
    ensures DigitGroup(g) && (s == g || s == g + "\n")
  {
    var n := DigitRun(s);
    g := s[..n];
    assert s == s[..n] + s[n..];
  }

  /** Every hostname the matcher accepts is a dotted quad. */
  lemma IpPatternSound(h: string)
    requires MatchGroups(h, 3)
    ensures DottedQuad(h)
  {
    var a, r1 := MatchSplit(h, 2);
    var b, r2 := MatchSplit(r1, 1);
    var c, r3 := MatchSplit(r2, 0);
    var d := MatchEnd(r3);
    assert IsQuadOf(h, a, b, c, d);
  }

  /** Every dotted quad is accepted by the matcher. */
  lemma IpPatternComplete(h: string)
    requires DottedQuad(h)
    ensures MatchGroups(h, 3)
  {
    var a, b, c, d :| IsQuadOf(h, a, b, c, d);
    var last := if h == Quad(a, b, c, d) then d else d + "\n";
    MatchLast(d);
    MatchFirst(c, last, 0);
    MatchFirst(b, Dot(c, last), 1);
    MatchFirst(a, Dot(b, Dot(c, last)), 2);
  }

  /** The matcher accepts exactly the dotted quads. */
  lemma IpPatternIff(h: string)
    ensures MatchGroups(h, 3) <==> DottedQuad(h)
  {
    if MatchGroups(h, 3) { IpPatternSound(h); }
    if DottedQuad(h) { IpPatternComplete(h); }
  }

  /** `is_ip_domain` holds exactly when the parsed hostname is a dotted quad;
      a missing hostname counts as "" and is never one. */
  lemma IsIpDomainIff(libs: Libraries, url: string)
    ensures IsIpDomain(libs, url) <==> DottedQuad(HostOf(libs.hostname(url)))
    ensures libs.hostname(url) == None ==> !IsIpDomain(libs, url)
  {
    IpPatternIff(HostOf(libs.hostname(url)));
  }

  /** Octets above 255 are accepted. */
  lemma IpAcceptsAnyOctet(h: string)
    requires h == "999.999.999.999"
    ensures MatchGroups(h, 3)
  {
    assert IsQuadOf(h, "999", "999", "999", "999");
    IpPatternComplete(h);
  }

  /** `$` lets one trailing newline through. */
  lemma IpAcceptsTrailingNewline(h: string)
    requires h == "192.168.0.1\n"
    ensures MatchGroups(h, 3)
  {
    assert IsQuadOf(h, "192", "168", "0", "1");
    IpPatternComplete(h);
  }

  /** An empty hostname, which is what a missing one becomes, is rejected. */
  lemma IpRejectsEmpty()
    ensures !MatchGroups("", 3)
  {
  }

  /** Three groups are too few. */
  lemma IpRejectsThreeGroups(a: string, b: string, c: string)
    requires DigitGroup(a) && DigitGroup(b) && DigitGroup(c)
    ensures !MatchGroups(Dot(a, Dot(b, c)), 3)
  {
    MatchFirst(a, Dot(b, c), 2);
    MatchFirst(b, c, 1);
    assert DigitRun(c) == |c|;
  }

  /** Whatever follows the fourth group, when it starts with something other
      than a digit, is rejected unless it is the single newline `$` allows.
      (A digit there only lengthens the fourth group: "1.2.3.45" matches.) */
  lemma IpRejectsTrailingText(a: string, b: string, c: string, d: string, t: string)
    requires DigitGroup(a) && DigitGroup(b) && DigitGroup(c) && DigitGroup(d)
    requires t != "" && t != "\n" && !IsDigit(t[0])
    ensures !MatchGroups(Quad(a, b, c, d + t), 3)
  {
    MatchFirst(a, Dot(b, Dot(c, d + t)), 2);
    MatchFirst(b, Dot(c, d + t), 1);
    MatchFirst(c, d + t, 0);
    var s := d + t;
    assert forall i :: 0 <= i < |d| ==> s[i] == d[i];
    assert s[|d|] == t[0];
    assert DigitRun(s) == |d|;
    assert s[|d|..] == t;
  }

  /** A dot after the fourth group, and so a fifth group, is rejected. */
  lemma IpRejectsFiveGroups(a: string, b: string, c: string, d: string, e: string)
    requires DigitGroup(a) && DigitGroup(b) && DigitGroup(c) && DigitGroup(d)
    ensures !MatchGroups(Quad(a, b, c, Dot(d, e)), 3)
  {
    MatchFirst(a, Dot(b, Dot(c, Dot(d, e))), 2);
    MatchFirst(b, Dot(c, Dot(d, e)), 1);
    MatchFirst(c, Dot(d, e), 0);
    DigitRunOfDot(d, e);
    assert Dot(d, e)[|d|..][0] == '.';
  }

  /** A run of four or more digits can never be a group. */
  lemma IpRejectsLongGroup(h: string, dots: nat)
    requires |h| >= 4 && IsDigit(h[0]) && IsDigit(h[1]) && IsDigit(h[2]) && IsDigit(h[3])
    ensures !MatchGroups(h, dots)
  {
    assert DigitRun(h) >= 4;
  }

  // ---- Suspicious suffix: url.lower().endswith((".exe", ".gq", ...)) ----

  /** The suffixes `has_sus_tld` looks for, in the order they are listed. */
  const SusSuffixes: seq<string> := [".exe", ".gq", ".tk", ".cf", ".config", ".ml", ".boot"]

  /** `has_sus_tld`: a suffix test on the whole lower-cased URL, not on the
      extracted top-level domain. */
  predicate HasSusTld(url: string) {
    EndsWithAny(Lower(url), SusSuffixes)
  }

  /** The lower-cased tail of a string is the tail of its lower-cased form. */
  lemma LowerTail(url: string, m: nat)
    requires m <= |url|
    ensures Lower(url)[|url| - m..] == Lower(url[|url| - m..])
  {
  }

  /** The last `|sfx|` characters of the URL, lower-cased, spell `sfx`. */
  predicate TailSpells(url: string, sfx: string) {
    |sfx| <= |url| && Lower(url[|url| - |sfx|..]) == sfx
  }

  /** An ends-with test on the lower-cased URL is a test on the URL's tail. */
  lemma EndsWithLowerIff(url: string, sfx: string)
    ensures EndsWith(Lower(url), sfx) <==> TailSpells(url, sfx)
  {
    var low := Lower(url);
    assert |low| == |url|;
    if |sfx| <= |url| {
      LowerTail(url, |sfx|);
      assert low[|low| - |sfx|..] == Lower(url[|url| - |sfx|..]);
    }
  }

  /** The same for a list of suffixes. */
  lemma EndsWithAnyLowerIff(url: string, suffixes: seq<string>)
    ensures EndsWithAny(Lower(url), suffixes) <==>
      exists k :: 0 <= k < |suffixes| && TailSpells(url, suffixes[k])
  {
    forall k | 0 <= k < |suffixes|
      ensures EndsWith(Lower(url), suffixes[k]) <==> TailSpells(url, suffixes[k])
    {
      EndsWithLowerIff(url, suffixes[k]);
    }
  }

  /** `has_sus_tld` holds exactly when the URL's last characters, lower-cased,
      spell one of the listed suffixes. */
  lemma HasSusTldIff(url: string)
    ensures HasSusTld(url) <==> exists k :: 0 <= k < |SusSuffixes| && TailSpells(url, SusSuffixes[k])
  {
    EndsWithAnyLowerIff(url, SusSuffixes);
  }

  /** Whatever comes before it, host or path, a URL ending in a listed suffix
      triggers the detector. */
  lemma {:induction false} SusTldAnyPrefix(prefix: string, k: nat)
    requires k < |SusSuffixes|
    ensures HasSusTld(prefix + SusSuffixes[k])
  {
    var sfx := SusSuffixes[k];
    LowerAppend(prefix, sfx);
    SusSuffixLower(k);
    var low := Lower(prefix);
    assert (low + sfx)[|low + sfx| - |sfx|..] == sfx;
    assert EndsWith(low + sfx, sfx);
  }

  /** The listed suffixes are already in lower case. */
  lemma SusSuffixLower(k: nat)
    requires k < |SusSuffixes|
    ensures Lower(SusSuffixes[k]) == SusSuffixes[k]
  {
    LowerOfLower(SusSuffixes[k]);
  }

  /** A path ending in ".tk" triggers the detector. */
  lemma SusTldInPath()
    ensures HasSusTld("a.com/x.tk")
  {
    SusTldAnyPrefix("a.com/x", 2);
    assert "a.com/x" + ".tk" == "a.com/x.tk";
  }

  /** Letter case does not matter to the detector. */
  lemma SusTldIgnoresCase(url: string)
    ensures HasSusTld(Lower(url)) == HasSusTld(url)
  {
    LowerIdempotent(url);
  }

  /** A URL whose last letter is none of the listed suffixes' last letters
      does not trigger the detector. */
  lemma SusTldLastChar(url: string)
    requires |url| > 0
    requires LowerChar(url[|url| - 1]) !in {'e', 'q', 'k', 'f', 'g', 'l', 't'}
    ensures !HasSusTld(url)
  {
    var low := Lower(url);
    assert low[|low| - 1] == LowerChar(url[|url| - 1]);
    forall k | 0 <= k < |SusSuffixes| ensures !EndsWith(low, SusSuffixes[k]) {
      var sfx := SusSuffixes[k];
      assert sfx[|sfx| - 1] in {'e', 'q', 'k', 'f', 'g', 'l', 't'};
      EndsWithLast(low, sfx);
    }
  }

  // ---- Suspicious characters: any(c in url for c in ["@", " ", "%", "&", "!"]) ----

  /** The characters `contains_sus_chars` looks for. */
  const SusChars: seq<char> := ['@', ' ', '%', '&', '!']

  /** `contains_sus_chars`: plain, case-sensitive containment. */
  predicate ContainsSusChars(url: string) {
    AnyOccurs(SusChars, url)
  }

  /** `contains_sus_chars` holds exactly when some character of the URL is
      one of the five. */
  lemma SusCharsIff(url: string)
    ensures ContainsSusChars(url) <==>
      exists i :: 0 <= i < |url| && url[i] in {'@', ' ', '%', '&', '!'}
  {
  }

  /** Lower-case letters, digits, dots, hyphens and slashes. */
  predicate PlainChar(c: char) {
    'a' <= c <= 'z' || '0' <= c <= '9' || c == '.' || c == '-' || c == '/'
  }

  /** A URL made of plain characters has none of the five. */
  lemma PlainUrlHasNoSusChars(url: string)
    requires forall i :: 0 <= i < |url| ==> PlainChar(url[i])
    ensures !ContainsSusChars(url)
  {
  }

  // ---- Length: len(url) > threshold ----

  /** The default of `is_long_url`'s threshold. */
  const LongUrlThreshold: nat := 200

  /** `is_long_url`. */
  predicate IsLongUrl(url: string, threshold: nat := LongUrlThreshold) {
    |url| > threshold
  }

  /** The bound is strict: 200 characters are not too long, 201 are. */
  lemma LongUrlBoundary(url: string)
    ensures |url| == 200 ==> !IsLongUrl(url)
    ensures |url| == 201 ==> IsLongUrl(url)
  {
  }

  // ---- Punycode: "xn--" in url.lower() ----

  /** The ACE prefix of internationalised labels (section 5 of RFC 3490). */
  const AcePrefix: string := "xn--"

  /** `contains_punycode`. */
  predicate ContainsPunycode(url: string) {
    Contains(Lower(url), AcePrefix)
  }

  /** The URL has "xn--" at position `i`, the letters in either case. */
  predicate AcePrefixAt(url: string, i: nat) {
    i + 4 <= |url| &&
    LowerChar(url[i]) == 'x' && LowerChar(url[i + 1]) == 'n' &&
    url[i + 2] == '-' && url[i + 3] == '-'
  }

  /** `contains_punycode` holds exactly when "xn--", in any letter case, occurs
      somewhere in the URL: host, path or query alike. */
  lemma PunycodeIff(url: string)
    ensures ContainsPunycode(url) <==> exists i: nat :: AcePrefixAt(url, i)
  {
    var low := Lower(url);
    ContainsIff(low, AcePrefix);
    forall i: nat ensures OccursAt(low, AcePrefix, i) <==> AcePrefixAt(url, i) {
      if i + 4 <= |url| {
        assert low[i..i + 4] == [low[i], low[i + 1], low[i + 2], low[i + 3]];
      }
    }
  }

  /** Letter case does not matter to the detector. */
  lemma PunycodeIgnoresCase(url: string)
    ensures ContainsPunycode(Lower(url)) == ContainsPunycode(url)
  {
    LowerIdempotent(url);
  }

  /** A URL in lower case with no "x" directly followed by "n" has no punycode. */
  lemma NoPunycode(url: string)
    requires forall i :: 0 <= i < |url| ==> !('A' <= url[i] <= 'Z')
    requires forall i :: 0 <= i < |url| - 1 ==> url[i] != 'x' || url[i + 1] != 'n'
    ensures !ContainsPunycode(url)
  {
    PunycodeIff(url);
  }

  // ---- Heuristic score: sum([...five detectors...]) ----

  /** A boolean counted as 0 or 1, as `sum` does. */
  function B(b: bool): nat {
    if b then 1 else 0
  }

  /** `sum` over a list of booleans: how many are true. */
  function CountTrue(bs: seq<bool>): (n: nat)
    ensures n <= |bs|
    ensures n == 0 <==> forall i :: 0 <= i < |bs| ==> !bs[i]
    ensures n == |bs| <==> forall i :: 0 <= i < |bs| ==> bs[i]
  {
    if bs == [] then 0
    else
      var rest := CountTrue(bs[1..]);
      assert forall i :: 1 <= i < |bs| ==> bs[i] == bs[1..][i - 1];
      B(bs[0]) + rest
  }

  /** Four booleans counted one by one. */
  lemma CountTrueFour(a: bool, b: bool, c: bool, d: bool)
    ensures CountTrue([a, b, c, d]) == B(a) + B(b) + B(c) + B(d)
  {
    assert [d][1..] == [];
    assert CountTrue([d]) == B(d);
    assert [c, d][1..] == [d];
    assert CountTrue([c, d]) == B(c) + B(d);
    assert [b, c, d][1..] == [c, d];
    assert CountTrue([b, c, d]) == B(b) + B(c) + B(d);
    assert [a, b, c, d][1..] == [b, c, d];
  }

  /** Counting splits over concatenation. */
  lemma {:induction false} CountTrueAppend(xs: seq<bool>, ys: seq<bool>)
    ensures CountTrue(xs + ys) == CountTrue(xs) + CountTrue(ys)
  {
    if xs == [] {
      assert xs + ys == ys;
    } else {
      assert (xs + ys)[1..] == xs[1..] + ys;
      CountTrueAppend(xs[1..], ys);
    }
  }

  /** The four detectors other than punycode, in the order the score lists them. */
  function OtherDetections(libs: Libraries, url: string): seq<bool> {
    [IsIpDomain(libs, url), HasSusTld(url), ContainsSusChars(url), IsLongUrl(url)]
  }

  /** All five detectors, in the order `heuristic_score` lists them. */
  function Detections(libs: Libraries, url: string): seq<bool> {
    OtherDetections(libs, url) + [ContainsPunycode(url)]
  }

  /** `heuristic_score`: how many of the five detectors fire, so a number
      from 0 to 5. */
  function HeuristicScore(libs: Libraries, url: string): (score: nat)
    ensures score <= 5
  {
    CountTrue(Detections(libs, url))
  }

  /** The score is the count of the four other detectors plus one for punycode. */
  lemma ScoreSplit(libs: Libraries, url: string)
    ensures HeuristicScore(libs, url) ==
      CountTrue(OtherDetections(libs, url)) + B(ContainsPunycode(url))
  {
    var p := ContainsPunycode(url);
    CountTrueAppend(OtherDetections(libs, url), [p]);
    assert [p][1..] == [];
  }

  /** The score is the sum of the five detectors counted as 0 or 1. */
  lemma ScoreSum(libs: Libraries, url: string)
    ensures HeuristicScore(libs, url) ==
      B(IsIpDomain(libs, url)) + B(HasSusTld(url)) + B(ContainsSusChars(url)) +
      B(IsLongUrl(url)) + B(ContainsPunycode(url))
  {
    ScoreSplit(libs, url);
    CountTrueFour(IsIpDomain(libs, url), HasSusTld(url), ContainsSusChars(url), IsLongUrl(url));
  }

  /** The score is 0 exactly when no detector fires. */
  lemma ScoreZeroIff(libs: Libraries, url: string)
    ensures HeuristicScore(libs, url) == 0 <==>
      !IsIpDomain(libs, url) && !HasSusTld(url) && !ContainsSusChars(url) &&
      !IsLongUrl(url) && !ContainsPunycode(url)
  {
    ScoreSum(libs, url);
  }

  /** The score is 5 exactly when every detector fires. */
  lemma ScoreFiveIff(libs: Libraries, url: string)
    ensures HeuristicScore(libs, url) == 5 <==>
      IsIpDomain(libs, url) && HasSusTld(url) && ContainsSusChars(url) &&
      IsLongUrl(url) && ContainsPunycode(url)
  {
    ScoreSum(libs, url);
  }
}

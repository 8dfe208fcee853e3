/** `scan_url`: the override checks first, then the heuristic score. */
module Scanner {
  import opened Foreign
  import opened Strings
  import opened Heuristics
  import opened TypoSquat

  /** The reason attached to a verdict, one per return of `scan_url`. */
  datatype Reason = TypoSquatting | PunycodeDetected | HighScore(score: nat) | LooksSafe

  datatype Verdict = Verdict(suspicious: bool, reason: Reason)

  /** `trusted_domains`, read and never changed. */
  const TrustedDomains: seq<string> := ["google.com", "facebook.com", "cybersec.com"]

  /** The score at which the heuristics alone flag a URL. */
  const ScoreThreshold: nat := 3

  /** `scan_url`: first match wins among typo-squatting, punycode and a score
      of at least 3; otherwise the URL looks safe. The verdict is suspicious
      exactly when its reason is not `LooksSafe`. The hostname parser is total
      here, so the model has no counterpart of the `ValueError` that Python's
      `urlparse` raises on an unbalanced bracket in the network location. */
  function ScanUrl(libs: Libraries, url: string): (v: Verdict)
    ensures v.suspicious <==> !v.reason.LooksSafe?
  {
    if TypoCheck(libs, url, TrustedDomains) then Verdict(true, TypoSquatting)
    else if ContainsPunycode(url) then Verdict(true, PunycodeDetected)
    else
      var score := HeuristicScore(libs, url);
      if score >= ScoreThreshold then Verdict(true, HighScore(score))
      else Verdict(false, LooksSafe)
  }

  /** A URL is let through exactly when no trusted domain is a near miss, it
      has no punycode, and fewer than three detectors fire. */
  lemma SafeIff(libs: Libraries, url: string)
    ensures !ScanUrl(libs, url).suspicious <==>
      !TypoCheck(libs, url, TrustedDomains) && !ContainsPunycode(url) &&
      HeuristicScore(libs, url) < ScoreThreshold
  {
  }

  /** Each reason is given exactly when its check is the first to fire. */
  lemma ReasonIff(libs: Libraries, url: string)
    ensures ScanUrl(libs, url).reason == TypoSquatting <==> TypoCheck(libs, url, TrustedDomains)
    ensures ScanUrl(libs, url).reason == PunycodeDetected <==>
      !TypoCheck(libs, url, TrustedDomains) && ContainsPunycode(url)
    ensures ScanUrl(libs, url).reason.HighScore? <==>
      !TypoCheck(libs, url, TrustedDomains) && !ContainsPunycode(url) &&
      HeuristicScore(libs, url) >= ScoreThreshold
  {
  }

  /** A URL with "xn--" anywhere, in any letter case, is always flagged,
      by the typo check or by the punycode check, whatever its score. */
  lemma PunycodeAlwaysSuspicious(libs: Libraries, url: string, i: nat)
    requires AcePrefixAt(url, i)
    ensures ScanUrl(libs, url).suspicious
    ensures ScanUrl(libs, url).reason == TypoSquatting || ScanUrl(libs, url).reason == PunycodeDetected
  {
    PunycodeIff(url);
  }

  /** When the score decides, punycode is known to be absent: the score is 3
      or 4, and at least three of the other four detectors fired. */
  lemma ScoreBranch(libs: Libraries, url: string)
    ensures ScanUrl(libs, url).reason.HighScore? ==>
      && !TypoCheck(libs, url, TrustedDomains) && !ContainsPunycode(url)
      && ScanUrl(libs, url).reason.score == HeuristicScore(libs, url)
      && 3 <= ScanUrl(libs, url).reason.score <= 4
      && CountTrue(OtherDetections(libs, url)) >= 3
  {
    ScoreSplit(libs, url);
  }

  /** A trusted domain scanned as itself is not flagged by the typo check when
      no other trusted entry is similar to it, so without punycode and with a
      score under 3 it looks safe. */
  lemma TrustedSelfSafe(libs: Libraries, url: string)
    requires Registrable(libs.extract(url)) in TrustedDomains
    requires forall t :: t in TrustedDomains && t != Registrable(libs.extract(url)) ==>
      !libs.similar(Registrable(libs.extract(url)), t)
    requires !ContainsPunycode(url) && HeuristicScore(libs, url) < ScoreThreshold
    ensures ScanUrl(libs, url) == Verdict(false, LooksSafe)
  {
  }

  // ---- The sample URLs of the demonstration harness ----

  /** "google.com" is not flagged by the typo check when neither other
      trusted entry is similar to it: its own entry is skipped. */
  lemma GoogleNoTypo(libs: Libraries, url: string)
    requires url == "google.com"
    requires libs.extract(url) == Extracted("google", "com")
    requires !libs.similar(url, "facebook.com") && !libs.similar(url, "cybersec.com")
    ensures !TypoCheck(libs, url, TrustedDomains)
  {
    assert Registrable(libs.extract(url)) == url;
  }

  /** "google.com" scores nothing when it has no hostname, as a URL without
      "//" has none. */
  lemma GoogleScoresZero(libs: Libraries, url: string)
    requires url == "google.com" && libs.hostname(url) == None
    ensures HeuristicScore(libs, url) == 0 && !ContainsPunycode(url)
  {
    PlainUrlOnlyTypoCounts(libs, url);
    ScoreZeroIff(libs, url);
  }

  /** "google.com" is a trusted domain: with no hostname and neither other
      trusted entry similar to it, it looks safe. */
  lemma GoogleLooksSafe(libs: Libraries, url: string)
    requires url == "google.com" && libs.hostname(url) == None
    requires libs.extract(url) == Extracted("google", "com")
    requires !libs.similar(url, "facebook.com") && !libs.similar(url, "cybersec.com")
    ensures ScanUrl(libs, url) == Verdict(false, LooksSafe)
  {
    GoogleNoTypo(libs, url);
    GoogleScoresZero(libs, url);
  }

  /** "faceboook.com" is one letter away from "facebook.com": once the
      similarity test accepts that pair, the typo check flags it. */
  lemma FaceboookFlagged(libs: Libraries, url: string)
    requires url == "faceboook.com"
    requires libs.extract(url) == Extracted("faceboook", "com")
    requires libs.similar(url, "facebook.com")
    ensures ScanUrl(libs, url) == Verdict(true, TypoSquatting)
  {
    assert Registrable(libs.extract(url)) == url;
    assert TrustedDomains[1] == "facebook.com" != url;
  }

  /** "xn--google-yva.com" is flagged whatever the libraries return. */
  lemma PunycodeHostFlagged(libs: Libraries, url: string)
    requires url == "xn--google-yva.com"
    ensures ScanUrl(libs, url).suspicious
  {
    PunycodeAlwaysSuspicious(libs, url, 0);
  }

  /** "192.168.0.1/phish" has no suspicious suffix: it ends in "h". */
  lemma IpSampleNoSusTld(url: string)
    requires url == "192.168.0.1/phish"
    ensures !HasSusTld(url)
  {
    SusTldLastChar(url);
  }

  /** "192.168.0.1/phish" has none of the five suspicious characters. */
  lemma IpSampleNoSusChars(url: string)
    requires url == "192.168.0.1/phish"
    ensures !ContainsSusChars(url)
  {
    PlainUrlHasNoSusChars(url);
  }

  /** "192.168.0.1/phish" has no punycode. */
  lemma IpSampleNoPunycode(url: string)
    requires url == "192.168.0.1/phish"
    ensures !ContainsPunycode(url)
  {
    NoPunycode(url);
  }

  /** "192.168.0.1/phish" can score at most the IP point, so unless the typo
      check fires it looks safe: one signal is below the threshold. */
  lemma IpHostBelowThreshold(libs: Libraries, url: string)
    requires url == "192.168.0.1/phish"
    ensures HeuristicScore(libs, url) == B(IsIpDomain(libs, url))
    ensures ScanUrl(libs, url).suspicious == TypoCheck(libs, url, TrustedDomains)
  {
    IpSampleNoSusTld(url);
    IpSampleNoSusChars(url);
    IpSampleNoPunycode(url);
    ScoreSum(libs, url);
  }

  /** A URL longer than 200 characters that shows no other sign scores 1,
      which is below the threshold, so it looks safe: length alone is not
      enough. */
  lemma LongUrlAloneSafe(libs: Libraries, url: string)
    requires |url| > LongUrlThreshold
    requires !IsIpDomain(libs, url) && !HasSusTld(url) && !ContainsSusChars(url)
    requires !ContainsPunycode(url) && !TypoCheck(libs, url, TrustedDomains)
    ensures HeuristicScore(libs, url) == 1
    ensures ScanUrl(libs, url) == Verdict(false, LooksSafe)
  {
    ScoreSum(libs, url);
  }

  /** A URL of plain characters, at most 200 long, with no "xn" and a last
      letter that ends no listed suffix, scores nothing when it has no
      hostname; its verdict is then the typo check's alone. Hyphenated
      look-alikes such as "google.com-login.info" pass this way. */
  lemma PlainUrlOnlyTypoCounts(libs: Libraries, url: string)
    requires forall i :: 0 <= i < |url| ==> PlainChar(url[i])
    requires forall i :: 0 <= i < |url| - 1 ==> url[i] != 'x' || url[i + 1] != 'n'
    requires 0 < |url| <= LongUrlThreshold
    requires url[|url| - 1] !in {'e', 'q', 'k', 'f', 'g', 'l', 't'}
    requires libs.hostname(url) == None
    ensures HeuristicScore(libs, url) == 0
    ensures ScanUrl(libs, url).suspicious == TypoCheck(libs, url, TrustedDomains)
  {
    SusTldLastChar(url);
    PlainUrlHasNoSusChars(url);
    NoPunycode(url);
    IsIpDomainIff(libs, url);
    ScoreZeroIff(libs, url);
  }

  /** "google.com-login.info" scores nothing without a hostname. */
  lemma HyphenLookalikeScoresZero(libs: Libraries, url: string)
    requires url == "google.com-login.info" && libs.hostname(url) == None
    ensures HeuristicScore(libs, url) == 0
    ensures ScanUrl(libs, url).suspicious == TypoCheck(libs, url, TrustedDomains)
  {
    PlainUrlOnlyTypoCounts(libs, url);
  }

  /** "exam-portal.com" scores nothing without a hostname. */
  lemma ExamPortalScoresZero(libs: Libraries, url: string)
    requires url == "exam-portal.com" && libs.hostname(url) == None
    ensures HeuristicScore(libs, url) == 0
    ensures ScanUrl(libs, url).suspicious == TypoCheck(libs, url, TrustedDomains)
  {
    PlainUrlOnlyTypoCounts(libs, url);
  }
}

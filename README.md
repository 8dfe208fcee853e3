# Phishing link scanner, modelled in Dafny

The scanner labels a URL string as phishing or safe, using static signals only.
It has five boolean detectors over the URL text:

- an IP-literal hostname;
- a suspicious suffix such as `.tk`;
- one of the characters `@`, space, `%`, `&`, `!`;
- a length over 200;
- the punycode prefix `xn--`.

The heuristic score counts how many of the five fire. A typo-squatting search
compares the URL's registrable domain with a fixed list of trusted domains
(`google.com`, `facebook.com`, `cybersec.com`). `scan_url` decides in a fixed
order, and the first check that fires wins:

1. a typo-squat;
2. punycode;
3. a score of at least 3;
4. otherwise safe.

The model is pure, like the source: every operation is a function of its
arguments. Calling `ScanUrl` twice on the same input therefore gives the same
verdict.

The three library calls are passed in as the function-valued fields of a
`Foreign.Libraries` value, so every theorem holds whatever they return:

- `hostname` stands for `urlparse(url).hostname`, and may be `None`;
- `extract` stands for `tldextract.extract(url)`, a (domain, suffix) pair;
- `similar(a, b)` stands for `Levenshtein.ratio(a, b) >= 0.8`.

Files:

- `strings.dfy` holds the Python string operations used: `lower`, `endswith`
  with a tuple, `in`, and `any(c in s ...)`.
- `foreign.dfy` holds the library interface.
- `heuristics.dfy` holds the five detectors and the score.
- `typo.dfy` holds the typo-squatting search.
- `scanner.dfy` holds `scan_url`, its decision-order theorems and the sample
  URLs of the demonstration harness.

The IP detector is the regex `^\d{1,3}(\.\d{1,3}){3}$` run with `re.match`.
It is modelled as a matcher (`MatchGroups`). The matcher is proved equal, in
both directions, to a reference reading (`DottedQuad`): four groups of one to
three digits joined by three dots, with no range check on the octets. Python's
`$` without MULTILINE also matches just before a newline that ends the string,
so the reference reading admits one trailing `"\n"`, as the code does.

Two behaviours of the code are easy to miss, and the model keeps both:

- A failed registrable-domain extraction gives `"."` as the candidate, not `""`.
  This is because `f"{domain}.{suffix}"` always inserts the dot (`Registrable`).
- `urlparse` gives no hostname for a URL without `//`, such as
  `192.168.0.1/phish`. The IP detector then sees `""`. The sample lemmas
  therefore keep the hostname as a hypothesis rather than assuming the IP
  detector fires.

## Model

| member | source | states |
|---|---|---|
| `Strings.EndsWithAny` | Phishing_Link_Scanner.py:15 | `endswith` with a tuple holds iff some listed suffix ends the string |
| `Strings.ContainsIff` | Phishing_Link_Scanner.py:24 | substring `in` holds iff the pattern occurs at some position of the string |
| `Strings.AnyOccurs` | Phishing_Link_Scanner.py:18 | `any(c in url for c in cs)` holds iff some character of the URL is one of `cs` |
| `Heuristics.DigitRun` | Phishing_Link_Scanner.py:12 | the greedy `\d` run: all of its characters are digits and the next one is not |
| `Heuristics.IpPatternSound` | Phishing_Link_Scanner.py:12 | every hostname the regex accepts is four 1–3 digit groups joined by dots, perhaps with one trailing newline |
| `Heuristics.IpPatternComplete` | Phishing_Link_Scanner.py:12 | every such dotted quad is accepted by the regex |
| `Heuristics.IpPatternIff` | Phishing_Link_Scanner.py:12 | the regex accepts exactly the dotted quads |
| `Heuristics.IsIpDomainIff` | Phishing_Link_Scanner.py:10-12 | `is_ip_domain` holds iff the parsed hostname is a dotted quad; a missing hostname (`or ""`) never is |
| `Heuristics.IpAcceptsAnyOctet` | Phishing_Link_Scanner.py:12 | `999.999.999.999` is accepted: no 0–255 check |
| `Heuristics.IpAcceptsTrailingNewline` | Phishing_Link_Scanner.py:12 | `192.168.0.1` followed by a newline is accepted, because of `$` |
| `Heuristics.IpRejectsEmpty` | Phishing_Link_Scanner.py:11-12 | the empty hostname is rejected |
| `Heuristics.IpRejectsThreeGroups` | Phishing_Link_Scanner.py:12 | three digit groups are rejected |
| `Heuristics.IpRejectsTrailingText` | Phishing_Link_Scanner.py:12 | text after the fourth group that starts with a non-digit is rejected, unless it is the single newline `$` allows |
| `Heuristics.IpRejectsFiveGroups` | Phishing_Link_Scanner.py:12 | a dot after the fourth group, and so a fifth group, is rejected |
| `Heuristics.IpRejectsLongGroup` | Phishing_Link_Scanner.py:12 | a hostname starting with four digits is rejected |
| `Heuristics.HasSusTldIff` | Phishing_Link_Scanner.py:14-15 | `has_sus_tld` holds iff the URL's last characters, lower-cased, spell one of the seven listed suffixes |
| `Heuristics.SusTldAnyPrefix` | Phishing_Link_Scanner.py:14-15 | any URL, whatever precedes it, that ends in a listed suffix triggers the detector; the test is on the whole URL, not on the domain |
| `Heuristics.SusTldInPath` | Phishing_Link_Scanner.py:15 | `a.com/x.tk` triggers it through its path |
| `Heuristics.SusTldIgnoresCase` | Phishing_Link_Scanner.py:15 | lower-casing the URL first does not change the answer |
| `Heuristics.SusTldLastChar` | Phishing_Link_Scanner.py:15 | a URL whose last letter ends none of the suffixes does not trigger it |
| `Heuristics.SusCharsIff` | Phishing_Link_Scanner.py:17-18 | `contains_sus_chars` holds iff some character of the URL is `@`, space, `%`, `&` or `!` |
| `Heuristics.PlainUrlHasNoSusChars` | Phishing_Link_Scanner.py:18 | a URL of lower-case letters, digits, `.`, `-` and `/` has none of them |
| `Heuristics.LongUrlBoundary` | Phishing_Link_Scanner.py:20-21 | 200 characters are not too long, 201 are |
| `Heuristics.PunycodeIff` | Phishing_Link_Scanner.py:23-24 | `contains_punycode` holds iff `xn--`, in either letter case, occurs anywhere in the URL |
| `Heuristics.PunycodeIgnoresCase` | Phishing_Link_Scanner.py:24 | lower-casing the URL first does not change the answer |
| `Heuristics.NoPunycode` | Phishing_Link_Scanner.py:24 | a lower-case URL with no `x` directly before an `n` has no punycode |
| `Heuristics.CountTrue` | Phishing_Link_Scanner.py:27-33 | `sum` of booleans: at most their number, 0 iff none is true, the full number iff all are |
| `Heuristics.HeuristicScore` | Phishing_Link_Scanner.py:26-34 | `heuristic_score` lies in 0..5 |
| `Heuristics.ScoreSplit` | Phishing_Link_Scanner.py:27-33 | the score is the count of the four other detectors plus one if there is punycode |
| `Heuristics.ScoreSum` | Phishing_Link_Scanner.py:27-33 | the score is the sum of the five detectors counted as 0 or 1 |
| `Heuristics.ScoreZeroIff` | Phishing_Link_Scanner.py:26-34 | the score is 0 iff no detector fires |
| `Heuristics.ScoreFiveIff` | Phishing_Link_Scanner.py:26-34 | the score is 5 iff every detector fires |
| `TypoSquat.Registrable` | Phishing_Link_Scanner.py:40 | the candidate is the domain, a dot, then the suffix; it is never empty |
| `TypoSquat.TypoMatch` | Phishing_Link_Scanner.py:41-46 | the loop answers true iff some entry differs from the candidate and is similar to it |
| `TypoSquat.TypoCheck` | Phishing_Link_Scanner.py:38-46 | `typo_check` holds iff some trusted entry differs from the extracted `domain.suffix` and is similar to it; an empty list never matches |
| `TypoSquat.TypoMatchAppend` | Phishing_Link_Scanner.py:41-46 | searching two lists is searching each, so list order and the early exit do not change the answer |
| `TypoSquat.TypoIgnoresEqualEntry` | Phishing_Link_Scanner.py:42-43 | an entry equal to the candidate never causes a match, wherever it stands |
| `Scanner.ScanUrl` | Phishing_Link_Scanner.py:50-61 | the verdict is suspicious exactly when its reason is not "looks safe" |
| `Scanner.SafeIff` | Phishing_Link_Scanner.py:50-61 | the verdict is safe iff there is no typo-squat match, no punycode and the score is below 3 |
| `Scanner.ReasonIff` | Phishing_Link_Scanner.py:51-59 | each reason is given exactly when its check is the first in the order to fire |
| `Scanner.PunycodeAlwaysSuspicious` | Phishing_Link_Scanner.py:50-55 | a URL containing `xn--` in any case is always flagged, at the typo check or the punycode check |
| `Scanner.ScoreBranch` | Phishing_Link_Scanner.py:54-59 | when the score decides, there is no punycode, the score is 3 or 4, and at least 3 of the other four detectors fired |
| `Scanner.TrustedSelfSafe` | Phishing_Link_Scanner.py:42-43 | a trusted domain scanned as itself, with no other trusted entry similar to it, no punycode and a score under 3, looks safe |
| `Scanner.GoogleLooksSafe` | Phishing_Link_Scanner.py:67 | `google.com` looks safe when the other trusted entries are not similar to it |
| `Scanner.FaceboookFlagged` | Phishing_Link_Scanner.py:68 | `faceboook.com` is flagged as a typo-squat once it is similar to `facebook.com` |
| `Scanner.PunycodeHostFlagged` | Phishing_Link_Scanner.py:71 | `xn--google-yva.com` is flagged whatever the libraries return |
| `Scanner.IpHostBelowThreshold` | Phishing_Link_Scanner.py:72 | `192.168.0.1/phish` scores at most the IP point, so only the typo check can flag it |
| `Scanner.LongUrlAloneSafe` | Phishing_Link_Scanner.py:50-61 | a URL over 200 characters with no other sign scores 1 and looks safe: length alone is below the threshold |
| `Scanner.PlainUrlOnlyTypoCounts` | Phishing_Link_Scanner.py:50-61 | a short URL of plain characters with no hostname and no sign of the other detectors scores 0, so its verdict is the typo check's |
| `Scanner.HyphenLookalikeScoresZero` | Phishing_Link_Scanner.py:70 | `google.com-login.info` scores 0, so a hyphenated look-alike passes unless it is similar to a trusted domain |
| `Scanner.ExamPortalScoresZero` | Phishing_Link_Scanner.py:69 | `exam-portal.com` scores 0 |

## Left out

- URL parsing, registrable-domain extraction and the Levenshtein ratio are foreign libraries. They are parameters of the model (`Foreign.Libraries`), and nothing is assumed about what they return. In particular, nothing is proved about edit distance or about the 0.8 threshold.
- `str.lower` is modelled for ASCII letters only. Python lower-cases all of Unicode. For example, the KELVIN SIGN (U+212A) becomes `k`, so a URL ending in `.t` followed by that sign is flagged by Python and not by the model. As another example, U+0130 becomes two code points, which changes the length.
- `\d` is modelled as the ASCII digits. Python's `re` also matches other Unicode decimal digits.
- `Scanner.ScanUrl`: Python's `urlparse` raises `ValueError` when the network location has an unbalanced `[` or `]`, as in `http://[x`. `scan_url` then raises from `is_ip_domain` once the typo and punycode checks have not fired. The model's hostname function is total, so the model gives such URLs a verdict where the source raises an exception.
- The reason strings with their emoji are modelled as the `Scanner.Reason` datatype. The numeric score is kept; the text is not.
- The `__main__` harness, which loops over six sample URLs and prints each verdict, is I/O only. Its URLs appear as the sample lemmas above.
- Python's `urlparse` strips tabs and newlines before it extracts a hostname, so in practice the trailing-newline case of the IP regex is unreachable. The model keeps the regex behaviour because the hostname is abstract.

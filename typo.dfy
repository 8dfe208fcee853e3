/** The typo-squatting check: is the candidate's registrable domain close to,
    but not the same as, some trusted domain? */
module TypoSquat {
  import opened Foreign

  /** `f"{extracted.domain}.{extracted.suffix}"`: the two parts are always
      joined by a dot, so a failed extraction gives "." and never "". */
  function Registrable(e: Extracted): (d: string)
    ensures |d| == |e.domain| + 1 + |e.suffix| && d[|e.domain|] == '.'
    ensures d[..|e.domain|] == e.domain && d[|e.domain| + 1..] == e.suffix
  {
    e.domain + "." + e.suffix
  }

  /** The loop of `typo_check` over the trusted list: an entry equal to the
      candidate is skipped (`continue`), the first similar one answers true,
      and running off the end answers false. */
  function TypoMatch(similar: (string, string) -> bool, domain: string, trusted: seq<string>): (r: bool)
    ensures r <==> exists k :: 0 <= k < |trusted| && trusted[k] != domain && similar(domain, trusted[k])
  {
    if trusted == [] then false
    else
      var rest := TypoMatch(similar, domain, trusted[1..]);
      assert forall k :: 1 <= k < |trusted| ==> trusted[k] == trusted[1..][k - 1];
      if trusted[0] == domain then rest
      else if similar(domain, trusted[0]) then true
      else rest
  }

  /** `typo_check(url, trusted_domains)`: some trusted entry differs from the
      candidate's registrable domain and is similar to it. An empty trusted
      list never matches. */
  function TypoCheck(libs: Libraries, url: string, trusted: seq<string>): (r: bool)
    ensures r <==> exists k :: 0 <= k < |trusted| && trusted[k] != Registrable(libs.extract(url)) &&
                               libs.similar(Registrable(libs.extract(url)), trusted[k])
    ensures trusted == [] ==> !r
  {
    TypoMatch(libs.similar, Registrable(libs.extract(url)), trusted)
  }

  /** The search over two lists is the search over each: the order of the
      trusted list and the early exit do not change the answer. */
  lemma {:induction false} TypoMatchAppend(
    similar: (string, string) -> bool, domain: string, xs: seq<string>, ys: seq<string>)
    ensures TypoMatch(similar, domain, xs + ys) ==
      (TypoMatch(similar, domain, xs) || TypoMatch(similar, domain, ys))
  {
    if xs == [] {
      assert xs + ys == ys;
    } else {
      assert (xs + ys)[1..] == xs[1..] + ys;
      TypoMatchAppend(similar, domain, xs[1..], ys);
    }
  }

  /** An entry equal to the candidate never causes a match, wherever it
      stands in the list, even if the similarity test would accept it. */
  lemma TypoIgnoresEqualEntry(
    similar: (string, string) -> bool, domain: string, xs: seq<string>, ys: seq<string>)
    ensures TypoMatch(similar, domain, xs + [domain] + ys) == TypoMatch(similar, domain, xs + ys)
  {
    TypoMatchAppend(similar, domain, xs + [domain], ys);
    TypoMatchAppend(similar, domain, xs, [domain]);
    TypoMatchAppend(similar, domain, xs, ys);
  }
}

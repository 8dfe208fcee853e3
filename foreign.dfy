/** The three library calls the scanner makes, whose code is not part of this
    model. They are passed in as functions, so every property proved about the
    scanner holds whatever these libraries return. */
module Foreign {

  datatype Option<T> = None | Some(value: T)

  /** The registrable-domain split returned by `tldextract.extract`. */
  datatype Extracted = Extracted(domain: string, suffix: string)

  datatype Libraries = Libraries(
    /** `urlparse(url).hostname`: `None` when the URL has no network location. */
    hostname: string -> Option<string>,
    /** `tldextract.extract(url)`: the registrable label and its public suffix,
        either of which may be empty. */
    extract: string -> Extracted,
    /** `Levenshtein.ratio(a, b) >= 0.8`: whether two domains are near-identical. */
    similar: (string, string) -> bool
  )
}

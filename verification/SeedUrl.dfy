/** The seed URL of a Screaming Frog job: what src/core/url_safety.py makes of it, and the
    length limit of the input model it is then put into. */
module SeedUrl {
  import opened Common
  import opened Text

  /** Both the request and the tool's input model allow at most this many characters. */
  const MAX_LENGTH: nat := 2048

  /** A URL that passed every check, taken apart. `host` is `typedHost` lower-cased and
      IDNA-encoded, which can be longer. */
  datatype Url = Url(
    scheme: string,
    typedHost: string,
    host: string,
    port: Option<nat>,
    path: string,
    query: Option<string>,
    fragment: Option<string>)

  function DefaultPort(scheme: string): nat {
    if scheme == "https" then 443 else 80
  }

  function PortText(port: Option<nat>): string {
    if port.Some? then ":" + Decimal(port.value) else ""
  }

  function Marked(mark: string, part: Option<string>): string {
    if part.Some? then mark + part.value else ""
  }

  /** The URL as it was sent. */
  function Typed(u: Url): string {
    u.scheme + "://" + u.typedHost + PortText(u.port) + u.path + Marked("?", u.query) + Marked("#", u.fragment)
  }

  predicate DropsPort(u: Url) {
    u.port == Some(DefaultPort(u.scheme))
  }

  /** `_normalize`: the default port and the fragment go, and an empty path becomes `/`. */
  function Normalized(u: Url): string {
    u.scheme + "://" + u.host
    + (if DropsPort(u) then "" else PortText(u.port))
    + (if u.path == "" then "/" else u.path)
    + (if u.query == Some("") then "" else Marked("?", u.query))
  }

  predicate TooLong(u: Url) {
    |Normalized(u)| > MAX_LENGTH
  }

  /** The parts normalising leaves. */
  function Canonical(u: Url): Url {
    Url(u.scheme, u.host, u.host,
        if u.port == Some(if u.scheme == "https" then 443 else 80) then None else u.port,
        if u.path == "" then "/" else u.path,
        if u.query == Some("") then None else u.query,
        None)
  }

  /** Normalising writes out those parts, and normalising again changes nothing. */
  lemma NormalizedIsCanonical(u: Url)
    ensures Normalized(u) == Typed(Canonical(u)) && Normalized(Canonical(u)) == Normalized(u)
  {
  }

  /** A URL whose host keeps its length grows, by one, exactly when its path is empty and
      nothing is dropped from it. */
  lemma GrowsExactly(u: Url)
    requires |u.host| == |u.typedHost|
    ensures |Normalized(u)| > |Typed(u)| <==>
      && u.path == "" && u.port != Some(if u.scheme == "https" then 443 else 80)
      && u.query != Some("") && u.fragment.None?
    ensures |Normalized(u)| <= |Typed(u)| + 1
  {
  }

  /** So a request that is itself within the limit is put over it exactly when it is as
      long as it may be and grows. */
  lemma TooLongExactly(u: Url)
    requires |u.host| == |u.typedHost| && |Typed(u)| <= 2048
    ensures TooLong(u) <==>
      && |Typed(u)| == 2048 && u.path == "" && u.port != Some(if u.scheme == "https" then 443 else 80)
      && u.query != Some("") && u.fragment.None?
  {
    GrowsExactly(u);
  }

  function Letters(n: nat): (s: string)
    ensures |s| == n
  {
    seq(n, _ => 'q')
  }

  const LONGEST := Url("https", "example.com", "example.com", None, "", Some(Letters(2028)), None)

  /** One such request. */
  lemma LongestIsTooLong()
    ensures |Typed(LONGEST)| == 2048 && |Normalized(LONGEST)| == 2049
  {
    var q := Letters(2028);
    hide Letters;
    assert |"https"| == 5 && |"://"| == 3 && |"example.com"| == 11 && |"?"| == 1 && |"/"| == 1;
    assert |Marked("?", Some(q))| == 2029;
  }
}

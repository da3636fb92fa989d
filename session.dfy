/**
 * Session helpers of libfajr/session: the endpoint table that turns logical
 * names into absolute URLs, the validation of a cosign cookie, and the AiS2
 * version string with its once-only cache.
 */
module Session {
  import opened Wrappers
  import opened Decimal

  // ----- URLMap -----

  /** A resolver bound to a host and a protocol; Python's default protocol "https" is left to the caller. */
  datatype UrlMap = UrlMap(hostname: string, protocol: string)

  /** The fixed table of logical endpoint names and their paths. */
  const Paths: map<string, string> := map[
    "webui" := "ais/servlets/WebUIServlet",
    "files" := "ais/files/",
    "login" := "ais/login.do",
    "logout" := "ais/logout.do",
    "start" := "ais/start.do",
    "change_module" := "ais/portal/changeModul.do",
    "main" := ""
  ]

  /** Query parameters, in the order the encoder sees them. */
  type Params = seq<(string, string)>

  function BaseUrl(urls: UrlMap, path: string): string
  {
    urls.protocol + "://" + urls.hostname + "/" + path
  }

  /**
   * `url.<name>(params)`: the absolute URL of an endpoint, with the encoded
   * parameters after a '?' when there are any. `urlencode` is the encoder.
   */
  function Resolve(urls: UrlMap, name: string, params: Params, urlencode: Params -> string): (r: Result<string, LookupError>)
    ensures r.Err? <==> name !in Paths
    ensures r.Err? ==> r.error == KeyError(name)
    ensures r.Ok? && params == [] ==> r.value == urls.protocol + "://" + urls.hostname + "/" + Paths[name]
    ensures r.Ok? && params != [] ==>
      var base := urls.protocol + "://" + urls.hostname + "/" + Paths[name];
      |r.value| > |base| && r.value[..|base|] == base && r.value[|base|] == '?' && r.value[|base| + 1..] == urlencode(params)
  {
    if name !in Paths then Err(KeyError(name))
    else
      var url := BaseUrl(urls, Paths[name]);
      if params != [] then Ok(url + "?" + urlencode(params)) else Ok(url)
  }

  /** `login` on host h resolves to https://h/ais/login.do, `main` to https://h/. */
  lemma {:induction false} LoginAndMainUrls(h: string, urlencode: Params -> string)
    ensures Resolve(UrlMap(h, "https"), "login", [], urlencode) == Ok("https://" + h + "/ais/login.do")
    ensures Resolve(UrlMap(h, "https"), "main", [], urlencode) == Ok("https://" + h + "/")
  {
    assert "https" + "://" + h + "/" + "ais/login.do" == "https://" + h + "/ais/login.do";
    assert "https" + "://" + h + "/" + "" == "https://" + h + "/";
  }

  // ----- create_cosign_cookie -----

  datatype Cookie = Cookie(name: string, value: string, domain: string)

  datatype CookieError = InvalidName | InvalidValue | InvalidDomain

  /** `[a-zA-Z0-9._-]` */
  predicate IsTokenChar(c: char)
  {
    ('a' <= c <= 'z') || ('A' <= c <= 'Z') || ('0' <= c <= '9') || c == '.' || c == '_' || c == '-'
  }

  /** `[A-Za-z0-9 +.@-]` */
  predicate IsValueChar(c: char)
  {
    ('a' <= c <= 'z') || ('A' <= c <= 'Z') || ('0' <= c <= '9') || c == ' ' || c == '+' || c == '.' || c == '@' || c == '-'
  }

  predicate IsToken(s: string)
  {
    |s| > 0 && forall i :: 0 <= i < |s| ==> IsTokenChar(s[i])
  }

  /** `s` without one final newline, which Python's `$` lets a full match leave over. */
  function Chomp(s: string): string
  {
    if |s| > 0 && s[|s| - 1] == '\n' then s[..|s| - 1] else s
  }

  predicate IsCosignName(s: string)
  {
    |s| > 7 && s[..7] == "cosign-" && IsToken(s[7..])
  }

  /** `re.match(r'^cosign-[a-zA-Z0-9._-]+$', name)` */
  predicate NameMatches(name: string)
  {
    IsCosignName(name) || IsCosignName(Chomp(name))
  }

  /** `re.match(r'^[a-zA-Z0-9._-]+$', domain)` */
  predicate DomainMatches(domain: string)
  {
    IsToken(domain) || IsToken(Chomp(domain))
  }

  /** `\d+$`: one or more digits, then the end or one final newline. */
  predicate DigitsToEnd(s: string)
  {
    (|s| > 0 && AllDigits(s)) || (|Chomp(s)| > 0 && |Chomp(s)| < |s| && AllDigits(Chomp(s)))
  }

  /** Position of the first '/' in `s`. */
  function FirstSlash(s: string): (r: Option<nat>)
    ensures r.Some? ==> r.value < |s| && s[r.value] == '/' && forall i :: 0 <= i < r.value ==> s[i] != '/'
    ensures r.None? ==> forall i :: 0 <= i < |s| ==> s[i] != '/'
  {
    if s == [] then None
    else if s[0] == '/' then Some(0)
    else match FirstSlash(s[1..])
      case None => None
      case Some(i) => Some(i + 1)
  }

  /**
   * `re.match(r'^([A-Za-z0-9 +.@-]+)(/\d+)$', value)` and its group 1: the
   * first group cannot hold a '/', so it ends at the first '/'.
   */
  function SplitValue(value: string): (r: Option<string>)
    ensures r.Some? ==>
      var p := r.value;
      |p| > 0 && |p| < |value| && value[..|p|] == p && value[|p|] == '/' &&
      (forall i :: 0 <= i < |p| ==> IsValueChar(p[i])) && DigitsToEnd(value[|p| + 1..])
  {
    match FirstSlash(value)
    case None => None
    case Some(i) =>
      var p := value[..i];
      if |p| > 0 && (forall j :: 0 <= j < |p| ==> IsValueChar(p[j])) && DigitsToEnd(value[i + 1..])
      then Some(p) else None
  }

  /** `str.replace(' ', '+')` */
  function SpacesToPlus(s: string): (r: string)
    ensures |r| == |s|
    ensures forall i :: 0 <= i < |s| ==> r[i] == (if s[i] == ' ' then '+' else s[i])
  {
    if s == [] then [] else [if s[0] == ' ' then '+' else s[0]] + SpacesToPlus(s[1..])
  }

  /**
   * `create_cosign_cookie`: the name, then the value, then the domain are
   * checked; the stored value is the part before '/', with '+' for spaces.
   */
  function CreateCosignCookie(name: string, value: string, domain: string): (r: Result<Cookie, CookieError>)
    ensures r == Err(InvalidName) <==> !NameMatches(name)
    ensures r == Err(InvalidValue) <==> NameMatches(name) && SplitValue(value).None?
    ensures r == Err(InvalidDomain) <==> NameMatches(name) && SplitValue(value).Some? && !DomainMatches(domain)
    ensures r.Ok? ==> r.value.name == name && r.value.domain == domain
    ensures r.Ok? ==> |r.value.value| > 0 && forall i :: 0 <= i < |r.value.value| ==> r.value.value[i] != ' ' && r.value.value[i] != '/'
  {
    if !NameMatches(name) then Err(InvalidName)
    else match SplitValue(value)
      case None => Err(InvalidValue)
      case Some(p) =>
        if !DomainMatches(domain) then Err(InvalidDomain)
        else Ok(Cookie(name, SpacesToPlus(p), domain))
  }

  /** A value "<p>/<digits>", optionally followed by one newline, is split at its slash. */
  lemma {:induction false} SplitValueAccepts(p: string, digits: string, newline: bool)
    requires |p| > 0 && forall i :: 0 <= i < |p| ==> IsValueChar(p[i])
    requires |digits| > 0 && AllDigits(digits)
    ensures SplitValue(p + "/" + digits + (if newline then "\n" else "")) == Some(p)
  {
    var v := p + "/" + digits + (if newline then "\n" else "");
    assert forall i :: 0 <= i < |p| ==> v[i] == p[i] && v[i] != '/';
    assert v[|p|] == '/';
    assert FirstSlash(v) == Some(|p|);
    assert v[..|p|] == p;
    var tail := v[|p| + 1..];
    assert tail == digits + (if newline then "\n" else "");
    if newline {
      assert Chomp(tail) == digits;
    }
  }

  /**
   * A well-formed cookie is accepted, keeping name and domain and storing the
   * part before '/'; the value may end in the one newline that `$` allows.
   */
  lemma {:induction false} CookieAccepted(name: string, p: string, digits: string, domain: string, newline: bool)
    requires IsCosignName(name) && IsToken(domain)
    requires |p| > 0 && forall i :: 0 <= i < |p| ==> IsValueChar(p[i])
    requires |digits| > 0 && AllDigits(digits)
    ensures CreateCosignCookie(name, p + "/" + digits + (if newline then "\n" else ""), domain)
      == Ok(Cookie(name, SpacesToPlus(p), domain))
  {
    SplitValueAccepts(p, digits, newline);
  }

  // ----- the AiS2 version string -----

  /** (2, minor, patch, build) as read from "AiS2 verzia 2.x.y.z". */
  type Version = (nat, nat, nat, nat)

  const VersionPrefix: string := "AiS2 verzia 2."

  datatype VersionError = InvalidVersion(text: string)

  /** A '.' followed by a number: the rest after it. */
  function DotNumber(s: string): Option<(nat, string)>
  {
    if |s| > 0 && s[0] == '.' then TakeNumber(s[1..]) else None
  }

  /**
   * `re.match(r'AiS2 verzia (2)\.([0-9]+)\.([0-9]+)\.([0-9]+)', text)`, the
   * groups converted with `int`; only a prefix must match.
   */
  function ParseVersion(text: string): (r: Result<Version, VersionError>)
    ensures r.Ok? ==> r.value.0 == 2
    ensures r.Ok? ==> |text| > |VersionPrefix| && text[..|VersionPrefix|] == VersionPrefix
    ensures r.Err? ==> r.error == InvalidVersion(text)
  {
    var n := |VersionPrefix|;
    if |text| < n || text[..n] != VersionPrefix then Err(InvalidVersion(text))
    else match VersionNumbers(text[n..])
      case None => Err(InvalidVersion(text))
      case Some((minor, patch, build)) => Ok((2, minor, patch, build))
  }

  /** `([0-9]+)\.([0-9]+)\.([0-9]+)` at the start of `s`. */
  function VersionNumbers(s: string): Option<(nat, nat, nat)>
  {
    match TakeNumber(s)
    case None => None
    case Some((minor, r1)) =>
      match DotNumber(r1)
      case None => None
      case Some((patch, r2)) =>
        match DotNumber(r2)
        case None => None
        case Some((build, _)) => Some((minor, patch, build))
  }

  function VersionText(minor: nat, patch: nat, build: nat): string
  {
    VersionPrefix + NatToString(minor) + "." + NatToString(patch) + "." + NatToString(build)
  }

  lemma {:induction false} DotNumberRoundTrip(n: nat, rest: string)
    requires rest == [] || !IsDigit(rest[0])
    ensures DotNumber("." + NatToString(n) + rest) == Some((n, rest))
  {
    DotNumberOf(NatToString(n), rest);
    ValueOfNatToString(n);
  }

  lemma {:induction false} ParseAfterPrefix(s: string)
    ensures VersionNumbers(s).Some? ==>
      var (minor, patch, build) := VersionNumbers(s).value;
      ParseVersion(VersionPrefix + s) == Ok((2, minor, patch, build))
  {
    assert (VersionPrefix + s)[..|VersionPrefix|] == VersionPrefix;
    assert (VersionPrefix + s)[|VersionPrefix|..] == s;
  }

  lemma {:induction false} NumbersRoundTrip(minor: nat, patch: nat, build: nat, rest: string)
    requires rest == [] || !IsDigit(rest[0])
    ensures VersionNumbers(NatToString(minor) + ("." + NatToString(patch) + ("." + NatToString(build) + rest)))
      == Some((minor, patch, build))
  {
    var a, b, c := NatToString(minor), NatToString(patch), NatToString(build);
    VersionNumbersOf(a + ("." + b + ("." + c + rest)), a, b, c, rest);
    ValueOfNatToString(minor);
    ValueOfNatToString(patch);
    ValueOfNatToString(build);
  }

  /** A printed version reads back, whatever non-digit text follows it. */
  lemma {:induction false} VersionRoundTrip(minor: nat, patch: nat, build: nat, rest: string)
    requires rest == [] || !IsDigit(rest[0])
    ensures ParseVersion(VersionText(minor, patch, build) + rest) == Ok((2, minor, patch, build))
  {
    var a, b, c := NatToString(minor), NatToString(patch), NatToString(build);
    var s := a + ("." + b + ("." + c + rest));
    assert VersionText(minor, patch, build) + rest == VersionPrefix + s;
    NumbersRoundTrip(minor, patch, build, rest);
    ParseAfterPrefix(s);
  }

  /**
   * `s` is three runs of digits joined by '.', the last one ending where a
   * digit does not follow.
   */
  predicate VersionDigits(s: string, a: string, b: string, c: string, rest: string)
  {
    && |a| > 0 && AllDigits(a) && |b| > 0 && AllDigits(b) && |c| > 0 && AllDigits(c)
    && (rest == [] || !IsDigit(rest[0]))
    && s == a + ("." + b + ("." + c + rest))
  }

  /** A '.' and any run of digits followed by a non-digit: the run's value and what follows. */
  lemma {:induction false} DotNumberOf(ds: string, rest: string)
    requires |ds| > 0 && AllDigits(ds)
    requires rest == [] || !IsDigit(rest[0])
    ensures DotNumber("." + ds + rest) == Some((Value(ds), rest))
  {
    assert ("." + ds + rest)[1..] == ds + rest;
    DigitsThen(ds, rest);
  }

  /** What `DotNumber` read: a '.', a non-empty digit run, and the rest after it. */
  lemma {:induction false} DotNumberParts(s: string) returns (ds: string, rest: string)
    requires DotNumber(s).Some?
    ensures |ds| > 0 && AllDigits(ds) && s == "." + ds + rest
    ensures DotNumber(s) == Some((Value(ds), rest))
  {
    ds, rest := TakeNumberParts(s[1..]);
    assert s == [s[0]] + s[1..];
  }

  /** Any three digit runs joined by '.' (leading zeros included) are read as their values. */
  lemma {:induction false} VersionNumbersOf(s: string, a: string, b: string, c: string, rest: string)
    requires VersionDigits(s, a, b, c, rest)
    ensures VersionNumbers(s) == Some((Value(a), Value(b), Value(c)))
  {
    DotNumberOf(c, rest);
    DotNumberOf(b, "." + c + rest);
    DigitsThen(a, "." + b + ("." + c + rest));
  }

  /** Whatever `VersionNumbers` reads was three digit runs joined by '.', and it returns their values. */
  lemma {:induction false} VersionNumbersSound(s: string)
    ensures VersionNumbers(s).Some? ==> exists a, b, c, rest ::
      VersionDigits(s, a, b, c, rest) && VersionNumbers(s).value == (Value(a), Value(b), Value(c))
  {
    if VersionNumbers(s).Some? {
      var a, r1 := TakeNumberParts(s);
      var b, r2 := DotNumberParts(r1);
      var c, rest := DotNumberParts(r2);
      assert VersionDigits(s, a, b, c, rest);
    }
  }

  /**
   * `VersionNumbers` yields (x, y, z) exactly when `s` starts with three
   * digit runs joined by '.' whose values are x, y and z.
   */
  lemma {:induction false} VersionNumbersIff(s: string, x: nat, y: nat, z: nat)
    ensures VersionNumbers(s) == Some((x, y, z)) <==> exists a, b, c, rest ::
      VersionDigits(s, a, b, c, rest) && (x, y, z) == (Value(a), Value(b), Value(c))
  {
    VersionNumbersSound(s);
    if a, b, c, rest :| VersionDigits(s, a, b, c, rest) && (x, y, z) == (Value(a), Value(b), Value(c)) {
      VersionNumbersOf(s, a, b, c, rest);
    }
  }

  /**
   * `ParseVersion` succeeds exactly on "AiS2 verzia 2." followed by three
   * digit runs joined by '.', and returns 2 and the three values.
   */
  lemma {:induction false} ParseVersionIff(text: string, v: Version)
    ensures ParseVersion(text) == Ok(v) <==>
      && |VersionPrefix| <= |text| && text[..|VersionPrefix|] == VersionPrefix
      && exists a, b, c, rest :: VersionDigits(text[|VersionPrefix|..], a, b, c, rest)
           && v == (2, Value(a), Value(b), Value(c))
  {
    var n := |VersionPrefix|;
    if |VersionPrefix| <= |text| && text[..n] == VersionPrefix {
      var s := text[n..];
      assert text == VersionPrefix + s;
      ParseAfterPrefix(s);
      VersionNumbersIff(s, v.1, v.2, v.3);
    }
  }

  /** The session's cached state: `_version` and the resolver. */
  class WebUISession {
    const url: UrlMap
    var version: Option<Version>
    /** How many times the version page has been fetched and parsed. */
    ghost var loads: nat

    constructor (hostname: string, protocol: string)
      ensures url == UrlMap(hostname, protocol)
      ensures version == None && loads == 0
    {
      url := UrlMap(hostname, protocol);
      version := None;
      loads := 0;
    }

    /**
     * The `version` property: loads (from `versionText`, the text of the start
     * page's version element) only while nothing is cached, then returns the cache.
     */
    method GetVersion(versionText: string) returns (r: Result<Version, VersionError>)
      modifies this
      ensures old(version).Some? ==> r == Ok(old(version).value) && version == old(version) && loads == old(loads)
      ensures old(version).None? ==> r == ParseVersion(versionText) && loads == old(loads) + 1
      ensures old(version).None? ==> version == if r.Ok? then Some(r.value) else None
    {
      if version.None? {
        loads := loads + 1;
        r := ParseVersion(versionText);
        if r.Ok? {
          version := Some(r.value);
        }
      } else {
        r := Ok(version.value);
      }
    }
  }
}

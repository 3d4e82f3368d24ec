/** The string-building half of `fetchResults` (osstatus.py:62-86): the request
    URL and the message raised when the request fails. The request itself and
    the JSON decoding are not part of this model. */
module Fetcher {
  import opened Wrappers
  import Decimal

  /** The proxy endpoint the request goes to, with its `search` parameter open. */
  const SearchBase: string := "https://jzcbid2qol.execute-api.us-east-2.amazonaws.com/prod?search="

  const PlatformKey: string := "&platform="

  /** The code being looked up: an int, or the text typed at the command line. */
  datatype Code = Number(n: int) | Text(s: string)

  /** `str(code)`. A number's rendering reads back as the number. */
  function CodeText(code: Code): (s: string)
    ensures code.Number? ==> s == Decimal.IntToString(code.n) && Decimal.ParseInt(s) == Some(code.n)
    ensures code.Text? ==> s == code.s
  {
    match code
    case Number(n) => Decimal.IntToStringRoundTrip(n); Decimal.IntToString(n)
    case Text(t) => t
  }

  /** The `&platform=` parameter, present only when a platform is given. */
  function PlatformSuffix(platform: Option<string>): (s: string)
    ensures platform == None <==> s == []
  {
    match platform
    case None => ""
    case Some(p) => PlatformKey + p
  }

  /** The request URL built at osstatus.py:63 and :74. Neither value is
      URL-encoded. */
  function RequestUrl(code: Code, platform: Option<string>): (url: string)
    ensures |url| >= |SearchBase| && url[..|SearchBase|] == SearchBase
    ensures platform == None ==> url[|SearchBase|..] == CodeText(code)
    ensures platform != None ==> url[|SearchBase|..] == CodeText(code) + PlatformKey + platform.value
  {
    SearchBase + CodeText(code) + PlatformSuffix(platform)
  }

  /** The position of the first `c` in `s`, or `|s|` when there is none. */
  function IndexOf(s: string, c: char): (k: nat)
    ensures k <= |s|
    ensures forall i :: 0 <= i < k ==> s[i] != c
    ensures k < |s| ==> s[k] == c
    decreases |s|
  {
    if s == [] then 0 else if s[0] == c then 0 else 1 + IndexOf(s[1..], c)
  }

  /** The query split at its first `&`: the search term before it, and a
      `&platform=` parameter after it. This ignores `#`, `+`, `%`-escapes and
      any later `&`, which a full query parser would handle. */
  function ParseRequestUrl(url: string): Option<(string, Option<string>)>
  {
    if |url| < |SearchBase| || url[..|SearchBase|] != SearchBase then None
    else
      var query := url[|SearchBase|..];
      var k := IndexOf(query, '&');
      if k == |query| then Some((query, None))
      else if |query| - k >= |PlatformKey| && query[k..k + |PlatformKey|] == PlatformKey then
        Some((query[..k], Some(query[k + |PlatformKey|..])))
      else None
  }

  /** The first `&` of `a + b` is where `b` starts, when `a` has none and `b`
      starts with one or is empty. */
  lemma IndexOfAfter(a: string, b: string)
    requires '&' !in a
    requires b == [] || b[0] == '&'
    ensures IndexOf(a + b, '&') == |a|
  {
    if b != [] {
      assert (a + b)[|a|] == b[0];
    }
  }

  /** A search term without `&` and the platform are both recovered from the
      URL. */
  lemma {:induction false} RequestUrlRoundTrip(code: Code, platform: Option<string>)
    requires '&' !in CodeText(code)
    ensures ParseRequestUrl(RequestUrl(code, platform)) == Some((CodeText(code), platform))
  {
    var url := RequestUrl(code, platform);
    var text := CodeText(code);
    var suffix := PlatformSuffix(platform);
    var query := url[|SearchBase|..];
    assert query == text + suffix;
    IndexOfAfter(text, suffix);
    if platform != None {
      assert query[|text|..|text| + |PlatformKey|] == PlatformKey;
      assert query[..|text|] == text;
      assert query[|text| + |PlatformKey|..] == platform.value;
    }
  }

  /** Numeric codes never contain `&`, so their URLs always read back. */
  lemma NumberUrlRoundTrip(n: int, platform: Option<string>)
    ensures ParseRequestUrl(RequestUrl(Number(n), platform)) == Some((Decimal.IntToString(n), platform))
  {
    if '&' in Decimal.IntToString(n) {
      Decimal.IntToStringAlphabet(n, '&');
    }
    RequestUrlRoundTrip(Number(n), platform);
  }

  /** Because nothing is encoded, a search term holding `&platform=` gives
      the same URL as a different, shorter term with a platform filter. */
  lemma UnencodedTermsCollide(term: string, platform: string)
    ensures Text(term + PlatformKey + platform) != Text(term)
    ensures RequestUrl(Text(term + PlatformKey + platform), None) == RequestUrl(Text(term), Some(platform))
  {
    assert |term + PlatformKey + platform| > |term|;
    assert SearchBase + (term + PlatformKey + platform) + "" == SearchBase + term + (PlatformKey + platform);
  }

  const ConnectPrefix: string := "Unable to connect to server: "

  const StatusPrefix: string := "Server returned HTTP status code: "

  /** The attributes of a URLError that fetchResults inspects: `reason`,
      already rendered with `str`, and the HTTP status `code`. Each may be
      absent. */
  datatype UrlError = UrlError(reason: Option<string>, code: Option<int>)

  /** The message of the exception fetchResults raises for a URLError, or
      `None` when the error has neither attribute and fetchResults falls
      through without raising. A reason takes precedence over a code. */
  function FailureMessage(e: UrlError): (m: Option<string>)
    ensures m == None <==> e.reason == None && e.code == None
  {
    match e.reason
    case Some(r) => Some(ConnectPrefix + r)
    case None =>
      match e.code
      case Some(c) => Some(StatusPrefix + Decimal.IntToString(c))
      case None => None
  }

  /** What a reader of the message learns from it. */
  datatype Failure = ConnectFailed(reason: string) | HttpStatus(status: int) | Unrecognized

  function ClassifyMessage(m: string): Failure
  {
    if |m| >= |ConnectPrefix| && m[..|ConnectPrefix|] == ConnectPrefix then
      ConnectFailed(m[|ConnectPrefix|..])
    else if |m| >= |StatusPrefix| && m[..|StatusPrefix|] == StatusPrefix then
      match Decimal.ParseInt(m[|StatusPrefix|..])
      case Some(c) => HttpStatus(c)
      case None => Unrecognized
    else Unrecognized
  }

  /** The connection message gives back the reason it carries. */
  lemma ConnectMessageClassified(r: string)
    ensures ClassifyMessage(ConnectPrefix + r) == ConnectFailed(r)
  {
    var m := ConnectPrefix + r;
    assert m[..|ConnectPrefix|] == ConnectPrefix;
    assert m[|ConnectPrefix|..] == r;
  }

  /** The status message gives back the status code exactly. */
  lemma StatusMessageClassified(c: int)
    ensures ClassifyMessage(StatusPrefix + Decimal.IntToString(c)) == HttpStatus(c)
  {
    var digits := Decimal.IntToString(c);
    var m := StatusPrefix + digits;
    assert m[0] != ConnectPrefix[0];
    assert m[..|StatusPrefix|] == StatusPrefix;
    assert m[|StatusPrefix|..] == digits;
    Decimal.IntToStringRoundTrip(c);
  }

  /** Each raised message names its cause: the reason when the error has one,
      otherwise the status code, which reads back exactly. */
  lemma {:induction false} FailureMessageClassified(e: UrlError)
    requires FailureMessage(e) != None
    ensures e.reason != None ==> ClassifyMessage(FailureMessage(e).value) == ConnectFailed(e.reason.value)
    ensures e.reason == None ==> ClassifyMessage(FailureMessage(e).value) == HttpStatus(e.code.value)
  {
    if e.reason != None {
      ConnectMessageClassified(e.reason.value);
    } else {
      StatusMessageClassified(e.code.value);
    }
  }

  /** A failed request as urllib2 reports it: a server that could not be
      reached, with its reason, or an HTTP error response, with its status
      code and status message. */
  datatype RequestFailure = Unreachable(why: string) | HttpFailure(status: int, msg: string)

  /** The attributes the handler tests. A URLError always has `reason`. An
      HTTPError has `code`, and from Python 2.7.3 also a `reason` property
      that returns the status message. */
  function Attributes(f: RequestFailure): (e: UrlError)
    ensures e.reason != None
    ensures e.code != None <==> f.HttpFailure?
  {
    match f
    case Unreachable(why) => UrlError(Some(why), None)
    case HttpFailure(status, msg) => UrlError(Some(msg), Some(status))
  }

  /** As written, the `reason` test comes first and every urllib2 failure
      passes it, so the status code branch is never taken and no failure is
      reported as an HTTP status. */
  lemma {:induction false} StatusNeverReported(f: RequestFailure)
    ensures FailureMessage(Attributes(f)) != None
    ensures ClassifyMessage(FailureMessage(Attributes(f)).value).ConnectFailed?
  {
    FailureMessageClassified(Attributes(f));
  }

  /** An HTTP 500 response is reported as a failure to connect. */
  lemma InternalServerErrorMisreported()
    ensures FailureMessage(Attributes(HttpFailure(500, "Internal Server Error")))
            == Some("Unable to connect to server: Internal Server Error")
  {
    assert ConnectPrefix + "Internal Server Error" == "Unable to connect to server: Internal Server Error";
  }

  /** The handler with the `code` test first: an HTTP error response is
      reported with its status code, any other failure with its reason. */
  function FailureMessageCodeFirst(e: UrlError): (m: Option<string>)
    ensures m == None <==> e.reason == None && e.code == None
  {
    match e.code
    case Some(c) => Some(StatusPrefix + Decimal.IntToString(c))
    case None =>
      match e.reason
      case Some(r) => Some(ConnectPrefix + r)
      case None => None
  }

  /** With the `code` test first, every urllib2 failure is reported by its
      cause: the status code of an HTTP error, the reason of any other. */
  lemma {:induction false} CodeFirstNamesCause(f: RequestFailure)
    ensures FailureMessageCodeFirst(Attributes(f)) != None
    ensures f.HttpFailure? ==> ClassifyMessage(FailureMessageCodeFirst(Attributes(f)).value) == HttpStatus(f.status)
    ensures f.Unreachable? ==> ClassifyMessage(FailureMessageCodeFirst(Attributes(f)).value) == ConnectFailed(f.why)
  {
    match f
    case Unreachable(why) => ConnectMessageClassified(why);
    case HttpFailure(status, _) => StatusMessageClassified(status);
  }
}

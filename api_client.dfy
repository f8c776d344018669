/** The HTTP client set-up: the CSRF cookie reader, the request interceptor
    that forwards the token, and the single-lead lookup. */
module ApiClient {
  import opened Basics
  import opened Client
  import Text

  /** The cookie piece is `name=...` after trimming. */
  predicate IsCookieOf(piece: string, name: string)
  {
    Text.StartsWith(Text.Trim(piece, Text.Js), name + "=")
  }

  /** The value part of a matching piece. */
  function ValuePart(piece: string, name: string): string
    requires IsCookieOf(piece, name)
  {
    Text.Trim(piece, Text.Js)[|name| + 1..]
  }

  /** The decoded value of the first of `pieces` that is a cookie `name`. */
  function FirstCookie(pieces: seq<string>, name: string, decode: string -> string): Option<string>
  {
    if pieces == [] then None
    else if IsCookieOf(pieces[0], name) then Some(decode(ValuePart(pieces[0], name)))
    else FirstCookie(pieces[1..], name, decode)
  }

  /** What `getCookie(name)` returns for the cookie string `cookies`, with
      `decode` standing for `decodeURIComponent`. */
  function CookieValue(cookies: string, name: string, decode: string -> string): Option<string>
  {
    if cookies == "" then None else FirstCookie(Text.Split(cookies, ';'), name, decode)
  }

  /** `getCookie`: a scan over the `;`-separated pieces that stops at the first match. */
  method GetCookie(cookies: string, name: string, decode: string -> string) returns (cookieValue: Option<string>)
    ensures cookieValue == CookieValue(cookies, name, decode)
  {
    cookieValue := None;
    if cookies != "" {
      var pieces := Text.Split(cookies, ';');
      var i := 0;
      while i < |pieces|
        invariant 0 <= i <= |pieces|
        invariant cookieValue == None
        invariant FirstCookie(pieces[i..], name, decode) == FirstCookie(pieces, name, decode)
      {
        var cookie := Text.Trim(pieces[i], Text.Js);
        if Text.StartsWith(cookie, name + "=") {
          cookieValue := Some(decode(cookie[|name| + 1..]));
          break;
        }
        assert pieces[i..][1..] == pieces[i + 1..];
        i := i + 1;
      }
    }
  }

  /** An empty cookie string gives null. */
  lemma EmptyCookiesGiveNull(name: string, decode: string -> string)
    ensures CookieValue("", name, decode).None?
  {
  }

  /** The first matching piece decides; pieces before it do not match and later
      duplicates are ignored. */
  lemma {:induction false} FirstMatchWins(pieces: seq<string>, name: string, decode: string -> string, k: nat)
    requires k < |pieces| && IsCookieOf(pieces[k], name)
    requires forall j :: 0 <= j < k ==> !IsCookieOf(pieces[j], name)
    ensures FirstCookie(pieces, name, decode) == Some(decode(ValuePart(pieces[k], name)))
  {
    if k > 0 {
      FirstMatchWins(pieces[1..], name, decode, k - 1);
    }
  }

  /** With no matching piece the result is null. */
  lemma {:induction false} NoMatchGivesNull(pieces: seq<string>, name: string, decode: string -> string)
    requires forall j :: 0 <= j < |pieces| ==> !IsCookieOf(pieces[j], name)
    ensures FirstCookie(pieces, name, decode).None?
  {
    if pieces != [] {
      NoMatchGivesNull(pieces[1..], name, decode);
    }
  }

  /** A cookie whose name only begins with `name` (say `csrftokenX`) is not it. */
  lemma LongerNameDoesNotMatch(piece: string, name: string, x: char)
    requires x != '=' && Text.StartsWith(Text.Trim(piece, Text.Js), name + [x])
    ensures !IsCookieOf(piece, name)
  {
    var c := Text.Trim(piece, Text.Js);
    assert c[|name|] == (name + [x])[|name|];
  }

  /** The request headers, as a dictionary. */
  type Headers = map<string, string>

  /** The interceptor: adds `X-CSRFToken` when the token is a non-empty string. */
  function Intercept(headers: Headers, token: Option<string>): (r: Headers)
    ensures forall k :: k != "X-CSRFToken" ==> (k in r <==> k in headers)
    ensures forall k :: k != "X-CSRFToken" && k in headers ==> r[k] == headers[k]
    ensures TruthyStr(token) ==> "X-CSRFToken" in r && r["X-CSRFToken"] == token.value
    ensures !TruthyStr(token) ==> r == headers
  {
    if token.Some? && token.value != "" then headers["X-CSRFToken" := token.value] else headers
  }

  /** `getLead(id)`: the first lead whose id equals `parseInt(id)`; a string
      that does not parse (`parsed == None`, NaN) matches nothing. */
  function GetLead(leads: seq<Lead>, parsed: Option<int>): (r: Option<Lead>)
    ensures r.Some? ==> r.value in leads && parsed == Some(r.value.id)
    ensures r.Some? ==> exists i :: 0 <= i < |leads| && leads[i] == r.value && forall j :: 0 <= j < i ==> leads[j].id != r.value.id
    ensures r.None? <==> parsed.None? || forall i :: 0 <= i < |leads| ==> leads[i].id != parsed.value
  {
    First(leads, (l: Lead) => parsed.Some? && l.id == parsed.value)
  }
}

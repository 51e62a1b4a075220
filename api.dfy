/**
 * The REST client wrapper `apiFetch` (`lib/api.ts`): how the request URL and
 * headers are built, which token is sent, how an error response becomes an
 * error message, how a successful body is decoded, and the rule that a 401
 * in the browser clears the stored token and asks for a login.
 *
 * The network is a parameter: the call receives the response that `fetch`
 * produced for the request it returns. `JSON.parse` and `JSON.stringify` are
 * parameters too, over an abstract JSON value.
 */
module Api {
  import opened Wrappers
  import opened Text
  import opened JsNumbers

  /** The base URL used when `NEXT_PUBLIC_API_BASE_URL` is not set. */
  const DefaultBaseUrl: string := "/api"

  /** `getApiBaseUrl()`, with the environment variable as a parameter. */
  function ApiBaseUrl(env: Option<string>): (r: string)
    ensures env.None? ==> r == DefaultBaseUrl
    ensures env.Some? ==> r == env.value
  {
    match env
    case Some(v) => v
    case None => DefaultBaseUrl
  }

  /** `base.replace(/\/+$/, "")`: every trailing slash removed. */
  function StripTrailingSlashes(base: string): (r: string)
    ensures |r| <= |base| && r == base[..|r|]
    ensures r == [] || r[|r| - 1] != '/'
    ensures forall i :: |r| <= i < |base| ==> base[i] == '/'
  {
    if base != [] && base[|base| - 1] == '/' then StripTrailingSlashes(base[..|base| - 1]) else base
  }

  /** The request URL of `apiFetch(path)` against the base URL `base`. */
  function JoinUrl(base: string, path: string): string
  {
    if StartsWith(path, "http") then path
    else StripTrailingSlashes(base) + (if StartsWith(path, "/") then "" else "/") + path
  }

  /** A path starting with `http` is used as it is; any other path is appended
      to the base without its trailing slashes, with exactly one `/` between
      them whether or not the path brought its own. */
  lemma {:induction false} JoinUrlSpec(base: string, path: string)
    ensures StartsWith(path, "http") ==> JoinUrl(base, path) == path
    ensures !StartsWith(path, "http") ==>
              var b := StripTrailingSlashes(base);
              && (b == [] || b[|b| - 1] != '/')
              && JoinUrl(base, path) == b + "/" + (if StartsWith(path, "/") then path[1..] else path)
  {
    if !StartsWith(path, "http") && StartsWith(path, "/") {
      assert path == "/" + path[1..];
    }
  }

  /** Trailing slashes on the base never change the URL. */
  lemma {:induction false} JoinUrlIgnoresTrailingSlash(base: string, path: string)
    ensures JoinUrl(base + "/", path) == JoinUrl(base, path)
  {
    assert (base + "/")[..|base|] == base;
  }

  /** The `token` option of `apiFetch`: `string | null`, or left out. */
  datatype TokenArg = TokenAbsent | TokenNull | Token(value: string)

  /** `init.token ?? storedToken` */
  function ChooseToken(arg: TokenArg, stored: Option<string>): Option<string>
  {
    match arg
    case Token(t) => Some(t)
    case _ => stored
  }

  /** An explicit token always wins, even an empty one; `token: null` falls
      back to the stored token exactly as leaving it out does. */
  lemma {:induction false} ChooseTokenSpec(arg: TokenArg, stored: Option<string>)
    ensures arg.Token? ==> ChooseToken(arg, stored) == Some(arg.value)
    ensures ChooseToken(TokenNull, stored) == ChooseToken(TokenAbsent, stored) == stored
  {
  }

  /** Header names are case-insensitive; entries are kept under the
      lower-cased name. */
  const AcceptName: string := "accept"
  const AuthorizationName: string := "authorization"

  lemma {:induction false} LowerHeaderNames()
    ensures Lower("Accept") == AcceptName && Lower("Authorization") == AuthorizationName
  {
    var a := Lower("Accept");
    assert a[0] == 'a' && a[1] == 'c' && a[2] == 'c' && a[3] == 'e' && a[4] == 'p' && a[5] == 't';
    var z := Lower("Authorization");
    assert z[0] == 'a' && z[1] == 'u' && z[2] == 't' && z[3] == 'h' && z[4] == 'o' && z[5] == 'r' && z[6] == 'i';
    assert z[7] == 'z' && z[8] == 'a' && z[9] == 't' && z[10] == 'i' && z[11] == 'o' && z[12] == 'n';
  }

  // ---------------------------------------------------------------------
  // Header values as the platform `Headers` object takes them (the Fetch
  // standard's value normalisation and validity rules)

  /** HTTP whitespace: tab, line feed, carriage return and space. */
  predicate IsHttpSpace(c: char)
  {
    c == '\t' || c == '\n' || c == '\r' || c == ' '
  }

  /** Leading HTTP whitespace removed. */
  function StripHttpStart(v: string): (r: string)
    ensures |r| <= |v| && r == v[|v| - |r|..]
    ensures r == [] || !IsHttpSpace(r[0])
    ensures forall i :: 0 <= i < |v| - |r| ==> IsHttpSpace(v[i])
  {
    if v != [] && IsHttpSpace(v[0]) then StripHttpStart(v[1..]) else v
  }

  /** Trailing HTTP whitespace removed. */
  function StripHttpEnd(v: string): (r: string)
    ensures |r| <= |v| && r == v[..|r|]
    ensures r == [] || !IsHttpSpace(r[|r| - 1])
    ensures forall i :: |r| <= i < |v| ==> IsHttpSpace(v[i])
  {
    if v != [] && IsHttpSpace(v[|v| - 1]) then StripHttpEnd(v[..|v| - 1]) else v
  }

  /** The value `headers.set` and `new Headers` store: the given one without
      leading or trailing HTTP whitespace. */
  function NormalizeHeaderValue(v: string): string
  {
    StripHttpEnd(StripHttpStart(v))
  }

  /** `r` is the slice of `v` starting at `a`, bare of HTTP whitespace at
      both ends, and everything of `v` outside it is HTTP whitespace. */
  ghost predicate HttpStripped(v: string, a: nat, r: string)
  {
    && a + |r| <= |v| && r == v[a..a + |r|]
    && (forall i :: 0 <= i < a ==> IsHttpSpace(v[i]))
    && (forall i :: a + |r| <= i < |v| ==> IsHttpSpace(v[i]))
    && (r == [] || (!IsHttpSpace(r[0]) && !IsHttpSpace(r[|r| - 1])))
  }

  /** Normalising keeps a slice of the value, cuts off only HTTP whitespace,
      and leaves no HTTP whitespace at either end. */
  lemma {:induction false} NormalizeHeaderValueSpec(v: string)
    ensures HttpStripped(v, |v| - |StripHttpStart(v)|, NormalizeHeaderValue(v))
  {
    var t := StripHttpStart(v);
    var r := StripHttpEnd(t);
    StrippedSlice(v, t, r);
    assert NormalizeHeaderValue(v) == r;
  }

  /** The end-stripped start-stripped value is a bare slice. */
  lemma {:induction false} StrippedSlice(v: string, t: string, r: string)
    requires |t| <= |v| && t == v[|v| - |t|..]
    requires forall i :: 0 <= i < |v| - |t| ==> IsHttpSpace(v[i])
    requires t == [] || !IsHttpSpace(t[0])
    requires |r| <= |t| && r == t[..|r|]
    requires r == [] || !IsHttpSpace(r[|r| - 1])
    requires forall i :: |r| <= i < |t| ==> IsHttpSpace(t[i])
    ensures HttpStripped(v, |v| - |t|, r)
  {
    var a := |v| - |t|;
    forall i | a + |r| <= i < |v| ensures IsHttpSpace(v[i]) {
      assert v[i] == t[i - a];
    }
    if r != [] {
      assert r[0] == t[0];
    }
  }

  /** A character the byte-string conversion of header names and values
      accepts. */
  predicate IsByteChar(c: char)
  {
    c as int <= 0xFF
  }

  /** A value `set` and `new Headers` accept: every character fits in a
      byte, and the normalised value holds no NUL, line feed or carriage
      return. Any other value makes them throw a `TypeError`. */
  predicate ValidHeaderValue(v: string)
  {
    && (forall i :: 0 <= i < |v| ==> IsByteChar(v[i]))
    && var n := NormalizeHeaderValue(v);
       forall i :: 0 <= i < |n| ==> n[i] != '\0' && n[i] != '\n' && n[i] != '\r'
  }

  /** `tchar` of RFC 9110, section 5.6.2: the characters of a header name. */
  predicate IsTokenChar(c: char)
  {
    || ('a' <= c <= 'z') || ('A' <= c <= 'Z') || ('0' <= c <= '9')
    || c in "!#$%&'*+-.^_`|~"
  }

  /** A header name `set` and `new Headers` accept. */
  predicate ValidHeaderName(name: string)
  {
    name != [] && forall i :: 0 <= i < |name| ==> IsTokenChar(name[i])
  }

  /** `HeadersInit` as `new Headers` reads it: the name/value pairs in
      order (a record's own properties, or an array of pairs, in which a
      name may repeat). */
  type HeaderPairs = seq<(string, string)>

  /** A header list `new Headers(init)` accepts without throwing. */
  predicate ValidHeaders(init: HeaderPairs)
  {
    forall i :: 0 <= i < |init| ==> ValidHeaderName(init[i].0) && ValidHeaderValue(init[i].1)
  }

  /** `values.join(", ")`: how a header given several values reads. */
  function JoinComma(values: seq<string>): string
  {
    if values == [] then ""
    else if |values| == 1 then values[0]
    else JoinComma(values[..|values| - 1]) + ", " + values[|values| - 1]
  }

  lemma {:induction false} JoinCommaSnoc(values: seq<string>, v: string)
    ensures JoinComma(values + [v]) == if values == [] then v else JoinComma(values) + ", " + v
  {
    assert (values + [v])[..|values|] == values;
  }

  /** The normalised values `init` gives for the lower-case name `name`, in
      the order they appear. */
  function ValuesFor(init: HeaderPairs, name: string): seq<string>
  {
    if init == [] then []
    else (if Lower(init[0].0) == name then [NormalizeHeaderValue(init[0].1)] else [])
         + ValuesFor(init[1..], name)
  }

  lemma {:induction false} ValuesForSnoc(init: HeaderPairs)
    requires init != []
    ensures forall name :: ValuesFor(init, name) ==
              ValuesFor(init[..|init| - 1], name)
              + (if Lower(init[|init| - 1].0) == name then [NormalizeHeaderValue(init[|init| - 1].1)] else [])
  {
    if |init| > 1 {
      ValuesForSnoc(init[1..]);
      assert init[1..][..|init| - 2] == init[..|init| - 1][1..];
      assert init[..|init| - 1][0] == init[0];
    } else {
      assert init[1..] == [] && init[..0] == [];
    }
  }

  /** A name given anywhere in `init` has a value. */
  lemma {:induction false} ValuesForHas(init: HeaderPairs, i: nat, name: string)
    requires i < |init| && Lower(init[i].0) == name
    ensures ValuesFor(init, name) != []
  {
    if i > 0 {
      ValuesForHas(init[1..], i - 1, name);
    }
  }

  /** `headers.append(name, value)` as `get` then reads the header: names
      are case-insensitive, and a further value for a name is joined to the
      earlier ones with ", ". */
  function AppendHeader(m: map<string, string>, name: string, value: string): map<string, string>
  {
    var k := Lower(name);
    var v := NormalizeHeaderValue(value);
    m[k := if k in m then m[k] + ", " + v else v]
  }

  /** The header list `new Headers(init)` holds: each pair appended in
      turn. A name is present exactly when `init` gives it in some case, and
      its value is all the values given for it, normalised and in order. */
  function NormalizeHeaders(init: HeaderPairs): (r: map<string, string>)
    ensures forall k :: k in r <==> ValuesFor(init, k) != []
    ensures forall k :: k in r ==> r[k] == JoinComma(ValuesFor(init, k))
  {
    if init == [] then map[]
    else
      var prev := NormalizeHeaders(init[..|init| - 1]);
      AppendCollects(init, prev);
      AppendHeader(prev, init[|init| - 1].0, init[|init| - 1].1)
  }

  /** Appending the last pair to the list built from the others gives the
      list `NormalizeHeaders` promises for all of them. */
  lemma {:induction false} AppendCollects(init: HeaderPairs, prev: map<string, string>)
    requires init != []
    requires forall k :: k in prev <==> ValuesFor(init[..|init| - 1], k) != []
    requires forall k :: k in prev ==> prev[k] == JoinComma(ValuesFor(init[..|init| - 1], k))
    ensures var r := AppendHeader(prev, init[|init| - 1].0, init[|init| - 1].1);
            && (forall k :: k in r <==> ValuesFor(init, k) != [])
            && (forall k :: k in r ==> r[k] == JoinComma(ValuesFor(init, k)))
  {
    var last := init[|init| - 1];
    var name := Lower(last.0);
    var v := NormalizeHeaderValue(last.1);
    var r := AppendHeader(prev, last.0, last.1);
    ValuesForSnoc(init);
    forall k
      ensures k in r <==> ValuesFor(init, k) != []
      ensures k in r ==> r[k] == JoinComma(ValuesFor(init, k))
    {
      var before := ValuesFor(init[..|init| - 1], k);
      if k == name {
        assert ValuesFor(init, k) == before + [v];
        JoinCommaSnoc(before, v);
        assert r[k] == if k in prev then prev[k] + ", " + v else v;
      } else {
        assert ValuesFor(init, k) == before;
        assert k in r <==> k in prev;
      }
    }
  }

  /** Every name `new Headers` keeps is lower case, so no two differ only
      in case. */
  lemma {:induction false} NormalizedNamesLowerCase(init: HeaderPairs)
    ensures forall k :: k in NormalizeHeaders(init) ==> Lower(k) == k
  {
    if init != [] {
      NormalizedNamesLowerCase(init[..|init| - 1]);
      LowerIdempotent(init[|init| - 1].0);
    }
  }

  /** A `Headers` object: the header list, mutated in place, keyed by
      lower-cased name. */
  class Headers {
    var entries: map<string, string>

    /** `new Headers(init)`. The platform throws for an invalid list;
        `ApiFetch` models that outcome before it builds the object. */
    constructor (init: HeaderPairs)
      requires ValidHeaders(init)
      ensures entries == NormalizeHeaders(init)
    {
      entries := NormalizeHeaders(init);
    }

    /** `headers.has(name)` */
    function Has(name: string): bool
      reads this
    {
      Lower(name) in entries
    }

    /** `headers.set(name, value)`: replaces any earlier value with the
        normalised one; `ok` is false where the platform throws, and then
        nothing changes. */
    method Set(name: string, value: string) returns (ok: bool)
      modifies this
      ensures ok <==> ValidHeaderName(name) && ValidHeaderValue(value)
      ensures ok ==> entries == old(entries)[Lower(name) := NormalizeHeaderValue(value)]
      ensures !ok ==> entries == old(entries)
    {
      ok := ValidHeaderName(name) && ValidHeaderValue(value);
      if ok {
        entries := entries[Lower(name) := NormalizeHeaderValue(value)];
      }
    }
  }

  /** The value `apiFetch` gives the `Authorization` header. */
  function BearerValue(token: string): string
  {
    "Bearer " + token
  }

  /** Whether the token leads to no `Authorization` header, or to one the
      platform accepts. */
  predicate BearerAccepted(token: Option<string>)
  {
    !(token.Some? && token.value != []) || ValidHeaderValue(BearerValue(token.value))
  }

  /** The headers `apiFetch` sends, given the caller's headers (already
      normalised by `new Headers`) and the token. */
  function RequestHeaders(init: map<string, string>, token: Option<string>): (r: map<string, string>)
    ensures AcceptName in r
    ensures AcceptName in init ==> r[AcceptName] == init[AcceptName]
    ensures AcceptName !in init ==> r[AcceptName] == "application/json"
    ensures token.Some? && token.value != [] ==>
              AuthorizationName in r && r[AuthorizationName] == NormalizeHeaderValue(BearerValue(token.value))
    ensures !(token.Some? && token.value != []) ==>
              (AuthorizationName in r <==> AuthorizationName in init)
              && (AuthorizationName in init ==> r[AuthorizationName] == init[AuthorizationName])
    ensures forall k :: k != AcceptName && k != AuthorizationName ==>
              (k in r <==> k in init) && (k in init ==> r[k] == init[k])
  {
    var withAccept := if AcceptName in init then init else init[AcceptName := "application/json"];
    if token.Some? && token.value != [] then
      withAccept[AuthorizationName := NormalizeHeaderValue(BearerValue(token.value))]
    else withAccept
  }

  /** The request never carries two headers whose names differ only in
      case, so a caller's `Accept` or `Authorization`, written in any case,
      is the entry `apiFetch` tests and replaces. */
  lemma {:induction false} RequestHeaderNamesLowerCase(init: HeaderPairs, token: Option<string>)
    ensures forall k :: k in RequestHeaders(NormalizeHeaders(init), token) ==> Lower(k) == k
  {
    NormalizedNamesLowerCase(init);
    LowerHeaderNames();
    LowerIdempotent("Accept");
    LowerIdempotent("Authorization");
  }

  /** A caller's `Accept` header, in any case, is sent with the values the
      caller gave, and `application/json` is not added beside it. */
  lemma {:induction false} CallerAcceptKept(init: HeaderPairs, token: Option<string>, i: nat)
    requires i < |init| && Lower(init[i].0) == AcceptName
    ensures RequestHeaders(NormalizeHeaders(init), token)[AcceptName] == JoinComma(ValuesFor(init, AcceptName))
  {
    ValuesForHas(init, i, AcceptName);
  }

  /** `apiFetch(path, { headers: { Accept: "text/plain" } })` asks for
      plain text only. */
  lemma {:induction false} PlainTextAcceptSent(token: Option<string>)
    ensures RequestHeaders(NormalizeHeaders([("Accept", "text/plain")]), token)[AcceptName] == "text/plain"
  {
    var init := [("Accept", "text/plain")];
    LowerHeaderNames();
    PlainValueValid("text/plain");
    CallerAcceptKept(init, token, 0);
    assert ValuesFor(init, AcceptName) == ["text/plain"];
  }

  /** The two header names `apiFetch` sets are valid. */
  lemma {:induction false} FixedHeaderNamesValid()
    ensures ValidHeaderName("Accept") && ValidHeaderName("Authorization")
  {
    LettersAreToken("Accept");
    LettersAreToken("Authorization");
  }

  /** A non-empty name of ASCII letters is a valid header name. */
  lemma {:induction false} LettersAreToken(name: string)
    requires name != []
    requires forall i :: 0 <= i < |name| ==> 'a' <= name[i] <= 'z' || 'A' <= name[i] <= 'Z'
    ensures ValidHeaderName(name)
  {
  }

  /** The `Accept` value `apiFetch` sets is valid and already normal. */
  lemma {:induction false} AcceptValueValid()
    ensures ValidHeaderValue("application/json")
    ensures NormalizeHeaderValue("application/json") == "application/json"
  {
    PlainValueValid("application/json");
  }

  /** A non-empty value of lower-case letters and `/` is valid and already
      normal. */
  lemma {:induction false} PlainValueValid(v: string)
    requires v != []
    requires forall i :: 0 <= i < |v| ==> 'a' <= v[i] <= 'z' || v[i] == '/'
    ensures ValidHeaderValue(v) && NormalizeHeaderValue(v) == v
  {
    assert !IsHttpSpace(v[0]) && !IsHttpSpace(v[|v| - 1]);
    assert StripHttpStart(v) == v;
    assert StripHttpEnd(v) == v;
    assert NormalizeHeaderValue(v) == v;
    assert forall i :: 0 <= i < |v| ==> IsByteChar(v[i]) && v[i] != '\0' && v[i] != '\n' && v[i] != '\r';
  }

  /** Lines 45-47 of `apiFetch`: default `Accept` and set `Authorization`.
      `ok` is false where setting `Authorization` throws; `Accept` has
      been set by then. */
  method PrepareHeaders(h: Headers, token: Option<string>) returns (ok: bool)
    modifies h
    ensures ok <==> BearerAccepted(token)
    ensures ok ==> h.entries == RequestHeaders(old(h.entries), token)
    ensures !ok ==> h.entries == RequestHeaders(old(h.entries), None)
  {
    LowerHeaderNames();
    FixedHeaderNamesValid();
    AcceptValueValid();
    if !h.Has("Accept") {
      var accepted := h.Set("Accept", "application/json");
      assert accepted;
    }
    ok := true;
    if token.Some? && token.value != [] {
      ok := h.Set("Authorization", BearerValue(token.value));
    }
  }

  /** Trailing whitespace of a stored token is not sent: the bearer value
      ends at the token's last non-whitespace character. */
  lemma {:induction false} BearerDropsTrailingSpace(t: string, tail: string)
    requires t != [] && !IsHttpSpace(t[|t| - 1])
    requires forall i :: 0 <= i < |tail| ==> IsHttpSpace(tail[i])
    ensures NormalizeHeaderValue(BearerValue(t + tail)) == BearerValue(t)
  {
    var v := BearerValue(t + tail);
    var b := BearerValue(t);
    assert v == b + tail;
    assert StripHttpStart(v) == v;
    var r := StripHttpEnd(v);
    assert v[|b| - 1] == t[|t| - 1];
    assert forall i :: |b| <= i < |v| ==> v[i] == tail[i - |b|];
    assert |r| == |b|;
    assert r == v[..|b|] == b;
  }

  /** A token with a character outside the byte range makes `apiFetch`
      throw before any request is sent. */
  lemma {:induction false} WideCharTokenRejected(t: string, i: int)
    requires 0 <= i < |t| && !IsByteChar(t[i])
    ensures !BearerAccepted(Some(t))
  {
    assert BearerValue(t)[7 + i] == t[i];
  }

  /** So does a token with a line break followed, later, by anything other
      than whitespace. */
  lemma {:induction false} InnerNewlineTokenRejected(t: string, i: int, j: int)
    requires 0 <= i < j < |t| && t[i] == '\n' && !IsHttpSpace(t[j])
    ensures !BearerAccepted(Some(t))
  {
    var v := BearerValue(t);
    assert StripHttpStart(v) == v;
    assert v[7 + i] == t[i] && v[7 + j] == t[j];
    var n := NormalizeHeaderValue(v);
    assert n == StripHttpEnd(v);
    EndStripKeeps(v, n, 7 + i, 7 + j);
    assert n[7 + i] == '\n';
  }

  /** Stripping the end keeps every character before a non-whitespace one. */
  lemma {:induction false} EndStripKeeps(v: string, r: string, k: int, m: int)
    requires |r| <= |v| && r == v[..|r|]
    requires forall i :: |r| <= i < |v| ==> IsHttpSpace(v[i])
    requires 0 <= k < m < |v| && !IsHttpSpace(v[m])
    ensures k < |r| && r[k] == v[k]
  {
  }


  /** An explicit empty token sends no `Authorization` header of its own, even
      when a token is stored. */
  lemma {:induction false} EmptyTokenSendsNoBearer(init: map<string, string>, stored: Option<string>)
    requires AuthorizationName !in init
    ensures AuthorizationName !in RequestHeaders(init, ChooseToken(Token(""), stored))
  {
  }

  /** A JSON value as `JSON.parse` returns it. Object members are in source
      order; numbers are integers. */
  datatype Json =
    | JNull
    | JBool(b: bool)
    | JNumber(n: int)
    | JString(s: string)
    | JArray(items: seq<Json>)
    | JObject(members: seq<(string, Json)>)

  /** `obj[key]` on a parsed object: the last member with that name wins. */
  function Get(members: seq<(string, Json)>, key: string): (r: Option<Json>)
    ensures r.None? <==> forall i :: 0 <= i < |members| ==> members[i].0 != key
    ensures r.Some? ==> exists i :: 0 <= i < |members| && members[i] == (key, r.value)
                                    && forall j :: i < j < |members| ==> members[j].0 != key
  {
    if members == [] then None
    else if members[|members| - 1].0 == key then
      Some(members[|members| - 1].1)
    else
      Get(members[..|members| - 1], key)
  }

  /** `${res.status} ${res.statusText}` */
  function StatusLine(status: int, statusText: string): (r: string)
    ensures r != []
    ensures |statusText| < |r| && r[|r| - |statusText|..] == statusText && r[|r| - |statusText| - 1] == ' '
  {
    var d := Decimal(status);
    var r := d + " " + statusText;
    assert r[|r| - |statusText|..] == statusText;
    r
  }

  /** The status line reads back: what precedes the space before the status
      text converts to the status code. */
  lemma {:induction false} StatusLineStatus(status: int, statusText: string)
    ensures var r := StatusLine(status, statusText);
            ParseNumber(r[..|r| - |statusText| - 1]) == Finite(status)
  {
    StatusLineCode(status, statusText);
    ParseDecimal(status);
  }

  /** What precedes the space before the status text is the status code in decimal. */
  lemma {:induction false} StatusLineCode(status: int, statusText: string)
    ensures var r := StatusLine(status, statusText);
            r[..|r| - |statusText| - 1] == Decimal(status)
  {
    var r := StatusLine(status, statusText);
    assert r[..|r| - |statusText| - 1] == Decimal(status);
  }

  /** What an error body that parsed to an object says, if anything
      (lines 21-27 of `getErrorMessage`). */
  function ObjectMessage(members: seq<(string, Json)>, stringify: Json -> string): Option<string>
  {
    var detail := Get(members, "detail");
    if detail.Some? && detail.value.JString? && Trim(detail.value.s) != [] then Some(detail.value.s)
    else if detail.Some? && !detail.value.JNull? then
      Some(if detail.value.JString? then detail.value.s else stringify(detail.value))
    else
      var message := Get(members, "message");
      if UsableMessage(message) then Some(message.value.s) else None
  }

  /** A `message` member that is a non-blank string. */
  predicate UsableMessage(message: Option<Json>)
  {
    message.Some? && message.value.JString? && Trim(message.value.s) != []
  }

  /** `getErrorMessage(res, text)` */
  function ErrorMessage(status: int, statusText: string, text: string,
                        parse: string -> Option<Json>, stringify: Json -> string): (r: string)
    ensures text == [] ==> r == StatusLine(status, statusText)
    ensures text != [] && parse(text).None? ==> r == text
    ensures text != [] && parse(text).Some? && parse(text).value.JString? ==>
              r == (if parse(text).value.s == [] then StatusLine(status, statusText) else parse(text).value.s)
    ensures text != [] && parse(text).Some? && !parse(text).value.JString? && !parse(text).value.JObject? ==>
              r == text
  {
    if text == [] then StatusLine(status, statusText)
    else match parse(text)
      case Some(JString(s)) => if s == [] then StatusLine(status, statusText) else s
      case Some(JObject(members)) =>
        (match ObjectMessage(members, stringify)
         case Some(m) => m
         case None => text)
      case _ => text
  }

  /** The order in which an error body is consulted: a string `detail` is
      reported as it is, blank or not, before anything else; a non-null
      `detail` of another kind is serialised; only without a usable `detail`
      does a non-blank `message` count; otherwise the raw body is reported. */
  lemma {:induction false} ErrorMessagePriority(status: int, statusText: string, text: string,
                             parse: string -> Option<Json>, stringify: Json -> string,
                             members: seq<(string, Json)>)
    requires text != [] && parse(text) == Some(JObject(members))
    ensures var r := ErrorMessage(status, statusText, text, parse, stringify);
            var detail := Get(members, "detail");
            var message := Get(members, "message");
            && (detail.Some? && detail.value.JString? ==> r == detail.value.s)
            && (detail.Some? && !detail.value.JString? && !detail.value.JNull? ==> r == stringify(detail.value))
            && ((detail.None? || detail.value.JNull?) && UsableMessage(message) ==> r == message.value.s)
            && ((detail.None? || detail.value.JNull?) && !UsableMessage(message) ==> r == text)
  {
    ObjectErrorMessage(status, statusText, text, parse, stringify, members);
    ObjectMessageOrder(members, stringify);
  }

  /** An error body that parses to an object is reported by what the object
      says, or else as the raw text. */
  lemma {:induction false} ObjectErrorMessage(status: int, statusText: string, text: string,
                             parse: string -> Option<Json>, stringify: Json -> string,
                             members: seq<(string, Json)>)
    requires text != [] && parse(text) == Some(JObject(members))
    ensures var om := ObjectMessage(members, stringify);
            ErrorMessage(status, statusText, text, parse, stringify) == if om.Some? then om.value else text
  {
  }

  /** What an object says, in the order its members are consulted. */
  lemma {:induction false} ObjectMessageOrder(members: seq<(string, Json)>, stringify: Json -> string)
    ensures var om := ObjectMessage(members, stringify);
            var detail := Get(members, "detail");
            var message := Get(members, "message");
            && (detail.Some? && detail.value.JString? ==> om == Some(detail.value.s))
            && (detail.Some? && !detail.value.JString? && !detail.value.JNull? ==> om == Some(stringify(detail.value)))
            && ((detail.None? || detail.value.JNull?) ==> om == if UsableMessage(message) then Some(message.value.s) else None)
  {
  }

  /** The error message is empty only in one case: the body is an object
      whose `detail` is the empty string. Every other error carries text,
      provided serialising a JSON value never yields the empty string. */
  lemma {:induction false} ErrorMessageEmptyIff(status: int, statusText: string, text: string,
                             parse: string -> Option<Json>, stringify: Json -> string)
    requires forall j :: stringify(j) != []
    ensures ErrorMessage(status, statusText, text, parse, stringify) == [] <==>
              text != [] && parse(text).Some? && parse(text).value.JObject?
              && Get(parse(text).value.members, "detail") == Some(JString(""))
  {
    var r := ErrorMessage(status, statusText, text, parse, stringify);
    if text == [] {
      assert r == StatusLine(status, statusText);
    } else if parse(text).None? {
      assert r == text;
    } else if parse(text).value.JObject? {
      var members := parse(text).value.members;
      var om := ObjectMessage(members, stringify);
      assert r == if om.Some? then om.value else text;
      ObjectMessageEmptyIff(members, stringify);
    } else if parse(text).value.JString? {
      var str := parse(text).value.s;
      assert r == if str == [] then StatusLine(status, statusText) else str;
    } else {
      assert r == text;
    }
  }

  lemma {:induction false} ObjectMessageEmptyIff(members: seq<(string, Json)>, stringify: Json -> string)
    requires forall j :: stringify(j) != []
    ensures ObjectMessage(members, stringify) == Some([]) <==> Get(members, "detail") == Some(JString(""))
  {
    var detail := Get(members, "detail");
    if detail == Some(JString("")) {
      assert Trim("") == [];
    } else if detail.Some? && !detail.value.JNull? && !detail.value.JString? {
      assert stringify(detail.value) != [];
    }
  }

  /** A successful body, decoded: nothing, a parsed value, or the raw text. */
  datatype Body = Undefined | Parsed(value: Json) | Raw(text: string)

  /** Lines 62-67 of `apiFetch`. */
  function DecodeBody(text: string, parse: string -> Option<Json>): (r: Body)
    ensures r.Undefined? <==> text == []
    ensures r.Parsed? <==> text != [] && parse(text).Some?
    ensures r.Parsed? ==> parse(text) == Some(r.value)
    ensures r.Raw? ==> r.text == text
  {
    if text == [] then Undefined
    else match parse(text)
      case Some(j) => Parsed(j)
      case None => Raw(text)
  }

  /** The browser's token storage (`lib/auth-storage.ts`): the stored access
      token and the events dispatched on `window`, oldest first. */
  class TokenStore {
    var token: Option<string>
    var events: seq<string>

    constructor (token: Option<string>)
      ensures this.token == token && events == []
    {
      this.token := token;
      events := [];
    }

    /** `getAccessToken()`: no storage outside the browser. */
    function AccessToken(inBrowser: bool): (r: Option<string>)
      reads this
      ensures !inBrowser ==> r.None?
      ensures inBrowser ==> r == token
    {
      if inBrowser then token else None
    }

    /** `clearAccessToken()` */
    method ClearAccessToken(inBrowser: bool)
      modifies this
      ensures inBrowser ==> token.None? && events == old(events) + ["auth:token"]
      ensures !inBrowser ==> token == old(token) && events == old(events)
    {
      if inBrowser {
        token := None;
        events := events + ["auth:token"];
      }
    }
  }

  /** The part of `RequestInit` that `apiFetch` reads; the other options are
      passed to `fetch` untouched. */
  datatype RequestInit = RequestInit(token: TokenArg, headers: HeaderPairs)

  datatype Request = Request(url: string, headers: map<string, string>)

  datatype Response = Response(status: int, statusText: string, text: string)

  /** `res.ok` */
  predicate Ok(res: Response)
  {
    200 <= res.status <= 299
  }

  /** How the promise returned by `apiFetch` settles: resolved with the
      body, rejected with an `Error` and its message, or rejected with the
      `TypeError` the platform throws for an invalid header. */
  datatype Outcome = Resolved(body: Body) | Rejected(message: string) | HeaderTypeError

  /** Whether building the request's headers succeeds: the caller's headers
      are valid and so is the bearer value. */
  predicate HeadersAccepted(init: HeaderPairs, token: Option<string>)
  {
    ValidHeaders(init) && BearerAccepted(token)
  }

  /** `apiFetch(path, init)`: builds the request, takes the response the
      network gave for it, and settles. `req` is None when building the
      headers throws, in which case nothing is sent. */
  method ApiFetch(store: TokenStore, env: Option<string>, path: string, init: RequestInit,
                  inBrowser: bool, res: Response,
                  parse: string -> Option<Json>, stringify: Json -> string)
    returns (req: Option<Request>, outcome: Outcome)
    modifies store
    ensures var token := ChooseToken(init.token, old(store.AccessToken(inBrowser)));
            && (req.Some? <==> HeadersAccepted(init.headers, token))
            && (req.Some? ==> req.value == Request(JoinUrl(ApiBaseUrl(env), path),
                                                   RequestHeaders(NormalizeHeaders(init.headers), token)))
    ensures req.None? ==> outcome == HeaderTypeError
    ensures req.Some? && Ok(res) ==> outcome == Resolved(DecodeBody(res.text, parse))
    ensures req.Some? && !Ok(res) ==>
              outcome == Rejected(ErrorMessage(res.status, res.statusText, res.text, parse, stringify))
    ensures req.Some? && !Ok(res) && res.status == 401 && inBrowser ==>
              store.token.None? && store.events == old(store.events) + ["auth:token", "auth:required"]
    ensures !(req.Some? && !Ok(res) && res.status == 401 && inBrowser) ==>
              store.token == old(store.token) && store.events == old(store.events)
  {
    var url := JoinUrl(ApiBaseUrl(env), path);

    var token := ChooseToken(init.token, store.AccessToken(inBrowser));

    if !ValidHeaders(init.headers) {
      return None, HeaderTypeError;
    }
    var headers := new Headers(init.headers);
    var ok := PrepareHeaders(headers, token);
    if !ok {
      return None, HeaderTypeError;
    }
    req := Some(Request(url, headers.entries));

    if !Ok(res) {
      if res.status == 401 && inBrowser {
        store.ClearAccessToken(inBrowser);
        store.events := store.events + ["auth:required"];
      }
      outcome := Rejected(ErrorMessage(res.status, res.statusText, res.text, parse, stringify));
      return;
    }
    outcome := Resolved(DecodeBody(res.text, parse));
  }
}

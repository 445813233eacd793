/**
 The response helpers of the server runtime
 (packages/app/src/server/http/response.ts): `json`, `redirect` and
 `isRedirectResponse`. A `Response` is reduced to its body text, status and
 headers. `Headers` compares names case-insensitively; the model stores
 them lower-cased, as the Fetch standard's header list does.
 */
module Response {

  import opened Wrappers
  import opened Strings
  import opened OrderedMap
  import opened Json

  /** A `Headers` object: lower-cased names with their values, in insertion order. */
  type Headers = Entries<string>

  /** The `ResponseInit` fields the helpers read: the status, if any, and the header record. */
  datatype ResponseInit = ResponseInit(status: Option<int>, headers: seq<(string, string)>)

  /** The optional `init` argument: a bare status number or an init object. */
  datatype InitArg = StatusInit(status: int) | ObjectInit(init: ResponseInit)

  /** A response: its body (`None` for a null body), status and headers. */
  datatype Response = Response(body: Option<string>, status: int, headers: Headers)

  /** The status a `Response` gets when its init names none. */
  const DefaultStatus: int := 200

  /** The default status of `redirect`, "302 Found". */
  const FoundStatus: int := 302

  /** `Content-Type` and `Location`, as the lower-cased names `Headers` stores. */
  const ContentTypeName: string := "content-type"
  const LocationName: string := "location"

  const JsonContentType: string := "application/json; charset=utf-8"

  /** `headers.append(name, value)`: a name already present gets the value added after `", "`. */
  function Append(h: Headers, name: string, value: string): (r: Headers)
    requires UniqueKeys(h)
    ensures UniqueKeys(r)
    ensures forall k :: HasKey(r, k) <==> HasKey(h, k) || k == name
    ensures forall k :: k != name ==> Get(r, k) == Get(h, k)
  {
    var r := match Get(h, name)
      case Some(prev) => Put(h, name, prev + ", " + value)
      case None => Put(h, name, value);
    assert forall k :: HasKey(r, k) <==> Get(r, k).Some?;
    assert forall k :: HasKey(h, k) <==> Get(h, k).Some?;
    r
  }

  /** `new Headers(record)`: every pair is appended under its lower-cased name. */
  function HeadersOf(pairs: seq<(string, string)>): (r: Headers)
    ensures UniqueKeys(r)
    ensures forall k :: HasKey(r, k) <==> Names(pairs, k)
    decreases |pairs|
  {
    if |pairs| == 0 then []
    else
      var last := pairs[|pairs| - 1];
      var prev := HeadersOf(pairs[..|pairs| - 1]);
      HeadersOfStep(pairs, prev);
      Append(prev, Lower(last.0), last.1)
  }

  /** Some pair's name, lower-cased, is `k`. */
  predicate Names(pairs: seq<(string, string)>, k: string)
  {
    exists i :: 0 <= i < |pairs| && Lower(pairs[i].0) == k
  }

  /** The names of a pair sequence are those of all pairs but the last, and the last one's. */
  lemma {:induction false} NamesStep(pairs: seq<(string, string)>, k: string)
    requires |pairs| > 0
    ensures Names(pairs, k) <==> Names(pairs[..|pairs| - 1], k) || Lower(pairs[|pairs| - 1].0) == k
  {
    var front := pairs[..|pairs| - 1];
    if Names(pairs, k) && Lower(pairs[|pairs| - 1].0) != k {
      var i :| 0 <= i < |pairs| && Lower(pairs[i].0) == k;
      assert front[i] == pairs[i];
    }
    if Names(front, k) {
      var i :| 0 <= i < |front| && Lower(front[i].0) == k;
      assert front[i] == pairs[i];
    }
  }

  /** Appending the last pair adds its lower-cased name to the names of the ones before it. */
  lemma HeadersOfStep(pairs: seq<(string, string)>, prev: Headers)
    requires |pairs| > 0 && UniqueKeys(prev)
    requires forall k :: HasKey(prev, k) <==> Names(pairs[..|pairs| - 1], k)
    ensures forall k :: HasKey(Append(prev, Lower(pairs[|pairs| - 1].0), pairs[|pairs| - 1].1), k) <==> Names(pairs, k)
  {
    forall k {
      NamesStep(pairs, k);
    }
  }

  /** The header pairs an `init` argument supplies; a bare number supplies none. */
  function InitHeaders(init: Option<InitArg>): seq<(string, string)>
  {
    if init.Some? && init.value.ObjectInit? then init.value.init.headers else []
  }

  /** The status `json` answers with: the number itself, the object's status, or the default. */
  function JsonStatus(init: Option<InitArg>): int
  {
    match init
    case None => DefaultStatus
    case Some(StatusInit(n)) => n
    case Some(ObjectInit(o)) => o.status.GetOr(DefaultStatus)
  }

  /** The supplied headers name `Content-Type` in some letter case. */
  predicate SuppliesContentType(init: Option<InitArg>)
  {
    Names(InitHeaders(init), ContentTypeName)
  }

  /** `typeof init === 'number' ? { status: init } : init`, with `{}` for a missing init. */
  function JsonInit(init: Option<InitArg>): (r: ResponseInit)
    ensures r.status.GetOr(DefaultStatus) == JsonStatus(init)
    ensures r.headers == InitHeaders(init)
  {
    match init
    case None => ResponseInit(None, [])
    case Some(StatusInit(n)) => ResponseInit(Some(n), [])
    case Some(ObjectInit(o)) => o
  }

  /** `if (!headers.has('Content-Type')) headers.set('Content-Type', JSON)`. */
  function WithJsonContentType(h: Headers): (r: Headers)
    requires UniqueKeys(h)
    ensures UniqueKeys(r)
    ensures HasKey(h, ContentTypeName) ==> Get(r, ContentTypeName) == Get(h, ContentTypeName)
    ensures !HasKey(h, ContentTypeName) ==> Get(r, ContentTypeName) == Some(JsonContentType)
    ensures forall k :: k != ContentTypeName ==> Get(r, k) == Get(h, k)
  {
    if HasKey(h, ContentTypeName) then h else Put(h, ContentTypeName, JsonContentType)
  }

  /**
   `json(data, init)`: the body is the serialisation of `data`, a numeric
   init is the status, and `Content-Type` is set to JSON only when the
   supplied headers do not already name it; every other header is kept.
   */
  function JsonResponse(data: Json, init: Option<InitArg>): (r: Response)
    ensures r.body == Some(Stringify(data))
    ensures r.status == JsonStatus(init)
    ensures UniqueKeys(r.headers)
    ensures SuppliesContentType(init) ==> Get(r.headers, ContentTypeName) == Get(HeadersOf(InitHeaders(init)), ContentTypeName)
    ensures !SuppliesContentType(init) ==> Get(r.headers, ContentTypeName) == Some(JsonContentType)
    ensures forall k :: k != ContentTypeName ==> Get(r.headers, k) == Get(HeadersOf(InitHeaders(init)), k)
  {
    var responseInit := JsonInit(init);
    Response(Some(Stringify(data)), responseInit.status.GetOr(DefaultStatus), WithJsonContentType(HeadersOf(responseInit.headers)))
  }

  /** The status `redirect` answers with: 302 unless a number or the object's own status says otherwise. */
  function RedirectStatus(init: Option<InitArg>): int
  {
    match init
    case None => FoundStatus
    case Some(StatusInit(n)) => n
    case Some(ObjectInit(o)) => o.status.GetOr(FoundStatus)
  }

  /**
   `redirect(url, init)`: a null body, status 302 unless the init gives
   one, and `Location` set to `url` whatever the supplied headers said;
   every other supplied header is kept.
   */
  function Redirect(url: string, init: Option<InitArg>): (r: Response)
    ensures r.body.None?
    ensures r.status == RedirectStatus(init)
    ensures UniqueKeys(r.headers)
    ensures Get(r.headers, LocationName) == Some(url)
    ensures forall k :: k != LocationName ==> Get(r.headers, k) == Get(HeadersOf(InitHeaders(init)), k)
  {
    var responseInit := match init
      case None => ResponseInit(Some(FoundStatus), [])
      case Some(StatusInit(n)) => ResponseInit(Some(n), [])
      case Some(ObjectInit(o)) => if o.status.None? then o.(status := Some(FoundStatus)) else o;
    var headers := Put(HeadersOf(responseInit.headers), LocationName, url);
    Response(None, responseInit.status.GetOr(FoundStatus), headers)
  }

  /** The redirection statuses `isRedirectResponse` recognises. */
  const RedirectStatuses: set<int> := {301, 302, 303, 307, 308}

  predicate IsRedirectResponse(r: Response): (b: bool)
    ensures b <==> r.status == 301 || r.status == 302 || r.status == 303 || r.status == 307 || r.status == 308
  {
    r.status in RedirectStatuses
  }

  /**
   A redirect whose init names no status is recognised as a redirect, and a
   redirect's status decides recognition exactly as a `json` response's does.
   */
  lemma RedirectRecognised(url: string, init: Option<InitArg>, data: Json)
    ensures init.None? || (init.value.ObjectInit? && init.value.init.status.None?) ==> IsRedirectResponse(Redirect(url, init))
    ensures init.Some? && (init.value.StatusInit? || init.value.init.status.Some?) ==>
              (IsRedirectResponse(Redirect(url, init)) <==> IsRedirectResponse(JsonResponse(data, init)))
  {
  }

  /** A `json` response with no init has status 200, which is not a redirection. */
  lemma JsonDefaultNotRedirect(data: Json)
    ensures JsonResponse(data, None).status == DefaultStatus
    ensures !IsRedirectResponse(JsonResponse(data, None))
    ensures JsonResponse(data, None).headers == [(ContentTypeName, JsonContentType)]
  {
    var r := JsonResponse(data, None);
    assert !HasKey(HeadersOf([]), ContentTypeName);
  }
}

/**
 * The `/api/shorturl` route (src/app/api/shorturl/route.ts): a module-level
 * table `memoryStore` and the POST and GET handlers that use it.
 *
 * What the handlers take from outside is passed in: the parsed request
 * body, the `host` and `x-forwarded-proto` headers, whether `new URL(url)`
 * accepts the URL, the code `nanoid(6)` produced and the timestamp
 * `new Date().toISOString()` produced.
 */
module ShortUrl {
  import opened Wrappers
  import opened JsKeys
  import opened UrlTable

  const UrlRequired: string := "URL is required"
  const InvalidUrl: string := "Invalid URL format"
  const InternalError: string := "Internal server error"
  const CodeRequired: string := "Code is required"
  const NotFound: string := "URL not found"
  const DefaultHost: string := "localhost:3000"
  const DefaultProtocol: string := "http"

  /** `await request.json()`: either it throws, or it yields the `url` field, which may be missing. */
  datatype Body = Malformed | Json(url: Option<string>)

  datatype PostRequest = PostRequest(body: Body, host: Option<string>, forwardedProto: Option<string>)

  /** The JSON body of a reply; `isExisting` false stands for the field being left out. */
  datatype Payload =
    | Shortened(shortUrl: string, code: string, isExisting: bool)
    | Found(url: string, createdAt: string, clicks: int)
    | FoundNothing
    | Failure(error: string)

  datatype Reply = Reply(status: int, payload: Payload)

  /** A reply together with the table after the request. */
  datatype Outcome = Outcome(reply: Reply, store: Table)

  /** `request.headers.get(name) || fallback`: an absent or empty header gives the fallback. */
  function HeaderOr(h: Option<string>, fallback: string): (r: string)
    ensures h.Some? && h.value != "" ==> r == h.value
    ensures h.None? || h.value == "" ==> r == fallback
  {
    if h.Some? && h.value != "" then h.value else fallback
  }

  /**
   * `${protocol}://${host}/s/${code}`: the request's headers, with `http` and
   * `localhost:3000` when they are absent or empty.
   */
  function ShortLink(req: PostRequest, code: string): (r: string)
    ensures req.forwardedProto.Some? && req.forwardedProto.value != "" && req.host.Some? && req.host.value != "" ==>
      r == req.forwardedProto.value + "://" + req.host.value + "/s/" + code
    ensures (req.forwardedProto.None? || req.forwardedProto.value == "") && (req.host.None? || req.host.value == "") ==>
      r == "http://localhost:3000/s/" + code
    ensures |r| >= |code| + 3 && r[|r| - |code| - 3..] == "/s/" + code
  {
    HeaderOr(req.forwardedProto, DefaultProtocol) + "://" + HeaderOr(req.host, DefaultHost) + "/s/" + code
  }

  /**
   * What POST does to the table `t`: `parses` is the verdict of `new URL`,
   * `code` the generated short code and `now` the creation time.
   */
  function HandlePost(t: Table, req: PostRequest, parses: string -> bool, code: string, now: string): (r: Outcome)
    ensures r.reply.status == 200 <==>
      req.body.Json? && req.body.url.Some? && req.body.url.value != "" && parses(req.body.url.value)
    ensures r.reply.status != 200 ==> r.reply.payload.Failure? && r.store == t
    ensures r.reply.status == 200 ==>
      && r.reply.payload.Shortened?
      && r.reply.payload.shortUrl == ShortLink(req, r.reply.payload.code)
      && Matches(r.store, r.reply.payload.code, req.body.url.value)
    ensures r.reply.payload.Shortened? && r.reply.payload.isExisting ==> r.store == t
  {
    match req.body
    case Malformed => Outcome(Reply(500, Failure(InternalError)), t)
    case Json(url) =>
      if url.None? || url.value == "" then Outcome(Reply(400, Failure(UrlRequired)), t)
      else if !parses(url.value) then Outcome(Reply(400, Failure(InvalidUrl)), t)
      else
        FirstMatchFromSpec(t, 0, url.value);
        match FirstMatch(t, url.value)
        case Some(c) => Outcome(Reply(200, Shortened(ShortLink(req, c), c, true)), t)
        case None =>
          Outcome(Reply(200, Shortened(ShortLink(req, code), code, false)),
                  Put(t, code, Entry(url.value, now, 0)))
  }

  /**
   * What GET answers for the query parameter `code` on the table `t`: 400
   * without a code, 404 for a code that is not stored, otherwise the stored entry.
   */
  function HandleGet(t: Table, code: Option<string>): (r: Reply)
    ensures r.status == 400 <==> code.None? || code.value == ""
    ensures r.status == 404 <==> code.Some? && code.value != "" && code.value !in t.urls
    ensures r.status == 200 <==> code.Some? && code.value != "" && code.value in t.urls
    ensures r.status == 200 ==>
      var e := t.urls[code.value];
      r.payload == Found(e.url, e.createdAt, e.clicks)
    ensures r.status != 200 ==> r.payload.Failure?
  {
    if code.None? || code.value == "" then Reply(400, Failure(CodeRequired))
    else if code.value !in t.urls then Reply(404, Failure(NotFound))
    else
      var e := t.urls[code.value];
      Reply(200, Found(e.url, e.createdAt, e.clicks))
  }

  /** A body that cannot be read as JSON is answered 500 and leaves the table unchanged. */
  lemma PostMalformed(t: Table, req: PostRequest, parses: string -> bool, code: string, now: string)
    requires req.body.Malformed?
    ensures HandlePost(t, req, parses, code, now) == Outcome(Reply(500, Failure(InternalError)), t)
  {
  }

  /** A missing, empty or unparsable URL is answered 400 and leaves the table unchanged. */
  lemma PostRejects(t: Table, req: PostRequest, parses: string -> bool, code: string, now: string)
    ensures req.body.Json? && (req.body.url.None? || req.body.url.value == "") ==>
      HandlePost(t, req, parses, code, now) == Outcome(Reply(400, Failure(UrlRequired)), t)
    ensures req.body.Json? && req.body.url.Some? && req.body.url.value != "" && !parses(req.body.url.value) ==>
      HandlePost(t, req, parses, code, now) == Outcome(Reply(400, Failure(InvalidUrl)), t)
  {
  }

  /**
   * A valid URL that is already stored is answered with a code that carries
   * it, marked as existing, and the table is not modified.
   */
  lemma PostReusesExisting(t: Table, req: PostRequest, parses: string -> bool, code: string, now: string, c: string)
    requires WellFormed(t)
    requires req.body.Json? && req.body.url.Some? && req.body.url.value != "" && parses(req.body.url.value)
    requires c in t.urls && t.urls[c].url == req.body.url.value
    ensures var o := HandlePost(t, req, parses, code, now);
      && o.store == t
      && o.reply.status == 200
      && o.reply.payload.Shortened?
      && o.reply.payload.isExisting
      && o.reply.payload.code in t.urls
      && t.urls[o.reply.payload.code].url == req.body.url.value
      && o.reply.payload.shortUrl == ShortLink(req, o.reply.payload.code)
    ensures UniqueUrls(t) ==> HandlePost(t, req, parses, code, now).reply.payload.code == c
  {
    var u := req.body.url.value;
    FirstMatchSpec(t, u);
    if UniqueUrls(t) {
      UniqueMatch(t, u, c);
    }
  }

  /**
   * A valid URL that is not stored yet gets the generated code: the entry
   * `{url, createdAt: now, clicks: 0}` is written under it (replacing
   * whatever the code held), every other code keeps its entry, and the reply
   * carries the code and its short link.
   */
  lemma PostInsertsNew(t: Table, req: PostRequest, parses: string -> bool, code: string, now: string)
    requires WellFormed(t)
    requires req.body.Json? && req.body.url.Some? && req.body.url.value != "" && parses(req.body.url.value)
    requires forall c :: c in t.urls ==> t.urls[c].url != req.body.url.value
    ensures var o := HandlePost(t, req, parses, code, now);
      && o.reply == Reply(200, Shortened(ShortLink(req, code), code, false))
      && Lookup(o.store, code) == Some(Entry(req.body.url.value, now, 0))
      && (forall other :: other != code ==> Lookup(o.store, other) == Lookup(t, other))
      && o.store.urls.Keys == t.urls.Keys + {code}
  {
    FirstMatchSpec(t, req.body.url.value);
    InsertKeyOrdered(t.keys, code);
  }

  /** POST keeps the table well formed and keeps each URL under at most one code. */
  lemma PostPreservesUnique(t: Table, req: PostRequest, parses: string -> bool, code: string, now: string)
    requires WellFormed(t)
    ensures WellFormed(HandlePost(t, req, parses, code, now).store)
    ensures UniqueUrls(t) ==> UniqueUrls(HandlePost(t, req, parses, code, now).store)
  {
    if req.body.Json? && req.body.url.Some? && req.body.url.value != "" && parses(req.body.url.value) {
      FirstMatchSpec(t, req.body.url.value);
    }
  }

  /** Posting the same URL again returns the same code as existing and changes nothing. */
  lemma PostTwice(t: Table, req: PostRequest, parses: string -> bool, code1: string, now1: string, code2: string, now2: string)
    requires WellFormed(t)
    requires HandlePost(t, req, parses, code1, now1).reply.status == 200
    ensures var first := HandlePost(t, req, parses, code1, now1);
      var second := HandlePost(first.store, req, parses, code2, now2);
      && second.store == first.store
      && second.reply == Reply(200, Shortened(first.reply.payload.shortUrl, first.reply.payload.code, true))
  {
    var u := req.body.url.value;
    var first := HandlePost(t, req, parses, code1, now1);
    FirstMatchSpec(t, u);
    if FirstMatch(t, u).None? {
      var s := first.store;
      assert Matches(s, code1, u);
      UniqueMatchAt(s, u, code1);
    }
  }

  /** GET with the code a POST just created returns the new entry with no clicks. */
  lemma GetAfterPost(t: Table, req: PostRequest, parses: string -> bool, code: string, now: string)
    requires WellFormed(t)
    requires HandlePost(t, req, parses, code, now).reply.status == 200
    ensures var o := HandlePost(t, req, parses, code, now);
      var c := o.reply.payload.code;
      c != "" ==>
        (HandleGet(o.store, Some(c)).status == 200
         && HandleGet(o.store, Some(c)).payload.url == req.body.url.value)
  {
    FirstMatchSpec(t, req.body.url.value);
  }

  /** GET as written: `urls[code]` also finds the members inherited from `Object.prototype`. */
  function HandleGetAsWritten(t: Table, code: Option<string>): (r: Reply)
    ensures r.status == 400 <==> code.None? || code.value == ""
    ensures r.status == 404 <==>
      code.Some? && code.value != "" && code.value !in t.urls && code.value !in InheritedNames
    ensures r.status == 200 <==>
      code.Some? && code.value != "" && (code.value in t.urls || code.value in InheritedNames)
    ensures r.payload.Found? <==> code.Some? && code.value != "" && code.value in t.urls
  {
    if code.None? || code.value == "" then Reply(400, Failure(CodeRequired))
    else match PropertyAsWritten(t, code.value)
      case Undefined => Reply(404, Failure(NotFound))
      case Inherited(_) => Reply(200, FoundNothing)
      case Own(e) => Reply(200, Found(e.url, e.createdAt, e.clicks))
  }

  /** As written, `GET ?code=toString` succeeds on a table that has no such code. */
  lemma GetAsWrittenAnswersToString(t: Table)
    requires "toString" !in t.urls
    ensures HandleGetAsWritten(t, Some("toString")) == Reply(200, FoundNothing)
    ensures HandleGet(t, Some("toString")).status == 404
  {
  }

  /** The two GETs differ only on the inherited names. */
  lemma GetAsWrittenAgrees(t: Table, code: Option<string>)
    requires code.None? || code.value !in InheritedNames || code.value in t.urls
    ensures HandleGetAsWritten(t, code) == HandleGet(t, code)
  {
  }

  /** The route module: its `memoryStore` object lives as long as the server process. */
  class Route {
    const memoryStore: Record

    /** `const memoryStore: UrlData = {}` */
    constructor ()
      ensures fresh(memoryStore) && memoryStore.Valid() && memoryStore.Value() == Empty
    {
      memoryStore := new Record();
    }

    /** `readUrls()` hands out the store object itself, not a copy. */
    method ReadUrls() returns (urls: Record)
      ensures urls == memoryStore
    {
      urls := memoryStore;
    }

    /** `writeUrls(code, data)` */
    method WriteUrls(code: string, data: Entry)
      requires memoryStore.Valid()
      modifies memoryStore
      ensures memoryStore.Valid() && memoryStore.Value() == Put(old(memoryStore.Value()), code, data)
    {
      memoryStore.Assign(code, data);
    }

    /** `POST(request)` */
    method Post(req: PostRequest, parses: string -> bool, code: string, now: string) returns (res: Reply)
      requires memoryStore.Valid()
      modifies memoryStore
      ensures memoryStore.Valid()
      ensures Outcome(res, memoryStore.Value()) == HandlePost(old(memoryStore.Value()), req, parses, code, now)
      ensures old(UniqueUrls(memoryStore.Value())) ==> UniqueUrls(memoryStore.Value())
    {
      PostPreservesUnique(memoryStore.Value(), req, parses, code, now);
      match req.body {
        case Malformed =>
          return Reply(500, Failure(InternalError));
        case Json(url) =>
          if url.None? || url.value == "" {
            return Reply(400, Failure(UrlRequired));
          }
          if !parses(url.value) {
            return Reply(400, Failure(InvalidUrl));
          }
          var urls := ReadUrls();
          var existing := urls.FindByUrl(url.value);
          if existing.Some? {
            return Reply(200, Shortened(ShortLink(req, existing.value), existing.value, true));
          }
          WriteUrls(code, Entry(url.value, now, 0));
          return Reply(200, Shortened(ShortLink(req, code), code, false));
      }
    }

    /** `GET(request)`: never changes the store. */
    method Get(code: Option<string>) returns (res: Reply)
      requires memoryStore.Valid()
      ensures res == HandleGet(memoryStore.Value(), code)
    {
      if code.None? || code.value == "" {
        return Reply(400, Failure(CodeRequired));
      }
      var urls := ReadUrls();
      if code.value !in urls.urls {
        return Reply(404, Failure(NotFound));
      }
      var e := urls.urls[code.value];
      return Reply(200, Found(e.url, e.createdAt, e.clicks));
    }
  }
}

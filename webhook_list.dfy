/** The list handler (api/webhooks/list.py): when the blob store is configured,
    ask it for entries, keep those under the capture folder, truncate them to
    the requested limit and answer with their metadata.

    The store's `list` call is a parameter (its answer), as are the parsed
    query string (`None` when `urlparse` rejects the path) and the environment. */
module WebhookList {
  import opened Py
  import opened Config
  import Webhook
  import Timestamp

  /** The folder whose entries the handler reports. */
  const ListPrefix := "webhooks/earnings/"

  const NotConfiguredMessage :=
    "Vercel Blob not configured. Set BLOB_READ_WRITE_TOKEN to persist and list webhooks."

  /** The `limit` used when the query has none, and the largest one honoured. */
  const DefaultLimit := "20"
  const MaxLimit := 100

  // ---------------------------------------------------------------------------
  // The limit

  /** `min(int(qs.get("limit", ["20"])[0]), 100)`. The first value counts; a
      value `int()` rejects raises `ValueError`; nothing bounds it from below. */
  function Limit(query: map<string, seq<string>>): (r: Result<int, PyError>)
    ensures r.Ok? ==> r.value <= MaxLimit
    ensures "limit" !in query ==> r == Ok(20)
    ensures "limit" in query && query["limit"] == [] ==> r == Err(IndexError)
    ensures "limit" in query && query["limit"] != [] ==>
      match ParseInt(query["limit"][0])
      case None => r == Err(ValueError)
      case Some(n) => r == Ok(Min(n, MaxLimit))
  {
    DefaultLimitParses();
    var values := if "limit" in query then query["limit"] else [DefaultLimit];
    if values == [] then Err(IndexError)
    else
      match ParseInt(values[0])
      case None => Err(ValueError)
      case Some(n) => Ok(if n < MaxLimit then n else MaxLimit)
  }

  lemma DefaultLimitParses()
    ensures ParseInt(DefaultLimit) == Some(20)
  {
    assert NatStr(20) == NatStr(2) + [DigitChar(0)];
    assert Str(20) == DefaultLimit;
    ParseIntOfStr(20);
  }

  /** Every limit up to 100, negative ones included, is taken as given; every
      larger one becomes 100 (as long as `int()` accepts its length). */
  lemma LimitOfValue(n: int, rest: seq<string>)
    requires |NatStr(Magnitude(n))| <= MaxStrDigits
    ensures Limit(map["limit" := [Str(n)] + rest]) == Ok(if n <= MaxLimit then n else MaxLimit)
  {
    ParseIntOfStr(n);
  }

  /** A limit written with more digits than `int()` converts raises
      `ValueError`, however large or small the number. */
  lemma LimitRejectsLong(t: string, rest: seq<string>)
    requires |t| > MaxStrDigits && forall i :: 0 <= i < |t| ==> IsDigit(t[i])
    ensures Limit(map["limit" := [t] + rest]) == Err(ValueError)
  {
    ParseIntRejectsLong(t);
  }

  /** A limit holding an ASCII information separator (U+001C..U+001F) raises
      `ValueError`, even next to the digits where `str.strip()` would drop it. */
  lemma LimitRejectsSeparator(t: string, i: nat, rest: seq<string>)
    requires i < |t| && IsInfoSeparator(t[i])
    ensures Limit(map["limit" := [t] + rest]) == Err(ValueError)
  {
    ParseIntRejectsSeparator(t, i);
  }

  // ---------------------------------------------------------------------------
  // Entries

  /** An entry of the store's listing: the keys the handler reads (`None` when
      a key is absent) and whatever else the store reports. */
  datatype StoreEntry = StoreEntry(
    pathname: Option<string>,
    url: Option<string>,
    uploadedAt: Option<string>,
    size: Option<int>,
    otherKeys: map<string, string>)

  /** An entry of the response: exactly the four keys copied from a store entry. */
  datatype BlobInfo = BlobInfo(
    pathname: Option<string>,
    url: Option<string>,
    uploadedAt: Option<string>,
    size: Option<int>)

  /** `(b.get("pathname") or "").startswith("webhooks/earnings/")`: an absent
      or empty path counts as "" and is never kept. */
  predicate Kept(e: StoreEntry) {
    StartsWith(if e.pathname.Some? then e.pathname.value else "", ListPrefix)
  }

  /** `r` is `s` with some elements left out, the rest in their order. */
  ghost predicate IsSubsequence<T>(r: seq<T>, s: seq<T>) {
    if r == [] then true
    else if s == [] then false
    else if r[0] == s[0] then IsSubsequence(r[1..], s[1..])
    else IsSubsequence(r, s[1..])
  }

  /** The filter of the comprehension: the kept entries, in the store's order,
      each as often as the store listed it. */
  function Filter(entries: seq<StoreEntry>): (r: seq<StoreEntry>)
    ensures forall i :: 0 <= i < |r| ==> Kept(r[i])
    ensures forall e :: multiset(r)[e] == if Kept(e) then multiset(entries)[e] else 0
    ensures IsSubsequence(r, entries)
  {
    if entries == [] then []
    else
      var rest := Filter(entries[1..]);
      assert entries == [entries[0]] + entries[1..];
      if Kept(entries[0]) then [entries[0]] + rest else rest
  }

  lemma {:induction false} PrefixIsSubsequence<T>(r: seq<T>, s: seq<T>, k: nat)
    requires IsSubsequence(r, s) && k <= |r|
    ensures IsSubsequence(r[..k], s)
  {
    if k > 0 && s != [] {
      if r[0] == s[0] {
        assert r[..k][1..] == r[1..][..k - 1];
        PrefixIsSubsequence(r[1..], s[1..], k - 1);
      } else {
        PrefixIsSubsequence(r, s[1..], k);
      }
    }
  }

  /** The listed entries: filtered, then sliced with `[:limit]`. */
  function Select(entries: seq<StoreEntry>, limit: int): seq<StoreEntry> {
    SliceTo(Filter(entries), limit)
  }

  /** What the selection keeps: kept entries only, in the store's order, the
      first `limit` of them for a non-negative limit and all but the last
      `-limit` of them for a negative one. */
  lemma SelectFacts(entries: seq<StoreEntry>, limit: int)
    ensures var r := Select(entries, limit);
      (forall i :: 0 <= i < |r| ==> Kept(r[i])) &&
      IsSubsequence(r, entries) &&
      r == Filter(entries)[..|r|] &&
      (limit >= 0 ==> |r| == Min(limit, |Filter(entries)|)) &&
      (limit < 0 ==> |r| == Max(|Filter(entries)| + limit, 0))
  {
    var r := Select(entries, limit);
    PrefixIsSubsequence(Filter(entries), entries, |r|);
  }

  /** The projection: `{"pathname": …, "url": …, "uploadedAt": …, "size": …}`. */
  function Project(e: StoreEntry): (b: BlobInfo)
    ensures b.pathname == e.pathname && b.url == e.url
    ensures b.uploadedAt == e.uploadedAt && b.size == e.size
  {
    BlobInfo(e.pathname, e.url, e.uploadedAt, e.size)
  }

  /** The projection applied to each selected entry, in order. */
  function ProjectAll(entries: seq<StoreEntry>): (r: seq<BlobInfo>)
    ensures |r| == |entries|
    ensures forall i :: 0 <= i < |r| ==> r[i] == Project(entries[i])
  {
    if entries == [] then [] else [Project(entries[0])] + ProjectAll(entries[1..])
  }

  // ---------------------------------------------------------------------------
  // The handler

  /** The store's answer to `list(...)`: a result dict, whose "blobs" key may be
      absent, or an exception with its `str()`. */
  datatype StoreAnswer = Listed(blobs: Option<seq<StoreEntry>>) | Raised(description: string)

  /** The response dictionary; an absent key is `None`. */
  datatype ListResponse = ListResponse(
    ok: bool,
    message: Option<string>,
    error: Option<string>,
    count: Option<int>,
    blobs: seq<BlobInfo>)

  /** The response, and the `limit` option passed to the store's `list`, if it
      was called. */
  datatype ListExchange = ListExchange(response: ListResponse, listCall: Option<string>)

  /** `handler.do_GET`. An `Err` is an exception that escapes the handler: the
      path and the limit are parsed outside the `try`, so only their
      `ValueError` and `IndexError` escape. The store is called exactly when it
      is configured and both parse, a failure answer carries no blobs, and a
      success answer counts its blobs. */
  function List(env: Env, query: Option<map<string, seq<string>>>, answer: StoreAnswer)
    : (r: Result<ListExchange, PyError>)
    ensures r.Err? ==> r == Err(ValueError) || r == Err(IndexError)
    ensures r.Ok? ==> (r.value.listCall.Some? <==> env.Configured())
    ensures r.Ok? && !r.value.response.ok ==> r.value.response.blobs == []
    ensures r.Ok? && r.value.response.ok ==> r.value.response.count == Some(|r.value.response.blobs|)
  {
    if !env.Configured() then
      Ok(ListExchange(ListResponse(false, Some(NotConfiguredMessage), None, None, []), None))
    else if query.None? then Err(ValueError)
    else
      match Limit(query.value)
      case Err(e) => Err(e)
      case Ok(limit) =>
        var call := Some(Str(limit));
        match answer
        case Raised(description) =>
          Ok(ListExchange(ListResponse(false, None, Some(description), None, []), call))
        case Listed(blobs) =>
          var selected := Select(if blobs.Some? then blobs.value else [], limit);
          Ok(ListExchange(ListResponse(true, None, None, Some(|selected|), ProjectAll(selected)), call))
  }

  /** Without a configured store the handler answers `ok: false` with the fixed
      message and no blobs, without calling the store and whatever the query. */
  lemma ListUnconfigured(env: Env, query: Option<map<string, seq<string>>>, answer: StoreAnswer)
    requires !env.Configured()
    ensures List(env, query, answer) ==
      Ok(ListExchange(ListResponse(false, Some(NotConfiguredMessage), None, None, []), None))
  {
  }

  /** With a configured store, a path `urlparse` rejects or a limit that does
      not parse escapes as an exception before the store is called; a limit
      that parses is passed to the store as its decimal text, which parses back
      to it. */
  lemma ListLimit(env: Env, query: Option<map<string, seq<string>>>, answer: StoreAnswer)
    requires env.Configured()
    ensures List(env, query, answer).Err? <==> query.None? || Limit(query.value).Err?
    ensures query.None? ==> List(env, query, answer) == Err(ValueError)
    ensures query.Some? && Limit(query.value).Err? ==>
      List(env, query, answer) == Err(Limit(query.value).error)
    ensures List(env, query, answer).Ok? ==>
      var call := List(env, query, answer).value.listCall;
      call.Some? && ParseInt(call.value) == Some(Limit(query.value).value)
  {
    if query.Some? && Limit(query.value).Ok? {
      var limit := Limit(query.value).value;
      if "limit" !in query.value || limit == MaxLimit {
        NatStrLengthBound(Magnitude(limit));
      }
      ParseIntOfStr(limit);
    }
  }

  /** A store error becomes `ok: false` with its description and no blobs. */
  lemma ListStoreError(env: Env, query: map<string, seq<string>>, description: string)
    requires env.Configured() && Limit(query).Ok?
    ensures var r := List(env, Some(query), Raised(description));
      r.Ok? && !r.value.response.ok && r.value.response.error == Some(description) &&
      r.value.response.blobs == []
  {
  }

  /** The response to a successful listing, spelled out. */
  lemma ListedResponse(env: Env, query: map<string, seq<string>>, blobs: Option<seq<StoreEntry>>)
    requires env.Configured() && Limit(query).Ok?
    ensures var limit := Limit(query).value;
      var selected := Select(if blobs.Some? then blobs.value else [], limit);
      List(env, Some(query), Listed(blobs)) ==
        Ok(ListExchange(ListResponse(true, None, None, Some(|selected|), ProjectAll(selected)), Some(Str(limit))))
  {
  }

  /** A successful listing: `count` is the number of blobs, every blob's path
      is under the capture folder, the blobs are the projections of an
      order-preserving selection of the store's entries, no more than the
      limit (when it is not negative) and never more than 100; a missing
      "blobs" key lists nothing. */
  lemma ListSuccess(env: Env, query: map<string, seq<string>>, blobs: Option<seq<StoreEntry>>)
    requires env.Configured() && Limit(query).Ok?
    ensures List(env, Some(query), Listed(blobs)).Ok?
    ensures var x := List(env, Some(query), Listed(blobs)).value;
      x.response.ok && x.response.count == Some(|x.response.blobs|) &&
      x.listCall == Some(Str(Limit(query).value))
    ensures var out := List(env, Some(query), Listed(blobs)).value.response.blobs;
      forall i :: 0 <= i < |out| ==> out[i].pathname.Some? && StartsWith(out[i].pathname.value, ListPrefix)
    ensures var entries := if blobs.Some? then blobs.value else [];
      var selected := Select(entries, Limit(query).value);
      List(env, Some(query), Listed(blobs)).value.response.blobs == ProjectAll(selected) &&
      IsSubsequence(selected, entries)
    ensures var n, limit := |List(env, Some(query), Listed(blobs)).value.response.blobs|, Limit(query).value;
      limit >= 0 ==> n <= limit <= MaxLimit
    ensures blobs == None ==> List(env, Some(query), Listed(blobs)).value.response.blobs == []
  {
    var limit := Limit(query).value;
    var entries := if blobs.Some? then blobs.value else [];
    SelectFacts(entries, limit);
    ListedResponse(env, query, blobs);
    var selected := Select(entries, limit);
    var out := ProjectAll(selected);
    forall i | 0 <= i < |out|
      ensures out[i].pathname.Some? && StartsWith(out[i].pathname.value, ListPrefix)
    {
      assert Kept(selected[i]);
    }
  }

  /** A negative limit `-k` lists every capture entry but the last `k`, so it
      is not capped at 100: with 102 capture entries, `limit=-1` lists 101. */
  lemma ListNegativeLimit(env: Env, blobs: seq<StoreEntry>, limit: int)
    requires env.Configured() && limit < 0 && |Filter(blobs)| + limit >= 0
    requires |NatStr(Magnitude(limit))| <= MaxStrDigits
    ensures var r := List(env, Some(map["limit" := [Str(limit)]]), Listed(Some(blobs)));
      r.Ok? && r.value.response.blobs == ProjectAll(Filter(blobs)[..|Filter(blobs)| + limit])
  {
    var query := map["limit" := [Str(limit)]];
    LimitOfValue(limit, []);
    assert [Str(limit)] + [] == [Str(limit)];
    ListedResponse(env, query, Some(blobs));
    SelectFacts(blobs, limit);
  }

  /** Asking for 100 or more when the store holds at least 100 capture
      entries lists exactly 100 of them (`limit=200` with 150 entries gives 100). */
  lemma ListCapsAtHundred(env: Env, blobs: seq<StoreEntry>, n: int)
    requires env.Configured() && n >= MaxLimit && |Filter(blobs)| >= MaxLimit
    requires |NatStr(n)| <= MaxStrDigits
    ensures var r := List(env, Some(map["limit" := [Str(n)]]), Listed(Some(blobs)));
      r.Ok? && |r.value.response.blobs| == MaxLimit
  {
    var query := map["limit" := [Str(n)]];
    LimitOfValue(n, []);
    assert [Str(n)] + [] == [Str(n)];
    ListedResponse(env, query, Some(blobs));
    SelectFacts(blobs, MaxLimit);
  }

  /** Every key the capture handler writes is one this handler lists. */
  lemma SavedKeysAreListed(receivedAt: string, url: Option<string>, uploadedAt: Option<string>, size: Option<int>)
    ensures Kept(StoreEntry(Some(Webhook.BlobKey(receivedAt)), url, uploadedAt, size, map[]))
  {
    var key := Webhook.BlobKey(receivedAt);
    assert Webhook.KeyPrefix + "/" == ListPrefix;
  }

  /** Both handlers consult the same configuration: when a POST writes its
      record to the store, a GET in the same environment whose path and limit
      parse asks the store for its listing. */
  lemma SharedConfiguration<J>(req: Webhook.Request, now: Timestamp.DateTime, env: Env,
                               codec: Webhook.Codec<J>, putFails: bool,
                               query: map<string, seq<string>>, answer: StoreAnswer)
    requires now.Valid() && Limit(query).Ok?
    requires Webhook.Post(req, now, env, codec, putFails).Ok?
    requires Webhook.Post(req, now, env, codec, putFails).value.put.Some?
    ensures List(env, Some(query), answer).Ok? && List(env, Some(query), answer).value.listCall.Some?
  {
  }
}

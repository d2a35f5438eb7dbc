/** The capture handler (api/webhook.py): read the request body, build the
    capture record, try to persist it under a key derived from the capture
    time, and answer POST and PUT with an envelope that echoes the record.

    The socket, the clock, the environment, UTF-8 decoding, `json.loads`,
    `json.dumps` and the blob store's `put` are parameters: the model fixes
    what the handler does with whatever they return. */
module Webhook {
  import opened Py
  import opened Timestamp
  import opened Config

  // ---------------------------------------------------------------------------
  // Reading the body

  /** The size the read loop asks `rfile.read` for. */
  const ReadSize := 8192

  /** What one `rfile.read(n)` call produces: bytes (none at end of input), or
      an exception. */
  datatype ReadOutcome = Chunk(data: seq<byte>) | Raise(error: PyError)

  /** The outcome of the `i`-th read: once the given outcomes are used up the
      stream stays at end of input. */
  function NthRead(outcomes: seq<ReadOutcome>, i: nat): ReadOutcome {
    if i < |outcomes| then outcomes[i] else Chunk([])
  }

  /** The two exceptions the read loop treats as the end of the body. */
  predicate IsDrop(e: PyError) {
    e == ConnectionResetError || e == BrokenPipeError
  }

  /** A read that leaves the loop: end of input or an exception. */
  predicate EndsLoop(o: ReadOutcome) {
    o.Raise? || o.data == []
  }

  /** The index of the first read that leaves the loop, or `|outcomes|` when every
      given read delivers bytes. */
  function FirstStop(outcomes: seq<ReadOutcome>): (k: nat)
    ensures k <= |outcomes|
    ensures forall i :: 0 <= i < k ==> !EndsLoop(outcomes[i])
    ensures k < |outcomes| ==> EndsLoop(outcomes[k])
  {
    if outcomes == [] || EndsLoop(outcomes[0]) then 0 else 1 + FirstStop(outcomes[1..])
  }

  /** `b"".join(chunks)`. */
  function Flatten(chunks: seq<seq<byte>>): seq<byte> {
    if chunks == [] then [] else Flatten(chunks[..|chunks| - 1]) + chunks[|chunks| - 1]
  }

  /** The bytes each read delivered, in order (an exception delivers none). */
  function DataOf(outcomes: seq<ReadOutcome>): seq<seq<byte>> {
    seq(|outcomes|, i requires 0 <= i < |outcomes| => if outcomes[i].Chunk? then outcomes[i].data else [])
  }

  /** The body read without a Content-Length: the chunks before the first read
      that ends the loop, joined in order. A dropped connection ends the body
      like end of input does; any other exception escapes. */
  function ReadToEnd(outcomes: seq<ReadOutcome>): Result<seq<byte>, PyError> {
    var k := FirstStop(outcomes);
    var last := NthRead(outcomes, k);
    if last.Raise? && !IsDrop(last.error) then Err(last.error)
    else Ok(Flatten(DataOf(outcomes[..k])))
  }

  /** What `_read_body` returns, paired with the size passed to each
      `rfile.read` call. With a non-empty Content-Length it parses it with
      `int()` and makes one read of that size, whose exceptions escape; without
      one it reads `ReadSize` bytes at a time until the loop ends. */
  function RequestBody(contentLength: Option<string>, outcomes: seq<ReadOutcome>)
    : (Result<seq<byte>, PyError>, seq<int>)
  {
    if contentLength.Some? && contentLength.value != "" then
      match ParseInt(contentLength.value)
      case None => (Err(ValueError), [])
      case Some(n) =>
        var first := NthRead(outcomes, 0);
        (if first.Chunk? then Ok(first.data) else Err(first.error), [n])
    else
      (ReadToEnd(outcomes), seq(FirstStop(outcomes) + 1, _ => ReadSize))
  }

  /** `_read_body`, with the request stream given as the outcomes of its
      successive reads. */
  method ReadBody(contentLength: Option<string>, outcomes: seq<ReadOutcome>)
    returns (body: Result<seq<byte>, PyError>, requested: seq<int>)
    ensures (body, requested) == RequestBody(contentLength, outcomes)
  {
    if contentLength.Some? && contentLength.value != "" {
      var n := ParseInt(contentLength.value);
      if n.None? {
        return Err(ValueError), [];
      }
      requested := [n.value];
      var first := NthRead(outcomes, 0);
      body := if first.Chunk? then Ok(first.data) else Err(first.error);
      return;
    }
    var chunks: seq<seq<byte>> := [];
    var i := 0;
    requested := [];
    while true
      invariant i <= FirstStop(outcomes)
      invariant chunks == DataOf(outcomes[..i])
      invariant requested == seq(i, _ => ReadSize)
      decreases |outcomes| - i
    {
      requested := requested + [ReadSize];
      assert requested == seq(i + 1, _ => ReadSize);
      var chunk := NthRead(outcomes, i);
      if EndsLoop(chunk) {
        assert i == FirstStop(outcomes);
      }
      if chunk.Raise? {
        if IsDrop(chunk.error) {
          break;
        }
        body := Err(chunk.error);
        return;
      }
      if chunk.data == [] {
        break;
      }
      assert outcomes[..i + 1] == outcomes[..i] + [chunk];
      chunks := chunks + [chunk.data];
      i := i + 1;
    }
    body := Ok(Flatten(chunks));
  }

  lemma {:induction false} FirstStopConcat(outcomes: seq<ReadOutcome>, more: seq<ReadOutcome>)
    requires FirstStop(outcomes) < |outcomes|
    ensures FirstStop(outcomes + more) == FirstStop(outcomes)
  {
    if !EndsLoop(outcomes[0]) {
      assert (outcomes + more)[1..] == outcomes[1..] + more;
      FirstStopConcat(outcomes[1..], more);
    }
  }

  /** The read loop never looks past the read that ends it: whatever the stream
      would deliver afterwards leaves the body unchanged. */
  lemma ReadToEndIgnoresLater(outcomes: seq<ReadOutcome>, more: seq<ReadOutcome>)
    requires FirstStop(outcomes) < |outcomes|
    ensures ReadToEnd(outcomes + more) == ReadToEnd(outcomes)
  {
    var k := FirstStop(outcomes);
    FirstStopConcat(outcomes, more);
    assert (outcomes + more)[..k] == outcomes[..k];
    assert NthRead(outcomes + more, k) == NthRead(outcomes, k);
  }

  /** A connection reset or broken pipe ends the body exactly as end of input
      would: the bytes read so far are the body. */
  lemma {:induction false} DropIsEndOfInput(outcomes: seq<ReadOutcome>, k: nat)
    requires k < |outcomes| && outcomes[k].Raise? && IsDrop(outcomes[k].error)
    requires forall i :: 0 <= i < k ==> !EndsLoop(outcomes[i])
    ensures ReadToEnd(outcomes) == Ok(Flatten(DataOf(outcomes[..k])))
    ensures ReadToEnd(outcomes) == ReadToEnd(outcomes[..k] + [Chunk([])])
  {
    var eof := outcomes[..k] + [Chunk([])];
    FirstStopAt(outcomes, k);
    FirstStopAt(eof, k);
    assert eof[..k] == outcomes[..k];
  }

  /** The first read that ends the loop is found at the first index where one does. */
  lemma {:induction false} FirstStopAt(outcomes: seq<ReadOutcome>, k: nat)
    requires k < |outcomes| && EndsLoop(outcomes[k])
    requires forall i :: 0 <= i < k ==> !EndsLoop(outcomes[i])
    ensures FirstStop(outcomes) == k
  {
    if k > 0 {
      FirstStopAt(outcomes[1..], k - 1);
    }
  }

  /** Without a Content-Length, the body is the bytes of every chunk, in order,
      up to the first empty read or dropped connection; the loop asks for
      `ReadSize` bytes on each of its reads, the one that ends it included. */
  lemma ChunkedBody(outcomes: seq<ReadOutcome>, k: nat)
    requires k <= |outcomes| && forall i :: 0 <= i < k ==> !EndsLoop(outcomes[i])
    requires k < |outcomes| ==> outcomes[k] == Chunk([]) || (outcomes[k].Raise? && IsDrop(outcomes[k].error))
    ensures RequestBody(None, outcomes).0 == Ok(Flatten(DataOf(outcomes[..k])))
    ensures |RequestBody(None, outcomes).1| == k + 1
  {
    if k < |outcomes| {
      FirstStopAt(outcomes, k);
    }
  }

  /** With a non-empty Content-Length the handler makes exactly one read, of
      the size the header gives, and its body is what that read returns; an
      exception from that read escapes, a dropped connection included. A
      header `int()` rejects raises `ValueError` before anything is read. */
  lemma LengthHeaderBody(header: string, outcomes: seq<ReadOutcome>)
    requires header != ""
    ensures var (body, requested) := RequestBody(Some(header), outcomes);
      match ParseInt(header)
      case None => body == Err(ValueError) && requested == []
      case Some(n) =>
        requested == [n] &&
        (outcomes == [] ==> body == Ok([])) &&
        (outcomes != [] && outcomes[0].Chunk? ==> body == Ok(outcomes[0].data)) &&
        (outcomes != [] && outcomes[0].Raise? ==> body == Err(outcomes[0].error))
  {
  }

  /** A Content-Length holding an ASCII information separator (U+001C..U+001F)
      raises `ValueError` before any read, even next to the digits where
      `str.strip()` would drop it. */
  lemma SeparatorHeaderReadsNothing(header: string, i: nat, outcomes: seq<ReadOutcome>)
    requires i < |header| && IsInfoSeparator(header[i])
    ensures RequestBody(Some(header), outcomes) == (Err(ValueError), [])
  {
    ParseIntRejectsSeparator(header, i);
  }

  // ---------------------------------------------------------------------------
  // The capture record

  /** `_capture_payload`'s dictionary. `bodyParsed` holds Python's `None` both
      when there is nothing to parse and when `json.loads` returns `None`. */
  datatype Capture<J> = Capture(
    receivedAt: string,
    httpMethod: string,
    path: string,
    query: map<string, seq<string>>,
    headers: map<string, string>,
    bodyRaw: string,
    bodyParsed: J)

  /** The parts of an incoming request the handler looks at: the method, the
      raw path, `parse_qs` of the path's query (`None` when `urlparse` rejects
      the path, as it does an unbalanced IPv6 bracket, by raising `ValueError`),
      the headers as a dict, the Content-Length header, and the outcomes of
      reading the request stream. */
  datatype Request = Request(
    command: string,
    path: string,
    query: Option<map<string, seq<string>>>,
    headers: map<string, string>,
    contentLength: Option<string>,
    outcomes: seq<ReadOutcome>)

  /** The library calls the capture path makes: lossy UTF-8 decoding,
      `json.loads` (failing with `JSONDecodeError` on invalid text, possibly
      with other errors too), Python's `None`, and
      `json.dumps(payload, indent=2).encode("utf-8")` (`None` when it raises). */
  datatype Codec<!J> = Codec(
    decode: seq<byte> -> string,
    loads: string -> Result<J, PyError>,
    none: J,
    dumps: Capture<J> -> Option<seq<byte>>)

  /** `body_raw.decode("utf-8", errors="replace") if body_raw else ""`. */
  function BodyText<J>(raw: seq<byte>, codec: Codec<J>): (text: string)
    ensures raw == [] ==> text == ""
  {
    if raw == [] then "" else codec.decode(raw)
  }

  /** `body_parsed`: whitespace-only text is not parsed and gives `None`; other
      text gives what `json.loads` returns, or `None` when it raises
      `JSONDecodeError`; any other exception from `json.loads` escapes. */
  function BodyParsed<J>(text: string, codec: Codec<J>): (r: Result<J, PyError>)
    ensures IsBlank(text) ==> r == Ok(codec.none)
    ensures !IsBlank(text) && codec.loads(text).Ok? ==> r == codec.loads(text)
    ensures !IsBlank(text) && codec.loads(text) == Err(JSONDecodeError) ==> r == Ok(codec.none)
    ensures r.Err? <==> !IsBlank(text) && codec.loads(text).Err? && codec.loads(text).error != JSONDecodeError
  {
    if Strip(text) != "" then
      match codec.loads(text)
      case Ok(v) => Ok(v)
      case Err(e) => if e == JSONDecodeError then Ok(codec.none) else Err(e)
    else Ok(codec.none)
  }

  /** `_capture_payload` once the body has been read: the body is parsed
      first, then the path goes through `urlparse`. */
  function CapturePayload<J>(req: Request, now: DateTime, raw: seq<byte>, codec: Codec<J>)
    : (r: Result<Capture<J>, PyError>)
    requires now.Valid()
    ensures r.Ok? ==>
      var c := r.value;
      c.receivedAt == ReceivedAt(now) && c.httpMethod == req.command && c.path == req.path &&
      req.query == Some(c.query) && c.headers == req.headers && c.bodyRaw == BodyText(raw, codec)
    ensures raw == [] && req.query.Some? ==> r.Ok? && r.value.bodyRaw == "" && r.value.bodyParsed == codec.none
    ensures r.Ok? <==> BodyParsed(BodyText(raw, codec), codec).Ok? && req.query.Some?
    ensures BodyParsed(BodyText(raw, codec), codec).Ok? && req.query.None? ==> r == Err(ValueError)
    ensures r.Ok? ==> r.value.bodyParsed == BodyParsed(r.value.bodyRaw, codec).value
  {
    var text := BodyText(raw, codec);
    match BodyParsed(text, codec)
    case Err(e) => Err(e)
    case Ok(parsed) =>
      match req.query
      case None => Err(ValueError)
      case Some(query) =>
        Ok(Capture(ReceivedAt(now), req.command, req.path, query, req.headers, text, parsed))
  }

  // ---------------------------------------------------------------------------
  // Persisting the record

  /** The folder the capture handler writes to. */
  const KeyPrefix := "webhooks/earnings"

  /** `received_at.replace(':', '-').replace('.', '-')`. */
  function KeyStem(receivedAt: string): (stem: string)
    ensures |stem| == |receivedAt|
    ensures ':' !in stem && '.' !in stem
    ensures forall i :: 0 <= i < |stem| ==>
      stem[i] == if receivedAt[i] == ':' || receivedAt[i] == '.' then '-' else receivedAt[i]
  {
    var stem := Replace(Replace(receivedAt, ':', '-'), '.', '-');
    assert ':' !in stem by {
      forall i | 0 <= i < |stem| ensures stem[i] != ':' { }
    }
    assert '.' !in stem by {
      forall i | 0 <= i < |stem| ensures stem[i] != '.' { }
    }
    stem
  }

  /** The blob key of a capture: the folder, the stem and ".json". The stem can
      be read back from between the two. */
  function BlobKey(receivedAt: string): (key: string)
    ensures StartsWith(key, KeyPrefix + "/") && EndsWith(key, ".json")
    ensures |key| == |KeyPrefix| + 1 + |receivedAt| + 5
    ensures key[|KeyPrefix| + 1..|key| - 5] == KeyStem(receivedAt)
  {
    var key := KeyPrefix + "/" + KeyStem(receivedAt) + ".json";
    assert key[..|KeyPrefix| + 1] == KeyPrefix + "/";
    key
  }

  /** Two strings with the same stem agree at every position where the first
      has a digit: the stem leaves digits where they were. */
  lemma StemKeepsDigits(a: string, b: string, lo: nat, hi: nat)
    requires KeyStem(a) == KeyStem(b)
    requires lo <= hi <= |a|
    requires forall i :: lo <= i < hi ==> IsDigit(a[i])
    ensures a[lo..hi] == b[lo..hi]
  {
    forall i | lo <= i < hi ensures a[i] == b[i] {
      assert KeyStem(a)[i] == a[i];
    }
  }

  /** A field that both stems hold at the same place, zero-padded, is equal. */
  lemma SameStemField(a: string, b: string, lo: nat, width: nat, n: nat, m: nat)
    requires KeyStem(a) == KeyStem(b)
    requires lo + width <= |a| && lo + width <= |b|
    requires n < Pow10(width) && m < Pow10(width)
    requires a[lo..lo + width] == Pad(n, width) && b[lo..lo + width] == Pad(m, width)
    ensures n == m
  {
    forall i | lo <= i < lo + width ensures IsDigit(a[i]) {
      assert a[i] == Pad(n, width)[i - lo];
    }
    StemKeepsDigits(a, b, lo, lo + width);
    PadInjective(n, m, width);
  }

  /** Captures received at different microseconds are saved under different
      keys; only captures within the same microsecond overwrite one another. */
  lemma BlobKeyInjective(t: DateTime, u: DateTime)
    requires t.Valid() && u.Valid()
    requires BlobKey(ReceivedAt(t)) == BlobKey(ReceivedAt(u))
    ensures t == u
  {
    var a, b := ReceivedAt(t), ReceivedAt(u);
    var ka, kb := BlobKey(a), BlobKey(b);
    assert KeyStem(a) == KeyStem(b) by {
      assert ka[|KeyPrefix| + 1..|ka| - 5] == kb[|KeyPrefix| + 1..|kb| - 5];
    }
    assert (t.microsecond == 0) == (u.microsecond == 0) by {
      assert |a| == |KeyStem(a)| == |KeyStem(b)| == |b|;
    }
    ReceivedAtFields(t);
    ReceivedAtFields(u);
    assert Pow10(2) == 100 && Pow10(4) == 10000 && Pow10(6) == 1000000;
    SameStemField(a, b, 0, 4, t.year, u.year);
    SameStemField(a, b, 5, 2, t.month, u.month);
    SameStemField(a, b, 8, 2, t.day, u.day);
    SameStemField(a, b, 11, 2, t.hour, u.hour);
    SameStemField(a, b, 14, 2, t.minute, u.minute);
    SameStemField(a, b, 17, 2, t.second, u.second);
    if t.microsecond != 0 {
      SameStemField(a, b, 20, 6, t.microsecond, u.microsecond);
    }
  }

  /** The one call `_save_to_blob` makes to the store: `put(key, data)`. */
  datatype PutCall = PutCall(key: string, data: seq<byte>)

  /** What `_save_to_blob` returns (the blob path, or `None`) and the `put` it
      attempted, if any. */
  datatype Saved = Saved(path: Option<string>, put: Option<PutCall>)

  /** `_save_to_blob`. `putFails` is the store's answer: whether `put` raises.
      Nothing escapes: every failure becomes `None`. */
  function SaveToBlob<J>(env: Env, payload: Capture<J>, codec: Codec<J>, putFails: bool)
    : (r: Saved)
    ensures !env.Configured() ==> r == Saved(None, None)
    ensures r.put.Some? <==> env.Configured() && codec.dumps(payload).Some?
    ensures r.put.Some? ==>
      r.put.value == PutCall(BlobKey(payload.receivedAt), codec.dumps(payload).value)
    ensures r.path.Some? <==> r.put.Some? && !putFails
    ensures r.path.Some? ==> r.path.value == r.put.value.key
  {
    if !env.Configured() then Saved(None, None)
    else
      var name := BlobKey(payload.receivedAt);
      match codec.dumps(payload)
      case None => Saved(None, None)
      case Some(data) =>
        if putFails then Saved(None, Some(PutCall(name, data)))
        else Saved(Some(name), Some(PutCall(name, data)))
  }

  // ---------------------------------------------------------------------------
  // POST and PUT

  const CapturedMessage := "Webhook received and captured."

  /** The response dictionary of `do_POST`; `savedTo` is the optional
      "saved_to" key. */
  datatype PostResponse<J> = PostResponse(
    ok: bool,
    message: string,
    captured: Capture<J>,
    savedTo: Option<string>)

  /** The envelope: always `ok`, the fixed message and the record; "saved_to"
      only when the blob path is truthy, and then equal to it. */
  function Envelope<J>(payload: Capture<J>, blobPath: Option<string>): (r: PostResponse<J>)
    ensures r.ok && r.message == CapturedMessage && r.captured == payload
    ensures r.savedTo.Some? <==> blobPath.Some? && blobPath.value != ""
    ensures r.savedTo.Some? ==> r.savedTo == blobPath
  {
    var response := PostResponse(true, CapturedMessage, payload, None);
    if blobPath.Some? && blobPath.value != "" then response.(savedTo := blobPath) else response
  }

  /** What one POST exchange produces: the response, and the store call made. */
  datatype PostExchange<J> = PostExchange(response: PostResponse<J>, put: Option<PutCall>)

  /** `do_POST` as a function of the request, the clock, the environment, the
      library calls and the store's answer. An `Err` is an exception that
      escapes the handler before any response is written. */
  function Post<J>(req: Request, now: DateTime, env: Env, codec: Codec<J>, putFails: bool)
    : Result<PostExchange<J>, PyError>
    requires now.Valid()
  {
    var body := RequestBody(req.contentLength, req.outcomes).0;
    if body.Err? then Err(body.error)
    else
      match CapturePayload(req, now, body.value, codec)
      case Err(e) => Err(e)
      case Ok(payload) =>
        var saved := SaveToBlob(env, payload, codec, putFails);
        Ok(PostExchange(Envelope(payload, saved.path), saved.put))
  }

  /** `handler.do_POST`. */
  method HandlePost<J>(req: Request, now: DateTime, env: Env, codec: Codec<J>, putFails: bool)
    returns (r: Result<PostExchange<J>, PyError>)
    requires now.Valid()
    ensures r == Post(req, now, env, codec, putFails)
  {
    var body, _ := ReadBody(req.contentLength, req.outcomes);
    if body.Err? {
      return Err(body.error);
    }
    var payload := CapturePayload(req, now, body.value, codec);
    if payload.Err? {
      return Err(payload.error);
    }
    var saved := SaveToBlob(env, payload.value, codec, putFails);
    r := Ok(PostExchange(Envelope(payload.value, saved.path), saved.put));
  }

  /** `handler.do_PUT`: exactly what POST does with the same request. */
  method HandlePut<J>(req: Request, now: DateTime, env: Env, codec: Codec<J>, putFails: bool)
    returns (r: Result<PostExchange<J>, PyError>)
    requires now.Valid()
    ensures r == Post(req, now, env, codec, putFails)
  {
    r := HandlePost(req, now, env, codec, putFails);
  }

  /** A POST that gets as far as responding answers `ok` with the fixed message
      and the record; it carries "saved_to" exactly when the store is configured,
      the record serialises and `put` succeeds, and then "saved_to" is the key
      the record was written under. */
  lemma PostResponds<J>(req: Request, now: DateTime, env: Env, codec: Codec<J>, putFails: bool)
    requires now.Valid()
    requires Post(req, now, env, codec, putFails).Ok?
    ensures var x := Post(req, now, env, codec, putFails).value;
      x.response.ok && x.response.message == CapturedMessage &&
      x.response.captured.receivedAt == ReceivedAt(now) &&
      x.response.captured.httpMethod == req.command &&
      x.response.captured.headers == req.headers &&
      (x.response.savedTo.Some? <==> env.Configured() && codec.dumps(x.response.captured).Some? && !putFails) &&
      (x.response.savedTo.Some? ==>
        x.response.savedTo.value == BlobKey(ReceivedAt(now)) &&
        x.put == Some(PutCall(BlobKey(ReceivedAt(now)), codec.dumps(x.response.captured).value)))
  {
    var x := Post(req, now, env, codec, putFails).value;
    var key := BlobKey(ReceivedAt(now));
    assert key != "" by { assert |key| > 0; }
  }

  /** Without a configured store a POST never attempts a `put` and never
      reports "saved_to". */
  lemma PostUnconfigured<J>(req: Request, now: DateTime, env: Env, codec: Codec<J>, putFails: bool)
    requires now.Valid() && !env.Configured()
    requires Post(req, now, env, codec, putFails).Ok?
    ensures Post(req, now, env, codec, putFails).value.response.savedTo == None
    ensures Post(req, now, env, codec, putFails).value.put == None
  {
  }

  /** The only exceptions that escape POST: a Content-Length that `int()`
      rejects, an exception from the single Content-Length read, an exception
      other than a dropped connection from the read loop, an exception other
      than `JSONDecodeError` from `json.loads`, and the `ValueError` of a path
      `urlparse` rejects. Store and serialisation failures never do. */
  lemma PostFailures<J>(req: Request, now: DateTime, env: Env, codec: Codec<J>, putFails: bool)
    requires now.Valid()
    ensures var body := RequestBody(req.contentLength, req.outcomes).0;
      Post(req, now, env, codec, putFails).Err? <==>
        body.Err? ||
        (var text := BodyText(body.value, codec);
         !IsBlank(text) && codec.loads(text).Err? && codec.loads(text).error != JSONDecodeError) ||
        req.query.None?
    ensures Post(req, now, env, codec, putFails).Ok? ==>
      Post(req, now, env, codec, true).Ok? && Post(req, now, Env(false, None), codec, putFails).Ok?
  {
  }

  /** A body whose text is JSON is captured both raw and parsed; text that is
      not JSON is captured raw with `None` parsed; an empty body is captured as
      "" with `None` parsed. */
  lemma PostBody<J>(req: Request, now: DateTime, env: Env, codec: Codec<J>, putFails: bool, raw: seq<byte>)
    requires now.Valid()
    requires RequestBody(req.contentLength, req.outcomes).0 == Ok(raw)
    ensures var r := Post(req, now, env, codec, putFails);
      raw == [] && req.query.Some? ==>
        r.Ok? && r.value.response.captured.bodyRaw == "" &&
        r.value.response.captured.bodyParsed == codec.none
    ensures var r, text := Post(req, now, env, codec, putFails), codec.decode(raw);
      raw != [] && req.query.Some? && !IsBlank(text) && codec.loads(text).Ok? ==>
        r.Ok? && r.value.response.captured.bodyRaw == text &&
        r.value.response.captured.bodyParsed == codec.loads(text).value
    ensures var r, text := Post(req, now, env, codec, putFails), codec.decode(raw);
      raw != [] && req.query.Some? && codec.loads(text) == Err(JSONDecodeError) ==>
        r.Ok? && r.value.response.captured.bodyRaw == text &&
        r.value.response.captured.bodyParsed == codec.none
  {
  }
}

# Webhook capture and listing, modelled in Dafny

The system is a diagnostic webhook endpoint made of two HTTP handlers.

- The capture handler (`api/webhook.py`) answers POST and PUT. It reads the request body,
  builds a capture record (time, method, path, query, headers, raw body, parsed JSON body)
  and tries to save it to a blob store under `webhooks/earnings/<time>.json`. It answers
  with an `ok` envelope that echoes the record and, when the save worked, says where it went.
- The list handler (`api/webhooks/list.py`) answers GET. It asks the blob store for entries,
  keeps those under `webhooks/earnings/`, cuts them down to the `limit` query parameter
  (default 20, at most 100) and answers with their path, URL, upload time and size.

The model is split into five modules:

- `Py` (`py.dfy`) gives the Python built-ins the handlers lean on: `str.strip()` with
  Python's whitespace set, `str.startswith`, one-character `str.replace`, `int()` and `str()`
  in base 10, and the slice `s[:stop]` for any `stop`, negative ones included.
  - `int()` follows CPython 3.11 and later: surrounding whitespace, an optional sign,
    digits with single underscores between them, and at most 4300 digits.
    4300 is the default of `sys.get_int_max_str_digits()`.
  - The whitespace `int()` skips is not quite the set `str.strip()` removes. The ASCII
    information separators U+001C..U+001F count as whitespace for `str.isspace()` and
    `str.strip()`, but `int()` rejects any text that holds one.
- `Timestamp` (`timestamp.dfy`) renders a clock reading as `datetime.isoformat() + "Z"`.
  The fraction is printed only when the microsecond is not zero.
- `Config` (`config.dfy`) holds the one check both handlers make: the blob client imported
  and `BLOB_READ_WRITE_TOKEN` is set and not empty.
- `Webhook` (`webhook.dfy`) models the capture handler. The body-reading loop is a method,
  proved against a function that describes the body without a loop. `HandlePost` and
  `HandlePut` are methods, both proved equal to the function `Post`, which is the whole
  POST exchange. The other operations are functions.
- `WebhookList` (`webhook_list.dfy`) models the list handler as the function `List`, with
  lemmas for each of its outcomes.

The socket, the clock, the environment, UTF-8 decoding, `urlparse`/`parse_qs`, `json.loads`,
`json.dumps` and the blob store are inputs. The parsed query is `None` when `urlparse`
rejects the path, for example `http://[::1/x` with its bracket unclosed; `urlparse` then
raises `ValueError`. The socket is the sequence of outcomes of successive reads. Once that
sequence runs out, the stream stays at end of input. `json.loads` is a function from text to
a value or an exception. `json.dumps` is a function from the record to bytes, or `None` when
it raises. The store is its answer: whether `put` raises, and what `list` returns or raises.
An exception that escapes a handler is an `Err` result. Each exchange also records the store
call the handler made, so "no store call" can be stated.

Some of what the code does is easy to miss from its docstrings and comments:

- The list handler calls `send_response(200)` and `end_headers()` (`api/webhooks/list.py:19-21`)
  before it parses the path and the limit (lines 32-34, outside the `try`). So a malformed
  `limit` raises `ValueError` after the 200 status line has already been written. The model
  records the escaping exception and nothing about the status line.
- The limit is capped at 100 (line 34) only from above. A negative limit `-k` keeps all but
  the last `k` capture entries, with no cap (`ListNegativeLimit`). So the list stays within
  `min(limit, 100)` only for limits of 0 or more.
- The capture handler's docstring (`api/webhook.py:3-4`) says it always returns the captured
  payload. But some exceptions escape `do_POST` before any response is written (`PostFailures`):
  - a non-empty Content-Length that `int()` rejects, including one with more than 4300
    digits;
  - any exception from the single Content-Length read, a dropped connection included;
  - any read exception other than a reset or broken pipe in the read loop;
  - any `json.loads` exception other than `JSONDecodeError` (for example a `RecursionError`
    on deeply nested JSON);
  - the `ValueError` of a path that `urlparse` rejects.
- `body_parsed` is `None` for a blank body and for text that is not JSON. It is also `None`
  for a body whose JSON is `null`. The model uses one value, `none`, for all three.

## Model

| member | source | states |
|---|---|---|
| `Py.Strip` | api/webhook.py:48 | `strip()` is empty exactly when the input is all whitespace; otherwise it neither starts nor ends with whitespace |
| `Py.StripIsInfix` | api/webhook.py:48 | `strip()` is a contiguous part of the input with only whitespace before and after it, so with `Strip` it is the input with exactly its leading and trailing whitespace removed |
| `Py.StripUnchanged` | api/webhook.py:48 | `strip()` leaves text that neither starts nor ends with whitespace as it is |
| `Py.ParseInt` | api/webhooks/list.py:34 | `int()` rejects blank text with `ValueError`, and every value it returns has at most 4300 digits |
| `Py.ParseIntRejectsSeparator` | api/webhooks/list.py:34 | text holding any of U+001C..U+001F raises `ValueError`, even where `strip()` would have removed it |
| `Py.ParseIntRejectsLong` | api/webhooks/list.py:34 | a run of more than 4300 digits raises `ValueError`, whatever its value |
| `Py.Replace` | api/webhook.py:73 | `replace` keeps the length and turns every occurrence of one character into another, leaving all other characters in place |
| `Py.ParseIntOfStr` | api/webhooks/list.py:34-37 | `int(str(n)) == n` for every integer of at most 4300 digits, so the limit text passed to the store parses back to the limit |
| `Py.SliceTo` | api/webhooks/list.py:40 | `[:stop]` is a prefix: of length `min(stop, len)` for `stop >= 0`, and `max(len + stop, 0)` for `stop < 0` |
| `Py.SliceToNonPositive` | api/webhooks/list.py:40 | `[:0]` is empty; `[:-k]` drops exactly the last `k` elements, or all of them if there are fewer |
| `Timestamp.ReceivedAt` | api/webhook.py:56 | `received_at` is 20 characters long, or 27 with a fraction (printed only when the microsecond is not zero), and ends in "Z" |
| `Timestamp.PadInjective` | api/webhook.py:56 | the zero-padded fields of `isoformat()` are one-to-one on the values that fit their width |
| `Timestamp.ReceivedAtFields` | api/webhook.py:56 | year, month, day, hour, minute, second and microsecond sit at fixed positions of `received_at` |
| `Webhook.FirstStop` | api/webhook.py:27-34 | the read loop stops at the first read that returns no bytes or raises; every earlier read delivered bytes |
| `Webhook.ReadBody` | api/webhook.py:20-35 | the loop method returns the same body as the loop-free description, and asks for the same read sizes: one read of `int(Content-Length)` bytes, or 8192-byte reads up to and including the one that ends the loop |
| `Webhook.ChunkedBody` | api/webhook.py:26-35 | without Content-Length the body is the chunks before the first empty read or dropped connection, joined in order, after `k + 1` reads |
| `Webhook.LengthHeaderBody` | api/webhook.py:22-24 | a non-empty Content-Length gives one read of `int(header)` bytes; its result is the body and its exceptions escape; an unparsable header raises `ValueError` before any read |
| `Webhook.SeparatorHeaderReadsNothing` | api/webhook.py:22-24 | a Content-Length holding any of U+001C..U+001F raises `ValueError` before any read |
| `Webhook.ReadToEndIgnoresLater` | api/webhook.py:27-34 | nothing the stream would deliver after the read that ends the loop changes the body |
| `Webhook.DropIsEndOfInput` | api/webhook.py:33-34 | a reset or broken pipe ends the body exactly as end of input does, keeping the bytes read so far |
| `Webhook.BodyText` | api/webhook.py:46 | an empty body gives the text "" without decoding |
| `Webhook.BodyParsed` | api/webhook.py:47-52 | blank text gives `None` without parsing; other text gives the `json.loads` value, or `None` on `JSONDecodeError`; other `json.loads` errors escape |
| `Webhook.CapturePayload` | api/webhook.py:43-64 | the record carries the capture time, method, path, query, headers and decoded body; an empty body gives "" and `None`; it fails exactly when parsing raises something other than `JSONDecodeError`, or else when `urlparse` rejects the path, which gives `ValueError` |
| `Webhook.KeyStem` | api/webhook.py:73 | the stem has the length of `received_at`, no ':' and no '.', and differs from it only where those were, which became '-' |
| `Webhook.BlobKey` | api/webhook.py:72-73 | the key starts with "webhooks/earnings/" and ends with ".json", and the stem can be read back from between them |
| `Webhook.BlobKeyInjective` | api/webhook.py:56-73 | captures received at different microseconds get different blob keys |
| `Webhook.SaveToBlob` | api/webhook.py:67-78 | unconfigured: `None` and no `put`; a `put` is attempted exactly when configured and serialisation works, with the derived key and the serialised record; a path is returned exactly when that `put` succeeds, and it is the key written; nothing escapes |
| `Webhook.Envelope` | api/webhook.py:100-106 | always `ok`, the fixed message and the record; "saved_to" is present exactly when the blob path is truthy, and then equals it |
| `Webhook.HandlePost` | api/webhook.py:95-106 | `do_POST` reads, captures, saves and answers exactly as `Post` describes |
| `Webhook.HandlePut` | api/webhook.py:113-115 | PUT gives exactly the POST result for the same request |
| `Webhook.PostResponds` | api/webhook.py:97-106 | a POST that answers is `ok` with the fixed message, the capture time, method and headers; "saved_to" appears exactly when the store is configured, the record serialises and `put` succeeds, and then names the key written |
| `Webhook.PostUnconfigured` | api/webhook.py:69-70 | without a configured store there is no `put` and no "saved_to" |
| `Webhook.PostFailures` | api/webhook.py:20-54 | POST fails exactly when reading the body raises, parsing raises something other than `JSONDecodeError`, or `urlparse` rejects the path; store and serialisation outcomes never make it fail |
| `Webhook.PostBody` | api/webhook.py:45-52 | for a path `urlparse` accepts: a JSON body is captured raw and parsed; a non-JSON body is captured raw with `None`; an empty body gives "" and `None` |
| `WebhookList.Limit` | api/webhooks/list.py:34 | the limit is 20 without a "limit" parameter, else `min(int(first value), 100)`; it is never above 100 and has no lower bound; an unparsable value is `ValueError`, an empty value list is `IndexError` |
| `WebhookList.LimitOfValue` | api/webhooks/list.py:34 | every limit up to 100, negative ones included, is used as given; every larger one becomes 100; this holds for values of at most 4300 digits |
| `WebhookList.LimitRejectsLong` | api/webhooks/list.py:34 | a limit value of more than 4300 digits raises `ValueError` |
| `WebhookList.LimitRejectsSeparator` | api/webhooks/list.py:34 | a limit value holding any of U+001C..U+001F raises `ValueError` |
| `WebhookList.Filter` | api/webhooks/list.py:40 | keeps exactly the entries whose path (absent or empty counted as "") starts with "webhooks/earnings/", each as often as listed, in the store's order |
| `WebhookList.SelectFacts` | api/webhooks/list.py:40 | the selection is an order-preserving subsequence of the store's entries, all kept, and a prefix of the filtered list cut by Python slice rules |
| `WebhookList.Project` | api/webhooks/list.py:45-50 | an output entry carries exactly the pathname, url, uploadedAt and size of its store entry |
| `WebhookList.ProjectAll` | api/webhooks/list.py:44-52 | one output entry per selected entry, in order |
| `WebhookList.ListUnconfigured` | api/webhooks/list.py:23-30 | unconfigured: `ok: false`, the fixed message, no blobs and no store call, whatever the query |
| `WebhookList.List` | api/webhooks/list.py:18-57 | `do_GET` lets only `ValueError` or `IndexError` escape; the store is called exactly when it is configured and the path and limit parse; a failure answer has no blobs; a success answer's `count` is its number of blobs |
| `WebhookList.ListLimit` | api/webhooks/list.py:32-37 | configured: a path `urlparse` rejects or a bad limit escapes before any store call; otherwise the store is called with the limit's decimal text, which parses back to the limit |
| `WebhookList.ListStoreError` | api/webhooks/list.py:54-55 | a store exception gives `ok: false`, its description as "error", and no blobs |
| `WebhookList.ListSuccess` | api/webhooks/list.py:36-53 | a listing is `ok`; `count` is the number of blobs; every blob path starts with the folder; the blobs are the projected selection; a limit of 0 or more bounds their number; a missing "blobs" key lists nothing |
| `WebhookList.ListNegativeLimit` | api/webhooks/list.py:34-40 | a negative limit `-k` (at most 4300 digits) lists every capture entry but the last `k`, uncapped |
| `WebhookList.ListCapsAtHundred` | api/webhooks/list.py:34-40 | a limit of 100 or more (at most 4300 digits) with at least 100 capture entries lists exactly 100 |
| `WebhookList.SavedKeysAreListed` | api/webhooks/list.py:40 | every key the capture handler writes passes the list handler's folder filter |
| `WebhookList.SharedConfiguration` | api/webhooks/list.py:23 | both handlers consult the same configuration: once a POST has written to the store, a GET in the same environment with a parsable path and limit calls the store |

## Left out

- HTTP plumbing is not modelled: `send_response`, `send_header`, `end_headers`, writing the
  response, `log_message`. The responses are modelled as values.
- The GET info object of the capture handler (`api/webhook.py:82-93`) is a constant with no
  logic.
- UTF-8 decoding with replacement, `json.loads` and `json.dumps` are parameters. Their own
  behaviour is library code. `json.dumps` of the response itself (`api/webhook.py:111`,
  `api/webhooks/list.py:57`) is assumed to succeed.
- `urlparse`/`parse_qs` and the copy of the headers into a dict (`_headers_dict`) are library
  behaviour. The model takes the query map (or `None` when `urlparse` raises `ValueError`),
  the header map and the Content-Length header as inputs. So the header that wins among
  duplicates is whatever the input says.
- The read loop (`api/webhook.py:27-34`) has no timeout. A peer that keeps the connection
  open without sending makes it block for ever. The model's stream is a finite list of read
  outcomes followed by end of input, so it does not capture a read that never returns.
- `datetime.utcnow()`, `os.environ` and the import-time `HAS_BLOB` flag are inputs: a
  `DateTime`, and an `Env` with the flag and the token.
- The blob store's `put` and `list` are network calls. The model takes their answers as
  inputs, so it does not say what the store returns for a given `limit` option.
- The size bound of a read (at most `n` bytes, or everything for a negative `n`) belongs to
  the stream. The model records the size asked for; the bytes are what the outcome says.
- `int()` is modelled for ASCII digits only. Python also accepts other Unicode decimal digits.
  The digit limit is the default of 4300. A limit changed with `sys.set_int_max_str_digits`
  or `PYTHONINTMAXSTRDIGITS` is not modelled, and neither is a Python before 3.11 without the
  limit.
- `Timestamp.DateTime` does not enforce month lengths. `isoformat()` does not look at them.
- Some failures inside the list handler's `try` are not modelled: a store "blobs" value that is
  not a list, or a pathname that is not a string. In the code both become an `ok: false`
  envelope. The model's store entries always have these types.

# HW_4 form pipeline — a Dafny model

The program is a two-part web form pipeline in one Python file, `main.py`.
An HTTP front end serves `index.html`, `message.html` and static files for
GET. For POST it forwards the raw form body as one UDP datagram to a
listener, then redirects the browser to `/message`. The listener decodes
each datagram into a form, builds a `{username, message}` record, and merges
it into `storage/data.json` under the current ISO timestamp. An empty
datagram stops the listener.

The model has five modules, one file each:

- `Wrappers` (wrappers.dfy): `Option`.
- `Relay` (relay.dfy): bytes and datagrams, BUFFER_SIZE, and what
  `recvfrom(1024)` delivers. `DatagramChannel` is a class whose `outbox` is
  the sequence of datagrams sent so far.
- `Ingress` (ingress.dfy): GET routing (`Route`), the Content-Type choice
  (`ContentType`), the full GET reply (`HandleGet`), `rfile.read` (`ReadBody`)
  and POST handling (`HandlePost`, a method that appends to the outbox).
- `Persistence` (persistence.dfy): the record (`BuildRecord`) and the store
  file. `StoreFile` is a class whose `document` is missing, unparseable or a
  JSON object. `Save` is one read-merge-write. `Serve` is the receive loop,
  a `while` loop proved against the fold `SaveAll` and the stop index
  `Accepted`.
- `Pipeline` (pipeline.dfy): lemmas that join a POST to what the listener
  stores.

The environment becomes parameters:
- `isFile: string -> bool` stands for `Path.exists`.
- `guess: string -> Option<string>` stands for `mimetypes.guess_type`.
- `parse: Datagram -> Option<Form>` stands for `parse_qs(data.decode())`.
  It gives None when the payload is not UTF-8.
- The Content-Length value is an `Option<int>`, the result of `int(...)`.
- The timestamps are a sequence of strings, one per received datagram.

Behaviour of the code worth knowing, all of it modelled as written:
- A missing or non-integer Content-Length makes the POST handler raise. No
  datagram is sent and no reply is written. `HandlePost` returns None in
  this case.
- A Content-Length of -1 makes `rfile.read` read to the end of the stream.
  A Content-Length of -2 or less makes it raise ValueError, so again nothing
  is sent and nothing is replied (`ReadBody`, `HandlePost`).
- Two saves under the same timestamp overwrite each other. A save adds a key
  only when the timestamp is new (`Merge`, `SameTimestampOverwrites`).
- The listener also stops at a payload that is not valid UTF-8, because
  `decode()` raises. `Halt.DecodeError` models this.
- A datagram over 1024 bytes is cut to its first 1024 bytes when received;
  the listener does not reject it. This assumes POSIX sockets, which discard
  the rest of an oversized datagram (`Received`).
- A POST with an empty body sends the empty datagram, which stops the
  listener (`Pipeline.EmptyPostStopsListener`).

## Model

| member | source | states |
|---|---|---|
| `Relay.Received` | main.py:108 | the listener gets a prefix of the sent datagram of at most BUFFER_SIZE bytes; the whole datagram when it fits |
| `Relay.DatagramChannel.Send` | main.py:74-78 | a forward appends the payload, unchanged, as exactly one datagram to the outbox |
| `Ingress.Route` | main.py:26-38 | `/` gives index.html and `/message` gives message.html, both with 200; status is 404 exactly when the path is neither and the stripped name does not exist; 404 serves error.html; any other 200 serves the existing stripped name |
| `Ingress.ContentType` | main.py:46-53 | the type is never empty and is text/html, the octet-stream fallback or the guessed type; `.html` names get text/html; a non-empty guess is used; a missing or empty guess gives the fallback |
| `Ingress.HandleGet` | main.py:26-56 | a GET reply has status 200 or 404, exactly one Content-Type header and a file as body; 404 replies are text/html with error.html; the two fixed pages are sent as text/html with 200; any other 200 reply sends the existing stripped name with the type chosen for that name |
| `Ingress.RouteConsultsOnlyStrippedName` | main.py:28-35 | two file tests that agree on the stripped name route every path the same, and the fixed pages never consult it |
| `Ingress.ContentTypeIgnoresGuesserForHtml` | main.py:46-47 | for a `.html` name any two guessers give the same type, text/html |
| `Ingress.StaticFileReply` | main.py:33-53 | an existing non-HTML file is served with 200 and the guessed type, or the fallback when the guess is missing or empty |
| `Ingress.StaticHtmlReply` | main.py:33-47 | an existing `.html` file is served with 200 and text/html, whatever the guesser says |
| `Ingress.MissingFileReply` | main.py:37-38 | any other path with no such file gets the error page, 404, text/html, whatever the guesser says |
| `Ingress.RouteServesNamesOutsideBase` | main.py:34-36 | the stripped name is not confined to the working directory: the path `/../secret` serves `../secret` when it exists |
| `Ingress.ReadBody` | main.py:67 | a count of -2 or less is refused; otherwise the bytes read are a prefix of the body stream: all of it for -1, exactly min(count, available) bytes for a count of 0 or more |
| `Ingress.HandlePost` | main.py:65-72 | with a Content-Length the read accepts, exactly the bytes read are appended to the outbox as one datagram and the reply is 303 with `Location: /message` whatever the body was; without one, or with a count of -2 or less, nothing is sent and nothing is replied |
| `Persistence.BuildRecord` | main.py:116-119 | each of username and message is the first decoded value for its key, or empty when the key is absent |
| `Persistence.BuildRecordDropsOtherKeys` | main.py:116-119 | forms that agree on the first values of username and message give the same record; other keys and later values are dropped |
| `Persistence.RecordRoundTrip` | main.py:116-119 | the form a submitted record decodes to, blank fields omitted, is well formed and builds back that same record |
| `Persistence.Loaded` | main.py:126-133 | a missing or unparseable store file loads as the empty store; a JSON object loads as itself |
| `Persistence.Merge` | main.py:126-135 | the merged store maps the timestamp to the new record, keeps every other loaded key's value, has exactly the loaded keys plus the timestamp, grows by one unless the timestamp was there, and is the singleton when the file was missing or unparseable |
| `Persistence.StoreFile.Save` | main.py:115-137 | one save rewrites the file as the JSON object obtained by merging the built record under the timestamp into the loaded store |
| `Persistence.SaveAllKeys` | main.py:135 | after a run of saves the store holds exactly the keys it held before plus the timestamps of the saves |
| `Persistence.SaveAllKeepsUntouched` | main.py:135 | a key that no save used keeps the record it had |
| `Persistence.SaveAllLastWriteWins` | main.py:135 | a timestamp holds the record of the last save that used it |
| `Persistence.SaveAllGrowsByOnePerEntry` | main.py:135 | with distinct fresh timestamps every save adds exactly one key |
| `Persistence.Accepted` | main.py:107-112 | the number of saved datagrams is the index of the first datagram that is empty or does not decode; all before it are saved |
| `Persistence.HaltOf` | main.py:107-111 | the loop stops on an empty datagram exactly when one arrives with all datagrams before it accepted; it waits for more input exactly when every datagram was accepted |
| `Persistence.Serve` | main.py:102-113 | the receive loop returns the stop index and the reason it stopped, and leaves the store file equal to the saves of the accepted datagrams, in arrival order, each under its own timestamp |
| `Persistence.AcceptedIgnoresSuffix` | main.py:107-110 | datagrams after the one that stops the loop do not change how many are saved |
| `Persistence.StopIgnoresLaterDatagrams` | main.py:107-112 | once an empty datagram has arrived, datagrams after it change neither the final store nor the stop reason |
| `Persistence.ServeStoresEachAcceptedDatagram` | main.py:107-135 | with distinct fresh timestamps the loop adds exactly one key per datagram before the stop, maps each to that datagram's record, keeps every old entry, and stores nothing for datagrams from the stop on |
| `Persistence.SameTimestampOverwrites` | main.py:121-135 | two saves under one timestamp leave one entry holding the second record |
| `Pipeline.PostedFormIsStored` | main.py:66-112 | a non-empty POST body of at most 1024 bytes reaches the listener unchanged and its record is merged under the arrival time |
| `Pipeline.LongPostIsTruncated` | main.py:108 | a POST body longer than 1024 bytes that fits in one datagram is received as its first 1024 bytes |
| `Pipeline.EmptyPostStopsListener` | main.py:67-110 | a POST that reads no bytes (Content-Length 0, or an empty body with a count of -1 or more) sends the empty datagram, which stops the listener with nothing saved for it or anything after it |

## Left out

- The HTTP server machinery is not modelled. This covers `HTTPServer`, `BaseHTTPRequestHandler`, `serve_forever`, the `wfile`/`rfile` streams and the handler dispatch. The request body is a byte sequence and the reply is a value.
- The Server and Date headers that the library adds to every reply are not modelled. Replies list only the headers this program sets.
- Reading the served file is not modelled. The body names the file. A GET whose file cannot be opened raises after the status line and headers are sent, so no 404 is produced for it; the model does not capture that raise and always gives a complete reply.
- URL parsing (`urlparse`) is not modelled. `Route` takes the path component directly.
- `pathlib` normalisation is not modelled. For example, an empty name becomes `.` and doubled slashes are collapsed. The stripped string itself is what is tested and served.
- MIME guessing, form decoding and the `int` conversion of Content-Length are library behaviour. They are parameters.
- Sending is modelled as an append to the outbox. Socket creation, bind, close, datagram loss and the OS rejection of oversized datagrams (over 65507 bytes, `MaxDatagram`) are not modelled.
- Relay.Received: assumes POSIX truncation of a datagram longer than the receive buffer. On Windows `recvfrom` raises instead, which would end the listener.
- JSON serialisation (`json.dump`, `indent=4`) is not modelled. JSON text that parses but is not an object makes the assignment raise; that case is not modelled either. The document holds only records.
- Persistence.Loaded: a store file whose bytes do not decode in the locale encoding makes `json.load` raise UnicodeDecodeError, which is not caught, so the listener ends. The model treats every unreadable store file as unparseable and loads it as empty.
- Creating the storage directory is not modelled.
- The clock (`datetime.now().isoformat()`) is not modelled. Timestamps are parameters.
- `Serve` reads a finite sequence of datagrams. When the sequence runs out, the real loop would keep blocking in `recvfrom`.
- The two threads started by `main` run concurrently and share nothing. Threading and logging are not modelled.

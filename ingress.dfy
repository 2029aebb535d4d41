/** The HTTP front end (main.py:22-78): GET requests are routed to a page or a
    static file and answered with a status and a Content-Type; POST requests
    forward their body to the listener and redirect to the message page.

    The environment is passed in: `isFile` says whether a file is present
    under the working directory, `guess` is the MIME-type guesser. The request
    path is the path component already split off the URL. */
module Ingress {
  import opened Wrappers
  import opened Relay

  const IndexPage: string := "index.html"
  const MessagePage: string := "message.html"
  const ErrorPage: string := "error.html"

  const TextHtml: string := "text/html"
  const OctetStream: string := "application/octet-stream"

  datatype Header = Header(name: string, value: string)

  /** What follows the headers: nothing, or the bytes of a named file. */
  datatype Body = NoBody | FileContents(name: string)

  /** The status, the headers this program sets, and the body of a reply. */
  datatype Response = Response(status: int, headers: seq<Header>, body: Body)

  /** The file chosen for a GET request and the status it is sent with. */
  datatype Target = Target(file: string, status: int)

  predicate EndsWith(s: string, suffix: string)
  {
    |suffix| <= |s| && s[|s| - |suffix|..] == suffix
  }

  /** `path[1:]`: the path without its first character (the leading `/`). */
  function DropFirst(path: string): (r: string)
    ensures path == [] ==> r == []
    ensures path != [] ==> [path[0]] + r == path
  {
    if path == [] then [] else path[1..]
  }

  // ---------------------------------------------------------------- GET

  /** `GetRequestHandler.handle`: the two fixed pages are matched exactly;
      any other path names a file relative to the working directory, served
      when it exists; otherwise the error page is sent with 404. */
  function Route(path: string, isFile: string -> bool): (t: Target)
    ensures t.status == 200 || t.status == 404
    ensures path == "/" ==> t == Target(IndexPage, 200)
    ensures path == "/message" ==> t == Target(MessagePage, 200)
    ensures t.status == 404 <==> path != "/" && path != "/message" && !isFile(DropFirst(path))
    ensures t.status == 404 ==> t.file == ErrorPage
    ensures t.status == 200 && path != "/" && path != "/message" ==>
              isFile(t.file) && t.file == DropFirst(path)
  {
    if path == "/" then Target(IndexPage, 200)
    else if path == "/message" then Target(MessagePage, 200)
    else if isFile(DropFirst(path)) then Target(DropFirst(path), 200)
    else Target(ErrorPage, 404)
  }

  /** The Content-Type chosen in `send_response`: `text/html` for names
      ending in `.html`, else the guessed type, else the octet-stream
      fallback when the guess is missing or empty. */
  function ContentType(name: string, guess: string -> Option<string>): (ct: string)
    ensures ct != ""
    ensures ct == TextHtml || ct == OctetStream || guess(name) == Some(ct)
    ensures EndsWith(name, ".html") ==> ct == TextHtml
    ensures !EndsWith(name, ".html") && guess(name).Some? && guess(name).value != "" ==>
              ct == guess(name).value
    ensures !EndsWith(name, ".html") && (guess(name) == None || guess(name) == Some("")) ==>
              ct == OctetStream
  {
    if EndsWith(name, ".html") then TextHtml
    else match guess(name)
      case Some(t) => if t != "" then t else OctetStream
      case None => OctetStream
  }

  /** The whole reply to a GET: the routed status, one Content-Type header
      for the routed file, and that file's contents as the body. */
  function HandleGet(path: string, isFile: string -> bool, guess: string -> Option<string>): (r: Response)
    ensures r.status == 200 || r.status == 404
    ensures |r.headers| == 1 && r.headers[0].name == "Content-Type"
    ensures r.body.FileContents?
    ensures r.status == 404 ==> r.headers[0].value == TextHtml && r.body == FileContents(ErrorPage)
    ensures path == "/" ==> r == Response(200, [Header("Content-Type", TextHtml)], FileContents(IndexPage))
    ensures path == "/message" ==> r == Response(200, [Header("Content-Type", TextHtml)], FileContents(MessagePage))
    ensures r.status == 200 && path != "/" && path != "/message" ==>
              && isFile(DropFirst(path))
              && r.body == FileContents(DropFirst(path))
              && r.headers[0].value == ContentType(DropFirst(path), guess)
  {
    var t := Route(path, isFile);
    assert EndsWith(IndexPage, ".html") && EndsWith(MessagePage, ".html") && EndsWith(ErrorPage, ".html");
    Response(t.status, [Header("Content-Type", ContentType(t.file, guess))], FileContents(t.file))
  }

  /** The file test is consulted only for the name obtained by stripping the
      leading character, and never for the two fixed pages. */
  lemma RouteConsultsOnlyStrippedName(path: string, e1: string -> bool, e2: string -> bool)
    requires path == "/" || path == "/message" || e1(DropFirst(path)) == e2(DropFirst(path))
    ensures Route(path, e1) == Route(path, e2)
  {
  }

  /** For a name ending in `.html` the guesser is never consulted. */
  lemma ContentTypeIgnoresGuesserForHtml(name: string, g1: string -> Option<string>, g2: string -> Option<string>)
    requires EndsWith(name, ".html")
    ensures ContentType(name, g1) == ContentType(name, g2) == TextHtml
  {
  }

  /** A request for an existing non-HTML file is answered 200 with the
      guessed type, or with the octet-stream fallback when the guess fails. */
  lemma StaticFileReply(path: string, isFile: string -> bool, guess: string -> Option<string>)
    requires path != "/" && path != "/message"
    requires isFile(DropFirst(path)) && !EndsWith(DropFirst(path), ".html")
    ensures var r := HandleGet(path, isFile, guess);
      && r.status == 200
      && r.body == FileContents(DropFirst(path))
      && r.headers[0].value == (match guess(DropFirst(path))
                                  case Some(t) => if t != "" then t else OctetStream
                                  case None => OctetStream)
  {
  }

  /** A request for an existing `.html` file is answered 200 with text/html
      and that file's contents. */
  lemma StaticHtmlReply(path: string, isFile: string -> bool, guess: string -> Option<string>)
    requires path != "/" && path != "/message"
    requires isFile(DropFirst(path)) && EndsWith(DropFirst(path), ".html")
    ensures HandleGet(path, isFile, guess) ==
              Response(200, [Header("Content-Type", TextHtml)], FileContents(DropFirst(path)))
  {
  }

  /** Any path other than the two pages whose file is absent gets the error
      page with 404, whatever the guesser says. */
  lemma MissingFileReply(path: string, isFile: string -> bool, guess: string -> Option<string>)
    requires path != "/" && path != "/message" && !isFile(DropFirst(path))
    ensures HandleGet(path, isFile, guess) ==
              Response(404, [Header("Content-Type", TextHtml)], FileContents(ErrorPage))
  {
  }

  /** No containment check: the path component `/../secret` names the file
      `../secret`, outside the working directory, which is served when it
      exists. */
  lemma RouteServesNamesOutsideBase(isFile: string -> bool)
    requires isFile("../secret")
    ensures Route("/../secret", isFile) == Target("../secret", 200)
  {
  }

  // ---------------------------------------------------------------- POST

  function Min(a: int, b: int): int { if a <= b then a else b }

  /** `rfile.read(n)` on the buffered request body stream: -1 reads to the
      end of the stream; a count of -2 or less is refused (the reader raises
      ValueError); otherwise at most `n` bytes, fewer when the stream ends first. */
  function ReadBody(stream: seq<Byte>, n: int): (r: Option<seq<Byte>>)
    ensures r.None? <==> n < -1
    ensures r.Some? ==> r.value <= stream
    ensures n == -1 ==> r == Some(stream)
    ensures n >= 0 ==> r.Some? && |r.value| == Min(n, |stream|)
  {
    if n < -1 then None
    else if n == -1 || |stream| <= n then Some(stream)
    else Some(stream[..n])
  }

  /** The reply to every POST that gets one: 303 See Other to the message page. */
  const SeeOther: Response := Response(303, [Header("Location", "/message")], NoBody)

  /** `PostRequestHandler.handle`. `contentLength` is the Content-Length
      header converted by `int`, or None when the header is missing or is not
      an integer. When there is none, or the read refuses the count, the
      handler raises before sending or replying. Otherwise the bytes read are
      sent as exactly one datagram and only then is the 303 reply produced,
      whatever the body held. */
  method HandlePost(channel: DatagramChannel, contentLength: Option<int>, stream: seq<Byte>)
      returns (reply: Option<Response>)
    modifies channel
    ensures (contentLength.None? || contentLength.value < -1) ==>
              reply == None && channel.outbox == old(channel.outbox)
    ensures contentLength.Some? && contentLength.value >= -1 ==>
              && reply == Some(SeeOther)
              && channel.outbox == old(channel.outbox) + [ReadBody(stream, contentLength.value).value]
  {
    if contentLength.None? {
      return None;
    }
    var postData := ReadBody(stream, contentLength.value);
    if postData.None? {
      return None;
    }
    channel.Send(postData.value);
    reply := Some(SeeOther);
  }
}

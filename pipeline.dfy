/** The two halves joined through the datagram channel (main.py:65-78 and
    main.py:107-112): what a POST body becomes once the listener receives it. */
module Pipeline {
  import opened Wrappers
  import opened Relay
  import opened Ingress
  import opened Persistence

  /** A POST whose body is at most BUFFER_SIZE bytes and not empty reaches the
      listener unchanged, and its decoded form is saved under the arrival time. */
  lemma PostedFormIsStored(stream: seq<Byte>, n: int, doc: Document, t: string,
                           parse: Datagram -> Option<Form>)
    requires 0 < n <= |stream| && n <= BufferSize
    requires Decoder(parse) && parse(stream[..n]).Some?
    ensures Received(ReadBody(stream, n).value) == stream[..n]
    ensures HaltOf([Received(ReadBody(stream, n).value)], parse) == InputExhausted
    ensures Final(doc, [Received(ReadBody(stream, n).value)], [t], parse) ==
              Json(Merge(doc, t, BuildRecord(parse(stream[..n]).value)))
  {
  }

  /** A body longer than BUFFER_SIZE, but small enough for one datagram, is
      received as its first BUFFER_SIZE bytes. */
  lemma LongPostIsTruncated(stream: seq<Byte>, n: int)
    requires BufferSize < n <= |stream| && n <= MaxDatagram
    ensures Received(ReadBody(stream, n).value) == stream[..BufferSize]
  {
  }

  /** A POST that reads no bytes (Content-Length 0, or an empty body read
      with a count the reader accepts) sends the empty datagram, which stops the listener: nothing it carries and nothing
      sent after it is saved. */
  lemma EmptyPostStopsListener(stream: seq<Byte>, n: int, rest: seq<Datagram>,
                               doc: Document, t: string, tsRest: seq<string>,
                               parse: Datagram -> Option<Form>)
    requires n == 0 || (stream == [] && n >= -1)
    requires |rest| == |tsRest|
    requires Decoder(parse)
    ensures var ds := [Received(ReadBody(stream, n).value)] + rest;
            && HaltOf(ds, parse) == EmptyDatagram
            && Accepted(ds, parse) == 0
            && Final(doc, ds, [t] + tsRest, parse) == doc
  {
  }
}

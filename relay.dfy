/** The one-way datagram hand-off between the HTTP front end and the
    listener that persists submissions (main.py:74-78 and main.py:108). */
module Relay {

  newtype Byte = x: int | 0 <= x < 256

  /** One datagram: an opaque byte payload. */
  type Datagram = seq<Byte>

  /** BUFFER_SIZE, the size of the listener's receive buffer (main.py:13). */
  const BufferSize: nat := 1024

  /** The largest UDP payload `sendto` accepts over IPv4; larger ones are
      refused by the operating system. */
  const MaxDatagram: nat := 65507

  /** What `recvfrom(BUFFER_SIZE)` hands the listener for a datagram that was
      sent as `sent`: the payload, cut to the first BUFFER_SIZE bytes. This
      assumes POSIX socket behaviour, where the rest of a longer datagram is
      discarded. */
  function Received(sent: Datagram): (r: Datagram)
    ensures r <= sent
    ensures |r| <= BufferSize
    ensures |sent| <= BufferSize ==> r == sent
    ensures |sent| > BufferSize ==> |r| == BufferSize
  {
    if |sent| <= BufferSize then sent else sent[..BufferSize]
  }

  /** The outgoing side of the channel: every datagram sent so far, in order. */
  class DatagramChannel {
    var outbox: seq<Datagram>

    constructor ()
      ensures outbox == []
    {
      outbox := [];
    }

    /** `forward_form_data`: send `payload` unchanged as one datagram. */
    method Send(payload: Datagram)
      modifies this
      ensures outbox == old(outbox) + [payload]
    {
      outbox := outbox + [payload];
    }
  }
}

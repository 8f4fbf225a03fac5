/** One direction of a WebTransport stream: reliable, in order, any segmentation. */
module Pipes {
  import opened Bytes

  /** Bytes accepted but not delivered, whether the FIN was accepted, and whether it was delivered. */
  datatype Pipe = Pipe(flight: bytes, finIn: bool, finOut: bool)

  const IDLE := Pipe([], false, false)

  /** What a transport send returns: accepted bytes, one of the "blocked" errors, or another error. */
  datatype SendResult = Accepted(n: nat) | Blocked | Failed

  /** The read that delivers n bytes of a pipe carries the FIN if they are the last. */
  predicate CarriesFin(p: Pipe, n: nat) {
    p.finIn && n == |p.flight|
  }

  predicate CanRead(p: Pipe, n: nat) {
    n <= |p.flight| && !p.finOut && (n > 0 || CarriesFin(p, n))
  }

  function Taken(p: Pipe, n: nat): Pipe
    requires n <= |p.flight|
  {
    Pipe(p.flight[n..], p.finIn, p.finOut || CarriesFin(p, n))
  }

  function Offered(p: Pipe, data: bytes, fin: bool): Pipe {
    Pipe(p.flight + data, p.finIn || fin, p.finOut)
  }
}

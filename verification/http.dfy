/**
 The HTTP transport, reduced to what the client observes: every request is
 appended to a log and answered by the next reply of a script. A `Broken`
 reply stands for `HttpClient.send` throwing (timeout, refused connection);
 a script that has run out answers `Broken` as well.
 */
module Http {
  import opened Optional

  datatype Verb = Get | Post | Put | Delete

  datatype Request = Request(verb: Verb, target: string, body: Option<string>)

  datatype Reply = Reply(status: int, body: string) | Broken

  datatype Wire = Wire(pending: seq<Reply>, sent: seq<Request>)

  /** The reply the next request will receive. */
  function NextReply(w: Wire): Reply
  {
    if |w.pending| > 0 then w.pending[0] else Broken
  }

  /** `after` is `before` with one request logged and one reply consumed. */
  predicate ExchangedOnce(before: Wire, req: Request, after: Wire)
  {
    && after.sent == before.sent + [req]
    && before.pending == (if |before.pending| == 0 then [] else [NextReply(before)]) + after.pending
  }

  /** Sends one request and receives its reply. */
  function Send(w: Wire, req: Request): (r: (Reply, Wire))
    ensures r.0 == NextReply(w)
    ensures ExchangedOnce(w, req, r.1)
  {
    (NextReply(w), Wire(if |w.pending| > 0 then w.pending[1..] else [], w.sent + [req]))
  }
}

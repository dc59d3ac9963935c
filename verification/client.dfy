/**
 The book-catalog client (book-client LibraryApiClient.java). A client holds
 a base address and a JSON mapper; every operation sends one request (the
 retried listing several) over a `Wire` and returns the outcome with the
 wire after the exchange.

 Listing is the only strict path: `GetAllBooks` and `GetAllBooksWithRetries`
 reject every status but 200, the retried form re-sending at once after a 503
 while attempts remain. The other operations never reject a status: `GetBookById`
 reads it only to turn any status but 200 into an absent book, and create, update,
 delete and search do not read it at all.
 */
module Client {
  import opened Optional
  import opened Decimal
  import opened Books
  import opened Errors
  import opened Http

  /** A Java `int`. */
  type Int32 = x: int | -0x8000_0000 <= x < 0x8000_0000

  /** The JSON mapper, left uninterpreted: reading yields None where the mapper would throw. */
  datatype Mapper = Mapper(
    readBooks: string -> Option<seq<Book>>,
    readBook: string -> Option<Book>,
    write: Book -> string)

  datatype Client = Client(baseUrl: string, mapper: Mapper)

  /** What an operation returns together with the wire after its requests. */
  datatype Call<+T> = Call(outcome: Outcome<T>, wire: Wire)

  /** What one attempt of the retried listing decides. */
  datatype Decision = Retry | Finish(outcome: Outcome<seq<Book>>)

  const DefaultBaseUrl: string := "http://localhost:8080/api/books"
  const BooksPath: string := "/api/books"
  const SearchQuery: string := "/search?author="

  /** The no-argument constructor. */
  function DefaultClient(mapper: Mapper): (c: Client)
    ensures c.baseUrl == DefaultBaseUrl && c.mapper == mapper
  {
    Client(DefaultBaseUrl, mapper)
  }

  // ---------------------------------------------------------------- targets

  /** `getBooksUrl`: the base address with the resource path appended. */
  function BooksUrl(c: Client): string
  {
    c.baseUrl + BooksPath
  }

  /** The target of one book: the books target, a slash and the id in decimal. */
  function IdUrl(c: Client, id: Long): (u: string)
    ensures |u| > |BooksUrl(c)| + 1
    ensures u[..|BooksUrl(c)| + 1] == BooksUrl(c) + "/"
    ensures ParseDecimal(u[|BooksUrl(c)| + 1..]) == Some(id as int)
  {
    var u := BooksUrl(c) + "/" + DecimalString(id);
    assert u[|BooksUrl(c)| + 1..] == DecimalString(id);
    DecimalRoundTrip(id);
    u
  }

  /** The search target: the books target, the query key and the encoded author. */
  function SearchUrl(c: Client, urlEncode: string -> string, author: string): (u: string)
    ensures |u| == |BooksUrl(c)| + |SearchQuery| + |urlEncode(author)|
    ensures u[..|BooksUrl(c)| + |SearchQuery|] == BooksUrl(c) + SearchQuery
    ensures u[|BooksUrl(c)| + |SearchQuery|..] == urlEncode(author)
  {
    BooksUrl(c) + SearchQuery + urlEncode(author)
  }

  /** The books target is the base address followed by the resource path; the default client's
      target therefore repeats the path, since the default base already ends in it. */
  lemma BooksUrlShape(c: Client)
    ensures |BooksUrl(c)| == |c.baseUrl| + |BooksPath|
    ensures BooksUrl(c)[..|c.baseUrl|] == c.baseUrl && BooksUrl(c)[|c.baseUrl|..] == "/api/books"
    ensures c.baseUrl == DefaultBaseUrl ==> BooksUrl(c) == "http://localhost:8080/api/books/api/books"
  {
  }

  /** Different ids address different books. */
  lemma IdUrlInjective(c: Client, a: Long, b: Long)
    requires IdUrl(c, a) == IdUrl(c, b)
    ensures a == b
  {
    var n := |BooksUrl(c)| + 1;
    assert IdUrl(c, a)[n..] == IdUrl(c, b)[n..];
  }

  /** No id target is a search target: after the slash comes a digit or a minus sign, never `s`. */
  lemma IdUrlIsNotSearchUrl(c: Client, id: Long, urlEncode: string -> string, author: string)
    ensures IdUrl(c, id) != SearchUrl(c, urlEncode, author)
  {
    var n := |BooksUrl(c)| + 1;
    assert IdUrl(c, id)[n] == DecimalString(id)[0];
    assert SearchUrl(c, urlEncode, author)[n] == 's';
  }

  // ----------------------------------------------------------- body reading

  function ReadList(m: Mapper, body: string): (o: Outcome<seq<Book>>)
    ensures o.Ok? <==> m.readBooks(body).Some?
    ensures o.Ok? ==> m.readBooks(body) == Some(o.value)
    ensures o.Err? ==> o.failure == DecodeFailure
  {
    match m.readBooks(body)
    case Some(books) => Ok(books)
    case None => Err(DecodeFailure)
  }

  function ReadOne(m: Mapper, body: string): (o: Outcome<Book>)
    ensures o.Ok? <==> m.readBook(body).Some?
    ensures o.Ok? ==> m.readBook(body) == Some(o.value)
    ensures o.Err? ==> o.failure == DecodeFailure
  {
    match m.readBook(body)
    case Some(book) => Ok(book)
    case None => Err(DecodeFailure)
  }

  // ---------------------------------------------------------------- listing

  function BooksRequest(c: Client): Request
  {
    Request(Get, BooksUrl(c), None)
  }

  /** A rejected listing: the exception carries the books target and the status. */
  function Rejected(c: Client, status: int): Outcome<seq<Book>>
  {
    Err(StatusFailure(BooksUrl(c), status))
  }

  /** How a listing reply is judged when it is not retried. */
  function Judge(c: Client, reply: Reply): Outcome<seq<Book>>
  {
    match reply
    case Broken => Err(TransportFailure)
    case Reply(status, body) => if status == 200 then ReadList(c.mapper, body) else Rejected(c, status)
  }

  /** `getAllBooks`: one GET of the books target; a 200 yields the decoded list, any other status a status failure. */
  function GetAllBooks(c: Client, w: Wire): (r: Call<seq<Book>>)
    ensures ExchangedOnce(w, BooksRequest(c), r.wire)
    ensures r.outcome.Ok? <==>
      NextReply(w).Reply? && NextReply(w).status == 200 && c.mapper.readBooks(NextReply(w).body).Some?
    ensures r.outcome.Ok? ==> c.mapper.readBooks(NextReply(w).body) == Some(r.outcome.value)
    ensures (r.outcome.Err? && r.outcome.failure.StatusFailure?) <==> NextReply(w).Reply? && NextReply(w).status != 200
    ensures r.outcome.Err? && r.outcome.failure.StatusFailure? ==>
      r.outcome.failure == StatusFailure(BooksUrl(c), NextReply(w).status)
    ensures NextReply(w).Reply? && NextReply(w).status == 200 && c.mapper.readBooks(NextReply(w).body).None? ==>
      r.outcome == Err(DecodeFailure)
    ensures NextReply(w).Broken? ==> r.outcome == Err(TransportFailure)
  {
    var (reply, next) := Send(w, BooksRequest(c));
    Call(Judge(c, reply), next)
  }

  /** The body of the retry loop for attempt `tryNumber`: the switch on the status. */
  function Attempt(c: Client, tryNumber: int, tries: int, reply: Reply): (d: Decision)
    ensures d.Retry? <==> reply.Reply? && reply.status == 503 && tryNumber < tries - 1
    ensures d.Finish? ==> d.outcome == Judge(c, reply)
  {
    if reply.Reply? && reply.status == 503 && tryNumber < tries - 1 then Retry
    else Finish(Judge(c, reply))
  }

  /** The retry loop from attempt `tryNumber` on; leaving the loop normally is the internal error. */
  function RetryFrom(c: Client, tries: int, tryNumber: nat, w: Wire): Call<seq<Book>>
    decreases tries - tryNumber
  {
    if tryNumber >= tries then Call(Err(InternalError), w)
    else
      var (reply, next) := Send(w, BooksRequest(c));
      match Attempt(c, tryNumber, tries, reply)
      case Retry => RetryFrom(c, tries, tryNumber + 1, next)
      case Finish(outcome) => Call(outcome, next)
  }

  // ---------------------------------------------- closed form of the retries

  /** How many replies at the front of the script are 503. */
  function LeadingUnavailable(rs: seq<Reply>): (n: nat)
    ensures n <= |rs|
    ensures forall i :: 0 <= i < n ==> rs[i].Reply? && rs[i].status == 503
    ensures n < |rs| ==> !(rs[n].Reply? && rs[n].status == 503)
  {
    if |rs| > 0 && rs[0].Reply? && rs[0].status == 503 then 1 + LeadingUnavailable(rs[1..]) else 0
  }

  function Repeat(req: Request, n: nat): (s: seq<Request>)
    ensures |s| == n && forall i :: 0 <= i < n ==> s[i] == req
  {
    if n == 0 then [] else [req] + Repeat(req, n - 1)
  }

  /** The wire after `n` listing requests that each consumed one reply. */
  function AfterListings(c: Client, w: Wire, n: nat): Wire
    requires n <= |w.pending|
  {
    Wire(w.pending[n..], w.sent + Repeat(BooksRequest(c), n))
  }

  /**
   What `tries` attempts amount to, stated without a loop: no attempt when
   `tries` is not positive; a 503 failure when the first `tries` replies are
   all 503; otherwise, after the leading 503s, a single listing.
   */
  function RetrySpec(c: Client, tries: int, w: Wire): Call<seq<Book>>
  {
    var n := LeadingUnavailable(w.pending);
    if tries <= 0 then Call(Err(InternalError), w)
    else if n >= tries then Call(Rejected(c, 503), AfterListings(c, w, tries))
    else GetAllBooks(c, AfterListings(c, w, n))
  }

  /** A leading 503 with at least two attempts left takes one attempt off and one reply off the script. */
  lemma UnavailableShift(c: Client, attempts: int, w: Wire)
    requires attempts >= 2
    requires NextReply(w).Reply? && NextReply(w).status == 503
    ensures RetrySpec(c, attempts, w) == RetrySpec(c, attempts - 1, Send(w, BooksRequest(c)).1)
  {
    var next := Send(w, BooksRequest(c)).1;
    var n := LeadingUnavailable(w.pending);
    assert next.pending == w.pending[1..];
    assert n == 1 + LeadingUnavailable(next.pending);
    AfterListingsShift(c, w, if n >= attempts then attempts else n);
  }

  lemma AfterListingsShift(c: Client, w: Wire, m: nat)
    requires 1 <= m <= |w.pending|
    ensures AfterListings(c, w, m) == AfterListings(c, Send(w, BooksRequest(c)).1, m - 1)
  {
    var req := BooksRequest(c);
    assert w.pending[m..] == w.pending[1..][m - 1..];
    assert Repeat(req, m) == [req] + Repeat(req, m - 1);
    assert (w.sent + [req]) + Repeat(req, m - 1) == w.sent + ([req] + Repeat(req, m - 1));
  }

  /** The loop from attempt `k` behaves as the closed form with `tries - k` attempts. */
  lemma {:induction false} RetryFromMatchesSpec(c: Client, tries: int, k: nat, w: Wire)
    ensures RetryFrom(c, tries, k, w) == RetrySpec(c, tries - k, w)
    decreases tries - k
  {
    if k < tries {
      var (reply, next) := Send(w, BooksRequest(c));
      if reply.Reply? && reply.status == 503 {
        if k < tries - 1 {
          RetryFromMatchesSpec(c, tries, k + 1, next);
          UnavailableShift(c, tries - k, w);
        } else {
          assert AfterListings(c, w, 1) == next;
        }
      } else {
        assert LeadingUnavailable(w.pending) == 0;
        assert AfterListings(c, w, 0) == w;
      }
    }
  }

  /** `getAllBooks_withRetries`: the loop started at attempt 0, equal to its closed form. */
  function GetAllBooksWithRetries(c: Client, tries: Int32, w: Wire): (r: Call<seq<Book>>)
    ensures r == RetrySpec(c, tries, w)
  {
    RetryFromMatchesSpec(c, tries, 0, w);
    RetryFrom(c, tries, 0, w)
  }

  /** The retried listing as the counted loop of the source, one attempt per iteration. */
  method GetAllBooksWithRetriesLoop(c: Client, tries: Int32, w: Wire) returns (r: Call<seq<Book>>)
    ensures r == GetAllBooksWithRetries(c, tries, w)
    ensures |r.wire.sent| <= |w.sent| + (if tries > 0 then tries else 0)
    ensures tries >= 1 ==> r.outcome != Err(InternalError)
  {
    var req := BooksRequest(c);
    var wire := w;
    var tryNumber: int := 0;
    while tryNumber < tries
      invariant 0 <= tryNumber
      invariant tries >= 1 ==> tryNumber < tries
      invariant wire.sent == w.sent + Repeat(req, tryNumber)
      invariant RetryFrom(c, tries, tryNumber, wire) == RetryFrom(c, tries, 0, w)
      decreases tries - tryNumber
    {
      var (reply, next) := Send(wire, req);
      wire := next;
      assert Repeat(req, tryNumber) + [req] == Repeat(req, tryNumber + 1) by {
        RepeatSnoc(req, tryNumber);
      }
      match reply {
        case Broken =>
          r := Call(Err(TransportFailure), wire);
          return;
        case Reply(status, body) =>
          if status == 200 {
            r := Call(ReadList(c.mapper, body), wire);
            return;
          } else if status == 503 && tryNumber < tries - 1 {
            tryNumber := tryNumber + 1;
          } else {
            r := Call(Rejected(c, status), wire);
            return;
          }
      }
    }
    r := Call(Err(InternalError), wire);
  }

  lemma {:induction false} RepeatSnoc(req: Request, n: nat)
    ensures Repeat(req, n) + [req] == Repeat(req, n + 1)
  {
    if n > 0 {
      RepeatSnoc(req, n - 1);
      assert Repeat(req, n) + [req] == [req] + (Repeat(req, n - 1) + [req]);
    }
  }

  // ------------------------------------------- consequences for the caller

  /** One attempt is the plain listing. */
  lemma SingleTryIsGetAllBooks(c: Client, w: Wire)
    ensures GetAllBooksWithRetries(c, 1, w) == GetAllBooks(c, w)
  {
    var n := LeadingUnavailable(w.pending);
    if n >= 1 {
      assert AfterListings(c, w, 1) == Send(w, BooksRequest(c)).1;
    } else {
      assert AfterListings(c, w, 0) == w;
    }
  }

  /** At most `max(tries, 0)` requests go out, all of them the listing GET, and each consumes at most one reply. */
  lemma RetryRequestBound(c: Client, tries: Int32, w: Wire)
    ensures var r := GetAllBooksWithRetries(c, tries, w);
      && |w.sent| <= |r.wire.sent| <= |w.sent| + (if tries > 0 then tries else 0)
      && r.wire.sent[..|w.sent|] == w.sent
      && (forall i :: |w.sent| <= i < |r.wire.sent| ==> r.wire.sent[i] == BooksRequest(c))
      && |r.wire.pending| <= |w.pending|
      && r.wire.pending == w.pending[|w.pending| - |r.wire.pending|..]
      && |w.pending| - |r.wire.pending| <= |r.wire.sent| - |w.sent|
  {
    var n := LeadingUnavailable(w.pending);
    if tries > 0 {
      if n >= tries {
        ListingsOnWire(c, w, tries);
      } else {
        ListingsOnWire(c, w, n);
        ListingAfterListingsOnWire(c, w, n);
      }
    }
  }

  /** `k` listings append `k` listing requests and consume the first `k` replies. */
  lemma ListingsOnWire(c: Client, w: Wire, k: nat)
    requires k <= |w.pending|
    ensures var m := AfterListings(c, w, k);
      && |m.sent| == |w.sent| + k && m.sent[..|w.sent|] == w.sent
      && (forall i :: |w.sent| <= i < |m.sent| ==> m.sent[i] == BooksRequest(c))
      && m.pending == w.pending[k..]
  {
    var m := AfterListings(c, w, k);
    assert m.sent[..|w.sent|] == w.sent;
  }

  /** One more listing after `k` of them appends one more request and consumes at most one more reply. */
  lemma ListingAfterListingsOnWire(c: Client, w: Wire, k: nat)
    requires k <= |w.pending|
    ensures var m := AfterListings(c, w, k);
      var r := GetAllBooks(c, m);
      && r.wire.sent == m.sent + [BooksRequest(c)]
      && r.wire.pending == w.pending[|w.pending| - |r.wire.pending|..]
      && |w.pending| - |r.wire.pending| <= k + 1
  {
    var m := AfterListings(c, w, k);
    if |m.pending| > 0 {
      assert GetAllBooks(c, m).wire.pending == w.pending[k + 1..];
    }
  }

  /** The internal error is taken exactly when `tries` is not positive, and then nothing is sent. */
  lemma RetryInternalErrorIffNoTries(c: Client, tries: Int32, w: Wire)
    ensures GetAllBooksWithRetries(c, tries, w).outcome == Err(InternalError) <==> tries <= 0
    ensures tries <= 0 ==> GetAllBooksWithRetries(c, tries, w).wire == w
  {
  }

  /** After `k` 503s (with more attempts left) the first other reply decides: 200 returns its body,
      any other status fails with that status at once, a broken exchange is a transport failure. */
  lemma RetryEndsOnFirstOtherReply(c: Client, tries: Int32, w: Wire, k: nat)
    requires k < tries && k <= |w.pending|
    requires forall i :: 0 <= i < k ==> w.pending[i].Reply? && w.pending[i].status == 503
    requires k < |w.pending| ==> !(w.pending[k].Reply? && w.pending[k].status == 503)
    ensures var r := GetAllBooksWithRetries(c, tries, w);
      var reply := if k < |w.pending| then w.pending[k] else Broken;
      && (reply.Reply? && reply.status == 200 ==> r.outcome == ReadList(c.mapper, reply.body))
      && (reply.Reply? && reply.status != 200 ==> r.outcome == Err(StatusFailure(BooksUrl(c), reply.status)))
      && (reply.Broken? ==> r.outcome == Err(TransportFailure))
      && |r.wire.sent| == |w.sent| + k + 1
  {
    assert LeadingUnavailable(w.pending) == k;
  }

  /** When every one of the `tries` attempts meets a 503, the call fails with 503 after exactly `tries` requests. */
  lemma RetryExhaustedFailsWith503(c: Client, tries: Int32, w: Wire)
    requires 1 <= tries <= |w.pending|
    requires forall i :: 0 <= i < tries ==> w.pending[i].Reply? && w.pending[i].status == 503
    ensures var r := GetAllBooksWithRetries(c, tries, w);
      && r.outcome == Err(StatusFailure(BooksUrl(c), 503))
      && r.wire.pending == w.pending[tries..]
      && |r.wire.sent| == |w.sent| + tries
  {
    assert LeadingUnavailable(w.pending) >= tries;
  }

  // ---------------------------------------------------- non-strict operations

  /** `getBookById`: GET of the id target; a 200 yields the decoded book, any other status an absent book. */
  function GetBookById(c: Client, id: Long, w: Wire): (r: Call<Option<Book>>)
    ensures ExchangedOnce(w, Request(Get, IdUrl(c, id), None), r.wire)
    ensures !(r.outcome.Err? && r.outcome.failure.StatusFailure?)
    ensures r.outcome == Ok(None) <==> NextReply(w).Reply? && NextReply(w).status != 200
    ensures r.outcome.Ok? && r.outcome.value.Some? <==>
      NextReply(w).Reply? && NextReply(w).status == 200 && c.mapper.readBook(NextReply(w).body).Some?
    ensures r.outcome.Ok? && r.outcome.value.Some? ==> c.mapper.readBook(NextReply(w).body) == r.outcome.value
    ensures NextReply(w).Reply? && NextReply(w).status == 200 && c.mapper.readBook(NextReply(w).body).None? ==>
      r.outcome == Err(DecodeFailure)
    ensures NextReply(w).Broken? ==> r.outcome == Err(TransportFailure)
  {
    var (reply, next) := Send(w, Request(Get, IdUrl(c, id), None));
    match reply
    case Broken => Call(Err(TransportFailure), next)
    case Reply(status, body) =>
      if status == 200 then
        match ReadOne(c.mapper, body)
        case Ok(book) => Call(Ok(Some(book)), next)
        case Err(f) => Call(Err(f), next)
      else Call(Ok(None), next)
  }

  /** `createBook`: POST of the serialised book to the books target; the reply body is read whatever the status. */
  function CreateBook(c: Client, book: Book, w: Wire): (r: Call<Book>)
    ensures ExchangedOnce(w, Request(Post, BooksUrl(c), Some(c.mapper.write(book))), r.wire)
    ensures !(r.outcome.Err? && r.outcome.failure.StatusFailure?)
    ensures NextReply(w).Reply? ==> r.outcome == ReadOne(c.mapper, NextReply(w).body)
    ensures NextReply(w).Broken? ==> r.outcome == Err(TransportFailure)
  {
    var (reply, next) := Send(w, Request(Post, BooksUrl(c), Some(c.mapper.write(book))));
    match reply
    case Broken => Call(Err(TransportFailure), next)
    case Reply(_, body) => Call(ReadOne(c.mapper, body), next)
  }

  /** `updateBook`: PUT of the serialised book to the id target; the reply body is read whatever the status. */
  function UpdateBook(c: Client, id: Long, book: Book, w: Wire): (r: Call<Book>)
    ensures ExchangedOnce(w, Request(Put, IdUrl(c, id), Some(c.mapper.write(book))), r.wire)
    ensures !(r.outcome.Err? && r.outcome.failure.StatusFailure?)
    ensures NextReply(w).Reply? ==> r.outcome == ReadOne(c.mapper, NextReply(w).body)
    ensures NextReply(w).Broken? ==> r.outcome == Err(TransportFailure)
  {
    var (reply, next) := Send(w, Request(Put, IdUrl(c, id), Some(c.mapper.write(book))));
    match reply
    case Broken => Call(Err(TransportFailure), next)
    case Reply(_, body) => Call(ReadOne(c.mapper, body), next)
  }

  /** `deleteBook`: DELETE of the id target; the reply is not looked at. */
  function DeleteBook(c: Client, id: Long, w: Wire): (r: Call<()>)
    ensures ExchangedOnce(w, Request(Delete, IdUrl(c, id), None), r.wire)
    ensures r.outcome.Ok? <==> NextReply(w).Reply?
    ensures r.outcome.Err? ==> r.outcome.failure == TransportFailure
  {
    var (reply, next) := Send(w, Request(Delete, IdUrl(c, id), None));
    match reply
    case Broken => Call(Err(TransportFailure), next)
    case Reply(_, _) => Call(Ok(()), next)
  }

  /** `searchBooksByAuthor`: GET of the search target; the reply body is read as a list whatever the status. */
  function SearchBooksByAuthor(c: Client, urlEncode: string -> string, author: string, w: Wire): (r: Call<seq<Book>>)
    ensures ExchangedOnce(w, Request(Get, SearchUrl(c, urlEncode, author), None), r.wire)
    ensures !(r.outcome.Err? && r.outcome.failure.StatusFailure?)
    ensures NextReply(w).Reply? ==> r.outcome == ReadList(c.mapper, NextReply(w).body)
    ensures NextReply(w).Broken? ==> r.outcome == Err(TransportFailure)
  {
    var (reply, next) := Send(w, Request(Get, SearchUrl(c, urlEncode, author), None));
    match reply
    case Broken => Call(Err(TransportFailure), next)
    case Reply(_, body) => Call(ReadList(c.mapper, body), next)
  }

  /** Create, update, delete and search give the same result for two replies that differ only in status;
      the listing does not: a 200 and any other status never end alike. */
  lemma OnlyListingLooksAtStatus(c: Client, id: Long, book: Book, urlEncode: string -> string, author: string,
                                 s1: int, s2: int, body: string, rest: seq<Reply>, sent: seq<Request>)
    ensures var w1 := Wire([Reply(s1, body)] + rest, sent);
      var w2 := Wire([Reply(s2, body)] + rest, sent);
      && CreateBook(c, book, w1) == CreateBook(c, book, w2)
      && UpdateBook(c, id, book, w1) == UpdateBook(c, id, book, w2)
      && DeleteBook(c, id, w1) == DeleteBook(c, id, w2)
      && SearchBooksByAuthor(c, urlEncode, author, w1) == SearchBooksByAuthor(c, urlEncode, author, w2)
      && (s1 == 200 && s2 != 200 ==> GetAllBooks(c, w1).outcome != GetAllBooks(c, w2).outcome)
  {
  }
}

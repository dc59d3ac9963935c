/**
 The response scripts of the client's test suite, replayed against the model.
 `body` is any body the mapper reads as `books`.
 */
module Scenarios {
  import opened Optional
  import opened Decimal
  import opened Books
  import opened Errors
  import opened Http
  import opened Client

  const Unavailable: Reply := Reply(503, "Temporary server error.")

  /** A 200 listing returns exactly the decoded books, the empty list included. */
  lemma ListingReturnsBody(c: Client, body: string, books: seq<Book>)
    requires c.mapper.readBooks(body) == Some(books)
    ensures GetAllBooks(c, Wire([Reply(200, body)], [])).outcome == Ok(books)
  {
  }

  /** A 500 listing fails with the books target and code 500, and the message says so. */
  lemma ListingFailsOn500(c: Client)
    ensures GetAllBooks(c, Wire([Reply(500, "Internal server error.")], [])).outcome
         == Err(StatusFailure(c.baseUrl + "/api/books", 500))
    ensures StatusMessage(c.baseUrl + "/api/books", 500)
         == "Http request to " + c.baseUrl + "/api/books failed with status code 500"
  {
    MessageFor500(c.baseUrl);
  }

  lemma MessageFor500(base: string)
    ensures StatusMessage(base + "/api/books", 500)
         == "Http request to " + base + "/api/books failed with status code 500"
  {
    assert DecimalString(500) == "500" by {
      assert Digits(5) == "5";
      assert Digits(50) == "50";
    }
    assert StatusMessage(base + "/api/books", 500) == RequestPrefix + (base + "/api/books") + StatusInfix + "500";
    SpellOutMessage(base);
  }

  lemma SpellOutMessage(base: string)
    ensures RequestPrefix + (base + "/api/books") + StatusInfix + "500"
         == "Http request to " + base + "/api/books failed with status code 500"
  {
    var tail := "/api/books failed with status code 500";
    assert "/api/books" + StatusInfix + "500" == tail;
    var lhs := RequestPrefix + (base + "/api/books") + StatusInfix + "500";
    assert |lhs| == |RequestPrefix| + |base| + |tail|;
    assert forall i :: 0 <= i < |lhs| ==> lhs[i] == (RequestPrefix + base + tail)[i];
  }

  /** Without retries, the script 503, 503, 200 needs three calls: two fail with 503, the third returns the books. */
  lemma ListingWithoutRetriesNeedsThreeCalls(c: Client, body: string, books: seq<Book>)
    requires c.mapper.readBooks(body) == Some(books)
    ensures var first := GetAllBooks(c, Wire([Unavailable, Unavailable, Reply(200, body)], []));
      var second := GetAllBooks(c, first.wire);
      var third := GetAllBooks(c, second.wire);
      && first.outcome == Err(StatusFailure(BooksUrl(c), 503))
      && second.outcome == Err(StatusFailure(BooksUrl(c), 503))
      && third.outcome == Ok(books)
  {
  }

  /** Three tries against 503, 503, 200 return the books after three requests. */
  lemma RetriesOutlastTwoUnavailable(c: Client, body: string, books: seq<Book>)
    requires c.mapper.readBooks(body) == Some(books)
    ensures var r := GetAllBooksWithRetries(c, 3, Wire([Unavailable, Unavailable, Reply(200, body)], []));
      r.outcome == Ok(books) && |r.wire.sent| == 3 && r.wire.pending == []
  {
    RetryEndsOnFirstOtherReply(c, 3, Wire([Unavailable, Unavailable, Reply(200, body)], []), 2);
  }

  /** Three tries against 503, 503, 500 fail with 500, not 503. */
  lemma RetriesStopAt500(c: Client)
    ensures GetAllBooksWithRetries(c, 3, Wire([Unavailable, Unavailable, Reply(500, "")], [])).outcome
         == Err(StatusFailure(BooksUrl(c), 500))
  {
    RetryEndsOnFirstOtherReply(c, 3, Wire([Unavailable, Unavailable, Reply(500, "")], []), 2);
  }

  /** Two tries against 503, 503, 200 fail with 503 and never see the 200. */
  lemma TwoTriesAreNotEnough(c: Client, body: string)
    ensures var r := GetAllBooksWithRetries(c, 2, Wire([Unavailable, Unavailable, Reply(200, body)], []));
      r.outcome == Err(StatusFailure(BooksUrl(c), 503)) && r.wire.pending == [Reply(200, body)]
  {
    RetryExhaustedFailsWith503(c, 2, Wire([Unavailable, Unavailable, Reply(200, body)], []));
  }

  /** A created book fetched back by its id, from a server that answers with the same body, is the same book. */
  lemma CreateThenGetById(c: Client, book: Book, created: Book, id: Long, status: int, body: string)
    requires c.mapper.readBook(body) == Some(created) && created.id == Some(id)
    ensures var made := CreateBook(c, book, Wire([Reply(status, body), Reply(200, body)], []));
      var fetched := GetBookById(c, made.outcome.value.id.value, made.wire);
      && made.outcome == Ok(created)
      && fetched.outcome == Ok(Some(created))
      && fetched.wire.sent[1].target == IdUrl(c, id)
  {
  }
}

# book-client: a verified model of the library API client

This project models the client side of the wiremock-kata book catalogue: the
`Book` value (`Book.java`) and the HTTP client `LibraryApiClient` that lists,
fetches, creates, updates, deletes and searches books, and that retries the
listing after `503 Service Unavailable`.

The transport is a `Wire`: a script of replies, consumed one per request, and
a log of the requests sent. A `Broken` reply (or an exhausted script) is
`HttpClient.send` throwing. Every operation is a pure function from a client
and a wire to a `Call`, which holds the outcome (a value or a `Failure`) and
the wire afterwards. The JSON mapper is a `Mapper` of three uninterpreted
functions; `URLEncoder.encode` is a function parameter of the search.

Modules, one per concern:

- `Optional` (optional.dfy): nullable references and null-safe equality.
- `Decimal` (decimal.dfy): Java's decimal rendering of `long`/`int`, with its inverse.
- `Books` (book.dfy): the `Book` entity, Lombok equality, setters, builder, `clone`.
- `Errors` (errors.dfy): the failure kinds and the status-failure message, with its parser.
- `Http` (http.dfy): requests, replies and the scripted wire.
- `Client` (client.dfy): request targets, the six operations, the retry loop as a
  recursive function, as a closed form and as a counted `while` loop.
- `Scenarios` (scenarios.dfy): the response scripts of the client's test suite.

Behaviours of the code the model keeps:

- The retry count is any Java `int`. With `tries <= 0` no request is sent and the loop's "should not be reached" `RuntimeException` is thrown. The model calls this `InternalError` and proves it happens exactly when `tries <= 0`.
- The default base address already ends in `/api/books`. So the default client's listing target ends in `/api/books/api/books`.
- A body the mapper cannot read is a `DecodeFailure`, separate from a transport failure. This applies even to create, update and search, which do not check the status: a `500` with a non-JSON body therefore fails there.

## Model

| member | source | states |
|---|---|---|
| Optional.NullSafeEqualsIsEquality | book-client/src/main/java/com/example/Book.java:9 | null-safe comparison of two nullable fields holds exactly when they are the same value |
| Decimal.Digits | book-client/src/main/java/com/example/LibraryApiClient.java:79 | the digits of a code are non-empty, all decimal, without leading zero, and read back as the number |
| Decimal.DecimalString | book-client/src/main/java/com/example/LibraryApiClient.java:84 | Java's rendering of a number is non-empty and starts with a minus sign exactly for negative numbers, with a digit otherwise |
| Decimal.DecimalRoundTrip | book-client/src/main/java/com/example/LibraryApiClient.java:84 | parsing the rendering of any number gives the number back; the parser accepts only canonical text |
| Decimal.CanonicalDigits | book-client/src/main/java/com/example/LibraryApiClient.java:84 | a digit string without a leading zero (or the single digit 0) is exactly the rendering of its own value |
| Decimal.ParsedIsRendering | book-client/src/main/java/com/example/LibraryApiClient.java:84 | every text the parser accepts is exactly Java's rendering of the number it yields, so no leading zero and no `-0` |
| Decimal.DecimalStringInjective | book-client/src/main/java/com/example/LibraryApiClient.java:84 | distinct numbers render as distinct strings |
| Books.EmptyBook | book-client/src/main/java/com/example/Book.java:11 | the no-argument constructor leaves all four fields null |
| Books.EqualsIsValueEquality | book-client/src/main/java/com/example/Book.java:9-19 | two books are `equals` iff id, title, author and isbn all agree |
| Books.ListEqualsIsValueEquality | book-client/src/test/java/LibraryApiClientTest.java:39 | two book lists are `equals` (same length, element-wise `equals`) iff they are the same sequence |
| Books.SetId | book-client/src/main/java/com/example/Book.java:16 | the id setter sets the id and leaves title, author and isbn unchanged |
| Books.SetTitle | book-client/src/main/java/com/example/Book.java:17 | the title setter sets the title and leaves the other three fields unchanged |
| Books.SetAuthor | book-client/src/main/java/com/example/Book.java:18 | the author setter sets the author and leaves the other three fields unchanged |
| Books.SetIsbn | book-client/src/main/java/com/example/Book.java:19 | the isbn setter sets the isbn and leaves the other three fields unchanged |
| Books.SetTitleLaws | book-client/src/main/java/com/example/Book.java:9-19 | writing the title's own value back through the title setter is `equals` to the original; of two title writes the later wins; a title write and an isbn write commute |
| Books.Clone | book-client/src/main/java/com/example/Book.java:21-24 | the clone is `equals` to the original |
| Books.Build | book-client/src/main/java/com/example/Book.java:10-19 | every field of a built book is the value given to it last through the builder, or null when none was given |
| Books.UnsetFieldsStayNull | book-client/src/main/java/com/example/Book.java:10-19 | a field that no builder call names (id, title, author or isbn) is null in the built book |
| Books.BuiltWithoutId | book-client/src/test/java/LibraryApiClientTest.java:29-30 | a book built from isbn, author and title has those three values and a null id |
| Errors.StatusMessage | book-client/src/main/java/com/example/LibraryApiClient.java:78-80 | the message is the prefix `Http request to `, the target, ` failed with status code `, and the code in decimal, in that order |
| Errors.StatusMessageRoundTrip | book-client/src/main/java/com/example/LibraryApiClient.java:78-80 | the message can be parsed back into exactly the target and code it was made from, negative codes included |
| Errors.StatusMessageInjective | book-client/src/main/java/com/example/LibraryApiClient.java:78-80 | equal messages mean equal targets and equal codes, for every `int` code |
| Http.Send | book-client/src/main/java/com/example/LibraryApiClient.java:42 | sending logs exactly the request and consumes exactly the next reply |
| Client.DefaultClient | book-client/src/main/java/com/example/LibraryApiClient.java:21-23 | the no-argument client uses the default base address |
| Client.BooksUrlShape | book-client/src/main/java/com/example/LibraryApiClient.java:16-33 | the books target is the base address followed by `/api/books`, so the default client's books target is `http://localhost:8080/api/books/api/books` |
| Client.IdUrl | book-client/src/main/java/com/example/LibraryApiClient.java:84 | an id target is the books target, a slash, and text that parses back to the id |
| Client.IdUrlInjective | book-client/src/main/java/com/example/LibraryApiClient.java:84 | different ids give different targets |
| Client.SearchUrl | book-client/src/main/java/com/example/LibraryApiClient.java:132 | the search target is the books target, `/search?author=`, and the encoded author |
| Client.IdUrlIsNotSearchUrl | book-client/src/main/java/com/example/LibraryApiClient.java:123-132 | no id target coincides with a search target |
| Client.ReadList | book-client/src/main/java/com/example/LibraryApiClient.java:44-45 | reading a list succeeds exactly when the mapper reads the body, with the mapper's value; otherwise a decode failure |
| Client.ReadOne | book-client/src/main/java/com/example/LibraryApiClient.java:105 | reading a book succeeds exactly when the mapper reads the body, with the mapper's value; otherwise a decode failure |
| Client.GetAllBooks | book-client/src/main/java/com/example/LibraryApiClient.java:35-48 | one GET of the books target; the decoded list iff the reply is 200 and readable; a status failure with the books target and code iff the status is not 200; a decode failure for an unreadable 200 body; a transport failure when no reply arrives |
| Client.Attempt | book-client/src/main/java/com/example/LibraryApiClient.java:60-71 | an attempt retries iff the reply is 503 and `tryNumber < tries-1`; otherwise it ends as a single listing would |
| Client.UnavailableShift | book-client/src/main/java/com/example/LibraryApiClient.java:65-67 | a leading 503 with at least two attempts left costs one attempt and one reply and changes nothing else |
| Client.RetryFromMatchesSpec | book-client/src/main/java/com/example/LibraryApiClient.java:58-74 | the loop from attempt `k` equals the closed form (no attempt, all-503 failure, or a single listing after the leading 503s) with `tries-k` attempts |
| Client.GetAllBooksWithRetries | book-client/src/main/java/com/example/LibraryApiClient.java:51-75 | the retried listing equals its closed form for every script and every `tries` |
| Client.GetAllBooksWithRetriesLoop | book-client/src/main/java/com/example/LibraryApiClient.java:58-74 | the counted loop computes the retried listing, sends at most `max(tries, 0)` requests, and never reaches the internal error when `tries >= 1` |
| Client.SingleTryIsGetAllBooks | book-client/src/main/java/com/example/LibraryApiClient.java:35-75 | with one try the retried listing is exactly the plain listing |
| Client.RetryRequestBound | book-client/src/main/java/com/example/LibraryApiClient.java:58-59 | at most `max(tries, 0)` requests, all the listing GET, appended to the log; the replies consumed are a prefix of the script, no more than the requests sent |
| Client.RetryInternalErrorIffNoTries | book-client/src/main/java/com/example/LibraryApiClient.java:58-74 | the internal error is the outcome iff `tries <= 0`, and then the wire is untouched |
| Client.RetryEndsOnFirstOtherReply | book-client/src/main/java/com/example/LibraryApiClient.java:60-70 | after `k < tries` leading 503s the next reply decides: 200 returns its body, another status fails with that status, a broken exchange fails in transport; `k+1` requests in all |
| Client.RetryExhaustedFailsWith503 | book-client/src/main/java/com/example/LibraryApiClient.java:65-70 | when all `tries` replies are 503 the call fails with 503 after exactly `tries` requests and leaves the rest of the script |
| Client.GetBookById | book-client/src/main/java/com/example/LibraryApiClient.java:82-93 | one GET of the id target; never a status failure; absent iff the status is not 200; present with the decoded book iff 200 and readable; a decode failure for an unreadable 200 body; a transport failure when no reply arrives |
| Client.CreateBook | book-client/src/main/java/com/example/LibraryApiClient.java:95-106 | one POST of the serialised book to the books target; never a status failure; the outcome is the reading of the reply body whatever the status; a transport failure when no reply arrives |
| Client.UpdateBook | book-client/src/main/java/com/example/LibraryApiClient.java:108-119 | one PUT of the serialised book to the id target; never a status failure; the outcome is the reading of the reply body whatever the status; a transport failure when no reply arrives |
| Client.DeleteBook | book-client/src/main/java/com/example/LibraryApiClient.java:121-128 | one DELETE of the id target; succeeds iff a reply arrives, whatever its status |
| Client.SearchBooksByAuthor | book-client/src/main/java/com/example/LibraryApiClient.java:130-139 | one GET of the search target; never a status failure; the outcome is the reading of the reply body as a list whatever the status; a transport failure when no reply arrives |
| Client.OnlyListingLooksAtStatus | book-client/src/main/java/com/example/LibraryApiClient.java:95-139 | create, update, delete and search end alike for replies that differ only in status, while the listing distinguishes 200 from any other status |
| Scenarios.ListingReturnsBody | book-client/src/test/java/LibraryApiClientTest.java:26-56 | a 200 listing returns exactly the decoded books, the empty list included |
| Scenarios.ListingFailsOn500 | book-client/src/test/java/LibraryApiClientTest.java:64-75 | a 500 listing fails with the books target and code 500, with message `Http request to <base>/api/books failed with status code 500` |
| Scenarios.ListingWithoutRetriesNeedsThreeCalls | book-client/src/test/java/LibraryApiClientTest.java:81-119 | on 503, 503, 200 three plain listings fail, fail, then return the books |
| Scenarios.RetriesOutlastTwoUnavailable | book-client/src/test/java/LibraryApiClientTest.java:125-156 | three tries on 503, 503, 200 return the books after three requests |
| Scenarios.RetriesStopAt500 | book-client/src/test/java/LibraryApiClientTest.java:162-193 | three tries on 503, 503, 500 fail with 500 |
| Scenarios.TwoTriesAreNotEnough | book-client/src/test/java/LibraryApiClientTest.java:201-232 | two tries on 503, 503, 200 fail with 503 and leave the 200 unread |
| Scenarios.CreateThenGetById | book-client/src/main/java/com/example/LibraryApiClient.java:82-106 | a created book fetched back by its returned id from a server that repeats the body is the same book, fetched from the id target |

## Left out

- The HTTP transport itself is not modelled: `HttpClient`, request building, the 3-second timeout on the listing requests and the `Content-Type` header of create and update. Its observable effect is the scripted `Wire`. Timeouts, connection errors and `InterruptedException` are all one `TransportFailure`.
- Jackson is not modelled: JSON reading and writing are the uninterpreted functions of `Mapper`. A body that is the JSON literal `null` yields a Java null in the source, and `Optional.of` in `getBookById` then throws `NullPointerException`. The model's mapper yields a value or a decoding failure only.
- `URLEncoder.encode` is a parameter, because it is a library function. Its UTF-8 percent-encoding is not modelled.
- `new URI(...)` can throw `URISyntaxException` for a malformed base address. This is not modelled: every target is taken as well-formed. `response.uri()` is taken to be the request target, because the default `HttpClient` does not follow redirects.
- Null arguments are not modelled. The model's types give `createBook` and `updateBook` a book, and `searchBooksByAuthor` an author string, never a null reference. In the source, `URLEncoder.encode(null, "UTF-8")` throws `NullPointerException`, and serialising a null book sends the body `null`.
- LibraryApiException.java is not part of this model. Only the message that `exceptionForStatus` passes to it is modelled.
- Lombok's `hashCode`, `toString` and getters are not modelled, because no operation of the client depends on them. The all-arguments constructor is the datatype constructor `Book`.
- The JPA annotations on `Book` are left out, because they are persistence metadata with no client-side behaviour.
- Main.java is not part of this model. It is an interactive driver with console output and random sample data.

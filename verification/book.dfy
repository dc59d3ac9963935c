/**
 The `Book` entity (book-client Book.java): an identity that the server
 assigns and three free-form strings. Every field is a Java reference, so
 every field may be null; Lombok's `@Data` supplies field-wise equality and
 one setter per field, `@Builder` a builder that leaves unset fields null.
 */
module Books {
  import opened Optional

  const MinLong: int := -0x8000_0000_0000_0000
  const MaxLong: int := 0x7FFF_FFFF_FFFF_FFFF

  /** A Java `long`. */
  type Long = x: int | MinLong <= x <= MaxLong

  datatype Book = Book(id: Option<Long>, title: Option<string>, author: Option<string>, isbn: Option<string>)

  /** The no-argument constructor: every field null. */
  function EmptyBook(): (b: Book)
    ensures b.id.None? && b.title.None? && b.author.None? && b.isbn.None?
  {
    Book(None, None, None, None)
  }

  /** Lombok `equals`: all four fields compared null-safely. */
  predicate Equals(a: Book, b: Book)
  {
    && NullSafeEquals(a.id, b.id)
    && NullSafeEquals(a.title, b.title)
    && NullSafeEquals(a.author, b.author)
    && NullSafeEquals(a.isbn, b.isbn)
  }

  /** Two books are `equals` exactly when they are the same value. */
  lemma EqualsIsValueEquality(a: Book, b: Book)
    ensures Equals(a, b) <==> a == b
  {
    NullSafeEqualsIsEquality(a.id, b.id);
    NullSafeEqualsIsEquality(a.title, b.title);
    NullSafeEqualsIsEquality(a.author, b.author);
    NullSafeEqualsIsEquality(a.isbn, b.isbn);
  }

  /** `List.equals` over books: same length and `equals` position by position. */
  predicate ListEquals(xs: seq<Book>, ys: seq<Book>)
  {
    if |xs| == 0 || |ys| == 0 then |xs| == |ys|
    else Equals(xs[0], ys[0]) && ListEquals(xs[1..], ys[1..])
  }

  /** List equality of books is sequence equality, so decoded lists can be compared as values. */
  lemma {:induction false} ListEqualsIsValueEquality(xs: seq<Book>, ys: seq<Book>)
    ensures ListEquals(xs, ys) <==> xs == ys
    decreases |xs|
  {
    if |xs| > 0 && |ys| > 0 {
      EqualsIsValueEquality(xs[0], ys[0]);
      ListEqualsIsValueEquality(xs[1..], ys[1..]);
      if xs[0] == ys[0] && xs[1..] == ys[1..] {
        assert xs == [xs[0]] + xs[1..];
        assert ys == [ys[0]] + ys[1..];
      }
    }
  }

  // Setters generated by @Data: each replaces one field and keeps the other three.

  function SetId(b: Book, id: Option<Long>): (r: Book)
    ensures r.id == id
    ensures r.title == b.title && r.author == b.author && r.isbn == b.isbn
  {
    b.(id := id)
  }

  function SetTitle(b: Book, title: Option<string>): (r: Book)
    ensures r.title == title
    ensures r.id == b.id && r.author == b.author && r.isbn == b.isbn
  {
    b.(title := title)
  }

  function SetAuthor(b: Book, author: Option<string>): (r: Book)
    ensures r.author == author
    ensures r.id == b.id && r.title == b.title && r.isbn == b.isbn
  {
    b.(author := author)
  }

  function SetIsbn(b: Book, isbn: Option<string>): (r: Book)
    ensures r.isbn == isbn
    ensures r.id == b.id && r.title == b.title && r.author == b.author
  {
    b.(isbn := isbn)
  }

  /** The title setter given the current title leaves a book `equals` to the original,
      the last of two title writes wins, and a title write commutes with an isbn write. */
  lemma SetTitleLaws(b: Book, t1: Option<string>, t2: Option<string>)
    ensures Equals(SetTitle(b, b.title), b)
    ensures SetTitle(SetTitle(b, t1), t2) == SetTitle(b, t2)
    ensures SetTitle(SetIsbn(b, t1), t2) == SetIsbn(SetTitle(b, t2), t1)
  {
    EqualsIsValueEquality(SetTitle(b, b.title), b);
  }

  /** `clone` is Object.clone on a Cloneable class: a shallow field-by-field copy. */
  function Clone(b: Book): (r: Book)
    ensures Equals(r, b)
  {
    EqualsIsValueEquality(b, b);
    Book(b.id, b.title, b.author, b.isbn)
  }

  /** One call on a Lombok builder: it records the given value (possibly null) for one field. */
  datatype BuilderCall =
    | IdCall(id: Option<Long>)
    | TitleCall(title: Option<string>)
    | AuthorCall(author: Option<string>)
    | IsbnCall(isbn: Option<string>)

  /** `Book.builder().c1(..)....cn(..).build()`: fields start null and each call overwrites one,
      so every field holds the value given to it last, or null when it was never given. */
  function Build(calls: seq<BuilderCall>): (b: Book)
    ensures b.id == LastId(calls)
    ensures b.title == LastTitle(calls)
    ensures b.author == LastAuthor(calls)
    ensures b.isbn == LastIsbn(calls)
  {
    if |calls| == 0 then EmptyBook()
    else
      var b := Build(calls[..|calls| - 1]);
      match calls[|calls| - 1]
      case IdCall(v) => SetId(b, v)
      case TitleCall(v) => SetTitle(b, v)
      case AuthorCall(v) => SetAuthor(b, v)
      case IsbnCall(v) => SetIsbn(b, v)
  }

  // The value each field was given last, or null when no call gave it one.

  function LastId(calls: seq<BuilderCall>): Option<Long>
  {
    if |calls| == 0 then None
    else if calls[|calls| - 1].IdCall? then calls[|calls| - 1].id
    else LastId(calls[..|calls| - 1])
  }

  function LastTitle(calls: seq<BuilderCall>): Option<string>
  {
    if |calls| == 0 then None
    else if calls[|calls| - 1].TitleCall? then calls[|calls| - 1].title
    else LastTitle(calls[..|calls| - 1])
  }

  function LastAuthor(calls: seq<BuilderCall>): Option<string>
  {
    if |calls| == 0 then None
    else if calls[|calls| - 1].AuthorCall? then calls[|calls| - 1].author
    else LastAuthor(calls[..|calls| - 1])
  }

  function LastIsbn(calls: seq<BuilderCall>): Option<string>
  {
    if |calls| == 0 then None
    else if calls[|calls| - 1].IsbnCall? then calls[|calls| - 1].isbn
    else LastIsbn(calls[..|calls| - 1])
  }

  /** A field that no builder call names stays null in the built book. */
  lemma {:induction false} UnsetFieldsStayNull(calls: seq<BuilderCall>)
    ensures (forall i :: 0 <= i < |calls| ==> !calls[i].IdCall?) ==> Build(calls).id.None?
    ensures (forall i :: 0 <= i < |calls| ==> !calls[i].TitleCall?) ==> Build(calls).title.None?
    ensures (forall i :: 0 <= i < |calls| ==> !calls[i].AuthorCall?) ==> Build(calls).author.None?
    ensures (forall i :: 0 <= i < |calls| ==> !calls[i].IsbnCall?) ==> Build(calls).isbn.None?
  {
    if |calls| > 0 {
      var front := calls[..|calls| - 1];
      UnsetFieldsStayNull(front);
      assert forall i :: 0 <= i < |front| ==> front[i] == calls[i];
    }
  }

  /** The test books, built from isbn, author and title without an id: the id stays null. */
  lemma BuiltWithoutId(isbn: string, author: string, title: string)
    ensures Build([IsbnCall(Some(isbn)), AuthorCall(Some(author)), TitleCall(Some(title))])
         == Book(None, Some(title), Some(author), Some(isbn))
  {
    var one := [IsbnCall(Some(isbn))];
    var two := one + [AuthorCall(Some(author))];
    var calls := two + [TitleCall(Some(title))];
    assert calls[..2] == two && two[..1] == one && one[..0] == [];
    assert LastId(one) == None && LastIsbn(one) == Some(isbn);
    assert LastId(two) == None && LastIsbn(two) == Some(isbn);
    assert LastId(calls) == None && LastIsbn(calls) == Some(isbn);
  }
}

/**
 * The book records the front-end caches, the cards displayBooks renders
 * from them, the lookup showDeleteModal performs, and the requests the
 * handlers send to the Book API.
 */
module Library {
  import opened Wrappers
  import opened Escape

  /** A book as the Book API returns it; the id is assigned by the server. */
  datatype Book = Book(id: int, title: string, author: string)

  /** One rendered book card: the id (shown and passed to the delete button)
      and the escaped title and author. The surrounding markup is abstract. */
  datatype Card = Card(id: int, title: string, author: string)

  /** The requests the front-end issues: GET, POST with the trimmed fields,
      DELETE of one id. */
  datatype Request = ListBooks | CreateBook(title: string, author: string) | DeleteBook(id: int)

  /** The card of one book: same id, and title and author passed through
      escapeHtml, so they hold no raw markup and decode back to the book's. */
  function CardOf(b: Book): (c: Card)
    ensures c.id == b.id
    ensures HasNoRawMarkup(c.title) && HasNoRawMarkup(c.author)
    ensures Unescape(c.title) == b.title && Unescape(c.author) == b.author
  {
    EscapeHasNoRawMarkup(b.title);
    EscapeHasNoRawMarkup(b.author);
    UnescapeEscape(b.title);
    UnescapeEscape(b.author);
    Card(b.id, EscapeHtml(b.title), EscapeHtml(b.author))
  }

  /** books.map(card).join(''): exactly one card per book, in list order. */
  function Render(books: seq<Book>): (cards: seq<Card>)
    ensures |cards| == |books|
    ensures forall i :: 0 <= i < |books| ==> cards[i] == CardOf(books[i])
  {
    if books == [] then [] else [CardOf(books[0])] + Render(books[1..])
  }

  /** Rendering a concatenation renders each part. */
  lemma RenderAppend(a: seq<Book>, b: seq<Book>)
    ensures Render(a + b) == Render(a) + Render(b)
  {
  }

  /** Array.prototype.find with the test book.id === id: the first book with
      that id, or None exactly when no book has it. */
  function FindById(books: seq<Book>, id: int): (r: Option<Book>)
    ensures r.None? <==> forall i :: 0 <= i < |books| ==> books[i].id != id
    ensures r.Some? ==> r.value.id == id && r.value == books[FirstIndexOf(books, id)]
  {
    if books == [] then None
    else if books[0].id == id then Some(books[0])
    else FindById(books[1..], id)
  }

  /** The position of the first book with the given id (|books| when none). */
  function FirstIndexOf(books: seq<Book>, id: int): (k: nat)
    ensures k <= |books|
    ensures forall j :: 0 <= j < k ==> books[j].id != id
    ensures k < |books| ==> books[k].id == id
  {
    if books == [] then 0
    else if books[0].id == id then 0
    else 1 + FirstIndexOf(books[1..], id)
  }
}

/**
 * The synchronisation state of the book-list page as a value: the cached
 * `books`, the pending deletion `bookToDelete`, the book area and form
 * regions whose visibility the show/hide helpers toggle, the modal, and the
 * log of requests sent to the Book API. Each event handler is a function
 * from the state before to the state after, with the network outcome as a
 * parameter. The class in SyncController runs these steps in place and is
 * proved to agree with them.
 */
module SyncState {
  import opened Wrappers
  import opened Validation
  import opened Library

  /** The book area: loading indicator, error message, empty-state panel and
      the book container with its cards. */
  datatype BookArea = BookArea(
    loading: bool,      // loading indicator shown
    error: bool,        // error message shown
    errorText: string,  // text of the error message
    emptyState: bool,   // empty-state panel shown
    container: bool,    // book container shown
    cards: seq<Card>    // book container contents
  )

  /** The add-book form and its success message. */
  datatype Form = Form(
    title: string,         // title field value
    author: string,        // author field value
    submitDisabled: bool,  // submit button disabled
    spinner: bool,         // button shows its loading label instead of its text
    success: bool          // success message shown
  )

  /** Everything the handlers read or write. */
  datatype Ui = Ui(
    books: seq<Book>,       // the cached list
    pending: Option<Book>,  // bookToDelete (null and undefined are both None)
    area: BookArea,
    modal: bool,            // delete-confirmation modal shown
    form: Form,
    sent: seq<Request>      // requests issued so far, oldest first
  )

  const ErrorPrefix: string := "\U{274C} "
  const LoadFailedMessage: string := "Failed to load books. Make sure your backend service is running."

  /** The page before the first load: empty cache, nothing pending, every
      indicator hidden, the container shown and empty, the form idle. */
  function Initial(): (u: Ui)
    ensures u.books == [] && u.pending == None && u.sent == []
    ensures Settled(u)
  {
    Ui([], None, BookArea(false, false, "", false, true, []), false, Form("", "", false, false, false), [])
  }

  /** displayBooks: an empty cache shows the empty state, hides the
      container and leaves its contents alone; otherwise the empty state is
      hidden, the container shown and filled with one card per book. */
  function DisplayBooks(books: seq<Book>, a: BookArea): (r: BookArea)
    ensures r.emptyState <==> books == []
    ensures r.container <==> books != []
    ensures r.cards == if books == [] then a.cards else Render(books)
    ensures r.(emptyState := a.emptyState, container := a.container, cards := a.cards) == a
  {
    if books == [] then a.(emptyState := true, container := false)  // showEmptyState
    else a.(emptyState := false, container := true, cards := Render(books))  // hideEmptyState, then the cards
  }

  /** loadBooks, with the outcome of the GET: Some(list) when the response
      was ok and its body parsed, None otherwise. One GET is sent; on
      success the cache is replaced wholesale and displayed, on failure the
      cache and the cards are kept and the error shown; in every case the
      loading indicator ends hidden and the container shown, and nothing
      outside the cache and the book area changes. */
  function LoadBooks(u: Ui, response: Option<seq<Book>>): (r: Ui)
    ensures r.sent == u.sent + [ListBooks]
    ensures !r.area.loading && r.area.container
    ensures response.None? ==>
      r.books == u.books && r.area.cards == u.area.cards && r.area.emptyState == u.area.emptyState &&
      r.area.error && r.area.errorText == ErrorPrefix + LoadFailedMessage
    ensures response.Some? ==>
      r.books == response.value && !r.area.error && r.area.errorText == u.area.errorText &&
      (r.area.emptyState <==> response.value == []) &&
      r.area.cards == if response.value == [] then u.area.cards else Render(response.value)
    ensures r.pending == u.pending && r.modal == u.modal && r.form == u.form
  {
    // showLoading, hideError
    var started := u.area.(loading := true, container := false, error := false);
    var sent := u.sent + [ListBooks];
    match response
    case Some(list) =>
      // displayBooks, then hideLoading in the finally block
      u.(books := list, area := DisplayBooks(list, started).(loading := false, container := true), sent := sent)
    case None =>
      // showError, then hideLoading in the finally block
      var failed := started.(errorText := ErrorPrefix + LoadFailedMessage, error := true);
      u.(area := failed.(loading := false, container := true), sent := sent)
  }

  /** The part of handleAddBook after the guard: one POST with the
      submitted values. On success the fields are cleared, the success
      message shown and the page reloaded exactly as loadBooks does; on
      failure the fields, the cache and the book area are kept. Either way
      the button ends enabled with its normal label. */
  function PostBook(u: Ui, submission: Submission, created: bool, reload: Option<seq<Book>>): (r: Ui)
    ensures !r.form.submitDisabled && !r.form.spinner
    ensures r.pending == u.pending && r.modal == u.modal
    ensures r.sent == u.sent + [CreateBook(submission.title, submission.author)] + (if created then [ListBooks] else [])
    ensures u.sent <= r.sent
    ensures created ==>
      r.form.title == [] && r.form.author == [] && r.form.success &&
      r.books == LoadBooks(u, reload).books && r.area == LoadBooks(u, reload).area
    ensures !created ==>
      r.books == u.books && r.area == u.area &&
      r.form.title == u.form.title && r.form.author == u.form.author && r.form.success == u.form.success
  {
    PrefixOfAppend(u.sent, [CreateBook(submission.title, submission.author)] + (if created then [ListBooks] else []));
    // the button shows its loading label and is disabled
    var busy := u.(form := u.form.(spinner := true, submitDisabled := true),
                   sent := u.sent + [CreateBook(submission.title, submission.author)]);
    // on success: the fields reset, showSuccess, loadBooks
    var settled :=
      if created then LoadBooks(busy.(form := busy.form.(title := [], author := [], success := true)), reload)
      else busy;
    // the finally block restores the button
    settled.(form := settled.form.(spinner := false, submitDisabled := false))
  }

  /** handleAddBook, with the outcome of the POST (ok and body parsed) and of
      the GET of the reload it triggers. A blank title or author changes
      nothing and sends nothing; otherwise the POST carries the trimmed
      values. */
  function HandleAddBook(u: Ui, created: bool, reload: Option<seq<Book>>): (r: Ui)
    ensures Trim(u.form.title) == [] || Trim(u.form.author) == [] ==> r == u
    ensures Trim(u.form.title) != [] && Trim(u.form.author) != [] ==>
      r == PostBook(u, Submission(Trim(u.form.title), Trim(u.form.author)), created, reload)
  {
    match Validate(u.form.title, u.form.author)
    case None => u
    case Some(submission) => PostBook(u, submission, created, reload)
  }

  /** showDeleteModal: the pending deletion becomes the first cached book
      with that id, or None when there is none; the modal is made visible
      when a book was found and otherwise keeps its visibility. */
  function ShowDeleteModal(u: Ui, id: int): (r: Ui)
    ensures r.pending == FindById(u.books, id)
    ensures r.modal <==> u.modal || exists i :: 0 <= i < |u.books| && u.books[i].id == id
    ensures r.(pending := u.pending, modal := u.modal) == u
  {
    var found := FindById(u.books, id);
    if found.Some? then u.(pending := found, modal := true) else u.(pending := found)
  }

  /** hideDeleteModal: the modal is hidden and nothing is pending. */
  function HideDeleteModal(u: Ui): (r: Ui)
    ensures !r.modal && r.pending.None?
    ensures r.(pending := u.pending, modal := u.modal) == u
  {
    u.(modal := false, pending := None)
  }

  /** handleConfirmDelete, with the outcome of the DELETE and of the GET of
      the reload it triggers. With nothing pending nothing happens. Otherwise
      one DELETE for the pending book's id is sent; on success the modal is
      hidden, nothing is pending and the page reloaded exactly as loadBooks
      does; on failure only the DELETE is logged, and the modal, the pending
      book and the cache are kept. */
  function HandleConfirmDelete(u: Ui, deleted: bool, reload: Option<seq<Book>>): (r: Ui)
    ensures u.pending.None? ==> r == u
    ensures u.pending.Some? && !deleted ==> r == u.(sent := u.sent + [DeleteBook(u.pending.value.id)])
    ensures u.pending.Some? && deleted ==>
      !r.modal && r.pending.None? && r.form == u.form &&
      r.books == LoadBooks(u, reload).books && r.area == LoadBooks(u, reload).area &&
      r.sent == u.sent + [DeleteBook(u.pending.value.id), ListBooks]
  {
    match u.pending
    case None => u
    case Some(book) =>
      var sentDelete := u.(sent := u.sent + [DeleteBook(book.id)]);
      if deleted then LoadBooks(HideDeleteModal(sentDelete), reload) else sentDelete
  }

  /** The user typing into the two form fields. */
  function EditForm(u: Ui, title: string, author: string): (r: Ui)
    ensures r.form.title == title && r.form.author == author
    ensures r.(form := u.form) == u && r.form.(title := u.form.title, author := u.form.author) == u.form
  {
    u.(form := u.form.(title := title, author := author))
  }

  /** One event the page reacts to, carrying the network outcomes it meets. */
  datatype Event =
    | Refresh(response: Option<seq<Book>>)
    | Submit(created: bool, reload: Option<seq<Book>>)
    | AskDelete(id: int)
    | Cancel
    | Confirm(deleted: bool, reload: Option<seq<Book>>)
    | Edit(title: string, author: string)

  function Step(u: Ui, e: Event): Ui {
    match e
    case Refresh(response) => LoadBooks(u, response)
    case Submit(created, reload) => HandleAddBook(u, created, reload)
    case AskDelete(id) => ShowDeleteModal(u, id)
    case Cancel => HideDeleteModal(u)
    case Confirm(deleted, reload) => HandleConfirmDelete(u, deleted, reload)
    case Edit(title, author) => EditForm(u, title, author)
  }

  function Run(u: Ui, events: seq<Event>): Ui
    decreases |events|
  {
    if events == [] then u else Run(Step(u, events[0]), events[1..])
  }

  /** The list returned by the GET the event sends, if it sends one and the
      GET succeeds: a refresh always sends one; an add sends one only when
      the form is filled in and the POST succeeds; a confirmation only when
      a book is pending and the DELETE succeeds. None in every other case. */
  function Fetched(u: Ui, e: Event): Option<seq<Book>> {
    match e
    case Refresh(response) => response
    case Submit(created, reload) =>
      (match Validate(u.form.title, u.form.author)
       case Some(_) => if created then reload else None
       case None => None)
    case Confirm(deleted, reload) => if u.pending.Some? && deleted then reload else None
    case _ => None
  }

  /** The list returned by the last successful GET of a run, if any. */
  function LastFetched(u: Ui, events: seq<Event>): Option<seq<Book>>
    decreases |events|
  {
    if events == [] then None
    else
      var later := LastFetched(Step(u, events[0]), events[1..]);
      if later.Some? then later else Fetched(u, events[0])
  }

  /** The page between events: no load in progress, the submit button idle,
      and a pending deletion only while the modal is shown. */
  predicate Settled(u: Ui) {
    !u.area.loading && !u.form.submitDisabled && !u.form.spinner && (u.pending.Some? ==> u.modal)
  }

  /** Each handler, run to completion, leaves the page settled. */
  lemma StepPreservesSettled(u: Ui, e: Event)
    requires Settled(u)
    ensures Settled(Step(u, e))
  {
    match e
    case Submit(created, reload) =>
      var valid := Validate(u.form.title, u.form.author);
      if valid.Some? {
        assert HandleAddBook(u, created, reload) == PostBook(u, valid.value, created, reload);
      }
    case _ =>
  }

  /** Any run of handlers from a settled page ends settled. */
  lemma {:induction false} RunPreservesSettled(u: Ui, events: seq<Event>)
    requires Settled(u)
    ensures Settled(Run(u, events))
    decreases |events|
  {
    if events != [] {
      StepPreservesSettled(u, events[0]);
      RunPreservesSettled(Step(u, events[0]), events[1..]);
    }
  }

  /** The cache is never patched: after an event it is exactly the list of
      the event's successful GET, and unchanged when there was none. A
      successful GET is the last request the event logs. */
  lemma StepReplacesBooksWholesale(u: Ui, e: Event)
    ensures Step(u, e).books == if Fetched(u, e).Some? then Fetched(u, e).value else u.books
    ensures Fetched(u, e).Some? ==>
      |Step(u, e).sent| > |u.sent| && Step(u, e).sent[|Step(u, e).sent| - 1] == ListBooks
  {
    match e
    case Refresh(response) =>
    case Submit(created, reload) => SubmitReplacesBooksWholesale(u, created, reload);
    case Confirm(deleted, reload) =>
    case AskDelete(id) =>
    case Cancel =>
    case Edit(title, author) =>
  }

  /** StepReplacesBooksWholesale for an add. */
  lemma SubmitReplacesBooksWholesale(u: Ui, created: bool, reload: Option<seq<Book>>)
    ensures var r := HandleAddBook(u, created, reload);
      var f := Fetched(u, Submit(created, reload));
      r.books == (if f.Some? then f.value else u.books) &&
      (f.Some? ==> |r.sent| > |u.sent| && r.sent[|r.sent| - 1] == ListBooks)
  {
    match Validate(u.form.title, u.form.author)
    case None =>
      assert HandleAddBook(u, created, reload) == u;
      assert Fetched(u, Submit(created, reload)) == None;
    case Some(submission) =>
      var r := PostBook(u, submission, created, reload);
      PostBookReplacesBooks(u, submission, created, reload);
      assert HandleAddBook(u, created, reload) == r;
      assert Fetched(u, Submit(created, reload)) == if created then reload else None;
  }

  /** The cache after an add that passed the guard: the reload's list when
      the POST and the reload succeed, the old cache otherwise. */
  lemma PostBookReplacesBooks(u: Ui, submission: Submission, created: bool, reload: Option<seq<Book>>)
    ensures var r := PostBook(u, submission, created, reload);
      r.books == (if created && reload.Some? then reload.value else u.books) &&
      (created ==> |r.sent| > |u.sent| && r.sent[|r.sent| - 1] == ListBooks)
  {
  }

  /** After any run the cache is the list of the run's last successful GET,
      or the starting cache when no GET of the run succeeded. */
  lemma {:induction false} RunReplacesBooksWholesale(u: Ui, events: seq<Event>)
    ensures Run(u, events).books ==
      if LastFetched(u, events).Some? then LastFetched(u, events).value else u.books
    decreases |events|
  {
    if events != [] {
      StepReplacesBooksWholesale(u, events[0]);
      RunReplacesBooksWholesale(Step(u, events[0]), events[1..]);
    }
  }

  /** Each handler only appends to the request log. */
  lemma StepOnlyAppendsRequests(u: Ui, e: Event)
    ensures u.sent <= Step(u, e).sent
  {
    match e
    case Refresh(response) =>
      PrefixOfAppend(u.sent, [ListBooks]);
    case Submit(created, reload) =>
    case Confirm(deleted, reload) =>
      if u.pending.Some? {
        var id := u.pending.value.id;
        PrefixOfAppend(u.sent, if deleted then [DeleteBook(id), ListBooks] else [DeleteBook(id)]);
      }
    case _ =>
  }

  lemma PrefixOfAppend(s: seq<Request>, t: seq<Request>)
    ensures s <= s + t
  {
  }

  /** Requests are only ever appended to the log. */
  lemma {:induction false} RunOnlyAppendsRequests(u: Ui, events: seq<Event>)
    ensures u.sent <= Run(u, events).sent
    decreases |events|
  {
    if events != [] {
      StepOnlyAppendsRequests(u, events[0]);
      RunOnlyAppendsRequests(Step(u, events[0]), events[1..]);
    }
  }

  /** Refreshing twice against the same server state gives the same page as
      refreshing once, apart from the second GET in the log. */
  lemma LoadBooksIdempotent(u: Ui, response: Option<seq<Book>>)
    ensures var once := LoadBooks(u, response);
      LoadBooks(once, response) == once.(sent := once.sent + [ListBooks])
  {
  }

  /** An empty list after a non-empty one shows the empty state, and the
      container is shown again by the final hideLoading with the previous
      cards still in it: displayBooks never clears them. */
  lemma EmptyReloadKeepsStaleCards(u: Ui, list: seq<Book>)
    requires list != []
    ensures var r := LoadBooks(LoadBooks(u, Some(list)), Some([]));
      r.books == [] && r.area.emptyState && r.area.container && r.area.cards == Render(list)
  {
  }

  /** A failed refresh after an empty list leaves the empty state shown
      beside the error: hideError is the only indicator reset before the GET. */
  lemma FailedReloadKeepsEmptyState(u: Ui)
    ensures var r := LoadBooks(LoadBooks(u, Some([])), None);
      r.area.emptyState && r.area.error && r.books == []
  {
  }

  /** Asking to delete an id that is not cached while the modal is open
      drops the pending book but leaves the modal open. */
  lemma AskMissingDeleteKeepsModal(u: Ui, id: int)
    requires u.modal && u.pending.Some?
    requires forall i :: 0 <= i < |u.books| ==> u.books[i].id != id
    ensures var r := ShowDeleteModal(u, id); r.modal && r.pending.None?
  {
  }
}

/**
 * The book-list controller as the script runs it: the module-level `books`
 * and `bookToDelete`, and the page elements the handlers show, hide, fill,
 * enable and disable, all updated in place one step at a time. Every
 * handler is proved to end in the state the matching SyncState function
 * describes, so the properties proved there hold of the handlers.
 */
module SyncController {
  import opened Wrappers
  import opened Validation
  import opened Library
  import opened SyncState

  class BookLibrary {
    // The script's own state.
    var books: seq<Book>
    var bookToDelete: Option<Book>
    // The book area.
    var loadingShown: bool
    var errorShown: bool
    var errorText: string
    var emptyStateShown: bool
    var containerShown: bool
    var cards: seq<Card>
    // The delete-confirmation modal.
    var modalShown: bool
    // The add-book form.
    var titleInput: string
    var authorInput: string
    var submitDisabled: bool
    var spinnerShown: bool
    var successShown: bool
    // The requests sent to the Book API so far.
    var sent: seq<Request>

    /** The state as a value. */
    function Snapshot(): Ui
      reads this
    {
      Ui(books, bookToDelete,
         BookArea(loadingShown, errorShown, errorText, emptyStateShown, containerShown, cards),
         modalShown,
         Form(titleInput, authorInput, submitDisabled, spinnerShown, successShown),
         sent)
    }

    /** The page as loaded, before the first request. */
    constructor ()
      ensures Snapshot() == Initial()
    {
      books, bookToDelete := [], None;
      loadingShown, errorShown, errorText := false, false, "";
      emptyStateShown, containerShown, cards := false, true, [];
      modalShown := false;
      titleInput, authorInput := "", "";
      submitDisabled, spinnerShown, successShown := false, false, false;
      sent := [];
    }

    // The show/hide helpers: each sets one or two flags and nothing else.

    method ShowLoading()
      modifies this
      ensures Snapshot() == old(Snapshot()).(area := old(Snapshot()).area.(loading := true, container := false))
    {
      loadingShown := true;
      containerShown := false;
    }

    method HideLoading()
      modifies this
      ensures Snapshot() == old(Snapshot()).(area := old(Snapshot()).area.(loading := false, container := true))
    {
      loadingShown := false;
      containerShown := true;
    }

    method ShowError(message: string)
      modifies this
      ensures Snapshot() == old(Snapshot()).(area := old(Snapshot()).area.(errorText := ErrorPrefix + message, error := true))
    {
      errorText := ErrorPrefix + message;
      errorShown := true;
    }

    method HideError()
      modifies this
      ensures Snapshot() == old(Snapshot()).(area := old(Snapshot()).area.(error := false))
    {
      errorShown := false;
    }

    method ShowEmptyState()
      modifies this
      ensures Snapshot() == old(Snapshot()).(area := old(Snapshot()).area.(emptyState := true, container := false))
    {
      emptyStateShown := true;
      containerShown := false;
    }

    method HideEmptyState()
      modifies this
      ensures Snapshot() == old(Snapshot()).(area := old(Snapshot()).area.(emptyState := false, container := true))
    {
      emptyStateShown := false;
      containerShown := true;
    }

    method ShowSuccess()
      modifies this
      ensures Snapshot() == old(Snapshot()).(form := old(Snapshot()).form.(success := true))
    {
      successShown := true;
    }

    method BusyButton()
      modifies this
      ensures Snapshot() == old(Snapshot()).(form := old(Snapshot()).form.(spinner := true, submitDisabled := true))
    {
      spinnerShown := true;
      submitDisabled := true;
    }

    method IdleButton()
      modifies this
      ensures Snapshot() == old(Snapshot()).(form := old(Snapshot()).form.(spinner := false, submitDisabled := false))
    {
      spinnerShown := false;
      submitDisabled := false;
    }

    /** displayBooks: the empty state, or one card per cached book. */
    method DisplayBooks()
      modifies this
      ensures Snapshot() == old(Snapshot()).(area := SyncState.DisplayBooks(books, old(Snapshot()).area))
    {
      if |books| == 0 {
        ShowEmptyState();
        return;
      }
      HideEmptyState();
      cards := Render(books);
    }

    /** loadBooks, with the outcome of its GET. */
    method LoadBooks(response: Option<seq<Book>>)
      modifies this
      ensures Snapshot() == SyncState.LoadBooks(old(Snapshot()), response)
    {
      ShowLoading();
      HideError();
      sent := sent + [ListBooks];
      match response {
        case Some(list) =>
          books := list;
          DisplayBooks();
        case None =>
          ShowError(LoadFailedMessage);
      }
      HideLoading();
    }

    /** handleAddBook, with the outcomes of its POST and of the reload. */
    method HandleAddBook(created: bool, reload: Option<seq<Book>>)
      modifies this
      ensures Snapshot() == SyncState.HandleAddBook(old(Snapshot()), created, reload)
    {
      var title := Trim(titleInput);
      var author := Trim(authorInput);
      if title == [] || author == [] {
        return;
      }
      PostBook(Submission(title, author), created, reload);
    }

    /** The rest of handleAddBook once both fields are filled in. */
    method PostBook(submission: Submission, created: bool, reload: Option<seq<Book>>)
      modifies this
      ensures Snapshot() == SyncState.PostBook(old(Snapshot()), submission, created, reload)
    {
      ghost var before := Snapshot();
      BusyButton();
      sent := sent + [CreateBook(submission.title, submission.author)];
      assert Snapshot() == before.(form := before.form.(spinner := true, submitDisabled := true),
                                   sent := before.sent + [CreateBook(submission.title, submission.author)]);
      if created {
        titleInput := "";
        authorInput := "";
        ShowSuccess();
        LoadBooks(reload);
      }
      IdleButton();
    }

    /** showDeleteModal: stage the first cached book with this id. */
    method ShowDeleteModal(id: int)
      modifies this
      ensures Snapshot() == SyncState.ShowDeleteModal(old(Snapshot()), id)
    {
      bookToDelete := FindById(books, id);
      if bookToDelete.Some? {
        modalShown := true;
      }
    }

    /** hideDeleteModal: close the modal and drop the staged book. */
    method HideDeleteModal()
      modifies this
      ensures Snapshot() == SyncState.HideDeleteModal(old(Snapshot()))
    {
      modalShown := false;
      bookToDelete := None;
    }

    /** handleConfirmDelete, with the outcomes of its DELETE and of the reload. */
    method HandleConfirmDelete(deleted: bool, reload: Option<seq<Book>>)
      modifies this
      ensures Snapshot() == SyncState.HandleConfirmDelete(old(Snapshot()), deleted, reload)
    {
      if bookToDelete.None? {
        return;
      }
      sent := sent + [DeleteBook(bookToDelete.value.id)];
      if deleted {
        HideDeleteModal();
        LoadBooks(reload);
      }
    }

    /** The user typing into the form fields. */
    method EditForm(title: string, author: string)
      modifies this
      ensures Snapshot() == SyncState.EditForm(old(Snapshot()), title, author)
    {
      titleInput := title;
      authorInput := author;
    }
  }
}

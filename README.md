# Book library front-end: a verified model of the list controller

The book library page lists, adds and deletes book records by calling a
remote Book API. Its script keeps a cached list of books (`books`) and a
book staged for deletion (`bookToDelete`). It also shows and hides a loading
indicator, an error message, an empty-state panel, the book container, a
delete-confirmation modal and a success message, and it disables the
submit button while a book is being added. This project models that
controller in Dafny and proves what each handler does to this state,
for every outcome of its network calls.

Modules:

- `Escape` (escape.dfy): `escapeHtml`, the serialiser that replaces each of
  `& < > " '` by its entity. It is proved to leave no raw markup
  character, to distribute over concatenation and to be the identity
  exactly on strings without special characters. A decoder `Unescape`
  serves as its inverse, which proves the escaping unambiguous.
- `Validation` (validation.dfy): `String.prototype.trim` over the
  ECMAScript whitespace and line-terminator characters, and the add-book
  guard built on it.
- `Library` (library.dfy): the `Book` record, the rendered `Card` (id plus
  escaped title and author), the requests sent to the Book API, the lookup
  `books.find(book => book.id === id)` and the card list `displayBooks`
  renders.
- `SyncState` (sync_state.dfy): the page state as a value and one function
  per handler, taking the network outcome as a parameter. `EditForm` stands
  for the user typing into the two fields. The lemmas here cover runs of
  handlers.
- `SyncController` (sync_controller.dfy): the class `BookLibrary`, whose
  fields are the script's variables and the page's flags. Its methods update
  those fields step by step, in the source's order, and each is proved to
  end in the state the matching `SyncState` function gives.

Network outcomes are inputs. A GET is `Some(list)` when the response was
ok and its body parsed, and `None` otherwise. A POST or DELETE is a
boolean: true when the response was ok (and, for the POST, its body
parsed). Each handler runs to completion before the next event. The reload
that a successful add or delete starts is modelled as a complete
`loadBooks` inside that handler. The flags it touches are separate from the
ones the handler's own `finally` block resets, so the final state is the
same whichever finishes first. Every request a handler issues is appended
to the `sent` log. That log is how "no request is sent" and "exactly one
reload" are stated.

Two behaviours of the code are modelled as written:

- `showDeleteModal` with an id that is not cached still overwrites
  `bookToDelete` with the failed lookup. An open modal then stays open with
  nothing pending (`AskMissingDeleteKeepsModal`).
- On an empty list `showEmptyState` hides the container, but the
  `finally` block's `hideLoading` shows it again. `displayBooks` never
  clears the old cards, so after a list becomes empty the previous cards are
  still shown beside the empty state (`EmptyReloadKeepsStaleCards`).

In two further places the code does not do what one would expect of such
a page, and the model follows the code. First, one would expect exactly one
of loading, error, empty and populated to be visible at a time. In the code
a failed refresh after an empty list shows the error and the empty state
together (`FailedReloadKeepsEmptyState`), and the container is shown beside
the empty state. Second, one would expect a delete request for an unknown
id to be ignored. In the code it clears `bookToDelete`.

## Model

| member | source | states |
|---|---|---|
| Escape.Entity | frontend/script.js:251-257 | each of `& < > " '` maps to an entity that starts with `&`, ends with `;` and holds no other special character; every other character maps to itself |
| Escape.EscapeHtml | frontend/script.js:250-258 | the output is at least as long as the input and at most six times as long; it has the same length exactly when the input has no special character |
| Escape.EscapeChar | frontend/script.js:251-258 | escaping a single character yields exactly its entry in the entity table |
| Escape.EscapeAppend | frontend/script.js:258 | the global replace distributes over concatenation |
| Escape.EscapeHasNoRawMarkup | frontend/script.js:250-258 | escaped text contains no raw `<`, `>`, `"` or `'` |
| Escape.EscapeSafeIsIdentity | frontend/script.js:258 | a string with no special character is returned unchanged |
| Escape.EscapeIdentityIffSafe | frontend/script.js:258 | escaping leaves a string unchanged if and only if it has no special character |
| Escape.UnescapeEscape | frontend/script.js:250-258 | decoding the entities of the escaped text gives back the original text |
| Escape.EscapeInjective | frontend/script.js:250-258 | two different texts never escape to the same output |
| Validation.TrimStart | frontend/script.js:78-79 | the result is a suffix of the input, everything dropped is whitespace, and it does not start with whitespace |
| Validation.TrimEnd | frontend/script.js:78-79 | the result is a prefix of the input, everything dropped is whitespace, and it does not end with whitespace |
| Validation.Trim | frontend/script.js:78-79 | the result is a slice of the input with only whitespace before and after it; it is empty if and only if the input is all whitespace; otherwise it neither starts nor ends with whitespace |
| Validation.TrimIdempotent | frontend/script.js:78-79 | trimming an already trimmed value changes nothing |
| Validation.Validate | frontend/script.js:78-84 | the submission is refused if and only if the title or the author is blank; otherwise it carries both trimmed values, neither empty |
| Library.CardOf | frontend/script.js:146-162 | a card keeps the book's id; its title and author hold no raw markup and decode back to the book's |
| Library.Render | frontend/script.js:146-163 | exactly one card per book, the i-th card being the card of the i-th book |
| Library.RenderAppend | frontend/script.js:146-163 | rendering a concatenated list renders each part in order |
| Library.FindById | frontend/script.js:168 | the result is None if and only if no cached book has the id; otherwise it is the book at the first position with that id |
| Library.FirstIndexOf | frontend/script.js:168 | the first position holding the id, with no earlier book having it (the length of the list when none has it) |
| SyncState.Initial | frontend/script.js:19-20 | the page starts with an empty cache, nothing pending, no request sent, and in the settled condition |
| SyncState.DisplayBooks | frontend/script.js:138-164 | an empty list shows the empty state, hides the container and keeps its old cards; otherwise the empty state is hidden, the container shown and filled with the rendered list; nothing else changes |
| SyncState.LoadBooks | frontend/script.js:50-72 | exactly one GET; on failure the cache, cards and empty state are kept and the load error shown; on success the cache is replaced by the response, the error hidden and the list displayed; the loading indicator always ends hidden and the container shown; the modal, the pending book and the form are untouched |
| SyncState.PostBook | frontend/script.js:86-134 | exactly one POST with the submitted values; on success the fields are cleared, the success message shown and one reload performed exactly as loadBooks; on failure the fields, cache and book area are kept; the button always ends enabled and idle |
| SyncState.HandleAddBook | frontend/script.js:75-135 | a blank title or author leaves the whole state unchanged, with no request sent; otherwise the POST carries the trimmed title and author |
| SyncState.ShowDeleteModal | frontend/script.js:167-173 | the pending book becomes the lookup result, None included; the modal is shown if and only if it was already shown or a book with the id is cached; nothing else changes |
| SyncState.HideDeleteModal | frontend/script.js:176-179 | the modal is hidden and nothing is pending; nothing else changes |
| SyncState.HandleConfirmDelete | frontend/script.js:182-204 | with nothing pending the state is unchanged and no request is sent; a failed DELETE only logs the request, keeping modal, pending book and cache; a successful one hides the modal, clears the pending book and performs one reload exactly as loadBooks |
| SyncState.StepPreservesSettled | frontend/script.js:50-204 | every handler, run to completion from a settled page, leaves the loading indicator hidden, the button idle, and a pending book only while the modal is shown |
| SyncState.RunPreservesSettled | frontend/script.js:50-204 | any sequence of handlers from a settled page ends settled |
| SyncState.StepReplacesBooksWholesale | frontend/script.js:62 | after any handler the cache is exactly the list of the GET that handler sent and that succeeded, and unchanged when there was none; such a GET is the last request the handler logs |
| SyncState.SubmitReplacesBooksWholesale | frontend/script.js:75-135 | after an add the cache is the reload's list only when the form passed the guard and the POST and the reload succeeded, and unchanged otherwise |
| SyncState.PostBookReplacesBooks | frontend/script.js:98-123 | after a guarded add the cache is the reload's list exactly when the POST and the reload succeeded, and a successful POST ends the log with the reload's GET |
| SyncState.RunReplacesBooksWholesale | frontend/script.js:62 | after any sequence of handlers the cache is the list of the last successful GET of the run, or the starting cache when none succeeded |
| SyncState.StepOnlyAppendsRequests | frontend/script.js:56-198 | a handler never removes or reorders earlier requests in the log |
| SyncState.RunOnlyAppendsRequests | frontend/script.js:56-198 | the request log of any run extends the log it started with |
| SyncState.LoadBooksIdempotent | frontend/script.js:50-72 | refreshing twice with the same server response gives the same page as refreshing once, apart from the second GET |
| SyncState.EmptyReloadKeepsStaleCards | frontend/script.js:139-141 | an empty list after a non-empty one shows the empty state and the container together, still holding the previous cards |
| SyncState.FailedReloadKeepsEmptyState | frontend/script.js:52-53 | a failed refresh after an empty list shows the error while the empty state stays visible |
| SyncState.AskMissingDeleteKeepsModal | frontend/script.js:167-173 | asking to delete an uncached id while the modal is open clears the pending book but leaves the modal open |
| SyncController.BookLibrary.constructor | frontend/script.js:19-20 | the object starts in the initial page state |
| SyncController.BookLibrary.ShowLoading | frontend/script.js:215-218 | shows the loading indicator and hides the container, nothing else |
| SyncController.BookLibrary.HideLoading | frontend/script.js:221-224 | hides the loading indicator and shows the container, nothing else |
| SyncController.BookLibrary.ShowError | frontend/script.js:227-230 | sets the error text to the prefixed message and shows it, nothing else |
| SyncController.BookLibrary.HideError | frontend/script.js:233-235 | hides the error message, nothing else |
| SyncController.BookLibrary.ShowEmptyState | frontend/script.js:238-241 | shows the empty state and hides the container, nothing else |
| SyncController.BookLibrary.HideEmptyState | frontend/script.js:244-247 | hides the empty state and shows the container, nothing else |
| SyncController.BookLibrary.ShowSuccess | frontend/script.js:207-208 | shows the success message, nothing else |
| SyncController.BookLibrary.BusyButton | frontend/script.js:93-95 | swaps the button to its loading label and disables it, nothing else |
| SyncController.BookLibrary.IdleButton | frontend/script.js:131-133 | restores the button's label and enables it, nothing else |
| SyncController.BookLibrary.DisplayBooks | frontend/script.js:138-164 | updates the book area in place exactly as SyncState.DisplayBooks |
| SyncController.BookLibrary.LoadBooks | frontend/script.js:50-72 | updates the object in place to exactly SyncState.LoadBooks of its old state |
| SyncController.BookLibrary.HandleAddBook | frontend/script.js:75-135 | updates the object in place to exactly SyncState.HandleAddBook of its old state |
| SyncController.BookLibrary.PostBook | frontend/script.js:86-134 | updates the object in place to exactly SyncState.PostBook of its old state |
| SyncController.BookLibrary.ShowDeleteModal | frontend/script.js:167-173 | updates the object in place to exactly SyncState.ShowDeleteModal of its old state |
| SyncController.BookLibrary.HideDeleteModal | frontend/script.js:176-179 | updates the object in place to exactly SyncState.HideDeleteModal of its old state |
| SyncController.BookLibrary.HandleConfirmDelete | frontend/script.js:182-204 | updates the object in place to exactly SyncState.HandleConfirmDelete of its old state |

## Left out

- `fetch`, response JSON parsing and the request bodies and headers are not modelled. Each call is an outcome parameter, and a request is recorded only as its kind and arguments.
- `alert` and `console.log` / `console.error` are left out because they are output only. The three alerts (frontend/script.js:82, 128, 202) are the only visible effect of a blank submission, of a failed POST and of a failed DELETE.
- DOM element lookup and event-listener registration are left out as wiring (frontend/script.js:5-16, 23-47). The same goes for the modal's click-outside handler, which calls `hideDeleteModal`, and the `window.showDeleteModal` global.
- The 3-second timer that hides the success message again (frontend/script.js:209-211) is left out because it is timer-driven. In the model the message stays shown.
- Overlapping `loadBooks` calls that settle out of order are not modelled: each handler runs atomically. So is a second submit or confirm click while a request is pending.
- The card's HTML markup, its emoji and the `join('')` into one string are abstract. A card is its id and its escaped title and author.
- Malformed response bodies, such as a non-array list or a book whose title is not a string, are not modelled. In the code, `escapeHtml` would throw on such a title after `books` was already assigned, and the error would be caught by `loadBooks`. Here books are typed records.
- A Dafny `string` is a sequence of Unicode scalar values, while a JavaScript string is a sequence of UTF-16 code units, so a lone surrogate cannot be represented. This loses nothing here: the five characters `escapeHtml` replaces and every whitespace character `trim` strips lie in the Basic Multilingual Plane, so the replace and the trim act the same on every string the model can hold.
- The text label and the loading label of the submit button are always toggled together, so they are one `spinner` flag.
- The initial visibility of the page elements comes from the HTML page, and index.html is not part of this model. The constructor assumes that every indicator is hidden and the container is shown.
- The Java back-end (controller, entity, repository, application) is left out: it is a thin layer over Spring and JPA with no logic of its own.

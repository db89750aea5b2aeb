# Author directory: phone validator and page controller

A model, in Dafny, of the two parts of the author-directory web application
that have behaviour of their own:

- **`svPhoneValidator`** (`phone_validator.dfy`, module `PhoneValidator`): the
  JSF validator for Salvadoran phone numbers. A null value and a blank value
  (empty after `String.trim()`) pass unchecked; anything else must be one of
  the digits 2, 3, 6, 7, three more digits, a hyphen and four digits. The
  regular expression `^[2367]\d{3}-\d{4}$` is written out position by
  position (`MatchesPhonePattern`) and, separately, as the sequence of pieces
  the expression is made of (`PHONE_REGEX`, `FullMatch`); the two are proved
  equal. `trim()` only decides blankness: the match runs on the untrimmed
  value, so a well-formed number with surrounding spaces is rejected.
- **`AuthorBean`** (`author_bean.dfy`, module `Controller`): the view-scoped
  page controller, a class whose fields are the form (`author`,
  `selectedGenreId`), the table (`authorList`, possibly null), the genre
  dropdowns (`genreList`), the filter (`filterGenreId`) and the count
  (`authorCount`), plus a ghost log of the messages added to the page. Its
  action methods are proved to keep the count equal to the size of the table
  (0 for a null table), and each states the new state on every path,
  including the ones an exception takes.

The store behind the controller (`store.dfy`, module `Store`) is abstract: a
sequence of author rows and a sequence of genre rows. The JPQL queries become
functions (`WithGenre`, `FirstNamed`, `RemoveId`, `GenreWithId`), and each call
of AuthorModel and LiteraryGenreModel becomes a method of `Database`. Its
outcome (its `Fate`) is chosen by the environment, which is an input of the
model: `Database.env(n)` is the fate of the n-th call, and the store counts its
calls to take the next one. The possible fates are:

- the call proceeds;
- it fails inside its own try block, where the exception is printed and swallowed, so a read yields null and a write is rolled back;
- or acquiring the EntityManager, which happens before that try block, throws.

Every call is recorded in a ghost log on `Database`: what was asked (a
`Request`) and the fate it met. `Database.Valid()` keeps the count equal to the
length of the log and each logged fate equal to the environment's, besides the
unique primary keys of both tables. The controller's actions return the fates
of the calls they made. Their contracts state that these are the
environment's next fates, which calls were made in order, and what each
answer did to the page.

The entities (`entities.dfy`) are plain values: `Author(id, name, phone,
birthDate, genre)` with nullable fields as `Option`, and
`LiteraryGenre(id, name)`.

Consequences of the code that the model keeps:

- A failed write never reaches the controller's catch block. `saveAuthor`,
  `updateAuthor` and `deleteAuthor` catch every failure inside their own try
  block and roll it back (`AuthorModel.java:55-60, 81-86, 112-117`), so the
  page shows the success message after a rollback. In the model a swallowed
  write leaves the table unchanged and the action still adds the success
  message.
- The controller's catch blocks run only for exceptions that escape a service
  call. In the model that is a failure to obtain an EntityManager; the other
  ways out are listed under "Left out".
- A phone made only of whitespace counts as blank, because `trim()` decides
  blankness. The format check then runs on the untrimmed string, so a
  well-formed number with surrounding spaces is rejected.

## Model

| member | source | states |
|---|---|---|
| `PhoneValidator.LeadingTrimmable` | src/main/java/com/udb/autores/directorioautores/view/SVPhoneValidator.java:39 | the characters trim() strips from the front are all at most U+0020 and the next one is not |
| `PhoneValidator.TrailingTrimmable` | src/main/java/com/udb/autores/directorioautores/view/SVPhoneValidator.java:39 | the same for the back of the string |
| `PhoneValidator.Trim` | src/main/java/com/udb/autores/directorioautores/view/SVPhoneValidator.java:39 | trim() yields the empty string exactly when every character is at most U+0020; otherwise the result starts and ends with a character trim() keeps |
| `PhoneValidator.IsBlank` | src/main/java/com/udb/autores/directorioautores/view/SVPhoneValidator.java:39 | `phone.trim().isEmpty()` holds exactly when every character is one trim() strips (at most U+0020) |
| `PhoneValidator.MatchesPhonePattern` | src/main/java/com/udb/autores/directorioautores/view/SVPhoneValidator.java:43-46 | a value the pattern matches has nine characters, a hyphen at index 4 and ASCII digits everywhere else |
| `PhoneValidator.RegexAgreesWithPattern` | src/main/java/com/udb/autores/directorioautores/view/SVPhoneValidator.java:20-26 | the regular expression `[2367]\d{3}-\d{4}`, matched as a whole, accepts exactly the strings of length 9 with a leading digit in {2,3,6,7}, digits at 1-3 and 5-8 and a hyphen at 4 |
| `PhoneValidator.Validate` | src/main/java/com/udb/autores/directorioautores/view/SVPhoneValidator.java:29-57 | a rejection happens only for a non-null value and always carries the same ERROR-severity message with the fixed title and detail |
| `PhoneValidator.NullAccepted` | src/main/java/com/udb/autores/directorioautores/view/SVPhoneValidator.java:31-34 | a null value is accepted |
| `PhoneValidator.BlankAccepted` | src/main/java/com/udb/autores/directorioautores/view/SVPhoneValidator.java:39-41 | a value made only of characters trim() strips (including the empty string) is accepted without a format check |
| `PhoneValidator.AcceptedIff` | src/main/java/com/udb/autores/directorioautores/view/SVPhoneValidator.java:26-46 | a value is accepted if and only if it is blank or the regular expression matches all of it |
| `PhoneValidator.NonBlankAcceptedIff` | src/main/java/com/udb/autores/directorioautores/view/SVPhoneValidator.java:43-46 | a non-blank value is accepted if and only if it has length 9, first character in {2,3,6,7}, ASCII digits at 1-3 and 5-8 and '-' at 4 |
| `PhoneValidator.WrongLeadingDigitRejected` | src/main/java/com/udb/autores/directorioautores/view/SVPhoneValidator.java:21-26 | a value starting with a digit outside {2,3,6,7} is rejected with the fixed message |
| `PhoneValidator.MisplacedHyphenRejected` | src/main/java/com/udb/autores/directorioautores/view/SVPhoneValidator.java:22-26 | a value with a hyphen at any index other than 4 is rejected with the fixed message |
| `PhoneValidator.PaddedNumberRejected` | src/main/java/com/udb/autores/directorioautores/view/SVPhoneValidator.java:36-46 | a well-formed number with any leading or trailing whitespace is rejected, because the match runs on the untrimmed value |
| `PhoneValidator.ExampleAccepted` | src/main/java/com/udb/autores/directorioautores/view/SVPhoneValidator.java:13-15 | the documented example 7123-4567 is accepted |
| `PhoneValidator.ExampleWrongLeadingDigit` | src/main/java/com/udb/autores/directorioautores/view/SVPhoneValidator.java:21 | 1123-4567 is rejected |
| `PhoneValidator.ExampleMisplacedHyphen` | src/main/java/com/udb/autores/directorioautores/view/SVPhoneValidator.java:22-24 | 712-34567 is rejected |
| `PhoneValidator.ExamplePadded` | src/main/java/com/udb/autores/directorioautores/view/SVPhoneValidator.java:36-43 | " 7123-4567" is rejected although 7123-4567 is accepted |
| `Entities.BlankAuthor` | src/main/java/com/udb/autores/directorioautores/model/Author.java:44-45 | `new Author()` has id 0 and every other field null |
| `Store.WithGenre` | src/main/java/com/udb/autores/directorioautores/model/AuthorModel.java:133-134 | the genre query returns exactly the authors whose genre has that id, each as often as it is stored; authors without a genre never match |
| `Store.FirstNamedIndex` | src/main/java/com/udb/autores/directorioautores/model/AuthorModel.java:160-168 | the row the name query returns is the first one whose name equals the (non-null) name asked for |
| `Store.FirstNamed` | src/main/java/com/udb/autores/directorioautores/model/AuthorModel.java:157-168 | the lookup returns a stored author with that name, and null exactly when no stored author has it (a null name matches nothing) |
| `Store.FreshId` | src/main/java/com/udb/autores/directorioautores/model/Author.java:23-26 | a generated identity is positive and larger than every identity in use |
| `Store.RemoveId` | src/main/java/com/udb/autores/directorioautores/model/AuthorModel.java:106-109 | after the delete, the rows are exactly the old rows without that identity; an identity not in use leaves them unchanged |
| `Store.RemoveIdKeepsValid` | src/main/java/com/udb/autores/directorioautores/model/AuthorModel.java:106-109 | a delete keeps the identities positive and unique |
| `Store.RemovePresentId` | src/main/java/com/udb/autores/directorioautores/model/AuthorModel.java:106-109 | with a unique primary key, deleting an identity in use removes exactly one row |
| `Store.RemoveIdRemovesOne` | src/main/java/com/udb/autores/directorioautores/model/AuthorModel.java:106-109 | with a unique primary key, a delete removes exactly one row when the identity is found and none otherwise, and the key stays unique |
| `Store.ValidRowsTail` | src/main/java/com/udb/autores/directorioautores/model/Author.java:23-26 | in a table with a unique key, the first row's identity does not occur again |
| `Store.ValidRowsCons` | src/main/java/com/udb/autores/directorioautores/model/Author.java:23-26 | a row with a positive identity not in use can join a table without breaking its unique key |
| `Store.InsertedKeepsValid` | src/main/java/com/udb/autores/directorioautores/model/AuthorModel.java:52 | persisting under a fresh identity keeps the key positive and unique |
| `Store.ReplaceIdKeepsValid` | src/main/java/com/udb/autores/directorioautores/model/AuthorModel.java:78 | merging over an identity in use keeps the key unique and the merged author is then stored |
| `Store.ReplaceId` | src/main/java/com/udb/autores/directorioautores/model/AuthorModel.java:78 | a merge over the table keeps every row's identity in place; afterwards the rows are the old rows with a different identity, plus the merged author when its identity was in use |
| `Store.GenreWithId` | src/main/java/com/udb/autores/directorioautores/model/LiteraryGenreModel.java:54-58 | the lookup returns a stored genre with that identity, and null only when none has it |
| `Store.GenreWithIdUnique` | src/main/java/com/udb/autores/directorioautores/model/LiteraryGenreModel.java:54-58 | with a unique genre key, the lookup by a stored genre's identity returns exactly that genre |
| `Store.Database.GetAllAuthors` | src/main/java/com/udb/autores/directorioautores/model/AuthorModel.java:20-37 | the call is logged with the environment's next fate; when it runs the answer is the whole author table, a swallowed failure answers null, and an exception from obtaining the EntityManager escapes |
| `Store.Database.FindAuthorsByGenre` | src/main/java/com/udb/autores/directorioautores/model/AuthorModel.java:129-149 | the call is logged with the environment's next fate; when it runs the answer is exactly the stored authors of that genre (see `WithGenre`), otherwise null or the escaping exception |
| `Store.Database.FindAuthorByName` | src/main/java/com/udb/autores/directorioautores/model/AuthorModel.java:157-180 | the call is logged with the environment's next fate; when it runs the answer is the first stored author with exactly that name, or null when there is none; otherwise null or the escaping exception |
| `Store.Database.SaveAuthor` | src/main/java/com/udb/autores/directorioautores/model/AuthorModel.java:43-65 | the call is logged with the environment's next fate; a commit appends the author under a fresh positive identity, which the caller's object then carries; a rollback or an escaping exception leaves the table unchanged |
| `Store.Database.UpdateAuthor` | src/main/java/com/udb/autores/directorioautores/model/AuthorModel.java:71-91 | the call is logged with the environment's next fate; a commit replaces the row with the author's identity, or inserts a detached author under a fresh identity; a rollback or an escaping exception leaves the table unchanged |
| `Store.Database.DeleteAuthor` | src/main/java/com/udb/autores/directorioautores/model/AuthorModel.java:97-122 | the call is logged with the target's identity and its fate; a commit removes exactly the row with that identity (none if it is not in use), anything else leaves the table; the key stays unique |
| `Store.Database.GetAllGenres` | src/main/java/com/udb/autores/directorioautores/model/LiteraryGenreModel.java:19-46 | the call is logged with the environment's next fate; when it runs the answer is the whole genre table, otherwise null or the escaping exception |
| `Store.Database.FindGenreById` | src/main/java/com/udb/autores/directorioautores/model/LiteraryGenreModel.java:54-67 | the call is logged with the environment's next fate; when it runs the answer is the stored genre with that identity or null, otherwise null or the escaping exception |
| `Controller.AuthorBean.constructor` | src/main/java/com/udb/autores/directorioautores/controller/AuthorBean.java:49-50 | a new bean has nothing loaded, count 0, and its count already matches its (null) table |
| `Controller.AuthorBean.AddMessage` | src/main/java/com/udb/autores/directorioautores/controller/AuthorBean.java:201-204 | a message is appended to the page's log |
| `Controller.AuthorBean.CountAuthorsInTable` | src/main/java/com/udb/autores/directorioautores/controller/AuthorBean.java:171-177 | the count becomes the size of the table, or 0 when the table is null |
| `Controller.AuthorBean.LoadAuthors` | src/main/java/com/udb/autores/directorioautores/controller/AuthorBean.java:184-188 | each answer is the environment's next fate; exactly one call for all authors; if it did not throw the table is its answer (the full table or null) and the count matches it; an exception escapes with table and count untouched |
| `Controller.AuthorBean.LoadGenres` | src/main/java/com/udb/autores/directorioautores/controller/AuthorBean.java:193-195 | each answer is the environment's next fate; exactly one call for all genres; if it did not throw the dropdown options are its answer (the full genre table or null); an exception escapes and leaves them |
| `Controller.AuthorBean.Init` | src/main/java/com/udb/autores/directorioautores/controller/AuthorBean.java:58-67 | each answer is the environment's next fate; the form is blank; the genres are asked for first, and an exception there escapes with nothing else loaded or asked; otherwise the options are the genre answer and the authors are asked for, and an exception there escapes with the table and count untouched; on normal completion the table is the author answer and the count matches it |
| `Controller.AuthorBean.SaveOrUpdateAuthor` | src/main/java/com/udb/autores/directorioautores/controller/AuthorBean.java:75-107 | each answer is the environment's next fate; the calls made are, in order, the name lookup for the form's name, the genre lookup for the selected id, the write and the reload, stopping at the first that throws; an exception from either lookup escapes with the store and the page unchanged apart from the warning; the warning is added exactly when the form is new and the lookup found a stored author of that name, and the insert still happens; the form written is the old form with the selected genre attached; id 0 persists and any other id merges, and only a write that ran changes the table; success adds the success message, reloads the table and resets the form; an exception inside the try adds one error message and leaves the form and the table; the count keeps matching the table |
| `Controller.AuthorBean.CheckAndAttach` | src/main/java/com/udb/autores/directorioautores/controller/AuthorBean.java:76-86 | each answer is the environment's next fate; the part before the try block: the name lookup, then the genre lookup, stopping at the first that throws; the warning is added exactly when the lookup found an author and the form is new; on normal completion the form is the old form with the genre lookup's answer attached; an escaping exception leaves the form |
| `Controller.AuthorBean.Write` | src/main/java/com/udb/autores/directorioautores/controller/AuthorBean.java:89-98 | each answer is the environment's next fate; one call: persist for id 0, merge otherwise; only a write that ran changes the table, and a persist gives the form the new row's identity; without an exception the insert or update success message is added; an exception is handed back for the catch block |
| `Controller.AuthorBean.WriteForm` | src/main/java/com/udb/autores/directorioautores/controller/AuthorBean.java:88-106 | each answer is the environment's next fate; the calls made are the write (persist for id 0, merge otherwise) and, unless it threw, the reload; only a write that ran changes the table; without an exception the success message is added, the table reloaded and the form reset; with one, an error message quoting it follows at most the success message, and the form (keeping any identity persist gave it) and the table stay as they were |
| `Controller.AuthorBean.DeleteAuthor` | src/main/java/com/udb/autores/directorioautores/controller/AuthorBean.java:113-121 | each answer is the environment's next fate; the calls made are the delete of the target's identity and, unless it threw, the reload; a delete that ran removes exactly that row and anything else leaves the table; success reloads the table and adds the success message, any exception adds only the error message and leaves the table; the form is never touched; the count keeps matching the table |
| `Controller.AuthorBean.PrepareEdit` | src/main/java/com/udb/autores/directorioautores/controller/AuthorBean.java:128-138 | the form becomes the given author and the dropdown its genre's id, 0 when it has none |
| `Controller.AuthorBean.ResetForm` | src/main/java/com/udb/autores/directorioautores/controller/AuthorBean.java:144-147 | the form is blank and no genre is selected, whatever the prior state |
| `Controller.AuthorBean.FilterAuthorsByGenre` | src/main/java/com/udb/autores/directorioautores/controller/AuthorBean.java:155-165 | each answer is the environment's next fate; exactly one call: all authors for filter 0, the authors of that genre otherwise; if it did not throw the table is its answer (each element of the chosen genre) and the count matches it; an exception escapes before anything changes |
| `Controller.EditThenReset` | src/main/java/com/udb/autores/directorioautores/controller/AuthorBean.java:128-147 | editing any author and then resetting ends in the same form: blank, no genre selected |

## Left out

- JPAUtil (the lazily created EntityManagerFactory and its shutdown) is library lifecycle. Its one observable effect, that obtaining an EntityManager may throw before a service call's try block, is the `Throws` outcome of every `Database` method.
- Transactions and `printStackTrace` in AuthorModel and LiteraryGenreModel are not modelled. A swallowed failure is a null result or an unchanged table.
- Store.Database: an exception thrown by `tx.rollback()` inside a write's catch block (`AuthorModel.java:56-58, 82-84, 113-115`) or by `em.close()` in a `finally` block also escapes to the controller. The model's only escaping exception is the one from obtaining the EntityManager, before anything happened, so an exception that escapes after a commit is not modelled.
- Store.Database.SaveAuthor: on a rollback the caller's object keeps its old identity. With IDENTITY generation, an insert that ran before the rollback may already have written a new id into it; the model does not capture that.
- Store.Database.UpdateAuthor: merge of a detached author whose identity is not in use is modelled as an insert under a fresh identity. The exact behaviour depends on the persistence provider.
- Aliasing: `prepareEdit` makes the form the same Java object as a row of the table, so edits to the form show in that row until the next reload. Authors are values here, so the model does not show this.
- Identity generation order: which fresh identity the store picks is left to `FreshId`, and callers rely only on it being positive and unused.
- Controller.AuthorBean.constructor: before `init` the Java form field is null. The model holds a blank author there; the framework calls `init` before any action.
- A failure of `init` makes the framework discard the bean. The model returns `Abrupt` and states what was loaded and asked for up to that point; what the framework does next is not modelled.
- The log of service calls is ghost state. The controller never writes it directly: it changes only through the store's methods, each of which takes the environment's next fate.
- Getters and setters of Author, LiteraryGenre and AuthorBean are not modelled. `setAuthorList` and `setAuthorCount` can break the count invariant. That is why the invariant is stated as preserved by the action methods (`old(CountMatchesList()) ==> CountMatchesList()`) and re-established by every list load, not as a class invariant.
- JSF plumbing (FacesContext, UIComponent, annotations, view scope) is left out. Messages are a ghost log of (severity, summary, detail).
- `birthDate` is an opaque `Date`, because nothing computes with it. Java `int` identities are unbounded integers, because the application does no arithmetic on them.
- Concurrency between users is handled by the database and does not appear in the code.

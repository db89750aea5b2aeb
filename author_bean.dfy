/**
 * The page controller of the author directory (the view-scoped managed bean
 * AuthorBean): the form being edited, the table of authors with its count,
 * the genre dropdowns, and the actions the page's buttons call.
 */
module Controller {
  import opened Wrappers
  import opened Faces
  import opened Entities
  import opened Store

  /** How an action ended: normally, or with an exception escaping it. */
  datatype Completion = Normal | Abrupt(message: string)

  const DUPLICATE_WARNING: FacesMessage :=
    FacesMessage(Warn, "Advertencia", "Un autor con este nombre ya existe, pero se agregará.")
  const ADDED_INFO: FacesMessage := FacesMessage(Info, "Éxito", "Autor agregado correctamente.")
  const UPDATED_INFO: FacesMessage := FacesMessage(Info, "Éxito", "Autor actualizado correctamente.")
  const DELETED_INFO: FacesMessage := FacesMessage(Info, "Éxito", "Autor eliminado.")
  const DELETE_ERROR: FacesMessage := FacesMessage(Error, "Error", "No se pudo eliminar el autor.")

  /** The error message of a failed save, quoting the exception's message. */
  function SaveError(reason: string): FacesMessage {
    FacesMessage(Error, "Error", "No se pudo guardar el autor: " + reason)
  }

  /** The success message of a save: an insert for a new form, an update otherwise. */
  function WriteInfo(form: Author): FacesMessage {
    if form.id == 0 then ADDED_INFO else UPDATED_INFO
  }

  /** The warning a save emits: only for a new form whose name the lookup found. */
  function DuplicateWarning(found: Option<Author>, form: Author): seq<FacesMessage> {
    if found.Some? && form.id == 0 then [DUPLICATE_WARNING] else []
  }

  /** What the count display should show for a loaded list: its size, 0 for null. */
  function CountOf(list: Option<seq<Author>>): nat {
    if list.None? then 0 else |list.value|
  }

  /** The form with the genre the dropdown's lookup answered attached (null if the lookup failed). */
  function Attach(form: Author, genres: seq<LiteraryGenre>, genreId: int, fate: Fate): Author {
    form.(genre := Found(fate, GenreWithId(genres, genreId)))
  }

  /** The write the try block of a save asks for: persist a new form (id 0), merge any other. */
  function WriteRequest(form: Author): Request {
    if form.id == 0 then Persist(form) else Merge(form)
  }

  class AuthorBean {
    /** The store that authorModel and genreModel both reach. */
    const db: Database

    /** The form: the author being added or edited. */
    var author: Author
    /** The genre chosen in the form's dropdown. */
    var selectedGenreId: int
    /** The table; null when the last load failed. */
    var authorList: Option<seq<Author>>
    /** The options of both genre dropdowns; null when loading them failed. */
    var genreList: Option<seq<LiteraryGenre>>
    /** The genre chosen in the filter dropdown, 0 for "all". */
    var filterGenreId: int
    /** The number shown by the count button. */
    var authorCount: int
    /** The messages added to the FacesContext, oldest first. */
    ghost var messages: seq<FacesMessage>

    /** The count shows the size of the table (0 when there is none). */
    ghost predicate CountMatchesList()
      reads this
    {
      authorCount == CountOf(authorList)
    }

    /** `new AuthorBean()`: nothing loaded yet. */
    constructor (db: Database)
      ensures this.db == db
      ensures author == BlankAuthor() && selectedGenreId == 0 && filterGenreId == 0
      ensures authorList.None? && genreList.None? && authorCount == 0
      ensures messages == []
      ensures CountMatchesList()
    {
      this.db := db;
      author := BlankAuthor();
      selectedGenreId := 0;
      authorList := None;
      genreList := None;
      filterGenreId := 0;
      authorCount := 0;
      messages := [];
    }

    /** addMessage(severity, summary, detail) */
    ghost method AddMessage(m: FacesMessage)
      modifies this`messages
      ensures messages == old(messages) + [m]
    {
      messages := messages + [m];
    }

    /** countAuthorsInTable: the count becomes the size of the table, 0 when it is null. */
    method CountAuthorsInTable()
      modifies this`authorCount
      ensures CountMatchesList()
      ensures authorList.None? ==> authorCount == 0
      ensures authorList.Some? ==> authorCount == |authorList.value|
    {
      if authorList.Some? {
        authorCount := |authorList.value|;
      } else {
        authorCount := 0;
      }
    }

    /**
     * loadAuthors: the table becomes the full author list (null if the query
     * failed) and the count follows it; an exception leaves both as they were.
     */
    method LoadAuthors() returns (c: Completion, ghost fate: Fate)
      requires db.Valid()
      modifies this`authorList, this`authorCount, db`log, db`calls
      ensures db.Valid()
      ensures fate == db.env(|old(db.log)|)
      ensures db.log == old(db.log) + [Event(AllAuthors, fate)]
      ensures c == if fate.Throws? then Abrupt(fate.message) else Normal
      ensures c.Normal? ==> authorList == Found(fate, Some(db.authors)) && CountMatchesList()
      ensures c.Abrupt? ==> authorList == old(authorList) && authorCount == old(authorCount)
    {
      var r;
      r, fate := db.GetAllAuthors();
      if r.Raised? {
        return Abrupt(r.message), fate;
      }
      authorList := r.value;
      CountAuthorsInTable();
      c := Normal;
    }

    /** loadGenres: the dropdown options become the full genre list (null if the query failed). */
    method LoadGenres() returns (c: Completion, ghost fate: Fate)
      requires db.Valid()
      modifies this`genreList, db`log, db`calls
      ensures db.Valid()
      ensures fate == db.env(|old(db.log)|)
      ensures db.log == old(db.log) + [Event(AllGenres, fate)]
      ensures c == if fate.Throws? then Abrupt(fate.message) else Normal
      ensures c.Normal? ==> genreList == Found(fate, Some(db.genres))
      ensures c.Abrupt? ==> genreList == old(genreList)
    {
      var r;
      r, fate := db.GetAllGenres();
      if r.Raised? {
        return Abrupt(r.message), fate;
      }
      genreList := r.value;
      c := Normal;
    }

    /**
     * init: a blank form, then the genres and the authors loaded from the
     * store. An exception from either load escapes; one from loadGenres
     * stops init before the authors are asked for. `fates` are the store's
     * answers, in call order.
     */
    method Init() returns (c: Completion, ghost fates: seq<Fate>)
      requires db.Valid()
      modifies this`author, this`genreList, this`authorList, this`authorCount, db`log, db`calls
      ensures db.Valid()
      ensures author == BlankAuthor()
      ensures 1 <= |fates| <= 2 && (|fates| == 1 <==> fates[0].Throws?)
      ensures fates[0] == db.env(|old(db.log)|)
      ensures |fates| > 1 ==> fates[1] == db.env(|old(db.log)| + 1)
      // loadGenres threw: nothing else was loaded
      ensures |fates| == 1 ==>
        && db.log == old(db.log) + [Event(AllGenres, fates[0])]
        && c == Abrupt(fates[0].message)
        && genreList == old(genreList) && authorList == old(authorList) && authorCount == old(authorCount)
      // the genres were loaded, then the authors were asked for
      ensures |fates| == 2 ==>
        && db.log == old(db.log) + [Event(AllGenres, fates[0]), Event(AllAuthors, fates[1])]
        && genreList == Found(fates[0], Some(db.genres))
      ensures |fates| == 2 && fates[1].Throws? ==>
        c == Abrupt(fates[1].message) && authorList == old(authorList) && authorCount == old(authorCount)
      ensures |fates| == 2 && !fates[1].Throws? ==>
        c == Normal && authorList == Found(fates[1], Some(db.authors)) && CountMatchesList()
    {
      author := BlankAuthor();
      ghost var f0, f1;
      c, f0 := LoadGenres();
      if c.Abrupt? {
        return c, [f0];
      }
      c, f1 := LoadAuthors();
      fates := [f0, f1];
    }

    /**
     * saveOrUpdateAuthor. Before the try block: the duplicate-name lookup
     * (a warning for a new author whose name is taken, which does not stop
     * the insert) and the selected genre attached to the form; an exception
     * there escapes. Inside the try block (WriteForm): persist a new form
     * (id 0) or merge an existing one, then reload the table and reset the
     * form. `fates` are the store's answers, in call order: the name lookup,
     * the genre lookup, the write and the reload, as far as the action got.
     */
    method SaveOrUpdateAuthor() returns (c: Completion, ghost fates: seq<Fate>)
      requires db.Valid()
      modifies db, this`author, this`selectedGenreId, this`authorList, this`authorCount, this`messages
      ensures db.Valid() && db.genres == old(db.genres)
      ensures old(CountMatchesList()) ==> CountMatchesList()
      ensures 1 <= |fates| <= 4
      ensures fates[0] == db.env(|old(db.log)|)
      ensures |fates| > 1 ==> fates[1] == db.env(|old(db.log)| + 1)
      ensures |fates| > 2 ==> fates[2] == db.env(|old(db.log)| + 2)
      ensures |fates| > 3 ==> fates[3] == db.env(|old(db.log)| + 3)
      ensures c.Abrupt? <==> |fates| <= 2
      // an exception before the try block escapes and changes neither the store nor the page
      ensures c.Abrupt? ==>
        && db.authors == old(db.authors)
        && author == old(author) && selectedGenreId == old(selectedGenreId)
        && authorList == old(authorList) && authorCount == old(authorCount)
      // the name lookup threw
      ensures |fates| == 1 ==>
        && fates[0].Throws? && c == Abrupt(fates[0].message)
        && db.log == old(db.log) + [Event(AuthorNamed(old(author).name), fates[0])]
        && messages == old(messages)
      // the genre lookup threw, after the warning was decided by the name lookup's answer
      ensures |fates| == 2 ==>
        && !fates[0].Throws? && fates[1].Throws? && c == Abrupt(fates[1].message)
        && db.log == old(db.log) + [Event(AuthorNamed(old(author).name), fates[0]),
                                    Event(GenreById(old(selectedGenreId)), fates[1])]
        && messages == old(messages)
             + DuplicateWarning(Found(fates[0], FirstNamed(old(db.authors), old(author).name)), old(author))
      // the try block, on the form with its genre attached, after the lookups and the warning
      ensures |fates| >= 3 ==>
        && !fates[0].Throws? && !fates[1].Throws?
        && WroteForm(Attach(old(author), db.genres, old(selectedGenreId), fates[1]),
             old(db.authors),
             old(db.log) + [Event(AuthorNamed(old(author).name), fates[0]),
                            Event(GenreById(old(selectedGenreId)), fates[1])],
             old(messages)
               + DuplicateWarning(Found(fates[0], FirstNamed(old(db.authors), old(author).name)), old(author)),
             old(selectedGenreId), old(authorList), old(authorCount),
             fates[2..])
    {
      ghost var checked;
      c, checked := CheckAndAttach();
      if c.Abrupt? {
        return c, checked;
      }
      assert author == Attach(old(author), db.genres, old(selectedGenreId), checked[1]);
      assert db.authors == old(db.authors);
      assert db.log == old(db.log) + [Event(AuthorNamed(old(author).name), checked[0]),
                                      Event(GenreById(old(selectedGenreId)), checked[1])];
      assert messages == old(messages)
        + DuplicateWarning(Found(checked[0], FirstNamed(old(db.authors), old(author).name)), old(author));
      ghost var tried := WriteForm();
      fates := checked + tried;
      assert fates[2..] == tried;
    }

    /**
     * The part of saveOrUpdateAuthor before its try block: the duplicate-name
     * lookup, whose answer decides the warning (only for a new form, and it
     * does not stop the insert), then the selected genre attached to the
     * form. An exception from either lookup escapes. `fates` are the store's
     * answers to the two lookups, as far as they got.
     */
    method CheckAndAttach() returns (c: Completion, ghost fates: seq<Fate>)
      requires db.Valid()
      modifies this`author, this`messages, db`log, db`calls
      ensures db.Valid()
      ensures 1 <= |fates| <= 2
      ensures fates[0] == db.env(|old(db.log)|)
      ensures |fates| > 1 ==> fates[1] == db.env(|old(db.log)| + 1)
      ensures |fates| == 1 ==>
        && fates[0].Throws? && c == Abrupt(fates[0].message)
        && db.log == old(db.log) + [Event(AuthorNamed(old(author).name), fates[0])]
        && messages == old(messages) && author == old(author)
      ensures |fates| == 2 ==>
        && !fates[0].Throws?
        && db.log == old(db.log) + [Event(AuthorNamed(old(author).name), fates[0]),
                                    Event(GenreById(selectedGenreId), fates[1])]
        && messages == old(messages)
             + DuplicateWarning(Found(fates[0], FirstNamed(db.authors, old(author).name)), old(author))
      ensures |fates| == 2 && fates[1].Throws? ==> c == Abrupt(fates[1].message) && author == old(author)
      ensures |fates| == 2 && !fates[1].Throws? ==>
        c == Normal && author == Attach(old(author), db.genres, selectedGenreId, fates[1])
    {
      var existing;
      ghost var f0;
      existing, f0 := db.FindAuthorByName(author.name);
      if existing.Raised? {
        return Abrupt(existing.message), [f0];
      }
      if existing.value.Some? && author.id == 0 {
        AddMessage(DUPLICATE_WARNING);
      }
      var selected;
      ghost var f1;
      selected, f1 := db.FindGenreById(selectedGenreId);
      fates := [f0, f1];
      if selected.Raised? {
        return Abrupt(selected.message), fates;
      }
      author := author.(genre := selected.value);
      c := Normal;
    }

    /**
     * What the try block of saveOrUpdateAuthor did to the store and the page,
     * given the form it wrote and what the table, the log, the messages, the
     * genre selection, the list and the count were when it started. `fates`
     * are the store's answers to the write and, unless it threw, the reload.
     *  - The write is a persist for id 0 and a merge otherwise, and only a
     *    write that ran changes the table.
     *  - The write threw: one error message; the form, with its genre
     *    attached, and the table stay.
     *  - The reload threw: the success message and then the error message;
     *    the form stays, carrying the identity a persist gave it.
     *  - Both went through: the success message, the reloaded table with its
     *    count, and a reset form.
     */
    ghost predicate WroteForm(form: Author, authors0: seq<Author>, log0: seq<Event>,
                              messages0: seq<FacesMessage>, genreId0: int,
                              list0: Option<seq<Author>>, count0: int, fates: seq<Fate>)
      reads this, db
    {
      && 1 <= |fates| <= 2 && (|fates| == 1 <==> fates[0].Throws?)
      && db.log == log0 + [Event(WriteRequest(form), fates[0])]
                   + (if |fates| == 2 then [Event(AllAuthors, fates[1])] else [])
      && (fates[0].Proceeds? && form.id == 0 ==> Inserted(authors0, db.authors, form))
      && (fates[0].Proceeds? && form.id != 0 ==> Merged(authors0, db.authors, form))
      && (!fates[0].Proceeds? ==> db.authors == authors0)
      && (|fates| == 1 ==>
            && messages == messages0 + [SaveError(fates[0].message)]
            && author == form && selectedGenreId == genreId0
            && authorList == list0 && authorCount == count0)
      && (|fates| == 2 && fates[1].Throws? ==>
            && messages == messages0 + [WriteInfo(form), SaveError(fates[1].message)]
            && author == (if fates[0].Proceeds? && form.id == 0 then db.authors[|authors0|] else form)
            && selectedGenreId == genreId0
            && authorList == list0 && authorCount == count0)
      && (|fates| == 2 && !fates[1].Throws? ==>
            && messages == messages0 + [WriteInfo(form)]
            && author == BlankAuthor() && selectedGenreId == 0
            && authorList == Found(fates[1], Some(db.authors)) && authorCount == CountOf(authorList))
    }

    /**
     * The try/catch block of saveOrUpdateAuthor, on the form with its genre
     * attached: persist (id 0) or merge, then reload the table and reset the
     * form. An exception from the write or the reload is caught and becomes
     * one error message; the form and the table are then left as they are.
     * `fates` are the store's answers to the write and, unless it threw, to
     * the reload.
     */
    method WriteForm() returns (ghost fates: seq<Fate>)
      requires db.Valid()
      modifies db, this`author, this`selectedGenreId, this`authorList, this`authorCount, this`messages
      ensures db.Valid() && db.genres == old(db.genres)
      ensures old(CountMatchesList()) ==> CountMatchesList()
      ensures 1 <= |fates| <= 2 && (|fates| == 1 <==> fates[0].Throws?)
      ensures fates[0] == db.env(|old(db.log)|)
      ensures |fates| > 1 ==> fates[1] == db.env(|old(db.log)| + 1)
      ensures WroteForm(old(author), old(db.authors), old(db.log), old(messages),
                        old(selectedGenreId), old(authorList), old(authorCount), fates)
    {
      // try
      var thrown;
      ghost var written;
      thrown, written := Write();
      if thrown.Some? {
        // catch
        AddMessage(SaveError(thrown.value));
        return [written];
      }
      var reload;
      ghost var reloaded;
      reload, reloaded := LoadAuthors();
      fates := [written, reloaded];
      if reload.Abrupt? {
        // catch
        AddMessage(SaveError(reload.message));
      } else {
        ResetForm();
      }
    }

    /**
     * The first step of saveOrUpdateAuthor's try block: persist a new form
     * (id 0), which also gives it the generated identity, or merge an
     * existing one, and add the matching success message. `thrown` is the
     * message of an exception that escaped the write, `fate` the store's
     * answer.
     */
    method Write() returns (thrown: Option<string>, ghost fate: Fate)
      requires db.Valid()
      modifies db, this`author, this`messages
      ensures db.Valid() && db.genres == old(db.genres)
      ensures db.log == old(db.log) + [Event(WriteRequest(old(author)), fate)]
      ensures fate == db.env(|old(db.log)|)
      ensures thrown == if fate.Throws? then Some(fate.message) else None
      ensures fate.Proceeds? && old(author).id == 0 ==> Inserted(old(db.authors), db.authors, old(author))
      ensures fate.Proceeds? && old(author).id != 0 ==> Merged(old(db.authors), db.authors, old(author))
      ensures !fate.Proceeds? ==> db.authors == old(db.authors)
      ensures fate.Throws? ==> messages == old(messages)
      ensures !fate.Throws? ==> messages == old(messages) + [WriteInfo(old(author))]
      ensures author == if fate.Proceeds? && old(author).id == 0 then db.authors[|old(db.authors)|] else old(author)
    {
      thrown := None;
      if author.id == 0 {
        var saved;
        saved, fate := db.SaveAuthor(author);
        if saved.Raised? {
          thrown := Some(saved.message);
        } else {
          author := saved.value;
          AddMessage(ADDED_INFO);
        }
      } else {
        var updated;
        updated, fate := db.UpdateAuthor(author);
        if updated.Raised? {
          thrown := Some(updated.message);
        } else {
          AddMessage(UPDATED_INFO);
        }
      }
    }

    /**
     * deleteAuthor: asks the store to delete the row with the target's
     * identity, then reloads the table. Every exception is caught and turned
     * into the error message; the form is never touched. `fates` are the
     * store's answers to the delete and, unless it threw, to the reload.
     */
    method DeleteAuthor(target: Author) returns (ghost fates: seq<Fate>)
      requires db.Valid()
      modifies db, this`authorList, this`authorCount, this`messages
      ensures db.Valid() && db.genres == old(db.genres)
      ensures author == old(author) && selectedGenreId == old(selectedGenreId)
      ensures old(CountMatchesList()) ==> CountMatchesList()
      ensures 1 <= |fates| <= 2 && (|fates| == 1 <==> fates[0].Throws?)
      ensures fates[0] == db.env(|old(db.log)|)
      ensures |fates| > 1 ==> fates[1] == db.env(|old(db.log)| + 1)
      ensures db.log == old(db.log) + [Event(Delete(target.id), fates[0])]
                        + (if |fates| == 2 then [Event(AllAuthors, fates[1])] else [])
      // only a delete that ran changes the table
      ensures db.authors == if fates[0].Proceeds? then RemoveId(old(db.authors), target.id) else old(db.authors)
      // success: the table is reloaded and the success message shown
      ensures |fates| == 2 && !fates[1].Throws? ==>
        && messages == old(messages) + [DELETED_INFO]
        && authorList == Found(fates[1], Some(db.authors)) && CountMatchesList()
      // an exception from the delete or the reload: the error message, the table as it was
      ensures fates[|fates| - 1].Throws? ==>
        && messages == old(messages) + [DELETE_ERROR]
        && authorList == old(authorList) && authorCount == old(authorCount)
    {
      // try
      var deleted;
      ghost var f0;
      deleted, f0 := db.DeleteAuthor(target);
      if deleted.Raised? {
        AddMessage(DELETE_ERROR);
        return [f0];
      }
      var reload;
      ghost var f1;
      reload, f1 := LoadAuthors();
      if reload.Abrupt? {
        AddMessage(DELETE_ERROR);
      } else {
        AddMessage(DELETED_INFO);
      }
      fates := [f0, f1];
    }

    /** prepareEdit: the form becomes the chosen row, the dropdown its genre (0 without one). */
    method PrepareEdit(authorToEdit: Author)
      modifies this`author, this`selectedGenreId
      ensures author == authorToEdit
      ensures authorToEdit.genre.Some? ==> selectedGenreId == authorToEdit.genre.value.id
      ensures authorToEdit.genre.None? ==> selectedGenreId == 0
    {
      author := authorToEdit;
      selectedGenreId := GenreIdOf(authorToEdit);
    }

    /** resetForm: a blank form and no genre selected, whatever came before. */
    method ResetForm()
      modifies this`author, this`selectedGenreId
      ensures author == BlankAuthor() && selectedGenreId == 0
    {
      author := BlankAuthor();
      selectedGenreId := 0;
    }

    /**
     * filterAuthorsByGenre: "all" (0) reloads the full list, any other id
     * loads the authors of that genre; then the count is recomputed. An
     * exception from either query escapes before the count.
     */
    method FilterAuthorsByGenre() returns (c: Completion, ghost fate: Fate)
      requires db.Valid()
      modifies this`authorList, this`authorCount, db`log, db`calls
      ensures db.Valid()
      ensures fate == db.env(|old(db.log)|)
      ensures db.log == old(db.log) +
        [Event(if filterGenreId == 0 then AllAuthors else AuthorsOfGenre(filterGenreId), fate)]
      ensures c == if fate.Throws? then Abrupt(fate.message) else Normal
      ensures c.Normal? ==> CountMatchesList()
      ensures c.Normal? && filterGenreId == 0 ==> authorList == Found(fate, Some(db.authors))
      ensures c.Normal? && filterGenreId != 0 ==> authorList == Found(fate, Some(WithGenre(db.authors, filterGenreId)))
      ensures c.Normal? && filterGenreId != 0 && authorList.Some? ==>
        forall a :: a in authorList.value ==> a.genre.Some? && a.genre.value.id == filterGenreId
      ensures c.Abrupt? ==> authorList == old(authorList) && authorCount == old(authorCount)
    {
      if filterGenreId == 0 {
        c, fate := LoadAuthors();
        if c.Abrupt? {
          return;
        }
      } else {
        var r;
        r, fate := db.FindAuthorsByGenre(filterGenreId);
        if r.Raised? {
          return Abrupt(r.message), fate;
        }
        authorList := r.value;
        c := Normal;
      }
      CountAuthorsInTable();
    }
  }

  /**
   * A user who opens a row for editing and then cancels ends with the same
   * form whatever row it was: blank, with no genre selected.
   */
  method EditThenReset(bean: AuthorBean, a: Author)
    modifies bean`author, bean`selectedGenreId
    ensures bean.author == BlankAuthor() && bean.selectedGenreId == 0
  {
    bean.PrepareEdit(a);
    bean.ResetForm();
  }
}

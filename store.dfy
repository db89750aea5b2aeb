/**
 * The relational store behind AuthorModel and LiteraryGenreModel, kept
 * abstract: a sequence of author rows and a sequence of genre rows. The
 * JPQL queries become functions on those sequences, and every service call
 * becomes a method whose outcome the environment decides (it may succeed,
 * fail inside its try block and be swallowed, or throw before it).
 */
module Store {
  import opened Wrappers
  import opened Entities

  // ---------------------------------------------------------------------
  // Query semantics
  // ---------------------------------------------------------------------

  /**
   * `a.literaryGenre.id = :genreId`. The path navigation is an inner join,
   * so an author without a genre never matches.
   */
  predicate HasGenre(a: Author, genreId: int) {
    a.genre.Some? && a.genre.value.id == genreId
  }

  /** "SELECT a FROM Author a WHERE a.literaryGenre.id = :genreId" */
  function WithGenre(rows: seq<Author>, genreId: int): (r: seq<Author>)
    ensures forall a :: a in r <==> a in rows && HasGenre(a, genreId)
    ensures forall a :: multiset(r)[a] == if HasGenre(a, genreId) then multiset(rows)[a] else 0
  {
    if rows == [] then []
    else
      assert rows == [rows[0]] + rows[1..];
      if HasGenre(rows[0], genreId) then [rows[0]] + WithGenre(rows[1..], genreId)
      else WithGenre(rows[1..], genreId)
  }

  /** `a.name = :name`: SQL equality, which a null on either side never satisfies. */
  predicate NameMatches(a: Author, name: Option<string>) {
    name.Some? && a.name == name
  }

  /** Position of the first row the name query returns, |rows| when there is none. */
  function FirstNamedIndex(rows: seq<Author>, name: Option<string>): (k: nat)
    ensures k <= |rows|
    ensures k < |rows| ==> NameMatches(rows[k], name)
    ensures forall j :: 0 <= j < k ==> !NameMatches(rows[j], name)
  {
    if rows == [] || NameMatches(rows[0], name) then 0
    else 1 + FirstNamedIndex(rows[1..], name)
  }

  /** `results.isEmpty() ? null : results.get(0)` of "... WHERE a.name = :name". */
  function FirstNamed(rows: seq<Author>, name: Option<string>): (r: Option<Author>)
    ensures r.Some? ==> r.value in rows && NameMatches(r.value, name)
    ensures r.None? <==> forall a :: a in rows ==> !NameMatches(a, name)
  {
    var k := FirstNamedIndex(rows, name);
    if k < |rows| then Some(rows[k]) else None
  }

  /** The identities in use. */
  function IdsOf(rows: seq<Author>): set<int> {
    set a | a in rows :: a.id
  }

  /** Generated identities are positive and the primary key is unique. */
  ghost predicate ValidRows(rows: seq<Author>) {
    && (forall i :: 0 <= i < |rows| ==> rows[i].id > 0)
    && (forall i, j :: 0 <= i < j < |rows| ==> rows[i].id != rows[j].id)
  }

  /** The genre table's primary key is unique. */
  ghost predicate ValidGenres(genres: seq<LiteraryGenre>) {
    forall i, j :: 0 <= i < j < |genres| ==> genres[i].id != genres[j].id
  }

  /** An identity the store can generate: above every identity in use. */
  function FreshId(rows: seq<Author>): (id: int)
    ensures id > 0
    ensures forall a :: a in rows ==> a.id < id
  {
    if rows == [] then 1
    else
      var rest := FreshId(rows[1..]);
      if rows[0].id < rest then rest else rows[0].id + 1
  }

  /** `em.find(Author.class, id)` followed, when found, by `em.remove`. */
  function RemoveId(rows: seq<Author>, id: int): (r: seq<Author>)
    ensures forall a :: a in r <==> a in rows && a.id != id
    ensures id !in IdsOf(rows) ==> r == rows
  {
    if rows == [] then []
    else if rows[0].id == id then RemoveId(rows[1..], id)
    else [rows[0]] + RemoveId(rows[1..], id)
  }

  /** `em.merge(a)` over a managed row: the row with `a`'s identity becomes `a`. */
  function ReplaceId(rows: seq<Author>, a: Author): (r: seq<Author>)
    ensures |r| == |rows|
    ensures forall i :: 0 <= i < |rows| ==> r[i].id == rows[i].id
    ensures forall b :: b in r <==> (b in rows && b.id != a.id) || (b == a && a.id in IdsOf(rows))
  {
    seq(|rows|, i requires 0 <= i < |rows| => if rows[i].id == a.id then a else rows[i])
  }

  /** `after` is `before` with one more row at the end: `a` under a fresh identity. */
  ghost predicate Inserted(before: seq<Author>, after: seq<Author>, a: Author) {
    && |after| == |before| + 1
    && after[..|before|] == before
    && after[|before|] == a.(id := after[|before|].id)
    && after[|before|].id > 0
    && after[|before|].id !in IdsOf(before)
  }

  /**
   * `em.merge(a)`: an update when `a`'s identity is in use, otherwise the
   * detached object is inserted under a generated identity.
   */
  ghost predicate Merged(before: seq<Author>, after: seq<Author>, a: Author) {
    if a.id in IdsOf(before) then after == ReplaceId(before, a)
    else Inserted(before, after, a)
  }

  /** `em.find(LiteraryGenre.class, id)`: the genre with that identity, or null. */
  function GenreWithId(genres: seq<LiteraryGenre>, id: int): (r: Option<LiteraryGenre>)
    ensures r.Some? ==> r.value in genres && r.value.id == id
    ensures r.None? ==> forall g :: g in genres ==> g.id != id
  {
    if genres == [] then None
    else if genres[0].id == id then Some(genres[0])
    else GenreWithId(genres[1..], id)
  }

  // ---------------------------------------------------------------------
  // Properties of the query semantics
  // ---------------------------------------------------------------------

  /** With a unique genre key, `em.find` returns the one genre carrying the identity. */
  lemma {:induction false} GenreWithIdUnique(genres: seq<LiteraryGenre>, g: LiteraryGenre)
    requires ValidGenres(genres) && g in genres
    ensures GenreWithId(genres, g.id) == Some(g)
  {
    if genres[0] != g {
      assert genres[0].id != g.id by {
        var j :| 0 <= j < |genres| && genres[j] == g;
      }
      assert ValidGenres(genres[1..]) && g in genres[1..];
      GenreWithIdUnique(genres[1..], g);
    }
  }

  /** The rows after the first are valid and do not reuse the first row's identity. */
  lemma ValidRowsTail(rows: seq<Author>)
    requires ValidRows(rows) && rows != []
    ensures ValidRows(rows[1..])
    ensures rows[0].id !in IdsOf(rows[1..])
  {
  }


  /** A row with a positive identity not yet in use can head a valid sequence. */
  lemma ValidRowsCons(x: Author, rest: seq<Author>)
    requires ValidRows(rest) && x.id > 0 && x.id !in IdsOf(rest)
    ensures ValidRows([x] + rest)
  {
  }


  /** Deleting an identity keeps the identities positive and unique. */
  lemma {:induction false} RemoveIdKeepsValid(rows: seq<Author>, id: int)
    requires ValidRows(rows)
    ensures ValidRows(RemoveId(rows, id))
  {
    if rows != [] {
      var rest := rows[1..];
      ValidRowsTail(rows);
      RemoveIdKeepsValid(rest, id);
      if rows[0].id != id {
        var tail := RemoveId(rest, id);
        forall a | a in tail ensures a.id != rows[0].id {
          assert a in rest;
        }
        ValidRowsCons(rows[0], tail);
      }
    }
  }

  /** Deleting an identity in use removes one row. */
  lemma {:induction false} RemovePresentId(rows: seq<Author>, id: int)
    requires ValidRows(rows) && id in IdsOf(rows)
    ensures |RemoveId(rows, id)| == |rows| - 1
  {
    var rest := rows[1..];
    ValidRowsTail(rows);
    if rows[0].id != id {
      assert id in IdsOf(rest) by {
        var a :| a in rows && a.id == id;
        assert rows == [rows[0]] + rest;
        assert a in rest;
      }
      RemovePresentId(rest, id);
    }
  }

  /** Deleting an identity removes exactly the one row that carries it, if any. */
  lemma RemoveIdRemovesOne(rows: seq<Author>, id: int)
    requires ValidRows(rows)
    ensures ValidRows(RemoveId(rows, id))
    ensures |RemoveId(rows, id)| == if id in IdsOf(rows) then |rows| - 1 else |rows|
  {
    RemoveIdKeepsValid(rows, id);
    if id in IdsOf(rows) {
      RemovePresentId(rows, id);
    }
  }

  /** Inserting under a fresh identity keeps the identities positive and unique. */
  lemma InsertedKeepsValid(before: seq<Author>, after: seq<Author>, a: Author)
    requires ValidRows(before) && Inserted(before, after, a)
    ensures ValidRows(after)
  {
  }


  /** Merging over an identity in use keeps the identities positive and unique. */
  lemma ReplaceIdKeepsValid(rows: seq<Author>, a: Author)
    requires ValidRows(rows) && a.id in IdsOf(rows)
    ensures ValidRows(ReplaceId(rows, a))
    ensures a in ReplaceId(rows, a)
  {
    var r := ReplaceId(rows, a);
    forall i | 0 <= i < |r| ensures r[i].id == rows[i].id { }
    var b :| b in rows && b.id == a.id;
    var k :| 0 <= k < |rows| && rows[k] == b;
    assert r[k] == a;
  }

  // ---------------------------------------------------------------------
  // The store and its service calls
  // ---------------------------------------------------------------------

  /**
   * What the environment does to one service call: it proceeds, it fails
   * inside the call's try block (the exception is printed and swallowed:
   * a read yields null, a write is rolled back), or acquiring the
   * EntityManager, which happens before the try block, throws.
   */
  datatype Fate = Proceeds | Swallowed | Throws(message: string)

  /** A service call's result, or the exception that escaped it. */
  datatype Call<T> = Returned(value: T) | Raised(message: string)

  /** What a caller asked of the store, one constructor per service call. */
  datatype Request =
    | AllAuthors
    | AuthorsOfGenre(genreId: int)
    | AuthorNamed(name: Option<string>)
    | Persist(author: Author)
    | Merge(author: Author)
    | Delete(id: int)
    | AllGenres
    | GenreById(id: int)

  /** One service call as the store saw it: what was asked and how it ended. */
  datatype Event = Event(request: Request, fate: Fate)

  /** A read that did not throw: the query's answer if it ran, null if its failure was swallowed. */
  function Found<T>(fate: Fate, answer: Option<T>): Option<T> {
    if fate.Proceeds? then answer else None
  }

  /** A read's result: the exception that escaped it, or what `Found` says. */
  function Answer<T>(fate: Fate, answer: Option<T>): Call<Option<T>> {
    if fate.Throws? then Raised(fate.message) else Returned(Found(fate, answer))
  }

  /** The n-th call of `log` met the n-th fate of `env`, for every n. */
  ghost predicate Followed(log: seq<Event>, env: nat -> Fate)
    decreases |log|
  {
    log == [] || (Followed(log[..|log| - 1], env) && log[|log| - 1].fate == env(|log| - 1))
  }

  class Database {
    var authors: seq<Author>
    var genres: seq<LiteraryGenre>
    /** The environment: the fate of the n-th service call, fixed in advance. */
    const env: nat -> Fate
    /** How many service calls have been made. */
    var calls: nat
    /** Every service call made so far, oldest first. */
    ghost var log: seq<Event>

    /** Both primary keys are unique, and the n-th logged call met the n-th fate. */
    ghost predicate Valid()
      reads this
    {
      && ValidRows(authors)
      && ValidGenres(genres)
      && calls == |log|
      && Followed(log, env)
    }

    constructor (authors: seq<Author>, genres: seq<LiteraryGenre>, env: nat -> Fate)
      requires ValidRows(authors) && ValidGenres(genres)
      ensures Valid() && this.authors == authors && this.genres == genres && this.env == env
      ensures log == [] && calls == 0
    {
      this.authors := authors;
      this.genres := genres;
      this.env := env;
      calls := 0;
      log := [];
    }

    /** Takes the fate the environment holds for the next call and logs the call with it. */
    method Record(request: Request) returns (f: Fate)
      requires Valid()
      modifies this`log, this`calls
      ensures Valid()
      ensures f == env(|old(log)|) && log == old(log) + [Event(request, f)]
    {
      f := env(calls);
      ghost var before := log;
      log := log + [Event(request, f)];
      assert log[..|log| - 1] == before;
      calls := calls + 1;
    }

    /** AuthorModel.getAllAuthors: "SELECT a FROM Author a", or null on failure. */
    method GetAllAuthors() returns (r: Call<Option<seq<Author>>>, ghost fate: Fate)
      requires Valid()
      modifies this`log, this`calls
      ensures Valid()
      ensures log == old(log) + [Event(AllAuthors, fate)]
      ensures fate == env(|old(log)|)
      ensures r == Answer(fate, Some(authors))
    {
      var f := Record(AllAuthors);
      fate := f;
      match f
      case Proceeds => r := Returned(Some(authors));
      case Swallowed => r := Returned(None);
      case Throws(m) => r := Raised(m);
    }

    /** AuthorModel.findAuthorsByGenre: the genre query, or null on failure. */
    method FindAuthorsByGenre(genreId: int) returns (r: Call<Option<seq<Author>>>, ghost fate: Fate)
      requires Valid()
      modifies this`log, this`calls
      ensures Valid()
      ensures log == old(log) + [Event(AuthorsOfGenre(genreId), fate)]
      ensures fate == env(|old(log)|)
      ensures r == Answer(fate, Some(WithGenre(authors, genreId)))
    {
      var f := Record(AuthorsOfGenre(genreId));
      fate := f;
      match f
      case Proceeds => r := Returned(Some(WithGenre(authors, genreId)));
      case Swallowed => r := Returned(None);
      case Throws(m) => r := Raised(m);
    }

    /**
     * AuthorModel.findAuthorByName: the first row with that exact name, or
     * null when there is none or the query failed.
     */
    method FindAuthorByName(name: Option<string>) returns (r: Call<Option<Author>>, ghost fate: Fate)
      requires Valid()
      modifies this`log, this`calls
      ensures Valid()
      ensures log == old(log) + [Event(AuthorNamed(name), fate)]
      ensures fate == env(|old(log)|)
      ensures r == Answer(fate, FirstNamed(authors, name))
    {
      var f := Record(AuthorNamed(name));
      fate := f;
      match f
      case Proceeds => r := Returned(FirstNamed(authors, name));
      case Swallowed => r := Returned(None);
      case Throws(m) => r := Raised(m);
    }

    /**
     * AuthorModel.saveAuthor: `em.persist(a)` in a transaction. On commit the
     * row is added under a generated identity, which persist also writes
     * into `a`; the returned value is `a` as the caller's object holds it
     * afterwards. A rollback is swallowed, so the caller cannot tell it
     * from a commit.
     */
    method SaveAuthor(a: Author) returns (r: Call<Author>, ghost fate: Fate)
      requires Valid()
      modifies this
      ensures Valid() && genres == old(genres)
      ensures log == old(log) + [Event(Persist(a), fate)]
      ensures fate == env(|old(log)|)
      ensures fate.Proceeds? ==> Inserted(old(authors), authors, a) && r == Returned(authors[|old(authors)|])
      ensures fate.Swallowed? ==> authors == old(authors) && r == Returned(a)
      ensures fate.Throws? ==> authors == old(authors) && r == Raised(fate.message)
    {
      var f := Record(Persist(a));
      fate := f;
      match f
      case Proceeds =>
        var row := a.(id := FreshId(authors));
        ghost var before := authors;
        authors := authors + [row];
        assert authors[..|before|] == before;
        InsertedKeepsValid(before, authors, a);
        r := Returned(row);
      case Swallowed => r := Returned(a);
      case Throws(m) => r := Raised(m);
    }

    /** AuthorModel.updateAuthor: `em.merge(a)` in a transaction; a rollback is swallowed. */
    method UpdateAuthor(a: Author) returns (r: Call<()>, ghost fate: Fate)
      requires Valid()
      modifies this
      ensures Valid() && genres == old(genres)
      ensures log == old(log) + [Event(Merge(a), fate)]
      ensures fate == env(|old(log)|)
      ensures fate.Proceeds? ==> Merged(old(authors), authors, a) && r == Returned(())
      ensures fate.Swallowed? ==> authors == old(authors) && r == Returned(())
      ensures fate.Throws? ==> authors == old(authors) && r == Raised(fate.message)
    {
      var f := Record(Merge(a));
      fate := f;
      match f
      case Proceeds =>
        if a.id in IdsOf(authors) {
          ReplaceIdKeepsValid(authors, a);
          authors := ReplaceId(authors, a);
        } else {
          ghost var before := authors;
          authors := authors + [a.(id := FreshId(authors))];
          assert authors[..|before|] == before;
          InsertedKeepsValid(before, authors, a);
        }
        r := Returned(());
      case Swallowed => r := Returned(());
      case Throws(m) => r := Raised(m);
    }

    /**
     * AuthorModel.deleteAuthor: finds the row by `a`'s identity and removes
     * it if found; an unknown identity is a silent no-op, a rollback is
     * swallowed.
     */
    method DeleteAuthor(a: Author) returns (r: Call<()>, ghost fate: Fate)
      requires Valid()
      modifies this
      ensures Valid() && genres == old(genres)
      ensures log == old(log) + [Event(Delete(a.id), fate)]
      ensures fate == env(|old(log)|)
      ensures fate.Proceeds? ==> authors == RemoveId(old(authors), a.id) && r == Returned(())
      ensures fate.Swallowed? ==> authors == old(authors) && r == Returned(())
      ensures fate.Throws? ==> authors == old(authors) && r == Raised(fate.message)
    {
      var f := Record(Delete(a.id));
      fate := f;
      match f
      case Proceeds =>
        RemoveIdRemovesOne(authors, a.id);
        authors := RemoveId(authors, a.id);
        r := Returned(());
      case Swallowed => r := Returned(());
      case Throws(m) => r := Raised(m);
    }

    /** LiteraryGenreModel.getAllGenres: "SELECT g FROM LiteraryGenre g", or null on failure. */
    method GetAllGenres() returns (r: Call<Option<seq<LiteraryGenre>>>, ghost fate: Fate)
      requires Valid()
      modifies this`log, this`calls
      ensures Valid()
      ensures log == old(log) + [Event(AllGenres, fate)]
      ensures fate == env(|old(log)|)
      ensures r == Answer(fate, Some(genres))
    {
      var f := Record(AllGenres);
      fate := f;
      match f
      case Proceeds => r := Returned(Some(genres));
      case Swallowed => r := Returned(None);
      case Throws(m) => r := Raised(m);
    }

    /** LiteraryGenreModel.findGenreById: the genre with that identity, or null. */
    method FindGenreById(id: int) returns (r: Call<Option<LiteraryGenre>>, ghost fate: Fate)
      requires Valid()
      modifies this`log, this`calls
      ensures Valid()
      ensures log == old(log) + [Event(GenreById(id), fate)]
      ensures fate == env(|old(log)|)
      ensures r == Answer(fate, GenreWithId(genres, id))
    {
      var f := Record(GenreById(id));
      fate := f;
      match f
      case Proceeds => r := Returned(GenreWithId(genres, id));
      case Swallowed => r := Returned(None);
      case Throws(m) => r := Raised(m);
    }
  }
}

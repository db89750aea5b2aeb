/**
 * The two JPA entities, Author and LiteraryGenre. Neither has behaviour
 * beyond getters and setters, so both are plain values here.
 */
module Entities {
  import opened Wrappers

  /** A calendar date. The application never computes with it. */
  datatype Date = Date(ordinal: int)

  /** A row of table `genero`; `name` is a nullable Java String. */
  datatype LiteraryGenre = LiteraryGenre(id: int, name: Option<string>)

  /**
   * A row of table `autor`. `id` is the generated identity (0 while the
   * object has never been persisted); every reference field is nullable.
   */
  datatype Author = Author(
    id: int,
    name: Option<string>,
    phone: Option<string>,
    birthDate: Option<Date>,
    genre: Option<LiteraryGenre>)

  /** What `new Author()` yields: id 0 and every other field null. */
  function BlankAuthor(): (a: Author)
    ensures a.id == 0
    ensures a.name.None? && a.phone.None? && a.birthDate.None? && a.genre.None?
  {
    Author(0, None, None, None, None)
  }

  /** The genre id an author's genre reference points at, 0 when it has none. */
  function GenreIdOf(a: Author): int
  {
    match a.genre
    case None => 0
    case Some(lg) => lg.id
  }
}

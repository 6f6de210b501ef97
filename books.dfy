/// The shapes of the book, edition and author records that the quality scorers read
/// (NzbDrone.Core.Books). Only the fields some scorer inspects are kept, and each of
/// them only as far as it is inspected.
module Books {
  import opened Nullable

  /**
   * A lazily loaded relation (`LazyLoaded<T>`), as the scorers can see it:
   * - `NullRef`: the relation property itself is null;
   * - `NotLoaded(onAccess)`: the relation has not been materialised; `onAccess` is what
   *   reading `.Value` would yield (the database fetch behind it is not modelled, so it
   *   is left as data the model is given);
   * - `Loaded(value)`: materialised, with a value that may itself be null.
   */
  datatype LazyLoaded<T> = NullRef | NotLoaded(onAccess: Option<T>) | Loaded(value: Option<T>)

  /** `relation?.Value`: what reading the relation's value yields, loaded or not. */
  function ValueOf<T>(relation: LazyLoaded<T>): (r: Option<T>)
    ensures relation.NullRef? ==> r.None?
    ensures relation.Loaded? ==> r == relation.value
  {
    match relation
    case NullRef => None
    case NotLoaded(v) => v
    case Loaded(v) => v
  }

  /** The relation is materialised and its value is not null. */
  predicate IsLoadedWithValue<T>(relation: LazyLoaded<T>)
  {
    relation.Loaded? && relation.value.Some?
  }

  /** `char.IsWhiteSpace`: the Unicode space, line and paragraph separators plus the
      control characters U+0009 to U+000D and U+0085. */
  predicate IsWhiteSpace(c: char)
  {
    var n := c as int;
    (0x09 <= n <= 0x0D) || n == 0x20 || n == 0x85 || n == 0xA0 || n == 0x1680
    || (0x2000 <= n <= 0x200A) || n == 0x2028 || n == 0x2029 || n == 0x202F
    || n == 0x205F || n == 0x3000
  }

  /** `string.IsNullOrWhiteSpace`: null, empty, or made of white space only. */
  predicate IsNullOrWhiteSpace(s: Option<string>)
  {
    s.None? || forall i :: 0 <= i < |s.value| ==> IsWhiteSpace(s.value[i])
  }

  /** A media cover (an image); no scorer reads anything but whether there are any. */
  datatype MediaCover = MediaCover(url: string)

  /** An external link; no scorer reads anything but whether there are any. */
  datatype Link = Link(url: string, name: string)

  /** `Ratings`; only the vote count is ever inspected. */
  datatype Ratings = Ratings(votes: int)

  /** A series an author writes in; only whether there are any is read. */
  datatype Series = Series(title: string)

  /** A book's membership of a series; only whether there are any is read. */
  datatype SeriesBookLink = SeriesBookLink(position: string)

  /** `Edition`: one published edition of a book. A `DateTime?` is kept as its `HasValue`. */
  datatype Edition = Edition(
    title: Option<string>,
    foreignEditionId: Option<string>,
    isbn13: Option<string>,
    asin: Option<string>,
    overview: Option<string>,
    publisher: Option<string>,
    format: Option<string>,
    language: Option<string>,
    hasReleaseDate: bool,
    pageCount: int,
    images: seq<MediaCover>,
    links: seq<Link>,
    ratings: Option<Ratings>,
    monitored: bool)

  /** `AuthorMetadata`: the descriptive part of an author record. */
  datatype AuthorMetadata = AuthorMetadata(
    name: Option<string>,
    overview: Option<string>,
    hometown: Option<string>,
    hasBorn: bool,
    images: seq<MediaCover>,
    genres: seq<string>,
    aliases: seq<string>,
    links: seq<Link>,
    ratings: Option<Ratings>)

  /** `Book`: the work-level record, with its relations. A list that may be null is kept
      as a plain sequence, null being the empty one (only `Any()` is asked of them). */
  datatype Book = Book(
    title: Option<string>,
    foreignBookId: Option<string>,
    foreignEditionId: Option<string>,
    hasReleaseDate: bool,
    genres: seq<string>,
    links: seq<Link>,
    relatedBooks: seq<int>,
    ratings: Option<Ratings>,
    authorMetadata: LazyLoaded<AuthorMetadata>,
    author: LazyLoaded<Author>,
    editions: LazyLoaded<seq<Edition>>,
    seriesLinks: LazyLoaded<seq<SeriesBookLink>>)

  /** `Author`: the author entity with its relations. */
  datatype Author = Author(
    name: Option<string>,
    foreignAuthorId: Option<string>,
    metadata: LazyLoaded<AuthorMetadata>,
    books: LazyLoaded<seq<Book>>,
    series: LazyLoaded<seq<Series>>)

  /** A collection reached through a relation holds at least one element (`?.Value?.Any()`). */
  predicate AnyIn<T>(relation: LazyLoaded<seq<T>>)
  {
    var v := ValueOf(relation);
    v.Some? && |v.value| > 0
  }

  /** A book with every field null, empty or unset, from which the examples are built. */
  const BlankBook := Book(None, None, None, false, [], [], [], None, NullRef, NullRef, NullRef, NullRef)

  /** An edition with every field null, empty, zero or unset. */
  const BlankEdition := Edition(None, None, None, None, None, None, None, None, false, 0, [], [], None, false)

  /** Author metadata with every field null, empty or unset. */
  const BlankAuthorMetadata := AuthorMetadata(None, None, None, false, [], [], [], [], None)

  /** An author with every field null and no relation set. */
  const BlankAuthor := Author(None, None, NullRef, NullRef, NullRef)
}

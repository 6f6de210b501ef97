/// The current completeness scorer (MetadataSource.Scoring.MetadataQualityScorer): book and
/// author records scored 0 to 100 from two fixed weight tables. Relations that are not
/// loaded earn nothing, so scoring never depends on data that is not in memory.
module Scoring {
  import opened Nullable
  import opened Books
  import Tables

  // Book scoring weights, total 100.
  const BookTitleWeight: nat := 20
  const BookAuthorWeight: nat := 20
  const BookIsbnWeight: nat := 15
  const BookOverviewWeight: nat := 10
  const BookReleaseDateWeight: nat := 5
  const BookPublisherWeight: nat := 5
  const BookCoverWeight: nat := 10
  const BookGenresWeight: nat := 5
  const BookPageCountWeight: nat := 5
  const BookLanguageWeight: nat := 5

  // Author scoring weights, total 100.
  const AuthorNameWeight: nat := 30
  const AuthorOverviewWeight: nat := 20
  const AuthorImageWeight: nat := 20
  const AuthorBornWeight: nat := 10
  const AuthorGenresWeight: nat := 10
  const AuthorHometownWeight: nat := 5
  const AuthorAliasesWeight: nat := 5

  // ---------------------------------------------------------------- edition selection

  /** `FirstOrDefault(e => e.Monitored)`, as an index: the first monitored edition. */
  function FirstMonitoredIndex(editions: seq<Edition>): (r: Option<nat>)
    ensures r.Some? ==> r.value < |editions| && editions[r.value].monitored
    ensures r.Some? ==> forall j :: 0 <= j < r.value ==> !editions[j].monitored
    ensures r.None? ==> forall j :: 0 <= j < |editions| ==> !editions[j].monitored
  {
    if |editions| == 0 then None
    else if editions[0].monitored then Some(0)
    else match FirstMonitoredIndex(editions[1..])
      case None => None
      case Some(i) => Some(i + 1)
  }

  /** The edition whose fields count towards a book's score: the first monitored one,
      otherwise the first one; none in an empty list. */
  function SelectedIndex(editions: seq<Edition>): (r: Option<nat>)
    ensures r.Some? <==> |editions| > 0
    ensures r.Some? ==> r.value < |editions|
    ensures r.Some? && editions[r.value].monitored ==>
              forall j :: 0 <= j < r.value ==> !editions[j].monitored
    ensures r.Some? && !editions[r.value].monitored ==>
              r.value == 0 && forall j :: 0 <= j < |editions| ==> !editions[j].monitored
  {
    match FirstMonitoredIndex(editions)
    case Some(i) => Some(i)
    case None => if |editions| > 0 then Some(0) else None
  }

  /** The edition a book is scored on: taken only from a loaded, non-null edition list. */
  function SelectEdition(editions: LazyLoaded<seq<Edition>>): (e: Option<Edition>)
    ensures e.Some? <==> IsLoadedWithValue(editions) && |editions.value.value| > 0
    ensures e.Some? ==> e.value in editions.value.value
    ensures e.Some? && e.value.monitored ==>
              exists i :: 0 <= i < |editions.value.value| && editions.value.value[i] == e.value
                && forall j :: 0 <= j < i ==> !editions.value.value[j].monitored
    ensures e.Some? && !e.value.monitored ==>
              e.value == editions.value.value[0]
              && forall j :: 0 <= j < |editions.value.value| ==> !editions.value.value[j].monitored
  {
    if editions.Loaded? && editions.value.Some? then
      var list := editions.value.value;
      match SelectedIndex(list)
      case Some(i) => Some(list[i])
      case None => None
    else None
  }

  /** The edition selection looks at nothing but the monitored flags: replacing an edition
      by one with the same flag selects the same position. */
  lemma SelectionIgnoresOtherFields(editions: seq<Edition>, k: nat, replacement: Edition)
    requires k < |editions| && replacement.monitored == editions[k].monitored
    ensures SelectedIndex(editions[k := replacement]) == SelectedIndex(editions)
  {
    var updated := editions[k := replacement];
    assert forall j :: 0 <= j < |editions| ==> updated[j].monitored == editions[j].monitored;
  }

  // ---------------------------------------------------------------- book score

  /** Author points need the author metadata loaded, non-null and with a non-blank name. */
  predicate HasNamedAuthor(book: Book)
  {
    IsLoadedWithValue(book.authorMetadata) && !IsNullOrWhiteSpace(book.authorMetadata.value.value.name)
  }

  /** The points earned by the work-level fields of a book. */
  function WorkPoints(book: Book): (points: int)
  {
    Tables.Award(!IsNullOrWhiteSpace(book.title), BookTitleWeight)
    + Tables.Award(HasNamedAuthor(book), BookAuthorWeight)
    + Tables.Award(|book.genres| > 0, BookGenresWeight)
    + Tables.Award(book.hasReleaseDate, BookReleaseDateWeight)
  }

  /** The points earned by the fields of the selected edition. */
  function EditionPoints(edition: Edition): (points: int)
  {
    Tables.Award(!IsNullOrWhiteSpace(edition.isbn13) || !IsNullOrWhiteSpace(edition.asin), BookIsbnWeight)
    + Tables.Award(!IsNullOrWhiteSpace(edition.overview), BookOverviewWeight)
    + Tables.Award(!IsNullOrWhiteSpace(edition.publisher), BookPublisherWeight)
    + Tables.Award(|edition.images| > 0, BookCoverWeight)
    + Tables.Award(edition.pageCount > 0, BookPageCountWeight)
    + Tables.Award(!IsNullOrWhiteSpace(edition.language), BookLanguageWeight)
  }

  /** `CalculateBookScore`: a null book scores 0, any other book lies in [0, 100]. */
  function BookScore(book: Option<Book>): (score: int)
    ensures book.None? ==> score == 0
    ensures 0 <= score <= 100
    ensures book.Some? && SelectEdition(book.value.editions).None? ==> score <= 50
  {
    match book
    case None => 0
    case Some(b) =>
      WorkPoints(b) + match SelectEdition(b.editions)
        case Some(e) => EditionPoints(e)
        case None => 0
  }

  // ---------------------------------------------------------------- author score

  /** The points earned by the fields of loaded author metadata. */
  function MetadataPoints(meta: AuthorMetadata): (points: int)
  {
    Tables.Award(!IsNullOrWhiteSpace(meta.name), AuthorNameWeight)
    + Tables.Award(!IsNullOrWhiteSpace(meta.overview), AuthorOverviewWeight)
    + Tables.Award(|meta.images| > 0, AuthorImageWeight)
    + Tables.Award(meta.hasBorn, AuthorBornWeight)
    + Tables.Award(|meta.genres| > 0, AuthorGenresWeight)
    + Tables.Award(!IsNullOrWhiteSpace(meta.hometown), AuthorHometownWeight)
    + Tables.Award(|meta.aliases| > 0, AuthorAliasesWeight)
  }

  /** `CalculateAuthorScore`: 0 for a null author and for one whose metadata relation is
      null, not loaded or loaded with null; otherwise the metadata's points, in [0, 100]. */
  function AuthorScore(author: Option<Author>): (score: int)
    ensures author.None? ==> score == 0
    ensures author.Some? && !IsLoadedWithValue(author.value.metadata) ==> score == 0
    ensures 0 <= score <= 100
  {
    match author
    case None => 0
    case Some(a) =>
      if a.metadata.Loaded? && a.metadata.value.Some? then MetadataPoints(a.metadata.value.value) else 0
  }

  // ---------------------------------------------------------------- the weight tables

  /** The book table, in the order the fields are scored. */
  const WorkWeights: seq<nat> := [BookTitleWeight, BookAuthorWeight, BookGenresWeight, BookReleaseDateWeight]
  const EditionWeights: seq<nat> :=
    [BookIsbnWeight, BookOverviewWeight, BookPublisherWeight, BookCoverWeight, BookPageCountWeight, BookLanguageWeight]
  const BookWeights: seq<nat> := WorkWeights + EditionWeights

  /** The author table, in the order the fields are scored. */
  const AuthorWeights: seq<nat> :=
    [AuthorNameWeight, AuthorOverviewWeight, AuthorImageWeight, AuthorBornWeight,
     AuthorGenresWeight, AuthorHometownWeight, AuthorAliasesWeight]

  /** Which work-level fields of a book are populated, in table order. */
  function WorkPresence(book: Book): (present: seq<bool>)
    ensures |present| == |WorkWeights|
  {
    [!IsNullOrWhiteSpace(book.title), HasNamedAuthor(book), |book.genres| > 0, book.hasReleaseDate]
  }

  /** Which fields of the selected edition are populated; none when no edition is selected. */
  function EditionPresence(edition: Option<Edition>): (present: seq<bool>)
    ensures |present| == |EditionWeights|
  {
    match edition
    case None => [false, false, false, false, false, false]
    case Some(e) =>
      [!IsNullOrWhiteSpace(e.isbn13) || !IsNullOrWhiteSpace(e.asin), !IsNullOrWhiteSpace(e.overview),
       !IsNullOrWhiteSpace(e.publisher), |e.images| > 0, e.pageCount > 0, !IsNullOrWhiteSpace(e.language)]
  }

  /** Which scored fields of a book are populated, in table order. */
  function BookPresence(book: Book): (present: seq<bool>)
    ensures |present| == |BookWeights|
  {
    WorkPresence(book) + EditionPresence(SelectEdition(book.editions))
  }

  /** Which scored fields of author metadata are populated, in table order. */
  function MetadataPresence(meta: AuthorMetadata): (present: seq<bool>)
    ensures |present| == |AuthorWeights|
  {
    [!IsNullOrWhiteSpace(meta.name), !IsNullOrWhiteSpace(meta.overview), |meta.images| > 0, meta.hasBorn,
     |meta.genres| > 0, !IsNullOrWhiteSpace(meta.hometown), |meta.aliases| > 0]
  }

  /** Both tables sum to exactly 100. */
  lemma TablesTotalHundred()
    ensures Tables.Total(BookWeights) == 100
    ensures Tables.Total(AuthorWeights) == 100
  {
    assert BookWeights == [20, 20, 5, 5, 15, 10, 5, 10, 5, 5];
    assert Tables.Total([20, 20, 5, 5, 15, 10, 5, 10, 5, 5]) == 100;
    assert AuthorWeights == [30, 20, 20, 10, 10, 5, 5];
    assert Tables.Total([30, 20, 20, 10, 10, 5, 5]) == 100;
  }

  /** The work-level points are the table sum of the populated work-level fields. */
  lemma WorkPointsMatchTable(book: Book)
    ensures WorkPoints(book) == Tables.Earned(WorkWeights, WorkPresence(book))
  {
    Tables.Earned4(WorkWeights, WorkPresence(book));
  }

  /** The edition-level points are the table sum of the populated fields of the edition. */
  lemma EditionPointsMatchTable(edition: Edition)
    ensures EditionPoints(edition) == Tables.Earned(EditionWeights, EditionPresence(Some(edition)))
  {
    Tables.Earned6(EditionWeights, EditionPresence(Some(edition)));
  }

  /** A book's score is the table sum of its populated fields: every weight is awarded at
      most once, so the score is bounded by the table's total of 100. */
  lemma {:induction false} BookScoreMatchesTable(book: Book)
    ensures BookScore(Some(book)) == Tables.Earned(BookWeights, BookPresence(book))
    ensures Tables.Earned(BookWeights, BookPresence(book)) <= 100
  {
    var selected := SelectEdition(book.editions);
    Tables.EarnedAppend(WorkWeights, WorkPresence(book), EditionWeights, EditionPresence(selected));
    WorkPointsMatchTable(book);
    match selected {
      case Some(e) => EditionPointsMatchTable(e);
      case None => Tables.EarnedFromNothing(EditionWeights, EditionPresence(None), 0);
    }
    TablesTotalHundred();
  }

  /** The metadata points are the table sum of the populated metadata fields. */
  lemma MetadataPointsMatchTable(meta: AuthorMetadata)
    ensures MetadataPoints(meta) == Tables.Earned(AuthorWeights, MetadataPresence(meta))
  {
    Tables.Earned7(AuthorWeights, MetadataPresence(meta));
  }

  /** An author's score is the table sum of the populated metadata fields, when the
      metadata is loaded. */
  lemma AuthorScoreMatchesTable(author: Author)
    requires IsLoadedWithValue(author.metadata)
    ensures AuthorScore(Some(author)) == Tables.Earned(AuthorWeights, MetadataPresence(author.metadata.value.value))
  {
    MetadataPointsMatchTable(author.metadata.value.value);
  }

  // ---------------------------------------------------------------- monotonicity

  /** A book with every scored field of another populated, and possibly more, never
      scores lower; with one more populated field it scores higher by at least that
      field's weight. */
  lemma MoreBookFieldsNeverLower(fewer: Book, more: Book)
    requires Tables.Covers(BookPresence(fewer), BookPresence(more))
    ensures BookScore(Some(fewer)) <= BookScore(Some(more))
    ensures forall k :: 0 <= k < |BookWeights| && !BookPresence(fewer)[k] && BookPresence(more)[k] ==>
              BookScore(Some(fewer)) + BookWeights[k] <= BookScore(Some(more))
  {
    BookScoreMatchesTable(fewer);
    BookScoreMatchesTable(more);
    Tables.EarnedMonotone(BookWeights, BookPresence(fewer), BookPresence(more));
    forall k | 0 <= k < |BookWeights| && !BookPresence(fewer)[k] && BookPresence(more)[k]
      ensures BookScore(Some(fewer)) + BookWeights[k] <= BookScore(Some(more))
    {
      assert BookWeights == [20, 20, 5, 5, 15, 10, 5, 10, 5, 5];
      Tables.EarnedStrictlyMonotone(BookWeights, BookPresence(fewer), BookPresence(more), k);
    }
  }

  /** The same for authors with loaded metadata. */
  lemma MoreAuthorFieldsNeverLower(fewer: Author, more: Author)
    requires IsLoadedWithValue(fewer.metadata) && IsLoadedWithValue(more.metadata)
    requires Tables.Covers(MetadataPresence(fewer.metadata.value.value), MetadataPresence(more.metadata.value.value))
    ensures AuthorScore(Some(fewer)) <= AuthorScore(Some(more))
    ensures forall k :: (0 <= k < |AuthorWeights|
              && !MetadataPresence(fewer.metadata.value.value)[k] && MetadataPresence(more.metadata.value.value)[k]) ==>
              AuthorScore(Some(fewer)) + AuthorWeights[k] <= AuthorScore(Some(more))
  {
    var pf, pm := MetadataPresence(fewer.metadata.value.value), MetadataPresence(more.metadata.value.value);
    AuthorScoreMatchesTable(fewer);
    AuthorScoreMatchesTable(more);
    Tables.EarnedMonotone(AuthorWeights, pf, pm);
    forall k | 0 <= k < |AuthorWeights| && !pf[k] && pm[k]
      ensures AuthorScore(Some(fewer)) + AuthorWeights[k] <= AuthorScore(Some(more))
    {
      Tables.EarnedStrictlyMonotone(AuthorWeights, pf, pm, k);
    }
  }

  /** Populating more fields of the edition that is already selected (keeping its
      monitored flag, so that the selection does not move) never lowers the book score. */
  lemma MoreSelectedEditionFieldsNeverLower(book: Book, replacement: Edition)
    requires IsLoadedWithValue(book.editions) && |book.editions.value.value| > 0
    requires var list := book.editions.value.value;
             var k := SelectedIndex(list).value;
             replacement.monitored == list[k].monitored
             && Tables.Covers(EditionPresence(Some(list[k])), EditionPresence(Some(replacement)))
    ensures var list := book.editions.value.value;
            BookScore(Some(book)) <=
            BookScore(Some(book.(editions := Loaded(Some(list[SelectedIndex(list).value := replacement])))))
  {
    var list := book.editions.value.value;
    var k := SelectedIndex(list).value;
    var updated := book.(editions := Loaded(Some(list[k := replacement])));
    SelectionIgnoresOtherFields(list, k, replacement);
    assert SelectEdition(updated.editions) == Some(replacement);
    assert WorkPresence(updated) == WorkPresence(book);
    MoreBookFieldsNeverLower(book, updated);
  }

  // ---------------------------------------------------------------- properties of single fields

  /** Author points: 20 exactly when the author metadata is loaded, non-null and named;
      the metadata relation is otherwise ignored. */
  lemma AuthorPointsNeedLoadedName(book: Book)
    ensures BookScore(Some(book)) ==
            BookScore(Some(book.(authorMetadata := NullRef))) + (if HasNamedAuthor(book) then BookAuthorWeight else 0)
  {
  }

  /** No edition-level points when the edition list is null, not loaded, null or empty:
      the score is that of the work-level fields alone, at most 50. */
  lemma NoEditionNoEditionPoints(book: Book)
    requires !IsLoadedWithValue(book.editions) || |book.editions.value.value| == 0
    ensures BookScore(Some(book)) == WorkPoints(book) <= 50
  {
  }

  /** A non-blank ASIN earns the same 15 identifier points as a non-blank ISBN-13, and
      having both earns them once. */
  lemma IdentifierPointsOnce(edition: Edition)
    ensures EditionPoints(edition) ==
            EditionPoints(edition.(isbn13 := None, asin := None))
            + (if !IsNullOrWhiteSpace(edition.isbn13) || !IsNullOrWhiteSpace(edition.asin) then BookIsbnWeight else 0)
  {
  }

  /** Relations that are not loaded earn nothing: whatever an unloaded relation would
      fetch, the score is the same as with no relation at all. */
  lemma UnloadedRelationsAreNotRead(book: Book, author: Author, meta: Option<AuthorMetadata>, editions: Option<seq<Edition>>)
    ensures BookScore(Some(book.(authorMetadata := NotLoaded(meta)))) == BookScore(Some(book.(authorMetadata := NullRef)))
    ensures BookScore(Some(book.(editions := NotLoaded(editions)))) == BookScore(Some(book.(editions := NullRef)))
    ensures AuthorScore(Some(author.(metadata := NotLoaded(meta)))) == 0
  {
  }
}

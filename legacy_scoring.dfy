/// The legacy completeness scorer (MetadataSource.MetadataQualityScorer): book, author and
/// edition records scored 0 to 100 from three weight tables, and a fixed acceptability
/// threshold. It reads relation values whether or not they are loaded.
module LegacyScoring {
  import opened Nullable
  import opened Books
  import Tables

  const MinimumAcceptableScore := 50

  /** `IsQualityAcceptable`. */
  predicate IsQualityAcceptable(score: int)
  {
    score >= MinimumAcceptableScore
  }

  // ---------------------------------------------------------------- book score

  /** The book has an author, through either the author metadata or the author relation. */
  predicate HasAuthorLink(book: Book)
  {
    ValueOf(book.authorMetadata).Some? || ValueOf(book.author).Some?
  }

  /** Some edition in the book's edition list has at least one image. */
  predicate AnyEditionHasCover(book: Book)
  {
    var editions := ValueOf(book.editions);
    editions.Some? && exists i :: 0 <= i < |editions.value| && |editions.value[i].images| > 0
  }

  /** The number of editions reachable through the relation (a null list has none). */
  function EditionCount(book: Book): nat
  {
    match ValueOf(book.editions)
    case None => 0
    case Some(list) => |list|
  }

  /** The essential book fields: title, author link, foreign book id (60 points). */
  function EssentialBookPoints(b: Book): int
  {
    (if !IsNullOrWhiteSpace(b.title) then 20 else 0)
    + (if HasAuthorLink(b) then 20 else 0)
    + (if !IsNullOrWhiteSpace(b.foreignBookId) then 20 else 0)
  }

  /** The important book fields: release date, foreign edition id, editions with the
      multiple-editions bonus, ratings (25 points). */
  function ImportantBookPoints(b: Book): int
  {
    (if b.hasReleaseDate then 5 else 0)
    + (if !IsNullOrWhiteSpace(b.foreignEditionId) then 5 else 0)
    + (if AnyIn(b.editions) then 5 + (if EditionCount(b) > 1 then 5 else 0) else 0)
    + (if b.ratings.Some? && b.ratings.value.votes > 0 then 5 else 0)
  }

  /** The nice-to-have book fields: genres, links, series links, related books, covers
      (15 points). */
  function NiceBookPoints(b: Book): int
  {
    (if |b.genres| > 0 then 3 else 0)
    + (if |b.links| > 0 then 2 else 0)
    + (if AnyIn(b.seriesLinks) then 5 else 0)
    + (if |b.relatedBooks| > 0 then 2 else 0)
    + (if AnyEditionHasCover(b) then 3 else 0)
  }

  /** `CalculateBookScore`: a null book scores 0, any other book lies in [0, 100]. */
  function BookScore(book: Option<Book>): (score: int)
    ensures book.None? ==> score == 0
    ensures 0 <= score <= 100
  {
    match book
    case None => 0
    case Some(b) => EssentialBookPoints(b) + ImportantBookPoints(b) + NiceBookPoints(b)
  }

  // ---------------------------------------------------------------- author score

  /** The author metadata, read through the relation whether loaded or not. */
  function Meta(author: Author): Option<AuthorMetadata>
  {
    ValueOf(author.metadata)
  }

  /** The author has a name: the metadata's if it is non-blank, else the author's own. */
  predicate HasAuthorName(author: Author)
  {
    (Meta(author).Some? && !IsNullOrWhiteSpace(Meta(author).value.name)) || !IsNullOrWhiteSpace(author.name)
  }

  /** The essential author fields: name, foreign author id, books (60 points). */
  function EssentialAuthorPoints(a: Author): int
  {
    var meta := Meta(a);
    (if meta.Some? && !IsNullOrWhiteSpace(meta.value.name) then 25
     else if !IsNullOrWhiteSpace(a.name) then 25 else 0)
    + (if !IsNullOrWhiteSpace(a.foreignAuthorId) then 20 else 0)
    + (if AnyIn(a.books) then 15 else 0)
  }

  /** The important author fields: overview, images, ratings (20 points). */
  function ImportantAuthorPoints(a: Author): int
  {
    var meta := Meta(a);
    (if meta.Some? && !IsNullOrWhiteSpace(meta.value.overview) then 10 else 0)
    + (if meta.Some? && |meta.value.images| > 0 then 5 else 0)
    + (if meta.Some? && meta.value.ratings.Some? && meta.value.ratings.value.votes > 0 then 5 else 0)
  }

  /** The nice-to-have author fields: birth date, links, series, genres (20 points). */
  function NiceAuthorPoints(a: Author): int
  {
    var meta := Meta(a);
    (if meta.Some? && meta.value.hasBorn then 5 else 0)
    + (if meta.Some? && |meta.value.links| > 0 then 5 else 0)
    + (if AnyIn(a.series) then 5 else 0)
    + (if meta.Some? && |meta.value.genres| > 0 then 5 else 0)
  }

  /** `CalculateAuthorScore`: a null author scores 0, any other author lies in [0, 100]. */
  function AuthorScore(author: Option<Author>): (score: int)
    ensures author.None? ==> score == 0
    ensures 0 <= score <= 100
  {
    match author
    case None => 0
    case Some(a) => EssentialAuthorPoints(a) + ImportantAuthorPoints(a) + NiceAuthorPoints(a)
  }

  // ---------------------------------------------------------------- edition score

  /** The identifier points of an edition: 20 for an ISBN-13, otherwise 15 for an ASIN. */
  function IdentifierPoints(edition: Edition): (points: int)
    ensures points == 20 <==> !IsNullOrWhiteSpace(edition.isbn13)
    ensures points == 15 <==> IsNullOrWhiteSpace(edition.isbn13) && !IsNullOrWhiteSpace(edition.asin)
    ensures points == 0 <==> IsNullOrWhiteSpace(edition.isbn13) && IsNullOrWhiteSpace(edition.asin)
  {
    if !IsNullOrWhiteSpace(edition.isbn13) then 20
    else if !IsNullOrWhiteSpace(edition.asin) then 15
    else 0
  }

  /** The essential edition fields: title, foreign edition id, identifier (60 points). */
  function EssentialEditionPoints(e: Edition): int
  {
    (if !IsNullOrWhiteSpace(e.title) then 20 else 0)
    + (if !IsNullOrWhiteSpace(e.foreignEditionId) then 20 else 0)
    + IdentifierPoints(e)
  }

  /** The important edition fields: release date, publisher, page count, format, images
      (25 points). */
  function ImportantEditionPoints(e: Edition): int
  {
    (if e.hasReleaseDate then 5 else 0)
    + (if !IsNullOrWhiteSpace(e.publisher) then 5 else 0)
    + (if e.pageCount > 0 then 5 else 0)
    + (if !IsNullOrWhiteSpace(e.format) then 5 else 0)
    + (if |e.images| > 0 then 5 else 0)
  }

  /** The nice-to-have edition fields: overview, ratings, links, language (15 points). */
  function NiceEditionPoints(e: Edition): int
  {
    (if !IsNullOrWhiteSpace(e.overview) then 5 else 0)
    + (if e.ratings.Some? && e.ratings.value.votes > 0 then 5 else 0)
    + (if |e.links| > 0 then 3 else 0)
    + (if !IsNullOrWhiteSpace(e.language) then 2 else 0)
  }

  /** `CalculateEditionScore`: a null edition scores 0, any other edition lies in [0, 100]. */
  function EditionScore(edition: Option<Edition>): (score: int)
    ensures edition.None? ==> score == 0
    ensures 0 <= score <= 100
  {
    match edition
    case None => 0
    case Some(e) => EssentialEditionPoints(e) + ImportantEditionPoints(e) + NiceEditionPoints(e)
  }

  // ---------------------------------------------------------------- the weight tables

  const EssentialBookWeights: seq<nat> := [20, 20, 20]
  const ImportantBookWeights: seq<nat> := [5, 5, 5, 5, 5]
  const NiceBookWeights: seq<nat> := [3, 2, 5, 2, 3]
  const BookWeights: seq<nat> := EssentialBookWeights + ImportantBookWeights + NiceBookWeights

  const EssentialAuthorWeights: seq<nat> := [25, 20, 15]
  const ImportantAuthorWeights: seq<nat> := [10, 5, 5]
  const NiceAuthorWeights: seq<nat> := [5, 5, 5, 5]
  const AuthorWeights: seq<nat> := EssentialAuthorWeights + ImportantAuthorWeights + NiceAuthorWeights

  /** The edition table lists the ISBN-13 and the ASIN apart; at most one of the two is
      ever present, so the weights total 115 but a score never exceeds 100. */
  const EssentialEditionWeights: seq<nat> := [20, 20, 20, 15]
  const ImportantEditionWeights: seq<nat> := [5, 5, 5, 5, 5]
  const NiceEditionWeights: seq<nat> := [5, 5, 3, 2]
  const EditionWeights: seq<nat> := EssentialEditionWeights + ImportantEditionWeights + NiceEditionWeights

  /** Which essential book fields are present, in table order. */
  function EssentialBookPresence(b: Book): (present: seq<bool>)
    ensures |present| == |EssentialBookWeights|
  {
    [!IsNullOrWhiteSpace(b.title), HasAuthorLink(b), !IsNullOrWhiteSpace(b.foreignBookId)]
  }

  /** Which important book fields are present; the multiple-editions bonus is present only
      together with a non-empty edition list. */
  function ImportantBookPresence(b: Book): (present: seq<bool>)
    ensures |present| == |ImportantBookWeights|
    ensures present[3] ==> present[2]
  {
    [b.hasReleaseDate, !IsNullOrWhiteSpace(b.foreignEditionId), AnyIn(b.editions),
     AnyIn(b.editions) && EditionCount(b) > 1, b.ratings.Some? && b.ratings.value.votes > 0]
  }

  /** Which nice-to-have book fields are present. */
  function NiceBookPresence(b: Book): (present: seq<bool>)
    ensures |present| == |NiceBookWeights|
  {
    [|b.genres| > 0, |b.links| > 0, AnyIn(b.seriesLinks), |b.relatedBooks| > 0, AnyEditionHasCover(b)]
  }

  /** Which scored book fields are present, in table order. */
  function BookPresence(b: Book): (present: seq<bool>)
    ensures |present| == |BookWeights|
  {
    EssentialBookPresence(b) + ImportantBookPresence(b) + NiceBookPresence(b)
  }

  /** Which essential author fields are present; the name is one field, however many of
      the two names are there. */
  function EssentialAuthorPresence(a: Author): (present: seq<bool>)
    ensures |present| == |EssentialAuthorWeights|
  {
    [HasAuthorName(a), !IsNullOrWhiteSpace(a.foreignAuthorId), AnyIn(a.books)]
  }

  /** Which important author fields are present. */
  function ImportantAuthorPresence(a: Author): (present: seq<bool>)
    ensures |present| == |ImportantAuthorWeights|
  {
    var m := Meta(a);
    [m.Some? && !IsNullOrWhiteSpace(m.value.overview), m.Some? && |m.value.images| > 0,
     m.Some? && m.value.ratings.Some? && m.value.ratings.value.votes > 0]
  }

  /** Which nice-to-have author fields are present. */
  function NiceAuthorPresence(a: Author): (present: seq<bool>)
    ensures |present| == |NiceAuthorWeights|
  {
    var m := Meta(a);
    [m.Some? && m.value.hasBorn, m.Some? && |m.value.links| > 0, AnyIn(a.series),
     m.Some? && |m.value.genres| > 0]
  }

  /** Which scored author fields are present, in table order. */
  function AuthorPresence(a: Author): (present: seq<bool>)
    ensures |present| == |AuthorWeights|
  {
    EssentialAuthorPresence(a) + ImportantAuthorPresence(a) + NiceAuthorPresence(a)
  }

  /** Which essential edition fields are present; the ASIN counts only without an ISBN-13. */
  function EssentialEditionPresence(e: Edition): (present: seq<bool>)
    ensures |present| == |EssentialEditionWeights|
    ensures !(present[2] && present[3])
  {
    [!IsNullOrWhiteSpace(e.title), !IsNullOrWhiteSpace(e.foreignEditionId), !IsNullOrWhiteSpace(e.isbn13),
     IsNullOrWhiteSpace(e.isbn13) && !IsNullOrWhiteSpace(e.asin)]
  }

  /** Which important edition fields are present. */
  function ImportantEditionPresence(e: Edition): (present: seq<bool>)
    ensures |present| == |ImportantEditionWeights|
  {
    [e.hasReleaseDate, !IsNullOrWhiteSpace(e.publisher), e.pageCount > 0, !IsNullOrWhiteSpace(e.format),
     |e.images| > 0]
  }

  /** Which nice-to-have edition fields are present. */
  function NiceEditionPresence(e: Edition): (present: seq<bool>)
    ensures |present| == |NiceEditionWeights|
  {
    [!IsNullOrWhiteSpace(e.overview), e.ratings.Some? && e.ratings.value.votes > 0, |e.links| > 0,
     !IsNullOrWhiteSpace(e.language)]
  }

  /** Which scored edition fields are present, in table order. */
  function EditionPresence(e: Edition): (present: seq<bool>)
    ensures |present| == |EditionWeights|
  {
    EssentialEditionPresence(e) + ImportantEditionPresence(e) + NiceEditionPresence(e)
  }

  /** The book and author tables sum to exactly 100. */
  lemma TablesTotalHundred()
    ensures Tables.Total(BookWeights) == 100
    ensures Tables.Total(AuthorWeights) == 100
  {
    assert Tables.Total(EssentialBookWeights) == 60;
    assert Tables.Total(ImportantBookWeights) == 25;
    assert Tables.Total(NiceBookWeights) == 15;
    Tables.TotalAppend(EssentialBookWeights, ImportantBookWeights);
    Tables.TotalAppend(EssentialBookWeights + ImportantBookWeights, NiceBookWeights);
    assert Tables.Total(EssentialAuthorWeights) == 60;
    assert Tables.Total(ImportantAuthorWeights) == 20;
    assert Tables.Total(NiceAuthorWeights) == 20;
    Tables.TotalAppend(EssentialAuthorWeights, ImportantAuthorWeights);
    Tables.TotalAppend(EssentialAuthorWeights + ImportantAuthorWeights, NiceAuthorWeights);
  }

  /** The edition table totals 115, because the ISBN-13 and the ASIN are listed apart;
      as the two are never both present, what an edition earns from it is at most 100. */
  lemma EditionTableBound(edition: Edition)
    ensures Tables.Total(EditionWeights) == 115
    ensures Tables.Earned(EditionWeights, EditionPresence(edition)) <= 100
  {
    var e, i, n := EssentialEditionPresence(edition), ImportantEditionPresence(edition), NiceEditionPresence(edition);
    var E, I, N := EssentialEditionWeights, ImportantEditionWeights, NiceEditionWeights;
    assert Tables.Total(E) == 75;
    assert Tables.Total(I) == 25;
    assert Tables.Total(N) == 15;
    Tables.TotalAppend(E, I);
    Tables.TotalAppend(E + I, N);
    Tables.Earned4(E, e);
    assert Tables.Earned(E, e) <= 60;
    Tables.EarnedAppend(E, e, I, i);
    Tables.EarnedAppend(E + I, e + i, N, n);
  }

  /** Each group of book fields earns the table sum of its present fields. */
  lemma EssentialBookMatchesTable(b: Book)
    ensures EssentialBookPoints(b) == Tables.Earned(EssentialBookWeights, EssentialBookPresence(b))
  {
    Tables.Earned3(EssentialBookWeights, EssentialBookPresence(b));
  }

  lemma ImportantBookMatchesTable(b: Book)
    ensures ImportantBookPoints(b) == Tables.Earned(ImportantBookWeights, ImportantBookPresence(b))
  {
    Tables.Earned5(ImportantBookWeights, ImportantBookPresence(b));
  }

  lemma NiceBookMatchesTable(b: Book)
    ensures NiceBookPoints(b) == Tables.Earned(NiceBookWeights, NiceBookPresence(b))
  {
    Tables.Earned5(NiceBookWeights, NiceBookPresence(b));
  }

  /** A book's score is the table sum of its present fields, each weight awarded once. */
  lemma {:induction false} BookScoreMatchesTable(book: Book)
    ensures BookScore(Some(book)) == Tables.Earned(BookWeights, BookPresence(book))
  {
    var e, i, n := EssentialBookPresence(book), ImportantBookPresence(book), NiceBookPresence(book);
    var E, I, N := EssentialBookWeights, ImportantBookWeights, NiceBookWeights;
    EssentialBookMatchesTable(book);
    ImportantBookMatchesTable(book);
    NiceBookMatchesTable(book);
    Tables.EarnedAppend(E, e, I, i);
    Tables.EarnedAppend(E + I, e + i, N, n);
  }

  /** Each group of author fields earns the table sum of its present fields. */
  lemma EssentialAuthorMatchesTable(a: Author)
    ensures EssentialAuthorPoints(a) == Tables.Earned(EssentialAuthorWeights, EssentialAuthorPresence(a))
  {
    Tables.Earned3(EssentialAuthorWeights, EssentialAuthorPresence(a));
  }

  lemma ImportantAuthorMatchesTable(a: Author)
    ensures ImportantAuthorPoints(a) == Tables.Earned(ImportantAuthorWeights, ImportantAuthorPresence(a))
  {
    Tables.Earned3(ImportantAuthorWeights, ImportantAuthorPresence(a));
  }

  lemma NiceAuthorMatchesTable(a: Author)
    ensures NiceAuthorPoints(a) == Tables.Earned(NiceAuthorWeights, NiceAuthorPresence(a))
  {
    Tables.Earned4(NiceAuthorWeights, NiceAuthorPresence(a));
  }

  /** An author's score is the table sum of its present fields, each weight awarded once. */
  lemma {:induction false} AuthorScoreMatchesTable(author: Author)
    ensures AuthorScore(Some(author)) == Tables.Earned(AuthorWeights, AuthorPresence(author))
  {
    var e, i, n := EssentialAuthorPresence(author), ImportantAuthorPresence(author), NiceAuthorPresence(author);
    var E, I, N := EssentialAuthorWeights, ImportantAuthorWeights, NiceAuthorWeights;
    EssentialAuthorMatchesTable(author);
    ImportantAuthorMatchesTable(author);
    NiceAuthorMatchesTable(author);
    Tables.EarnedAppend(E, e, I, i);
    Tables.EarnedAppend(E + I, e + i, N, n);
  }

  /** Each group of edition fields earns the table sum of its present fields. */
  lemma EssentialEditionMatchesTable(e: Edition)
    ensures EssentialEditionPoints(e) == Tables.Earned(EssentialEditionWeights, EssentialEditionPresence(e))
  {
    Tables.Earned4(EssentialEditionWeights, EssentialEditionPresence(e));
  }

  lemma ImportantEditionMatchesTable(e: Edition)
    ensures ImportantEditionPoints(e) == Tables.Earned(ImportantEditionWeights, ImportantEditionPresence(e))
  {
    Tables.Earned5(ImportantEditionWeights, ImportantEditionPresence(e));
  }

  lemma NiceEditionMatchesTable(e: Edition)
    ensures NiceEditionPoints(e) == Tables.Earned(NiceEditionWeights, NiceEditionPresence(e))
  {
    Tables.Earned4(NiceEditionWeights, NiceEditionPresence(e));
  }

  /** An edition's score is the table sum of its present fields, each weight awarded once. */
  lemma {:induction false} EditionScoreMatchesTable(edition: Edition)
    ensures EditionScore(Some(edition)) == Tables.Earned(EditionWeights, EditionPresence(edition))
  {
    var e, i, n := EssentialEditionPresence(edition), ImportantEditionPresence(edition), NiceEditionPresence(edition);
    var E, I, N := EssentialEditionWeights, ImportantEditionWeights, NiceEditionWeights;
    EssentialEditionMatchesTable(edition);
    ImportantEditionMatchesTable(edition);
    NiceEditionMatchesTable(edition);
    Tables.EarnedAppend(E, e, I, i);
    Tables.EarnedAppend(E + I, e + i, N, n);
  }

  /** Making more book fields present never lowers the book score, and each field
      present only in the richer book adds at least its weight. */
  lemma MoreBookFieldsNeverLower(fewer: Book, more: Book)
    requires Tables.Covers(BookPresence(fewer), BookPresence(more))
    ensures BookScore(Some(fewer)) <= BookScore(Some(more))
    ensures forall k :: 0 <= k < |BookWeights| && !BookPresence(fewer)[k] && BookPresence(more)[k] ==>
              BookScore(Some(fewer)) + BookWeights[k] <= BookScore(Some(more))
  {
    var pf, pm := BookPresence(fewer), BookPresence(more);
    BookScoreMatchesTable(fewer);
    BookScoreMatchesTable(more);
    Tables.EarnedMonotone(BookWeights, pf, pm);
    forall k | 0 <= k < |BookWeights| && !pf[k] && pm[k]
      ensures BookScore(Some(fewer)) + BookWeights[k] <= BookScore(Some(more))
    {
      Tables.EarnedStrictlyMonotone(BookWeights, pf, pm, k);
    }
  }

  /** Making more author fields present never lowers the author score, and each field
      present only in the richer author adds at least its weight. */
  lemma MoreAuthorFieldsNeverLower(fewer: Author, more: Author)
    requires Tables.Covers(AuthorPresence(fewer), AuthorPresence(more))
    ensures AuthorScore(Some(fewer)) <= AuthorScore(Some(more))
    ensures forall k :: 0 <= k < |AuthorWeights| && !AuthorPresence(fewer)[k] && AuthorPresence(more)[k] ==>
              AuthorScore(Some(fewer)) + AuthorWeights[k] <= AuthorScore(Some(more))
  {
    var pf, pm := AuthorPresence(fewer), AuthorPresence(more);
    AuthorScoreMatchesTable(fewer);
    AuthorScoreMatchesTable(more);
    Tables.EarnedMonotone(AuthorWeights, pf, pm);
    forall k | 0 <= k < |AuthorWeights| && !pf[k] && pm[k]
      ensures AuthorScore(Some(fewer)) + AuthorWeights[k] <= AuthorScore(Some(more))
    {
      Tables.EarnedStrictlyMonotone(AuthorWeights, pf, pm, k);
    }
  }

  /** Making more edition fields present never lowers the edition score, and each field
      present only in the richer edition adds at least its weight. */
  lemma MoreEditionFieldsNeverLower(fewer: Edition, more: Edition)
    requires Tables.Covers(EditionPresence(fewer), EditionPresence(more))
    ensures EditionScore(Some(fewer)) <= EditionScore(Some(more))
    ensures forall k :: 0 <= k < |EditionWeights| && !EditionPresence(fewer)[k] && EditionPresence(more)[k] ==>
              EditionScore(Some(fewer)) + EditionWeights[k] <= EditionScore(Some(more))
  {
    var pf, pm := EditionPresence(fewer), EditionPresence(more);
    EditionScoreMatchesTable(fewer);
    EditionScoreMatchesTable(more);
    Tables.EarnedMonotone(EditionWeights, pf, pm);
    forall k | 0 <= k < |EditionWeights| && !pf[k] && pm[k]
      ensures EditionScore(Some(fewer)) + EditionWeights[k] <= EditionScore(Some(more))
    {
      Tables.EarnedStrictlyMonotone(EditionWeights, pf, pm, k);
    }
  }

  // ---------------------------------------------------------------- properties of single fields

  /** The 20 author points are awarded once when either author relation has a value. */
  lemma AuthorLinkAwardedOnce(book: Book)
    ensures BookScore(Some(book)) ==
            BookScore(Some(book.(authorMetadata := NullRef, author := NullRef)))
            + (if ValueOf(book.authorMetadata).Some? || ValueOf(book.author).Some? then 20 else 0)
  {
    var unlinked := book.(authorMetadata := NullRef, author := NullRef);
    assert ImportantBookPoints(unlinked) == ImportantBookPoints(book);
    assert NiceBookPoints(unlinked) == NiceBookPoints(book);
  }

  /** What the edition list contributes: 5 for a non-empty list, 5 more for more than one
      edition, and 3 when any edition, not only the first, has images. */
  lemma EditionListPoints(book: Book, editions: seq<Edition>)
    ensures BookScore(Some(book.(editions := Loaded(Some(editions))))) ==
            BookScore(Some(book.(editions := Loaded(Some([])))))
            + (if |editions| > 0 then 5 else 0) + (if |editions| > 1 then 5 else 0)
            + (if exists i :: 0 <= i < |editions| && |editions[i].images| > 0 then 3 else 0)
  {
    var listed, unlisted := book.(editions := Loaded(Some(editions))), book.(editions := Loaded(Some([])));
    assert EssentialBookPoints(listed) == EssentialBookPoints(unlisted);
    assert NiceBookPoints(listed) == NiceBookPoints(unlisted)
                                    + if AnyEditionHasCover(listed) then 3 else 0;
  }

  /** The 25 name points come from the metadata name or, failing that, the author's own
      name, and are awarded once even when both are there; the metadata is read whether
      loaded or not, and without metadata only the author's own name counts. */
  lemma AuthorNameAwardedOnce(author: Author)
    ensures Meta(author).Some? ==>
            AuthorScore(Some(author)) ==
            AuthorScore(Some(author.(name := None, metadata := Loaded(Some(Meta(author).value.(name := None))))))
            + (if !IsNullOrWhiteSpace(Meta(author).value.name) || !IsNullOrWhiteSpace(author.name) then 25 else 0)
    ensures Meta(author).None? ==>
            AuthorScore(Some(author)) ==
            AuthorScore(Some(author.(name := None))) + (if !IsNullOrWhiteSpace(author.name) then 25 else 0)
  {
    if Meta(author).Some? {
      var unnamed := author.(name := None, metadata := Loaded(Some(Meta(author).value.(name := None))));
      assert ImportantAuthorPoints(unnamed) == ImportantAuthorPoints(author);
      assert NiceAuthorPoints(unnamed) == NiceAuthorPoints(author);
    } else {
      var unnamed := author.(name := None);
      assert ImportantAuthorPoints(unnamed) == ImportantAuthorPoints(author);
      assert NiceAuthorPoints(unnamed) == NiceAuthorPoints(author);
    }
  }

  /** An edition earns 20 for an ISBN-13, else 15 for an ASIN, never both. */
  lemma IdentifierAwardedOnce(edition: Edition)
    ensures EditionScore(Some(edition)) ==
            EditionScore(Some(edition.(isbn13 := None, asin := None)))
            + (if !IsNullOrWhiteSpace(edition.isbn13) then 20
               else if !IsNullOrWhiteSpace(edition.asin) then 15 else 0)
  {
    var unidentified := edition.(isbn13 := None, asin := None);
    assert ImportantEditionPoints(unidentified) == ImportantEditionPoints(edition);
    assert NiceEditionPoints(unidentified) == NiceEditionPoints(edition);
  }

  /** Acceptability is upward closed and its threshold is exactly 50. */
  lemma AcceptabilityThreshold(score: int, higher: int)
    requires IsQualityAcceptable(score) && score <= higher
    ensures IsQualityAcceptable(higher)
    ensures IsQualityAcceptable(50) && !IsQualityAcceptable(49)
  {
  }

  /** The essential fields alone (60 points) make any record acceptable; a record missing
      every essential field scores at most 40 and is never acceptable. */
  lemma EssentialFieldsDecideAcceptability(book: Book, author: Author, edition: Edition)
    ensures !IsNullOrWhiteSpace(book.title) && HasAuthorLink(book) && !IsNullOrWhiteSpace(book.foreignBookId)
            ==> IsQualityAcceptable(BookScore(Some(book)))
    ensures IsNullOrWhiteSpace(book.title) && !HasAuthorLink(book) && IsNullOrWhiteSpace(book.foreignBookId)
            ==> !IsQualityAcceptable(BookScore(Some(book)))
    ensures HasAuthorName(author) && !IsNullOrWhiteSpace(author.foreignAuthorId) && AnyIn(author.books)
            ==> IsQualityAcceptable(AuthorScore(Some(author)))
    ensures !HasAuthorName(author) && IsNullOrWhiteSpace(author.foreignAuthorId) && !AnyIn(author.books)
            ==> !IsQualityAcceptable(AuthorScore(Some(author)))
    ensures !IsNullOrWhiteSpace(edition.title) && !IsNullOrWhiteSpace(edition.foreignEditionId)
            && !IsNullOrWhiteSpace(edition.isbn13)
            ==> IsQualityAcceptable(EditionScore(Some(edition)))
    ensures IsNullOrWhiteSpace(edition.title) && IsNullOrWhiteSpace(edition.foreignEditionId)
            && IdentifierPoints(edition) == 0
            ==> !IsQualityAcceptable(EditionScore(Some(edition)))
  {
  }

  /** Unlike the current scorer, this one reads an unloaded relation's value. */
  lemma UnloadedRelationsAreRead(book: Book, meta: AuthorMetadata)
    requires book.author == NullRef
    ensures BookScore(Some(book.(authorMetadata := NotLoaded(Some(meta))))) ==
            BookScore(Some(book.(authorMetadata := NullRef))) + 20
  {
    var fetched, absent := book.(authorMetadata := NotLoaded(Some(meta))), book.(authorMetadata := NullRef);
    assert ImportantBookPoints(fetched) == ImportantBookPoints(absent);
    assert NiceBookPoints(fetched) == NiceBookPoints(absent);
  }
}

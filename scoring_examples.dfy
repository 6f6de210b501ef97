/// The records of the current scorer's test fixture and the scores they are pinned to.
module ScoringExamples {
  import opened Nullable
  import opened Books
  import opened Scoring

  const Foundation: Option<string> := Some("Foundation")
  const Asimov := BlankAuthorMetadata.(name := Some("Isaac Asimov"))

  /** Title, author, release date, an empty genre list and an empty edition list. */
  const MinimalBook := BlankBook.(title := Foundation, hasReleaseDate := true,
                                  authorMetadata := Loaded(Some(Asimov)), editions := Loaded(Some([])))

  /** One monitored edition carrying every edition-level field. */
  const FullEdition := BlankEdition.(title := Foundation, isbn13 := Some("9780553293357"),
                                     overview := Some("The Fall of the Galactic Empire."),
                                     publisher := Some("Gnome Press"), pageCount := 244, language := Some("eng"),
                                     hasReleaseDate := true, images := [MediaCover("https://example.com/cover.jpg")],
                                     monitored := true)

  const FullBook := MinimalBook.(genres := ["Science Fiction"], editions := Loaded(Some([FullEdition])))

  /** An edition identified by an ASIN instead of an ISBN-13. */
  const AsinEdition := BlankEdition.(title := Foundation, asin := Some("B000FC1PWU"), overview := Some("The fall."),
                                     publisher := Some("Publisher"), pageCount := 244, language := Some("eng"),
                                     images := [MediaCover("https://example.com/c.jpg")], monitored := true)

  const AsinBook := FullBook.(editions := Loaded(Some([AsinEdition])))

  /** A titled book whose author metadata relation is loaded with null. */
  const TitleOnlyBook := BlankBook.(title := Some("Untitled"), authorMetadata := Loaded(None),
                                    editions := Loaded(Some([])))

  const MinimalAuthor := BlankAuthor.(metadata := Loaded(Some(Asimov)))

  const FullAuthor := BlankAuthor.(metadata := Loaded(Some(Asimov.(
                        overview := Some("American science-fiction author."),
                        hometown := Some("Petrovichi, Russia"), hasBorn := true,
                        genres := ["Science Fiction"], aliases := ["Paul French"],
                        images := [MediaCover("https://example.com/asimov.jpg")]))))

  /** A string that starts with a letter or a digit is not blank. */
  lemma LetterIsNotBlank(s: string)
    requires |s| > 0 && '0' <= s[0] <= 'z'
    ensures !IsNullOrWhiteSpace(Some(s))
  {
    assert !IsWhiteSpace(s[0]);
  }

  /** The book fixtures: minimal 45 (below 50), full 100, ASIN instead of ISBN-13 still
      100, title only with a loaded-null author 20. */
  lemma BookFixtureScores()
    ensures BookScore(Some(MinimalBook)) == 45 < 50
    ensures BookScore(Some(FullBook)) == 100
    ensures BookScore(Some(AsinBook)) == 100
    ensures BookScore(Some(TitleOnlyBook)) == 20
    ensures BookScore(Some(MinimalBook)) < BookScore(Some(FullBook))
  {
    LetterIsNotBlank(Foundation.value);
    LetterIsNotBlank(Asimov.name.value);
    LetterIsNotBlank(FullEdition.isbn13.value);
    LetterIsNotBlank(FullEdition.overview.value);
    LetterIsNotBlank(FullEdition.publisher.value);
    LetterIsNotBlank(FullEdition.language.value);
    LetterIsNotBlank(AsinEdition.asin.value);
    LetterIsNotBlank(AsinEdition.overview.value);
    LetterIsNotBlank(AsinEdition.publisher.value);
    LetterIsNotBlank("Untitled");
    assert SelectEdition(FullBook.editions) == Some(FullEdition);
    assert SelectEdition(AsinBook.editions) == Some(AsinEdition);
  }

  /** The author fixtures: name only 30, every field 100, metadata loaded with null 0. */
  lemma AuthorFixtureScores()
    ensures AuthorScore(Some(MinimalAuthor)) == 30
    ensures AuthorScore(Some(FullAuthor)) == 100
    ensures AuthorScore(Some(BlankAuthor.(metadata := Loaded(None)))) == 0
    ensures AuthorScore(Some(MinimalAuthor)) < AuthorScore(Some(FullAuthor))
  {
    LetterIsNotBlank(Asimov.name.value);
    LetterIsNotBlank("American science-fiction author.");
    LetterIsNotBlank("Petrovichi, Russia");
  }
}

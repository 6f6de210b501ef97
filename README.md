# Bibliophilarr metadata-source core, modelled in Dafny

This project models three parts of Bibliophilarr's metadata-source layer and proves
properties about each.

- **The current quality scorer** (`Scoring/MetadataQualityScorer.cs`, module `Scoring`).
  - It scores a book from 0 to 100. Four work-level fields count, plus six fields of one
    selected edition. The selected edition is the first monitored edition, otherwise the
    first edition.
  - It scores an author from 0 to 100, from seven fields of the author metadata.
  - A relation that is not loaded earns nothing.
- **The legacy quality scorer** (`MetadataQualityScorer.cs`, module `LegacyScoring`).
  - It scores books, authors and editions from three groups of fields each: essential,
    important and nice-to-have.
  - It reads a relation's value whether or not the relation is loaded.
  - Its acceptability threshold is 50.
- **The metadata provider registry** (`Registry/MetadataProviderRegistry.cs`, module
  `Registry`).
  - It is a class holding the registered providers as a `seq`. `Register` appends to it.
  - Three queries are functions of that list: all providers ordered by priority, the
    enabled providers ordered by priority, and the primary provider.
  - The ordering is LINQ's `OrderBy`, a stable sort.

Supporting modules:

- `Nullable` holds `Option` and `Outcome`.
- `Books` holds the record shapes the scorers read and .NET's `string.IsNullOrWhiteSpace`.
- `Tables` is the reference definition of a score: a list of weights, each awarded once
  when its field is present. Every scorer is proved equal to a table sum of this kind, and
  its monotonicity follows from lemmas about tables. So do its bounds, except for the
  legacy edition table: it totals 115, and the bound of 100 there comes from ISBN-13 and
  ASIN points never being awarded together (`LegacyScoring.EditionTableBound`).
- `ScoringExamples` pins the current scorer's test fixtures to their scores.

How the C# values are represented:

- A `LazyLoaded<T>` relation is one of three cases:
  - `NullRef`: the property itself is null;
  - `NotLoaded(onAccess)`: not loaded, where `onAccess` is what reading `.Value` would
    return;
  - `Loaded(value)`: loaded, with a value that may be null.
- A nullable string is an `Option<string>`. A plain list that may be null is a `seq`,
  with null treated as empty, because the scorers only ask `?.Any()` and `Count` of such
  lists.
- A nullable date is a `bool` (`HasValue`).
- `Ratings` is an `Option` of a record holding the vote count.
- A provider is the record (name, priority, enabled). A null provider is `None`.

## Model

| member | source | states |
|---|---|---|
| Books.ValueOf | src/NzbDrone.Core/MetadataSource/MetadataQualityScorer.cs:33 | `relation?.Value` is null for a null relation and is the stored value for a loaded one |
| Books.IsWhiteSpace | src/NzbDrone.Core/MetadataSource/MetadataQualityScorer.cs:28 | a character is white space exactly when .NET's `char.IsWhiteSpace` says so: the space separators, the line and paragraph separators, U+0009 to U+000D and U+0085, which every blank-string test relies on |
| Books.IsNullOrWhiteSpace | src/NzbDrone.Core/MetadataSource/MetadataQualityScorer.cs:28 | a string is blank when it is null, empty or made of white space only (`string.IsNullOrWhiteSpace`), the test behind every string field of both scorers |
| Scoring.FirstMonitoredIndex | src/NzbDrone.Core/MetadataSource/Scoring/MetadataQualityScorer.cs:81 | the index is of a monitored edition and no earlier edition is monitored; none exactly when no edition is monitored |
| Scoring.SelectedIndex | src/NzbDrone.Core/MetadataSource/Scoring/MetadataQualityScorer.cs:81-82 | an edition is selected exactly when the list is non-empty; it is the first monitored one, or the first one when none is monitored |
| Scoring.SelectEdition | src/NzbDrone.Core/MetadataSource/Scoring/MetadataQualityScorer.cs:76-83 | an edition is selected exactly when the relation is loaded with a non-empty list; it belongs to the list and is the first monitored one, or else the first |
| Scoring.SelectionIgnoresOtherFields | src/NzbDrone.Core/MetadataSource/Scoring/MetadataQualityScorer.cs:81-82 | replacing an edition by one with the same monitored flag selects the same position |
| Scoring.BookScore | src/NzbDrone.Core/MetadataSource/Scoring/MetadataQualityScorer.cs:43-119 | a null book scores 0; every score lies in [0, 100]; with no selected edition a book scores at most 50 |
| Scoring.AuthorScore | src/NzbDrone.Core/MetadataSource/Scoring/MetadataQualityScorer.cs:122-178 | a null author scores 0, and so does one whose metadata is null, not loaded or loaded with null; every score lies in [0, 100] |
| Scoring.TablesTotalHundred | src/NzbDrone.Core/MetadataSource/Scoring/MetadataQualityScorer.cs:21-40 | the book weights and the author weights each total 100 |
| Scoring.WorkPointsMatchTable | src/NzbDrone.Core/MetadataSource/Scoring/MetadataQualityScorer.cs:52-73 | the work-level points are the weights of the populated work-level fields, each once |
| Scoring.EditionPointsMatchTable | src/NzbDrone.Core/MetadataSource/Scoring/MetadataQualityScorer.cs:85-116 | the edition points are the weights of the populated edition fields, each once |
| Scoring.BookScoreMatchesTable | src/NzbDrone.Core/MetadataSource/Scoring/MetadataQualityScorer.cs:43-119 | a book's score is the table sum over its ten scored fields, which is at most 100 |
| Scoring.MetadataPointsMatchTable | src/NzbDrone.Core/MetadataSource/Scoring/MetadataQualityScorer.cs:140-177 | the author points are the weights of the populated metadata fields, each once |
| Scoring.AuthorScoreMatchesTable | src/NzbDrone.Core/MetadataSource/Scoring/MetadataQualityScorer.cs:122-178 | with loaded metadata, an author's score is the table sum over its seven scored fields |
| Scoring.MoreBookFieldsNeverLower | src/NzbDrone.Core/MetadataSource/Scoring/MetadataQualityScorer.cs:50-118 | a book with a superset of populated scored fields never scores lower, and each scored field it has that the other lacks raises its score by at least that field's weight |
| Scoring.MoreAuthorFieldsNeverLower | src/NzbDrone.Core/MetadataSource/Scoring/MetadataQualityScorer.cs:140-177 | the same for authors with loaded metadata |
| Scoring.MoreSelectedEditionFieldsNeverLower | src/NzbDrone.Core/MetadataSource/Scoring/MetadataQualityScorer.cs:75-116 | populating more fields of the selected edition, keeping its monitored flag, never lowers the book's score |
| Scoring.AuthorPointsNeedLoadedName | src/NzbDrone.Core/MetadataSource/Scoring/MetadataQualityScorer.cs:58-63 | the author relation adds 20 exactly when it is loaded, non-null and named, and nothing else about it counts |
| Scoring.NoEditionNoEditionPoints | src/NzbDrone.Core/MetadataSource/Scoring/MetadataQualityScorer.cs:76-85 | with the edition list null, unloaded or empty, the score is the work-level points alone, at most 50 |
| Scoring.IdentifierPointsOnce | src/NzbDrone.Core/MetadataSource/Scoring/MetadataQualityScorer.cs:87-90 | an ISBN-13 or an ASIN earns the 15 identifier points, and both together earn them once |
| Scoring.UnloadedRelationsAreNotRead | src/NzbDrone.Core/MetadataSource/Scoring/MetadataQualityScorer.cs:16-17 | whatever an unloaded relation would fetch, the book scores as if the relation were null; an author with unloaded metadata scores 0 |
| ScoringExamples.BookFixtureScores | src/NzbDrone.Core.Test/MetadataSource/Scoring/MetadataQualityScorerFixture.cs:95-159 | the minimal book scores 45 (below 50), the full book 100, the ASIN book 100, the title-only book 20 |
| ScoringExamples.AuthorFixtureScores | src/NzbDrone.Core.Test/MetadataSource/Scoring/MetadataQualityScorerFixture.cs:170-190 | the minimal author scores 30, the full author 100, an author whose metadata is loaded with null 0 |
| LegacyScoring.BookScore | src/NzbDrone.Core/MetadataSource/MetadataQualityScorer.cs:18-98 | a null book scores 0; every score lies in [0, 100] |
| LegacyScoring.AuthorScore | src/NzbDrone.Core/MetadataSource/MetadataQualityScorer.cs:103-170 | a null author scores 0; every score lies in [0, 100] |
| LegacyScoring.IdentifierPoints | src/NzbDrone.Core/MetadataSource/MetadataQualityScorer.cs:195-202 | 20 exactly when there is an ISBN-13; 15 exactly when there is an ASIN and no ISBN-13; 0 exactly when there is neither |
| LegacyScoring.EditionScore | src/NzbDrone.Core/MetadataSource/MetadataQualityScorer.cs:175-252 | a null edition scores 0; every score lies in [0, 100] |
| LegacyScoring.EditionTableBound | src/NzbDrone.Core/MetadataSource/MetadataQualityScorer.cs:184-249 | the edition weights total 115, yet an edition earns at most 100 from them, because ISBN-13 and ASIN points are never both awarded |
| LegacyScoring.ImportantBookPresence | src/NzbDrone.Core/MetadataSource/MetadataQualityScorer.cs:54-63 | the multiple-editions bonus is present only together with a non-empty edition list |
| LegacyScoring.EssentialEditionPresence | src/NzbDrone.Core/MetadataSource/MetadataQualityScorer.cs:195-202 | the ISBN-13 and ASIN identifier fields are never both present |
| LegacyScoring.TablesTotalHundred | src/NzbDrone.Core/MetadataSource/MetadataQualityScorer.cs:27-95 | the book groups total 60 + 25 + 15 and the author groups 60 + 20 + 20, so both tables total 100 |
| LegacyScoring.EssentialBookMatchesTable | src/NzbDrone.Core/MetadataSource/MetadataQualityScorer.cs:27-41 | the essential book points are the table sum of title, author link and foreign book id |
| LegacyScoring.ImportantBookMatchesTable | src/NzbDrone.Core/MetadataSource/MetadataQualityScorer.cs:43-68 | the important book points are the table sum of release date, foreign edition id, editions, the multiple-editions bonus and ratings |
| LegacyScoring.NiceBookMatchesTable | src/NzbDrone.Core/MetadataSource/MetadataQualityScorer.cs:70-95 | the nice-to-have book points are the table sum of genres, links, series links, related books and covers |
| LegacyScoring.BookScoreMatchesTable | src/NzbDrone.Core/MetadataSource/MetadataQualityScorer.cs:18-98 | a book's score is the table sum over its thirteen scored fields |
| LegacyScoring.EssentialAuthorMatchesTable | src/NzbDrone.Core/MetadataSource/MetadataQualityScorer.cs:112-130 | the essential author points are the table sum of name, foreign author id and books |
| LegacyScoring.ImportantAuthorMatchesTable | src/NzbDrone.Core/MetadataSource/MetadataQualityScorer.cs:132-146 | the important author points are the table sum of overview, images and ratings |
| LegacyScoring.NiceAuthorMatchesTable | src/NzbDrone.Core/MetadataSource/MetadataQualityScorer.cs:148-167 | the nice-to-have author points are the table sum of birth date, links, series and genres |
| LegacyScoring.AuthorScoreMatchesTable | src/NzbDrone.Core/MetadataSource/MetadataQualityScorer.cs:103-170 | an author's score is the table sum over its ten scored fields |
| LegacyScoring.EssentialEditionMatchesTable | src/NzbDrone.Core/MetadataSource/MetadataQualityScorer.cs:184-202 | the essential edition points are the table sum of title, foreign edition id, ISBN-13 and ASIN-without-ISBN-13 |
| LegacyScoring.ImportantEditionMatchesTable | src/NzbDrone.Core/MetadataSource/MetadataQualityScorer.cs:204-228 | the important edition points are the table sum of release date, publisher, page count, format and images |
| LegacyScoring.NiceEditionMatchesTable | src/NzbDrone.Core/MetadataSource/MetadataQualityScorer.cs:230-249 | the nice-to-have edition points are the table sum of overview, ratings, links and language |
| LegacyScoring.EditionScoreMatchesTable | src/NzbDrone.Core/MetadataSource/MetadataQualityScorer.cs:175-252 | an edition's score is the table sum over its thirteen scored fields |
| LegacyScoring.MoreBookFieldsNeverLower | src/NzbDrone.Core/MetadataSource/MetadataQualityScorer.cs:25-97 | a book with a superset of present scored fields never scores lower, and each scored field it has that the other lacks raises its score by at least that field's weight |
| LegacyScoring.MoreAuthorFieldsNeverLower | src/NzbDrone.Core/MetadataSource/MetadataQualityScorer.cs:110-169 | an author with a superset of present scored fields never scores lower, and each scored field it has that the other lacks raises its score by at least that field's weight |
| LegacyScoring.MoreEditionFieldsNeverLower | src/NzbDrone.Core/MetadataSource/MetadataQualityScorer.cs:182-251 | an edition with a superset of present scored fields never scores lower, and each scored field it has that the other lacks raises its score by at least that field's weight |
| LegacyScoring.AuthorLinkAwardedOnce | src/NzbDrone.Core/MetadataSource/MetadataQualityScorer.cs:33-36 | the author link adds 20 when either author relation has a value, and 20 once when both do |
| LegacyScoring.EditionListPoints | src/NzbDrone.Core/MetadataSource/MetadataQualityScorer.cs:54-95 | an edition list adds 5 when non-empty, 5 more for more than one edition, and 3 when any edition, not only the first, has images |
| LegacyScoring.AuthorNameAwardedOnce | src/NzbDrone.Core/MetadataSource/MetadataQualityScorer.cs:113-120 | the metadata name or else the author's own name earns 25, once even when both are there, whether the metadata is loaded or not; without metadata the author's own name alone decides |
| LegacyScoring.IdentifierAwardedOnce | src/NzbDrone.Core/MetadataSource/MetadataQualityScorer.cs:195-202 | an edition earns 20 for an ISBN-13, otherwise 15 for an ASIN, never both |
| LegacyScoring.AcceptabilityThreshold | src/NzbDrone.Core/MetadataSource/MetadataQualityScorer.cs:257-260 | acceptability is upward closed, 50 is acceptable and 49 is not |
| LegacyScoring.EssentialFieldsDecideAcceptability | src/NzbDrone.Core/MetadataSource/MetadataQualityScorer.cs:13 | for books, authors and editions, all essential fields present makes the score acceptable and none present makes it unacceptable |
| LegacyScoring.UnloadedRelationsAreRead | src/NzbDrone.Core/MetadataSource/MetadataQualityScorer.cs:33-36 | an unloaded author-metadata relation with a value on access earns the 20 author points |
| LegacyScoring.MinimumAcceptableScore | src/NzbDrone.Core/MetadataSource/MetadataQualityScorer.cs:13 | the acceptability threshold is the constant 50 |
| LegacyScoring.IsQualityAcceptable | src/NzbDrone.Core/MetadataSource/MetadataQualityScorer.cs:257-260 | a score is acceptable exactly when it is at least `MinimumAcceptableScore`; its properties are in `AcceptabilityThreshold` |
| Registry.WhereEnabledMembers | src/NzbDrone.Core/MetadataSource/Registry/MetadataProviderRegistry.cs:50 | the enabled filter keeps exactly the enabled providers |
| Registry.WhereEnabled | src/NzbDrone.Core/MetadataSource/Registry/MetadataProviderRegistry.cs:50 | `Where(p => p.IsEnabled)`: the enabled providers in list order; `WhereEnabledMembers` shows it keeps exactly those, and `WhereEnabledKeepsOrder` that it keeps a sorted list sorted |
| Registry.FiltersCommute | src/NzbDrone.Core/MetadataSource/Registry/MetadataProviderRegistry.cs:49-52 | taking the providers of one priority and taking the enabled ones can be done in either order |
| Registry.Insert | src/NzbDrone.Core/MetadataSource/Registry/MetadataProviderRegistry.cs:40 | inserting into a sorted list gives a sorted list holding the old providers plus the new one |
| Registry.InsertGroup | src/NzbDrone.Core/MetadataSource/Registry/MetadataProviderRegistry.cs:40 | the inserted provider comes last among its priority and the other priority groups are unchanged |
| Registry.OrderByPriority | src/NzbDrone.Core/MetadataSource/Registry/MetadataProviderRegistry.cs:40 | the result is sorted by priority and is a permutation of the input |
| Registry.OrderKeepsGroup | src/NzbDrone.Core/MetadataSource/Registry/MetadataProviderRegistry.cs:40 | the sort is stable: the providers of each priority keep their input order |
| Registry.GroupsDetermineSorted | src/NzbDrone.Core/MetadataSource/Registry/MetadataProviderRegistry.cs:40 | two sorted lists with the same priority groups are equal, so a stable sort has only one possible result |
| Registry.EnabledOfOrdered | src/NzbDrone.Core/MetadataSource/Registry/MetadataProviderRegistry.cs:49-52 | filtering then sorting gives the same list as sorting then filtering |
| Registry.Registered | src/NzbDrone.Core/MetadataSource/Registry/MetadataProviderRegistry.cs:26-33 | a provider is appended with the old entries and their order intact, duplicates accepted; a null provider is refused with an argument error and the list is unchanged |
| Registry.RegisteredAsWritten | src/NzbDrone.Core/MetadataSource/Registry/MetadataProviderRegistry.cs:28-31 | as written, a null provider fails with a null dereference and the list is unchanged; any other provider is registered as `Registered` does |
| Registry.NullRegistrationDiverges | src/NzbDrone.Core.Test/MetadataSource/Registry/MetadataProviderRegistryFixture.cs:20-25 | the code and its test disagree on a null provider and agree on every other one |
| Registry.RegisteredComesLastInGroup | src/NzbDrone.Core/MetadataSource/Registry/MetadataProviderRegistry.cs:31 | after a registration the new provider is last among its priority in the ordered list, and the other priority groups are unchanged |
| Registry.PrimaryAfterRegister | src/NzbDrone.Core/MetadataSource/Registry/MetadataProviderRegistry.cs:58-67 | registering a provider makes it primary exactly when it is enabled and there was no primary provider or it has a strictly lower priority; otherwise the primary provider is unchanged |
| Registry.PrimaryOf | src/NzbDrone.Core/MetadataSource/Registry/MetadataProviderRegistry.cs:62-65 | `FirstOrDefault` of the enabled providers ordered by priority: none for an empty enabled list, else its head; `GetPrimaryProvider` states what that head is |
| Registry.OrderedScenario | src/NzbDrone.Core.Test/MetadataSource/Registry/MetadataProviderRegistryFixture.cs:38-49 | providers registered Google Books (3), Inventaire (2), Open Library (1) are listed in the reverse order |
| Registry.DisabledScenario | src/NzbDrone.Core.Test/MetadataSource/Registry/MetadataProviderRegistryFixture.cs:52-80 | disabled providers are listed by `GetProviders` and left out of the enabled list, which is empty when all are disabled |
| Registry.EnabledScenario | src/NzbDrone.Core.Test/MetadataSource/Registry/MetadataProviderRegistryFixture.cs:83-93 | the enabled providers come out in priority order, whatever the registration order |
| Registry.PrimaryScenario | src/NzbDrone.Core.Test/MetadataSource/Registry/MetadataProviderRegistryFixture.cs:98-128 | no primary provider in an empty or all-disabled registry; otherwise the lowest priority wins, and a disabled provider of the top priority is skipped |
| Registry.MetadataProviderRegistry.constructor | src/NzbDrone.Core/MetadataSource/Registry/MetadataProviderRegistry.cs:16-23 | a new registry has no providers |
| Registry.MetadataProviderRegistry.Register | src/NzbDrone.Core/MetadataSource/Registry/MetadataProviderRegistry.cs:26-33 | the new list and the outcome are those of `Registered` on the old list |
| Registry.MetadataProviderRegistry.GetProviders | src/NzbDrone.Core/MetadataSource/Registry/MetadataProviderRegistry.cs:36-42 | every registered provider, disabled ones included, as a permutation sorted by priority; equal priorities keep registration order |
| Registry.MetadataProviderRegistry.GetEnabledProviders | src/NzbDrone.Core/MetadataSource/Registry/MetadataProviderRegistry.cs:45-55 | exactly the enabled providers, sorted by priority, with equal priorities in registration order; the same as the enabled entries of `GetProviders` |
| Registry.MetadataProviderRegistry.GetPrimaryProvider | src/NzbDrone.Core/MetadataSource/Registry/MetadataProviderRegistry.cs:58-67 | none exactly when no provider is enabled; otherwise an enabled provider whose priority is lowest among the enabled ones, and the first of them registered |

## Left out

- Locking: `_lock` only serialises access to the in-memory list, so the registry is modelled
  as sequential.
- Logging: the NLog debug line in `Register` is a side effect. Its one modelled effect is
  that it dereferences the provider (see Findings).
- The queries return fresh read-only copies. Here they are functions of the registry's
  state with `reads this`, so they cannot change it.
- The aggregation engine (`IMetadataAggregator`, `AggregationOptions`, `AggregatedResult`)
  declares interfaces and plain records only. It has no behaviour to model.
- The older registry interface (`MetadataSource/IMetadataProviderRegistry.cs`) has no
  implementation.
- The provider contracts are asynchronous network calls. A provider is modelled only as
  its name, priority and enabled flag.
- Left out because they hold no logic to verify:
  - `ProviderHealthStatus` (floating-point statistics and clock readings);
  - `ProviderRateLimitInfo` (defaults only);
  - the exception classes.
- The database fetch behind an unloaded `LazyLoaded` relation is not modelled. Its result
  is the `onAccess` payload, which the model is given.
- Null elements inside lists (a null edition in an edition list, for example) are not
  represented. In C# both scorers would throw on one: the legacy cover check, and the
  current scorer's edition selection, which reads `Monitored` of every edition before the
  first monitored one.
- Dates are reduced to whether they have a value. No scorer reads more.
- `NzbDrone.Common.Extensions` is not part of this model. Its `IsNullOrWhiteSpace()` and
  `IsNotNullOrWhiteSpace()` string extensions are taken to agree with
  `string.IsNullOrWhiteSpace`.
- The `Author` class is not part of this model. `Author.Name` and `Author.ForeignAuthorId`
  are modelled as stored fields. If they are derived from the metadata relation, the
  legacy author score reads that relation more often than modelled.
- Integer widths: every score is a sum of at most 100, so `int` overflow cannot occur.
  Page counts and vote counts are only compared with 0.

## Findings

| source | as written | input that shows it | evidently intended | confidence | as-written member | corrected member |
|---|---|---|---|---|---|---|
| src/NzbDrone.Core/MetadataSource/Registry/MetadataProviderRegistry.cs:28-31 | `Register` reads `provider.ProviderName` for the log line with no null check, so a null provider fails with a null dereference | `Register(null)` | reject a null provider with an argument-null error before touching the list, as the test at src/NzbDrone.Core.Test/MetadataSource/Registry/MetadataProviderRegistryFixture.cs:20-25 expects | high, not executed | Registry.RegisteredAsWritten | Registry.Registered |

`Registry.NullRegistrationDiverges` shows the two behaviours differ on a null provider and
only there. The registry class uses the corrected `Registered`.

/// The metadata provider registry (MetadataProviderRegistry): an append-only list of
/// providers and three queries over it, all providers and the enabled ones ordered by
/// priority with a stable sort, and the primary provider, the first enabled one.
module Registry {
  import opened Nullable

  /** A provider as the registry sees it: its name, its priority (lower comes first) and
      whether it is enabled. */
  datatype Provider = Provider(name: string, priority: int, enabled: bool)

  /** Why a registration failed. */
  datatype RegisterError =
    | ArgumentNull   // the provider was null and was rejected up front
    | NullReference  // the provider was null and was dereferenced

  // ---------------------------------------------------------------- filters

  /** The providers of one priority, in list order. */
  function OfPriority(s: seq<Provider>, k: int): seq<Provider>
  {
    if |s| == 0 then [] else (if s[0].priority == k then [s[0]] else []) + OfPriority(s[1..], k)
  }

  /** `Where(p => p.IsEnabled)`: the enabled providers, in list order. */
  function WhereEnabled(s: seq<Provider>): seq<Provider>
  {
    if |s| == 0 then [] else (if s[0].enabled then [s[0]] else []) + WhereEnabled(s[1..])
  }

  /** A list's first provider opens its own priority group. */
  lemma HeadLeadsGroup(s: seq<Provider>)
    requires |s| > 0
    ensures OfPriority(s, s[0].priority) == [s[0]] + OfPriority(s[1..], s[0].priority)
  {
  }

  /** The group of one priority in a one-provider list. */
  lemma OfPrioritySingle(p: Provider, k: int)
    ensures OfPriority([p], k) == if p.priority == k then [p] else []
  {
    assert [p][1..] == [];
  }

  /** A priority group holds exactly the providers of that priority. */
  lemma {:induction false} OfPriorityMembers(s: seq<Provider>, k: int)
    ensures forall p :: p in OfPriority(s, k) <==> p in s && p.priority == k
    decreases |s|
  {
    if |s| > 0 {
      OfPriorityMembers(s[1..], k);
      assert s == [s[0]] + s[1..];
    }
  }

  /** The enabled filter holds exactly the enabled providers. */
  lemma {:induction false} WhereEnabledMembers(s: seq<Provider>)
    ensures forall p :: p in WhereEnabled(s) <==> p in s && p.enabled
    decreases |s|
  {
    if |s| > 0 {
      WhereEnabledMembers(s[1..]);
      assert s == [s[0]] + s[1..];
    }
  }

  lemma {:induction false} OfPriorityAppend(a: seq<Provider>, b: seq<Provider>, k: int)
    ensures OfPriority(a + b, k) == OfPriority(a, k) + OfPriority(b, k)
    decreases |a|
  {
    if |a| > 0 {
      assert (a + b)[1..] == a[1..] + b;
      OfPriorityAppend(a[1..], b, k);
    } else {
      assert a + b == b;
    }
  }

  lemma {:induction false} WhereEnabledAppend(a: seq<Provider>, b: seq<Provider>)
    ensures WhereEnabled(a + b) == WhereEnabled(a) + WhereEnabled(b)
    decreases |a|
  {
    if |a| > 0 {
      assert (a + b)[1..] == a[1..] + b;
      WhereEnabledAppend(a[1..], b);
    } else {
      assert a + b == b;
    }
  }

  /** The two filters commute. */
  lemma {:induction false} FiltersCommute(s: seq<Provider>, k: int)
    ensures OfPriority(WhereEnabled(s), k) == WhereEnabled(OfPriority(s, k))
    decreases |s|
  {
    if |s| > 0 {
      FiltersCommute(s[1..], k);
      var head := if s[0].enabled then [s[0]] else [];
      OfPriorityAppend(head, WhereEnabled(s[1..]), k);
      var group := if s[0].priority == k then [s[0]] else [];
      WhereEnabledAppend(group, OfPriority(s[1..], k));
    }
  }

  // ---------------------------------------------------------------- the stable sort

  /** Ascending by priority. */
  predicate SortedByPriority(s: seq<Provider>)
  {
    forall i, j :: 0 <= i < j < |s| ==> s[i].priority <= s[j].priority
  }

  /** The head of a sorted list has the lowest priority in it. */
  lemma HeadIsLowest(s: seq<Provider>, x: Provider)
    requires SortedByPriority(s) && x in s
    ensures s[0].priority <= x.priority
  {
    var i :| 0 <= i < |s| && s[i] == x;
  }

  /** Filtering a sorted list keeps it sorted. */
  lemma {:induction false} WhereEnabledKeepsOrder(s: seq<Provider>)
    requires SortedByPriority(s)
    ensures SortedByPriority(WhereEnabled(s))
    decreases |s|
  {
    if |s| > 0 {
      WhereEnabledKeepsOrder(s[1..]);
      var rest := WhereEnabled(s[1..]);
      WhereEnabledMembers(s[1..]);
      forall p | p in rest
        ensures s[0].priority <= p.priority
      {
        HeadIsLowest(s, p);
      }
    }
  }

  /** A provider no later in priority than the head of a sorted list can go in front. */
  lemma ConsSorted(x: Provider, t: seq<Provider>)
    requires SortedByPriority(t) && (|t| == 0 || x.priority <= t[0].priority)
    ensures SortedByPriority([x] + t)
  {
    forall i, j | 0 <= i < j < |[x] + t|
      ensures ([x] + t)[i].priority <= ([x] + t)[j].priority
    {
      if i == 0 && j > 1 {
        assert t[0].priority <= t[j - 1].priority;
      }
    }
  }

  /** Inserts `p` into a sorted list after every provider of the same or a lower priority. */
  function Insert(p: Provider, s: seq<Provider>): (r: seq<Provider>)
    requires SortedByPriority(s)
    ensures SortedByPriority(r)
    ensures multiset(r) == multiset(s) + multiset{p}
    ensures |r| == |s| + 1 && (r[0] == p || (|s| > 0 && r[0] == s[0]))
    decreases |s|
  {
    if |s| == 0 then [p]
    else if p.priority < s[0].priority then
      ConsSorted(p, s);
      [p] + s
    else
      var rest := Insert(p, s[1..]);
      assert s[0].priority <= rest[0].priority by {
        if rest[0] != p {
          assert rest[0] == s[1];
        }
      }
      ConsSorted(s[0], rest);
      assert multiset(s) == multiset{s[0]} + multiset(s[1..]) by {
        assert s == [s[0]] + s[1..];
      }
      [s[0]] + rest
  }

  /** A sorted list has no provider of a priority below its head's. */
  lemma {:induction false} NoLowerGroup(s: seq<Provider>, k: int)
    requires SortedByPriority(s) && |s| > 0 && k < s[0].priority
    ensures OfPriority(s, k) == []
    decreases |s|
  {
    if |s| > 1 {
      assert s[0].priority <= s[1].priority;
      NoLowerGroup(s[1..], k);
    }
  }

  /** Insertion puts `p` last among the providers of its priority and leaves the other
      priority groups as they were. */
  lemma {:induction false} InsertGroup(p: Provider, s: seq<Provider>, k: int)
    requires SortedByPriority(s)
    ensures OfPriority(Insert(p, s), k) == OfPriority(s, k) + OfPriority([p], k)
    decreases |s|
  {
    if |s| == 0 {
      assert Insert(p, s) == [p];
    } else if p.priority < s[0].priority {
      InsertFrontGroup(p, s, k);
    } else {
      InsertGroup(p, s[1..], k);
      InsertLaterGroup(p, s, k);
    }
  }

  /** The step of `InsertGroup` where `p` goes in front. */
  lemma InsertFrontGroup(p: Provider, s: seq<Provider>, k: int)
    requires SortedByPriority(s) && |s| > 0 && p.priority < s[0].priority
    ensures OfPriority(Insert(p, s), k) == OfPriority(s, k) + OfPriority([p], k)
  {
    assert Insert(p, s) == [p] + s;
    OfPriorityAppend([p], s, k);
    OfPrioritySingle(p, k);
    if p.priority == k {
      NoLowerGroup(s, k);
    }
  }

  /** The step of `InsertGroup` where `p` goes after the head. */
  lemma InsertLaterGroup(p: Provider, s: seq<Provider>, k: int)
    requires SortedByPriority(s) && |s| > 0 && s[0].priority <= p.priority
    requires OfPriority(Insert(p, s[1..]), k) == OfPriority(s[1..], k) + OfPriority([p], k)
    ensures OfPriority(Insert(p, s), k) == OfPriority(s, k) + OfPriority([p], k)
  {
    InsertAfterHead(p, s);
    ConsGroup(s, Insert(p, s[1..]), OfPriority([p], k), k);
  }

  /** Where `p` does not go in front, the head stays in front. */
  lemma InsertAfterHead(p: Provider, s: seq<Provider>)
    requires SortedByPriority(s) && |s| > 0 && s[0].priority <= p.priority
    ensures Insert(p, s) == [s[0]] + Insert(p, s[1..])
  {
  }

  /** Putting a list's head in front of another list adds the head's group membership
      to it. */
  lemma ConsGroup(s: seq<Provider>, rest: seq<Provider>, extra: seq<Provider>, k: int)
    requires |s| > 0 && OfPriority(rest, k) == OfPriority(s[1..], k) + extra
    ensures OfPriority([s[0]] + rest, k) == OfPriority(s, k) + extra
  {
    OfPriorityAppend([s[0]], rest, k);
    OfPrioritySingle(s[0], k);
  }

  /** LINQ's `OrderBy(p => p.Priority)`, a stable sort by insertion in list order: its
      result is sorted and a permutation of the input. */
  function OrderByPriority(s: seq<Provider>): (r: seq<Provider>)
    ensures SortedByPriority(r)
    ensures multiset(r) == multiset(s)
    decreases |s|
  {
    if |s| == 0 then []
    else
      assert s == s[..|s| - 1] + [s[|s| - 1]];
      Insert(s[|s| - 1], OrderByPriority(s[..|s| - 1]))
  }

  /** The sort is stable: the providers of each priority keep their input order. */
  lemma {:induction false} OrderKeepsGroup(s: seq<Provider>, k: int)
    ensures OfPriority(OrderByPriority(s), k) == OfPriority(s, k)
    decreases |s|
  {
    if |s| > 0 {
      var front, last := s[..|s| - 1], s[|s| - 1];
      assert s == front + [last];
      OrderKeepsGroup(front, k);
      InsertGroup(last, OrderByPriority(front), k);
      OfPriorityAppend(front, [last], k);
    }
  }

  /** A sorted list is determined by its priority groups: a stable sort has exactly one
      possible result. */
  lemma {:induction false} GroupsDetermineSorted(a: seq<Provider>, b: seq<Provider>)
    requires SortedByPriority(a) && SortedByPriority(b)
    requires forall k :: OfPriority(a, k) == OfPriority(b, k)
    ensures a == b
    decreases |a|
  {
    if |a| > 0 && |b| > 0 {
      SamePriorityHead(a, b);
      var m := a[0].priority;
      assert OfPriority(a, m) == [a[0]] + OfPriority(a[1..], m);
      assert OfPriority(b, m) == [b[0]] + OfPriority(b[1..], m);
      assert a[0] == b[0] by {
        assert OfPriority(a, m)[0] == a[0];
      }
      forall k
        ensures OfPriority(a[1..], k) == OfPriority(b[1..], k)
      {
        TailGroup(a, b, k);
      }
      GroupsDetermineSorted(a[1..], b[1..]);
      assert a == [a[0]] + a[1..];
      assert b == [b[0]] + b[1..];
    } else if |a| > 0 {
      assert OfPriority(a, a[0].priority) != OfPriority(b, a[0].priority);
    } else if |b| > 0 {
      assert OfPriority(a, b[0].priority) != OfPriority(b, b[0].priority);
    }
  }

  /** Two sorted lists with the same priority groups start with the same priority. */
  lemma SamePriorityHead(a: seq<Provider>, b: seq<Provider>)
    requires SortedByPriority(a) && SortedByPriority(b) && |a| > 0 && |b| > 0
    requires OfPriority(a, a[0].priority) == OfPriority(b, a[0].priority)
    requires OfPriority(a, b[0].priority) == OfPriority(b, b[0].priority)
    ensures a[0].priority == b[0].priority
  {
    var m, n := a[0].priority, b[0].priority;
    OfPriorityMembers(a, m);
    OfPriorityMembers(b, m);
    OfPriorityMembers(a, n);
    OfPriorityMembers(b, n);
    assert a[0] in OfPriority(a, m);
    assert b[0] in OfPriority(b, n);
    HeadIsLowest(a, b[0]);
    HeadIsLowest(b, a[0]);
  }

  /** Lists with equal heads and equal groups of one priority have tails with equal groups
      of that priority. */
  lemma TailGroup(a: seq<Provider>, b: seq<Provider>, k: int)
    requires |a| > 0 && |b| > 0 && a[0] == b[0]
    requires OfPriority(a, k) == OfPriority(b, k)
    ensures OfPriority(a[1..], k) == OfPriority(b[1..], k)
  {
    var head := if a[0].priority == k then [a[0]] else [];
    assert OfPriority(a, k) == head + OfPriority(a[1..], k);
    assert OfPriority(b, k) == head + OfPriority(b[1..], k);
    assert OfPriority(a[1..], k) == OfPriority(a, k)[|head|..];
    assert OfPriority(b[1..], k) == OfPriority(b, k)[|head|..];
  }

  /** Filtering and the stable sort commute: the enabled providers in priority order are
      the enabled entries of the full priority order. */
  lemma EnabledOfOrdered(s: seq<Provider>)
    ensures OrderByPriority(WhereEnabled(s)) == WhereEnabled(OrderByPriority(s))
  {
    var ordered := OrderByPriority(s);
    WhereEnabledKeepsOrder(ordered);
    forall k
      ensures OfPriority(OrderByPriority(WhereEnabled(s)), k) == OfPriority(WhereEnabled(ordered), k)
    {
      OrderKeepsGroup(WhereEnabled(s), k);
      OrderKeepsGroup(s, k);
      FiltersCommute(s, k);
      FiltersCommute(ordered, k);
    }
    GroupsDetermineSorted(OrderByPriority(WhereEnabled(s)), WhereEnabled(ordered));
  }

  /** `FirstOrDefault` of the enabled providers in priority order. */
  function PrimaryOf(s: seq<Provider>): Option<Provider>
  {
    var enabled := OrderByPriority(WhereEnabled(s));
    if |enabled| == 0 then None else Some(enabled[0])
  }

  // ---------------------------------------------------------------- registration

  /** What registration does to the list and what it reports: a provider is appended,
      duplicates included; a null provider is rejected and the list is unchanged. */
  function Registered(providers: seq<Provider>, provider: Option<Provider>): (result: (seq<Provider>, Outcome<RegisterError>))
    ensures provider.None? ==> result == (providers, Fail(ArgumentNull))
    ensures provider.Some? ==> |result.0| == |providers| + 1 && result.0[..|providers|] == providers
                               && result.0[|providers|] == provider.value && result.1 == Pass
  {
    match provider
    case None => (providers, Fail(ArgumentNull))
    case Some(p) => (providers + [p], Pass)
  }

  /** Registration as the code is written: the provider's name and priority are read for
      the log line before the list is touched, so a null provider fails there with a null
      dereference rather than an argument error. */
  function RegisteredAsWritten(providers: seq<Provider>, provider: Option<Provider>): (result: (seq<Provider>, Outcome<RegisterError>))
    ensures provider.None? ==> result == (providers, Fail(NullReference))
    ensures provider.Some? ==> result == Registered(providers, provider)
  {
    match provider
    case None => (providers, Fail(NullReference))
    case Some(p) => (providers + [p], Pass)
  }

  /** The code and its test disagree on a null provider, and only there. */
  lemma NullRegistrationDiverges(providers: seq<Provider>)
    ensures RegisteredAsWritten(providers, None).1 == Fail(NullReference)
    ensures Registered(providers, None).1 == Fail(ArgumentNull)
    ensures RegisteredAsWritten(providers, None) != Registered(providers, None)
    ensures forall p :: RegisteredAsWritten(providers, Some(p)) == Registered(providers, Some(p))
  {
  }

  /** A newly registered provider comes last among the providers of its priority and
      leaves every other priority group as it was. */
  lemma RegisteredComesLastInGroup(providers: seq<Provider>, p: Provider)
    ensures OfPriority(OrderByPriority(providers + [p]), p.priority) == OfPriority(OrderByPriority(providers), p.priority) + [p]
    ensures forall k :: k != p.priority ==> OfPriority(OrderByPriority(providers + [p]), k) == OfPriority(OrderByPriority(providers), k)
  {
    forall k
      ensures OfPriority(OrderByPriority(providers + [p]), k) ==
              OfPriority(OrderByPriority(providers), k) + if p.priority == k then [p] else []
    {
      OrderKeepsGroup(providers + [p], k);
      OrderKeepsGroup(providers, k);
      OfPriorityAppend(providers, [p], k);
      OfPrioritySingle(p, k);
    }
    assert OfPriority(OrderByPriority(providers), p.priority) + [] == OfPriority(OrderByPriority(providers), p.priority);
  }

  /** After registering `p`, the primary provider is `p` exactly when `p` is enabled and
      either there was no primary provider or `p` has a strictly lower priority; otherwise
      it is unchanged. */
  lemma PrimaryAfterRegister(providers: seq<Provider>, p: Provider)
    ensures PrimaryOf(providers + [p]) ==
            if p.enabled && (PrimaryOf(providers).None? || p.priority < PrimaryOf(providers).value.priority)
            then Some(p) else PrimaryOf(providers)
  {
    WhereEnabledAppend(providers, [p]);
    var before := WhereEnabled(providers);
    if p.enabled {
      assert WhereEnabled(providers + [p]) == before + [p];
      assert (before + [p])[..|before + [p]| - 1] == before;
    } else {
      assert WhereEnabled(providers + [p]) == before;
    }
  }

  // ---------------------------------------------------------------- the registry's own scenarios

  const OpenLibrary := Provider("Open Library", 1, true)
  const Inventaire := Provider("Inventaire", 2, true)
  const GoogleBooks := Provider("Google Books", 3, true)
  const DisabledProvider := Provider("Disabled Provider", 2, false)
  const DisabledA := Provider("Disabled A", 1, false)
  const DisabledB := Provider("Disabled B", 2, false)
  const Disabled := Provider("Disabled", 1, false)

  /** Registration order does not decide the priority order. */
  lemma OrderedScenario()
    ensures OrderByPriority([GoogleBooks, Inventaire, OpenLibrary]) == [OpenLibrary, Inventaire, GoogleBooks]
  {
    assert [GoogleBooks, Inventaire, OpenLibrary][..2] == [GoogleBooks, Inventaire];
    assert [GoogleBooks, Inventaire][..1] == [GoogleBooks];
    assert OrderByPriority([GoogleBooks]) == [GoogleBooks];
    assert OrderByPriority([GoogleBooks, Inventaire]) == [Inventaire, GoogleBooks];
    assert [Inventaire, GoogleBooks][1..] == [GoogleBooks];
    assert Insert(OpenLibrary, [Inventaire, GoogleBooks]) == [OpenLibrary, Inventaire, GoogleBooks];
  }

  /** Disabled providers are listed, but are never enabled. */
  lemma DisabledScenario()
    ensures OrderByPriority([OpenLibrary, DisabledProvider]) == [OpenLibrary, DisabledProvider]
    ensures OrderByPriority(WhereEnabled([OpenLibrary, DisabledProvider])) == [OpenLibrary]
    ensures OrderByPriority(WhereEnabled([DisabledA, DisabledB])) == []
  {
    assert [OpenLibrary, DisabledProvider][..1] == [OpenLibrary];
    assert OrderByPriority([OpenLibrary]) == [OpenLibrary];
    assert [OpenLibrary][1..] == [];
    assert Insert(DisabledProvider, [OpenLibrary]) == [OpenLibrary, DisabledProvider];
    assert [OpenLibrary, DisabledProvider][1..] == [DisabledProvider];
    assert [DisabledProvider][1..] == [];
    assert WhereEnabled([DisabledProvider]) == [];
    assert WhereEnabled([OpenLibrary, DisabledProvider]) == [OpenLibrary];
    assert [DisabledA, DisabledB][1..] == [DisabledB];
    assert [DisabledB][1..] == [];
    assert WhereEnabled([DisabledB]) == [];
    assert WhereEnabled([DisabledA, DisabledB]) == [];
  }

  /** The enabled providers are ordered by priority whatever the registration order. */
  lemma EnabledScenario()
    ensures OrderByPriority(WhereEnabled([GoogleBooks, OpenLibrary, Inventaire])) == [OpenLibrary, Inventaire, GoogleBooks]
  {
    var s := [GoogleBooks, OpenLibrary, Inventaire];
    assert s[1..] == [OpenLibrary, Inventaire];
    assert s[1..][1..] == [Inventaire];
    assert [Inventaire][1..] == [];
    assert WhereEnabled([Inventaire]) == [Inventaire];
    assert WhereEnabled([OpenLibrary, Inventaire]) == [OpenLibrary, Inventaire];
    assert WhereEnabled(s) == s;
    assert s[..2] == [GoogleBooks, OpenLibrary];
    assert [GoogleBooks, OpenLibrary][..1] == [GoogleBooks];
    assert OrderByPriority([GoogleBooks]) == [GoogleBooks];
    assert OrderByPriority([GoogleBooks, OpenLibrary]) == [OpenLibrary, GoogleBooks];
    assert [OpenLibrary, GoogleBooks][1..] == [GoogleBooks];
    assert Insert(Inventaire, [GoogleBooks]) == [Inventaire, GoogleBooks];
    assert Insert(Inventaire, [OpenLibrary, GoogleBooks]) == [OpenLibrary, Inventaire, GoogleBooks];
  }

  /** No primary provider without an enabled one; otherwise the lowest priority wins and a
      disabled provider of the top priority is skipped. */
  lemma PrimaryScenario()
    ensures PrimaryOf([]) == None
    ensures PrimaryOf([Disabled]) == None
    ensures PrimaryOf([GoogleBooks, Inventaire, OpenLibrary]) == Some(OpenLibrary)
    ensures PrimaryOf([OpenLibrary.(enabled := false), Inventaire]) == Some(Inventaire)
  {
    assert [Disabled][1..] == [];
    assert WhereEnabled([Disabled]) == [];
    var s := [GoogleBooks, Inventaire, OpenLibrary];
    assert s[1..] == [Inventaire, OpenLibrary];
    assert s[1..][1..] == [OpenLibrary];
    assert [OpenLibrary][1..] == [];
    assert WhereEnabled([OpenLibrary]) == [OpenLibrary];
    assert WhereEnabled([Inventaire, OpenLibrary]) == [Inventaire, OpenLibrary];
    assert WhereEnabled(s) == s;
    OrderedScenario();
    var t := [OpenLibrary.(enabled := false), Inventaire];
    assert t[1..] == [Inventaire];
    assert [Inventaire][1..] == [];
    assert WhereEnabled(t) == [Inventaire];
    assert OrderByPriority([Inventaire]) == [Inventaire];
  }

  // ---------------------------------------------------------------- the registry

  /** The registry object: the registered providers, in registration order. */
  class MetadataProviderRegistry {
    var providers: seq<Provider>

    /** A new registry has no providers. */
    constructor()
      ensures providers == []
    {
      providers := [];
    }

    /** `Register`: appends the provider, or fails with an argument error for a null
        provider and leaves the list as it was. */
    method Register(provider: Option<Provider>) returns (outcome: Outcome<RegisterError>)
      modifies this
      ensures (providers, outcome) == Registered(old(providers), provider)
    {
      match provider {
        case None =>
          outcome := Fail(ArgumentNull);
        case Some(p) =>
          providers := providers + [p];
          outcome := Pass;
      }
    }

    /** `GetProviders`: every registered provider, disabled ones included, sorted by
        priority; providers of equal priority keep their registration order. */
    function GetProviders(): (r: seq<Provider>)
      reads this
      ensures SortedByPriority(r)
      ensures multiset(r) == multiset(providers)
      ensures forall k :: OfPriority(r, k) == OfPriority(providers, k)
    {
      assert forall k :: OfPriority(OrderByPriority(providers), k) == OfPriority(providers, k) by {
        forall k
          ensures OfPriority(OrderByPriority(providers), k) == OfPriority(providers, k)
        {
          OrderKeepsGroup(providers, k);
        }
      }
      OrderByPriority(providers)
    }

    /** `GetEnabledProviders`: exactly the enabled providers, sorted by priority, equal
        priorities in registration order; the same as the enabled entries of
        `GetProviders`. */
    function GetEnabledProviders(): (r: seq<Provider>)
      reads this
      ensures SortedByPriority(r)
      ensures forall p :: p in r <==> p in providers && p.enabled
      ensures forall k :: OfPriority(r, k) == OfPriority(WhereEnabled(providers), k)
      ensures r == WhereEnabled(GetProviders())
    {
      var enabled := WhereEnabled(providers);
      WhereEnabledMembers(providers);
      assert forall p :: p in OrderByPriority(enabled) <==> p in enabled by {
        forall p
          ensures p in OrderByPriority(enabled) <==> p in enabled
        {
          assert p in OrderByPriority(enabled) <==> p in multiset(OrderByPriority(enabled));
        }
      }
      assert forall k :: OfPriority(OrderByPriority(enabled), k) == OfPriority(enabled, k) by {
        forall k
          ensures OfPriority(OrderByPriority(enabled), k) == OfPriority(enabled, k)
        {
          OrderKeepsGroup(enabled, k);
        }
      }
      EnabledOfOrdered(providers);
      OrderByPriority(enabled)
    }

    /** `GetPrimaryProvider`: none when no provider is enabled; otherwise an enabled
        provider of the lowest priority among the enabled ones, the first such one
        registered. */
    function GetPrimaryProvider(): (r: Option<Provider>)
      reads this
      ensures r.None? <==> forall p :: p in providers ==> !p.enabled
      ensures r.Some? ==> r.value in providers && r.value.enabled
      ensures r.Some? ==> forall p :: p in providers && p.enabled ==> r.value.priority <= p.priority
      ensures r.Some? ==> |OfPriority(WhereEnabled(providers), r.value.priority)| > 0
                          && OfPriority(WhereEnabled(providers), r.value.priority)[0] == r.value
      ensures r == PrimaryOf(providers)
    {
      var candidates := WhereEnabled(providers);
      var enabled := OrderByPriority(candidates);
      WhereEnabledMembers(providers);
      if |enabled| == 0 then
        assert candidates == [] by {
          assert |multiset(candidates)| == 0;
        }
        None
      else
        var first := enabled[0];
        assert first in candidates by {
          assert first in multiset(enabled);
        }
        assert forall p :: p in providers && p.enabled ==> first.priority <= p.priority by {
          forall p | p in providers && p.enabled
            ensures first.priority <= p.priority
          {
            assert p in multiset(enabled);
            HeadIsLowest(enabled, p);
          }
        }
        assert |OfPriority(candidates, first.priority)| > 0 && OfPriority(candidates, first.priority)[0] == first by {
          OrderKeepsGroup(candidates, first.priority);
          HeadLeadsGroup(enabled);
        }
        Some(first)
    }
  }
}

/**
 * The cache of custom classifications (src/lib/device-classifications-runtime.ts): a time-to-live
 * cache with an index by slug, over a database that changes, fails and is invalidated.
 */
module ClassificationCache {
  import opened Sequences

  const CACHE_TTL_MS: int := 60000

  datatype Row = Row(slug: string, caption: string, parentSlug: string)

  datatype Entry = Entry(items: seq<Row>, bySlug: map<string, Row>, expires: int)

  type Cache = map<string, Entry>

  // ---------- the index ----------

  /** The first row with the slug, as `Array.find`. */
  function Find(items: seq<Row>, slug: string): Option<Row> {
    if items == [] then None
    else if items[0].slug == slug then Some(items[0])
    else Find(items[1..], slug)
  }

  function Get(index: map<string, Row>, slug: string): Option<Row> {
    if slug in index then Some(index[slug]) else None
  }

  /** Each insertion replaces the previous one of the same slug. */
  function Index(items: seq<Row>): map<string, Row> {
    if items == [] then map[]
    else Index(items[..|items| - 1])[items[|items| - 1].slug := items[|items| - 1]]
  }

  /** Rows that share a slug are the same row; a primary key on the slug guarantees it. */
  predicate SlugDeterminesRow(items: seq<Row>) {
    forall i, j :: 0 <= i < |items| && 0 <= j < |items| && items[i].slug == items[j].slug ==> items[i] == items[j]
  }

  lemma {:induction false} FindsFirst(items: seq<Row>, slug: string)
    ensures Find(items, slug).Some? <==> exists i :: 0 <= i < |items| && items[i].slug == slug
    ensures Find(items, slug).Some? ==>
              exists i :: 0 <= i < |items| && items[i].slug == slug && Find(items, slug) == Some(items[i])
                          && forall k :: 0 <= k < i ==> items[k].slug != slug
  {
    if items != [] {
      FindsFirst(items[1..], slug);
      if items[0].slug != slug && Find(items, slug).Some? {
        var i :| 0 <= i < |items[1..]| && items[1..][i].slug == slug && Find(items, slug) == Some(items[1..][i])
                 && forall k :: 0 <= k < i ==> items[1..][k].slug != slug;
        assert items[i + 1] == items[1..][i];
        forall k | 0 <= k < i + 1 ensures items[k].slug != slug {
          if k > 0 { assert items[k] == items[1..][k - 1]; }
        }
      }
      if exists i :: 0 <= i < |items| && items[i].slug == slug {
        var i :| 0 <= i < |items| && items[i].slug == slug;
        if i > 0 { assert items[1..][i - 1] == items[i]; }
      }
    }
  }

  lemma {:induction false} IndexHoldsLast(items: seq<Row>, slug: string)
    ensures slug in Index(items) <==> exists i :: 0 <= i < |items| && items[i].slug == slug
    ensures slug in Index(items) ==>
              exists i :: 0 <= i < |items| && items[i].slug == slug && Index(items)[slug] == items[i]
                          && forall k :: i < k < |items| ==> items[k].slug != slug
  {
    if items != [] {
      var last := |items| - 1;
      var init := items[..last];
      IndexHoldsLast(init, slug);
      if items[last].slug != slug {
        if slug in Index(items) {
          var i :| 0 <= i < |init| && init[i].slug == slug && Index(init)[slug] == init[i]
                   && forall k :: i < k < |init| ==> init[k].slug != slug;
          assert items[i] == init[i];
          forall k | i < k < |items| ensures items[k].slug != slug {
            if k < last { assert items[k] == init[k]; }
          }
        }
        if exists i :: 0 <= i < |items| && items[i].slug == slug {
          var i :| 0 <= i < |items| && items[i].slug == slug;
          assert init[i] == items[i];
        }
      }
    }
  }

  /** Rows i and j are the first and the last with the slug. */
  predicate Outermost(items: seq<Row>, slug: string, i: nat, j: nat)
    requires i < |items| && j < |items|
  {
    && items[i].slug == slug && items[j].slug == slug
    && (forall k :: 0 <= k < i ==> items[k].slug != slug)
    && (forall k :: j < k < |items| ==> items[k].slug != slug)
  }

  /** A slug has at most one first and one last row. */
  lemma OutermostAreOne(items: seq<Row>, slug: string, i: nat, j: nat, k: nat, l: nat)
    requires i < |items| && j < |items| && k < |items| && l < |items|
    requires Outermost(items, slug, i, j) && Outermost(items, slug, k, l)
    ensures i == k && j == l
  {
    assert items[i].slug == slug && items[j].slug == slug && items[k].slug == slug && items[l].slug == slug;
  }

  /** The outermost rows of a slug are what the search and the index answer with. */
  lemma OutermostAnswer(items: seq<Row>, slug: string) returns (i: nat, j: nat)
    requires Find(items, slug).Some?
    ensures i < |items| && j < |items| && Outermost(items, slug, i, j)
    ensures Find(items, slug) == Some(items[i]) && Get(Index(items), slug) == Some(items[j])
  {
    hide Find, Index;
    FindsFirst(items, slug);
    IndexHoldsLast(items, slug);
    i :| 0 <= i < |items| && items[i].slug == slug && Find(items, slug) == Some(items[i])
         && forall k :: 0 <= k < i ==> items[k].slug != slug;
    j :| 0 <= j < |items| && items[j].slug == slug && Index(items)[slug] == items[j]
         && forall k :: j < k < |items| ==> items[k].slug != slug;
  }

  /** Looking up through the index is searching the list exactly when the slug's outermost rows are the same. */
  lemma IndexIsSearchIff(items: seq<Row>, slug: string)
    ensures Get(Index(items), slug) == Find(items, slug)
            <==> forall i: nat, j: nat :: i < |items| && j < |items| && Outermost(items, slug, i, j) ==>
                   items[i] == items[j]
  {
    hide Find, Index, Outermost;
    if Find(items, slug).Some? {
      var first, last := OutermostAnswer(items, slug);
      forall i: nat, j: nat | i < |items| && j < |items| && Outermost(items, slug, i, j)
        ensures i == first && j == last
      {
        OutermostAreOne(items, slug, i, j, first, last);
      }
    } else {
      NeitherAnswers(items, slug);
    }
  }

  lemma NeitherAnswers(items: seq<Row>, slug: string)
    requires Find(items, slug).None?
    ensures Get(Index(items), slug).None?
    ensures forall i: nat, j: nat :: i < |items| && j < |items| ==> !Outermost(items, slug, i, j)
  {
    hide Find, Index;
    FindsFirst(items, slug);
    IndexHoldsLast(items, slug);
  }

  /** With the slug as a key that is so for every slug. */
  lemma IndexIsSearch(items: seq<Row>, slug: string)
    requires SlugDeterminesRow(items)
    ensures Get(Index(items), slug) == Find(items, slug)
  {
    IndexIsSearchIff(items, slug);
  }

  // ---------- one call ----------

  /** The outcome of `getEntry`: what it answers and the cache it leaves. */
  datatype Served = Served(entry: Option<Entry>, cache: Cache)

  function Fresh(items: seq<Row>, now: int): Entry {
    Entry(items, Index(items), now + CACHE_TTL_MS)
  }

  /** The database is asked: the tenant is not blank and has no live entry. */
  predicate Asks(cache: Cache, tenant: string, now: int) {
    tenant != "" && !(tenant in cache && cache[tenant].expires > now)
  }

  /**
   * `fetched` is what the database gives if it is asked, and `later` the time when it has; None is a
   * failed fetch.
   */
  function Serve(cache: Cache, tenant: string, now: int, later: int, fetched: Option<seq<Row>>): Served {
    if tenant == "" then Served(None, cache)
    else if !Asks(cache, tenant, now) then Served(Some(cache[tenant]), cache)
    else match fetched
      case Some(items) => Served(Some(Fresh(items, later)), cache[tenant := Fresh(items, later)])
      case None => Served(if tenant in cache then Some(cache[tenant]) else None, cache)
  }

  function Dropped(cache: Cache, tenant: string): Cache {
    if tenant == "" then cache else cache - {tenant}
  }

  class RuntimeCache {
    var cache: Cache

    constructor ()
      ensures cache == map[]
    {
      cache := map[];
    }

    method BuildEntry(items: seq<Row>, now: int) returns (e: Entry)
      ensures e.items == items && e.expires == now + 60000
      ensures forall slug :: slug in e.bySlug <==> exists i :: 0 <= i < |items| && items[i].slug == slug
      ensures e == Fresh(items, now)
    {
      var bySlug := map[];
      for i := 0 to |items|
        invariant bySlug == Index(items[..i])
      {
        assert items[..i + 1][..i] == items[..i];
        bySlug := bySlug[items[i].slug := items[i]];
      }
      assert items[..|items|] == items;
      e := Entry(items, bySlug, now + CACHE_TTL_MS);
      forall slug ensures slug in e.bySlug <==> exists i :: 0 <= i < |items| && items[i].slug == slug {
        IndexHoldsLast(items, slug);
      }
    }

    method GetEntry(tenant: string, now: int, later: int, fetched: Option<seq<Row>>) returns (e: Option<Entry>)
      modifies this
      ensures Served(e, cache) == Serve(old(cache), tenant, now, later, fetched)
    {
      if tenant == "" {
        return None;
      }
      if tenant in cache && cache[tenant].expires > now {
        return Some(cache[tenant]);
      }
      match fetched {
        case Some(items) =>
          var entry := BuildEntry(items, later);
          cache := cache[tenant := entry];
          return Some(entry);
        case None =>
          return if tenant in cache then Some(cache[tenant]) else None;
      }
    }

    method Invalidate(tenant: string)
      modifies this
      ensures forall t :: t in cache <==> t in old(cache) && (t != tenant || tenant == "")
      ensures forall t :: t in cache ==> cache[t] == old(cache)[t]
      ensures cache == Dropped(old(cache), tenant)
    {
      if tenant != "" {
        cache := cache - {tenant};
      }
    }
  }

  // ---------- all runs ----------

  /** A read takes `took` milliseconds in the database if it asks it. */
  datatype Event =
    | Edit(tenant: string, rows: seq<Row>)
    | Ask(tenant: string, databaseWorks: bool, took: nat)
    | Pass(milliseconds: nat)
    | Invalidates(tenant: string)

  datatype World = World(now: int, database: map<string, seq<Row>>, cache: Cache)

  function Rows(w: World, tenant: string): seq<Row> {
    if tenant in w.database then w.database[tenant] else []
  }

  /** What an `Ask` gets. */
  function Answer(w: World, e: Event): Served
    requires e.Ask?
  {
    Serve(w.cache, e.tenant, w.now, w.now + e.took, if e.databaseWorks then Some(Rows(w, e.tenant)) else None)
  }

  function Next(w: World, e: Event): World {
    match e
    case Edit(t, rows) => w.(database := w.database[t := rows])
    case Ask(t, _, took) =>
      w.(cache := Answer(w, e).cache, now := if Asks(w.cache, t, w.now) then w.now + took else w.now)
    case Pass(ms) => w.(now := w.now + ms)
    case Invalidates(t) => w.(cache := Dropped(w.cache, t))
  }

  function At(start: World, events: seq<Event>, n: nat): World
    requires n <= |events|
  {
    if n == 0 then start else Next(At(start, events, n - 1), events[n - 1])
  }

  /** No invalidation of the tenant strictly between the two positions. */
  predicate KeptBetween(events: seq<Event>, k: nat, n: nat, tenant: string)
    requires n <= |events|
  {
    forall j :: k < j < n ==> events[j] != Invalidates(tenant)
  }

  /** When the read at event `k` had its answer from the database. */
  function FetchEnd(start: World, events: seq<Event>, k: nat): int
    requires k < |events| && events[k].Ask?
  {
    At(start, events, k).now + events[k].took
  }

  /** The entry was fetched at event `k` for the tenant, and not invalidated up to `n`. */
  predicate FetchedAt(start: World, events: seq<Event>, k: nat, n: nat, tenant: string, e: Entry)
    requires k < |events| && n <= |events|
  {
    && events[k].Ask? && events[k].tenant == tenant && events[k].databaseWorks
    && Asks(At(start, events, k).cache, tenant, At(start, events, k).now)
    && e == Fresh(Rows(At(start, events, k), tenant), FetchEnd(start, events, k))
    && KeptBetween(events, k, n, tenant)
  }

  ghost predicate Sourced(start: World, events: seq<Event>, n: nat, tenant: string, e: Entry)
    requires n <= |events|
  {
    exists k :: 0 <= k < n && FetchedAt(start, events, k, n, tenant, e)
  }

  lemma {:induction false} CachedEntriesAreSourced(start: World, events: seq<Event>, n: nat, tenant: string)
    requires n <= |events| && start.cache == map[] && tenant in At(start, events, n).cache
    ensures tenant != "" && Sourced(start, events, n, tenant, At(start, events, n).cache[tenant])
  {
    hide Rows, Index;
    if n > 0 {
      var w, e := At(start, events, n - 1), events[n - 1];
      var entry := At(start, events, n).cache[tenant];
      if tenant in w.cache && w.cache[tenant] == entry && e != Invalidates(tenant) {
        CachedEntriesAreSourced(start, events, n - 1, tenant);
        var k :| 0 <= k < n - 1 && FetchedAt(start, events, k, n - 1, tenant, entry);
        assert FetchedAt(start, events, k, n, tenant, entry);
      } else if e == Invalidates(tenant) {
        CachedEntriesAreSourced(start, events, n - 1, tenant);
      } else {
        assert FetchedAt(start, events, n - 1, n, tenant, entry);
      }
    }
  }

  /** What a working read of a tenant leaves in the cache stays there until an invalidation. */
  lemma {:induction false} ReadStaysCached(start: World, events: seq<Event>, k: nat, n: nat, tenant: string)
    requires k < n <= |events| && tenant != "" && KeptBetween(events, k, n, tenant)
    requires events[k].Ask? && events[k].tenant == tenant && events[k].databaseWorks
    ensures tenant in At(start, events, n).cache
    decreases n
  {
    hide Rows, Index;
    if k + 1 < n {
      ReadStaysCached(start, events, k, n - 1, tenant);
    }
  }

  /**
   * In every run of edits, reads, failed fetches, clock advances and invalidations: an answer is
   * the table as it stood at an earlier (or this) read of the tenant, never from before an
   * invalidation, and less than 60 000 ms after that read had it, unless this read's refresh failed.
   */
  lemma AnswerIsRecentSnapshot(start: World, events: seq<Event>, n: nat)
    requires n < |events| && start.cache == map[] && events[n].Ask?
    ensures var w := At(start, events, n);
            var answer := Answer(w, events[n]).entry;
            answer.Some? ==>
              exists k :: && 0 <= k <= n
                          && FetchedAt(start, events, k, n + 1, events[n].tenant, answer.value)
                          && answer.value.items == Rows(At(start, events, k), events[n].tenant)
                          && (w.now - FetchEnd(start, events, k) < 60000 || !events[n].databaseWorks)
  {
    hide At, Rows, Index, Answer, FetchedAt;
    var w, t := At(start, events, n), events[n].tenant;
    var answer := Answer(w, events[n]).entry;
    if answer.Some? {
      AnswerCases(w, events[n]);
      if t in w.cache && answer.value == w.cache[t] && (w.cache[t].expires > w.now || !events[n].databaseWorks) {
        CachedEntriesAreSourced(start, events, n, t);
        var k :| 0 <= k < n && FetchedAt(start, events, k, n, t, answer.value);
        FetchedMeans(start, events, k, n, t, answer.value);
      } else {
        FetchedNow(start, events, n);
      }
    }
  }

  /** An answer is the kept entry, live or unrefreshable, or what this read fetched. */
  lemma AnswerCases(w: World, e: Event)
    requires e.Ask? && Answer(w, e).entry.Some?
    ensures || (e.tenant in w.cache && Answer(w, e).entry.value == w.cache[e.tenant]
                && (w.cache[e.tenant].expires > w.now || !e.databaseWorks))
            || (e.databaseWorks && Asks(w.cache, e.tenant, w.now)
                && Answer(w, e).entry.value == Fresh(Rows(w, e.tenant), w.now + e.took))
  {
    hide Rows, Index;
  }

  lemma FetchedMeans(start: World, events: seq<Event>, k: nat, n: nat, tenant: string, e: Entry)
    requires k < n < |events| && events[n].Ask? && FetchedAt(start, events, k, n, tenant, e)
    ensures FetchedAt(start, events, k, n + 1, tenant, e) && events[k].Ask?
    ensures e.items == Rows(At(start, events, k), tenant) && e.expires == FetchEnd(start, events, k) + CACHE_TTL_MS
  {
    hide At, Rows, Index;
  }

  lemma FetchedNow(start: World, events: seq<Event>, n: nat)
    requires n < |events| && events[n].Ask? && events[n].databaseWorks
    requires Asks(At(start, events, n).cache, events[n].tenant, At(start, events, n).now)
    ensures FetchedAt(start, events, n, n + 1, events[n].tenant,
                      Fresh(Rows(At(start, events, n), events[n].tenant), FetchEnd(start, events, n)))
  {
    hide At, Rows, Index;
  }

  // ---------- when the database is asked ----------

  /** The read at event `k` asks a working database for the tenant. */
  predicate Fetches(start: World, events: seq<Event>, k: nat, tenant: string): (b: bool)
    requires k < |events|
    ensures b ==> events[k].Ask?
  {
    && events[k].Ask? && events[k].tenant == tenant && events[k].databaseWorks
    && Asks(At(start, events, k).cache, tenant, At(start, events, k).now)
  }

  /** Such a read before position `n`, with no invalidation of the tenant since. */
  predicate KeptFetch(start: World, events: seq<Event>, k: nat, n: nat, tenant: string): (b: bool)
    requires n <= |events|
    ensures b ==> k < n && events[k].Ask?
  {
    k < n && Fetches(start, events, k, tenant) && KeptBetween(events, k, n, tenant)
  }

  /** What is kept is what the last such read fetched: no other one ends later. */
  ghost predicate KeepsLatest(start: World, events: seq<Event>, n: nat, tenant: string)
    requires n <= |events|
  {
    var w := At(start, events, n);
    && (tenant in w.cache ==>
          exists k: nat :: KeptFetch(start, events, k, n, tenant)
                      && w.cache[tenant].expires == FetchEnd(start, events, k) + 60000)
    && (forall k: nat :: KeptFetch(start, events, k, n, tenant) ==>
          tenant in w.cache && FetchEnd(start, events, k) + 60000 <= w.cache[tenant].expires <= w.now + 60000)
  }

  lemma KeptOneMore(start: World, events: seq<Event>, k: nat, n: nat, tenant: string)
    requires n < |events|
    ensures KeptFetch(start, events, k, n + 1, tenant) <==>
              || (KeptFetch(start, events, k, n, tenant) && events[n] != Invalidates(tenant))
              || (k == n && Fetches(start, events, n, tenant))
  {
    hide Fetches;
    if KeptFetch(start, events, k, n, tenant) && events[n] != Invalidates(tenant) {
      forall j | k < j < n + 1 ensures events[j] != Invalidates(tenant) {
      }
    }
  }

  /** The entry of a tenant after one more event. */
  lemma EntryAfter(start: World, events: seq<Event>, n: nat, tenant: string)
    requires n < |events|
    ensures var w, next := At(start, events, n), At(start, events, n + 1);
            && w.now <= next.now
            && (Fetches(start, events, n, tenant) ==>
                  tenant in next.cache && next.cache[tenant].expires == FetchEnd(start, events, n) + 60000
                  && next.now == FetchEnd(start, events, n))
            && (events[n] == Invalidates(tenant) && tenant != "" ==> tenant !in next.cache)
            && (!Fetches(start, events, n, tenant) && events[n] != Invalidates(tenant) ==>
                  EntryOf(next.cache, tenant) == EntryOf(w.cache, tenant))
  {
    hide Rows, Index;
  }

  function EntryOf(cache: Cache, tenant: string): Option<Entry> {
    if tenant in cache then Some(cache[tenant]) else None
  }

  lemma {:induction false} LatestIsKept(start: World, events: seq<Event>, n: nat, tenant: string)
    requires n <= |events| && start.cache == map[] && tenant != ""
    ensures KeepsLatest(start, events, n, tenant)
  {
    hide KeptFetch, Fetches, FetchEnd;
    if n == 0 {
      NothingKept(start, events, tenant);
    } else {
      hide At;
      LatestIsKept(start, events, n - 1, tenant);
      EntryAfter(start, events, n - 1, tenant);
      LatestStays(start, events, n - 1, n, tenant);
    }
  }

  lemma NothingKept(start: World, events: seq<Event>, tenant: string)
    requires start.cache == map[]
    ensures KeepsLatest(start, events, 0, tenant)
  {
  }

  lemma LatestStays(start: World, events: seq<Event>, n: nat, m: nat, tenant: string)
    requires n < |events| && m == n + 1 && tenant != "" && KeepsLatest(start, events, n, tenant)
    ensures KeepsLatest(start, events, m, tenant)
  {
    hide At, KeptFetch, Fetches, FetchEnd;
    EntryAfter(start, events, n, tenant);
    var w, next := At(start, events, n), At(start, events, m);
    if tenant in next.cache {
      var k: nat := n;
      if !Fetches(start, events, n, tenant) {
        assert EntryOf(next.cache, tenant) == EntryOf(w.cache, tenant);
        k :| KeptFetch(start, events, k, n, tenant)
             && w.cache[tenant].expires == FetchEnd(start, events, k) + 60000;
      }
      KeptOneMore(start, events, k, n, tenant);
      assert KeptFetch(start, events, k, m, tenant);
      assert next.cache[tenant].expires == FetchEnd(start, events, k) + 60000;
    }
    forall k: nat | KeptFetch(start, events, k, m, tenant)
      ensures tenant in next.cache
              && FetchEnd(start, events, k) + 60000 <= next.cache[tenant].expires <= next.now + 60000
    {
      KeptOneMore(start, events, k, n, tenant);
    }
  }

  /**
   * In every run a read asks the database exactly when its tenant is not blank and no fetch of the
   * tenant that was not invalidated since ended less than 60 000 ms before.
   */
  lemma AsksIff(start: World, events: seq<Event>, n: nat, tenant: string)
    requires n <= |events| && start.cache == map[]
    ensures var w := At(start, events, n);
            Asks(w.cache, tenant, w.now) <==>
              tenant != "" && forall k: nat :: KeptFetch(start, events, k, n, tenant) ==>
                                w.now >= FetchEnd(start, events, k) + 60000
  {
    hide At, KeptFetch, FetchEnd;
    if tenant != "" {
      LatestIsKept(start, events, n, tenant);
    }
  }

  /** No answer comes only from a blank tenant, or from a failed fetch with nothing kept. */
  lemma NoAnswerMeansFailure(start: World, events: seq<Event>, n: nat)
    requires n < |events| && events[n].Ask?
    ensures Answer(At(start, events, n), events[n]).entry.None? <==>
              events[n].tenant == "" ||
              (!events[n].databaseWorks && events[n].tenant !in At(start, events, n).cache)
  {
    hide At, Rows, Index;
  }

  /** The tenant was read from a working database since its last invalidation. */
  ghost predicate ReadSince(events: seq<Event>, n: nat, tenant: string)
    requires n <= |events|
  {
    exists k :: 0 <= k < n && events[k].Ask? && events[k].tenant == tenant && events[k].databaseWorks
                && KeptBetween(events, k, n, tenant)
  }

  /**
   * In every run, a read has no answer exactly when its tenant is blank, or its fetch fails and no
   * read of the tenant since its last invalidation had a working database.
   */
  lemma NoAnswerIffNeverRead(start: World, events: seq<Event>, n: nat)
    requires n < |events| && start.cache == map[] && events[n].Ask?
    ensures Answer(At(start, events, n), events[n]).entry.None? <==>
              events[n].tenant == "" || (!events[n].databaseWorks && !ReadSince(events, n, events[n].tenant))
  {
    hide At, Rows, Index, KeptBetween, Answer;
    NoAnswerMeansFailure(start, events, n);
    var w, t := At(start, events, n), events[n].tenant;
    if t in w.cache {
      CachedEntriesAreSourced(start, events, n, t);
      var k :| 0 <= k < n && FetchedAt(start, events, k, n, t, w.cache[t]);
      assert ReadSince(events, n, t);
    } else if t != "" && ReadSince(events, n, t) {
      var k :| 0 <= k < n && events[k].Ask? && events[k].tenant == t && events[k].databaseWorks
               && KeptBetween(events, k, n, t);
      ReadStaysCached(start, events, k, n, t);
    }
  }

  /** Right after an invalidation, a working database is always asked again. */
  lemma InvalidationForcesFetch(start: World, events: seq<Event>, i: nat, n: nat)
    requires i < n < |events| && start.cache == map[]
    requires events[n].Ask? && events[n].tenant != "" && events[i] == Invalidates(events[n].tenant)
    requires forall j :: i < j < n ==> !(events[j].Ask? && events[j].tenant == events[n].tenant)
    requires events[n].databaseWorks
    ensures Answer(At(start, events, n), events[n]).entry
            == Some(Fresh(Rows(At(start, events, n), events[n].tenant), FetchEnd(start, events, n)))
  {
    hide At, Rows, Index;
    var t := events[n].tenant;
    if t in At(start, events, n).cache {
      CachedEntriesAreSourced(start, events, n, t);
    }
  }

  // ---------- the readers ----------

  /** The label shown for a slug: a custom row prevails over the built-in catalogue. */
  function EffectiveLabel(entry: Option<Entry>, builtin: string -> string, slug: string): string {
    match if entry.Some? then Get(entry.value.bySlug, slug) else None
    case Some(row) => row.caption
    case None => builtin(slug)
  }

  /** The group shown for a slug: a custom row takes its parent's. */
  function EffectiveGroup(entry: Option<Entry>, builtin: string -> string, slug: string): string {
    match if entry.Some? then Get(entry.value.bySlug, slug) else None
    case Some(row) => builtin(row.parentSlug)
    case None => builtin(slug)
  }

  /**
   * With slugs as keys, what the readers show through the index is what a search of the table
   * fetched at some recent read gives.
   */
  lemma ReadersSeeTheTable(start: World, events: seq<Event>, n: nat, labels: string -> string,
                           groups: string -> string, slug: string)
    requires n < |events| && start.cache == map[] && events[n].Ask?
    requires forall k :: 0 <= k <= n ==> SlugDeterminesRow(Rows(At(start, events, k), events[n].tenant))
    ensures var answer := Answer(At(start, events, n), events[n]).entry;
            answer.Some? ==>
              var found := Find(answer.value.items, slug);
              && EffectiveLabel(answer, labels, slug) == (if found.Some? then found.value.caption else labels(slug))
              && EffectiveGroup(answer, groups, slug) == groups(if found.Some? then found.value.parentSlug else slug)
  {
    var answer := Answer(At(start, events, n), events[n]).entry;
    AnswerIsRecentSnapshot(start, events, n);
    if answer.Some? {
      var k :| 0 <= k <= n && FetchedAt(start, events, k, n + 1, events[n].tenant, answer.value)
               && answer.value.items == Rows(At(start, events, k), events[n].tenant);
      IndexIsSearch(answer.value.items, slug);
      assert Get(answer.value.bySlug, slug) == Find(answer.value.items, slug);
    }
  }
}

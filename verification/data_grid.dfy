/**
 * The paginated feed of src/DataGrid.js. Its state is the loaded records, the
 * cursor (the last document of the latest page) and the "has more" flag. A fetch
 * asks the store for five documents of the "Items" collection in descending
 * date order, starting after the cursor on a "Load More" click, turns each
 * document into a record with its image paths resolved to download URLs, and
 * replaces or extends the loaded records.
 *
 * The store is a parameter: the collection's index (its documents in query
 * order, see StoreOrder) when the read succeeds, `None` when it rejects. URL
 * resolution is a partial map from storage path to download URL; a path
 * missing from it is one whose resolution rejects.
 */
module DataGrid {
  import opened Wrappers
  import opened Values
  import opened Seqs
  import opened StoreOrder

  const ItemsPerPage := 5

  datatype Query = Query(
    collection: string,
    orderBy: string,
    descending: bool,
    startAfter: Option<Doc>,
    limit: nat)

  /**
   * The query `fetchItems` builds: always "Items" by "dateLost" descending,
   * limited to five, starting after the cursor only for a next-page request
   * that has a cursor.
   */
  function BuildQuery(nextPage: bool, lastDoc: Option<Doc>): (q: Query)
    ensures q.collection == "Items" && q.orderBy == "dateLost" && q.descending
    ensures q.limit == ItemsPerPage
    ensures q.startAfter.Some? <==> nextPage && lastDoc.Some?
    ensures q.startAfter.Some? ==> q.startAfter == lastDoc
  {
    if nextPage && lastDoc.Some? then
      Query("Items", "dateLost", true, lastDoc, ItemsPerPage)
    else
      Query("Items", "dateLost", true, None, ItemsPerPage)
  }

  /** The first `n` elements, or all of them if there are fewer. */
  function Take<T>(s: seq<T>, n: nat): (r: seq<T>)
    ensures |r| == if |s| < n then |s| else n
    ensures r == s[..|r|]
  {
    if |s| <= n then s else s[..n]
  }

  /** The store's answer: the first `limit` documents of the index that come after the cursor. */
  function RunQuery(index: seq<Doc>, q: Query): (page: seq<Doc>)
    ensures |page| <= q.limit
    ensures forall d :: d in page ==> d in index && AfterCursor(q.startAfter)(d)
  {
    Take(Filter(index, AfterCursor(q.startAfter)), q.limit)
  }

  /** Against an index, a query from the top returns the index's first `limit` documents. */
  lemma QueryFromTop(index: seq<Doc>, q: Query)
    requires Sorted(index)
    requires q.startAfter.None?
    ensures RunQuery(index, q) == index[..if |index| < q.limit then |index| else q.limit]
  {
    FromTopSeesAll(index);
  }

  /** Against an index, a query after its `k`-th document returns the next `limit` documents. */
  lemma QueryAfterCursor(index: seq<Doc>, q: Query, k: nat)
    requires Sorted(index)
    requires k < |index| && q.startAfter == Some(index[k])
    ensures var end := if |index| - (k + 1) < q.limit then |index| else k + 1 + q.limit;
            RunQuery(index, q) == index[k + 1..end]
  {
    AfterCursorIsSuffix(index, k);
  }

  /** The page facts of an index: what any query from the top or after one of its documents returns. */
  ghost predicate Paged(index: seq<Doc>) {
    && (forall q: Query :: q.startAfter.None? ==>
          RunQuery(index, q) == index[..if |index| < q.limit then |index| else q.limit])
    && (forall q: Query, k: nat :: k < |index| && q.startAfter == Some(index[k]) ==>
          RunQuery(index, q) == index[k + 1..if |index| - (k + 1) < q.limit then |index| else k + 1 + q.limit])
  }

  lemma SortedIsPaged(index: seq<Doc>)
    requires Sorted(index)
    ensures Paged(index)
  {
    forall q: Query | q.startAfter.None?
      ensures RunQuery(index, q) == index[..if |index| < q.limit then |index| else q.limit]
    {
      QueryFromTop(index, q);
    }
    forall q: Query, k: nat | k < |index| && q.startAfter == Some(index[k])
      ensures RunQuery(index, q) == index[k + 1..if |index| - (k + 1) < q.limit then |index| else k + 1 + q.limit]
    {
      QueryAfterCursor(index, q, k);
    }
  }

  // ---------------------------------------------------------------- records

  /** The download URLs for storage paths; a path absent from the map fails to resolve. */
  type Resolver = map<string, string>

  /**
   * One entry of `imagePaths`, resolved: a string path whose resolution succeeds
   * with a non-empty URL (the empty URL would be dropped by `filter(Boolean)`).
   * A non-string entry makes `ref` throw inside the per-image `try`, so it is
   * dropped too.
   */
  function ResolveImage(resolver: Resolver): Value -> Option<string> {
    (v: Value) =>
      if v.Str? && v.s in resolver && resolver[v.s] != "" then Some(resolver[v.s]) else None
  }

  /**
   * `(data.imagePaths || []).map(...)` followed by `filter(Boolean)`: a missing
   * or falsy `imagePaths` yields no image, an array yields the URLs of its
   * entries that resolve, in order. Any other truthy value has no `map`, so the
   * call throws and the whole fetch rejects (`None`).
   */
  function ImageUrls(data: Fields, resolver: Resolver): (r: Option<seq<string>>)
    ensures !Truthy(Field(data, "imagePaths")) ==> r == Some([])
    ensures r.None? <==> Truthy(Field(data, "imagePaths")) && !data["imagePaths"].List?
    ensures r.Some? ==> |r.value| <= |ImagePathEntries(data)|
    ensures r.Some? && (forall i :: 0 <= i < |ImagePathEntries(data)| ==>
                          ResolveImage(resolver)(ImagePathEntries(data)[i]).Some?) ==>
              |r.value| == |ImagePathEntries(data)|
  {
    var paths := Field(data, "imagePaths");
    if !Truthy(paths) then Some([])
    else if paths.value.List? then Some(FilterMap(paths.value.elements, ResolveImage(resolver)))
    else None
  }

  /** The entries of an `imagePaths` array, or none when the field is not an array. */
  function ImagePathEntries(data: Fields): seq<Value> {
    if "imagePaths" in data && data["imagePaths"].List? then data["imagePaths"].elements else []
  }

  /**
   * The URLs are those of the entries that resolve, in the entries' order:
   * `idx` lists the positions of those entries, increasing, and the `j`-th URL
   * is the resolver's URL for the path at `idx[j]`.
   */
  lemma ImageUrlsFollowPathOrder(data: Fields, resolver: Resolver) returns (idx: seq<nat>)
    requires ImageUrls(data, resolver).Some?
    ensures Picks(ImagePathEntries(data), ResolveImage(resolver), ImageUrls(data, resolver).value, idx)
    ensures forall j :: 0 <= j < |idx| ==>
              var e := ImagePathEntries(data)[idx[j]];
              e.Str? && e.s in resolver && ImageUrls(data, resolver).value[j] == resolver[e.s]
  {
    var paths := Field(data, "imagePaths");
    if !Truthy(paths) {
      assert ImagePathEntries(data) == [];
      idx := [];
    } else {
      idx := FilterMapPicks(ImagePathEntries(data), ResolveImage(resolver));
    }
  }

  /** Resolution is per entry: resolving two runs of paths gives the two runs of URLs, concatenated. */
  lemma ResolutionIsPerPath(a: seq<Value>, b: seq<Value>, resolver: Resolver)
    ensures FilterMap(a + b, ResolveImage(resolver)) ==
            FilterMap(a, ResolveImage(resolver)) + FilterMap(b, ResolveImage(resolver))
  {
    FilterMapAppend(a, b, ResolveImage(resolver));
  }

  /** Three stored paths of which the middle one does not resolve: the record gets the other two URLs. */
  lemma OneFailedImageOfThree(p1: string, p2: string, p3: string, resolver: Resolver)
    requires p1 in resolver && resolver[p1] != ""
    requires p2 !in resolver
    requires p3 in resolver && resolver[p3] != ""
    ensures ImageUrls(map["imagePaths" := List([Str(p1), Str(p2), Str(p3)])], resolver) ==
            Some([resolver[p1], resolver[p3]])
  {
    var f := ResolveImage(resolver);
    assert FilterMap([Str(p1)], f) == [resolver[p1]] by {
      assert [Str(p1)][1..] == [];
    }
    assert FilterMap([Str(p2)], f) == [] by {
      assert [Str(p2)][1..] == [];
    }
    assert FilterMap([Str(p3)], f) == [resolver[p3]] by {
      assert [Str(p3)][1..] == [];
    }
    var paths := [Str(p1), Str(p2), Str(p3)];
    assert paths == [Str(p1)] + ([Str(p2)] + [Str(p3)]);
    ResolutionIsPerPath([Str(p2)], [Str(p3)], resolver);
    ResolutionIsPerPath([Str(p1)], [Str(p2)] + [Str(p3)], resolver);
    assert FilterMap(paths, f) == [resolver[p1], resolver[p3]];
    var data := map["imagePaths" := List(paths)];
    assert Truthy(Field(data, "imagePaths"));
  }

  /** A list of strings as a stored array value. */
  function StrList(urls: seq<string>): (v: Value)
    ensures v.List? && |v.elements| == |urls|
    ensures forall i :: 0 <= i < |urls| ==> v.elements[i] == Str(urls[i])
  {
    List(seq(|urls|, i requires 0 <= i < |urls| => Str(urls[i])))
  }

  /**
   * `{ id: doc.id, ...data, images }`: the stored fields, the document id unless
   * a stored field named "id" replaces it, and `images` overriding any stored
   * field of that name. `None` when the document's `imagePaths` makes the
   * fetch reject.
   */
  function BuildRecord(d: Doc, resolver: Resolver): (r: Option<Fields>)
    ensures r.Some? <==> ImageUrls(d.data, resolver).Some?
    ensures r.Some? ==> r.value.Keys == d.data.Keys + {"id", "images"}
    ensures r.Some? ==> r.value["images"] == StrList(ImageUrls(d.data, resolver).value)
    ensures r.Some? ==> forall k :: k in d.data && k != "images" ==> r.value[k] == d.data[k]
    ensures r.Some? && "id" !in d.data ==> r.value["id"] == Str(d.id)
  {
    match ImageUrls(d.data, resolver)
    case None => None
    case Some(urls) => Some(Record(d)["images" := StrList(urls)])
  }

  /** `BuildRecord` for a fixed resolver, as the callback handed to `map`. */
  function RecordOf(resolver: Resolver): Doc -> Option<Fields> {
    (d: Doc) => BuildRecord(d, resolver)
  }

  /** The page's records, all or nothing: one rejecting record rejects the whole `Promise.all`. */
  function BuildPage(docs: seq<Doc>, resolver: Resolver): (r: Option<seq<Fields>>)
    ensures r.Some? <==> forall i :: 0 <= i < |docs| ==> BuildRecord(docs[i], resolver).Some?
    ensures r.Some? ==> |r.value| == |docs|
    ensures r.Some? ==> forall i :: 0 <= i < |docs| ==> r.value[i] == BuildRecord(docs[i], resolver).value
  {
    AllSome(docs, RecordOf(resolver))
  }

  /** Building the records of two runs of documents is building each run and concatenating. */
  lemma BuildPageAppend(a: seq<Doc>, b: seq<Doc>, resolver: Resolver)
    requires BuildPage(a, resolver).Some? && BuildPage(b, resolver).Some?
    ensures BuildPage(a + b, resolver) ==
            Some(BuildPage(a, resolver).value + BuildPage(b, resolver).value)
  {
    AllSomeAppend(a, b, RecordOf(resolver));
  }

  // ---------------------------------------------------------------- feed state

  datatype FeedState = FeedState(items: seq<Fields>, lastDoc: Option<Doc>, hasMore: bool)

  const InitialFeed := FeedState([], None, true)

  /** The documents a fetch from state `s` receives from the index. */
  function PageFor(s: FeedState, nextPage: bool, index: seq<Doc>): seq<Doc> {
    RunQuery(index, BuildQuery(nextPage, s.lastDoc))
  }

  /**
   * The three state updates after a successful fetch of `page` whose records
   * are `fetched`: replace or extend the records, move the cursor to the
   * page's last document (none for an empty page), and keep "has more" only
   * for a full page.
   */
  function Absorb(s: FeedState, nextPage: bool, page: seq<Doc>, fetched: seq<Fields>): (r: FeedState)
    ensures r.items == if nextPage then s.items + fetched else fetched
    ensures r.hasMore <==> |page| == ItemsPerPage
    ensures r.lastDoc.Some? <==> page != []
    ensures r.lastDoc.Some? ==> r.lastDoc.value == page[|page| - 1] && r.lastDoc.value in page
  {
    var lastDoc := if page == [] then None else Some(page[|page| - 1]);
    FeedState(if nextPage then s.items + fetched else fetched, lastDoc, |page| == ItemsPerPage)
  }

  /**
   * `fetchItems(nextPage)`. When the read or any record rejects, nothing
   * changes. Otherwise the records replace the list (first page) or are
   * appended to it (next page), the cursor becomes the page's last document
   * (none for an empty page, not the old cursor), and "has more" says whether
   * the page was full.
   */
  function FetchItems(s: FeedState, nextPage: bool, store: Option<seq<Doc>>, resolver: Resolver): (r: FeedState)
    ensures store.None? ==> r == s
    ensures store.Some? && BuildPage(PageFor(s, nextPage, store.value), resolver).None? ==> r == s
    ensures store.Some? && BuildPage(PageFor(s, nextPage, store.value), resolver).Some? ==>
              var page := PageFor(s, nextPage, store.value);
              && |r.items| == (if nextPage then |s.items| else 0) + |page|
              && (nextPage ==> r.items[..|s.items|] == s.items)
              && r.items[|r.items| - |page|..] == BuildPage(page, resolver).value
              && (r.hasMore <==> |page| == ItemsPerPage)
              && (page == [] ==> r.lastDoc.None?)
              && (page != [] ==> r.lastDoc == Some(page[|page| - 1]))
              && (r.lastDoc.Some? ==> r.lastDoc.value in store.value)
  {
    match store
    case None => s
    case Some(index) =>
      var page := PageFor(s, nextPage, index);
      match BuildPage(page, resolver)
      case None => s
      case Some(fetched) => Absorb(s, nextPage, page, fetched)
  }

  // ---------------------------------------------------------------- the feed over time

  /**
   * What the user can trigger: the fetch on mount and "Load More". The button
   * is disabled while "has more" is false, so a click then does nothing. `ok`
   * says whether the store read succeeds.
   */
  datatype FeedEvent = Mounted(ok: bool) | LoadMore(ok: bool)

  function FeedStep(s: FeedState, e: FeedEvent, index: seq<Doc>, resolver: Resolver): FeedState {
    if e.LoadMore? && !s.hasMore then s
    else FetchItems(s, e.LoadMore?, if e.ok then Some(index) else None, resolver)
  }

  function FeedRun(s: FeedState, events: seq<FeedEvent>, index: seq<Doc>, resolver: Resolver): FeedState
    decreases |events|
  {
    if events == [] then s
    else FeedRun(FeedStep(s, events[0], index, resolver), events[1..], index, resolver)
  }

  /**
   * The loaded records are exactly those of the first `k` documents of the
   * index, and while more can be loaded the cursor sits on the `k`-th.
   */
  predicate Loaded(s: FeedState, index: seq<Doc>, resolver: Resolver, k: nat) {
    && k <= |index|
    && BuildPage(index[..k], resolver) == Some(s.items)
    && (s.hasMore ==> (k == 0 && s.lastDoc.None?) || (k > 0 && s.lastDoc == Some(index[k - 1])))
  }

  /** A successful fetch absorbs the page the query returned. */
  lemma FetchItemsSucceeds(s: FeedState, nextPage: bool, index: seq<Doc>, resolver: Resolver)
    requires BuildPage(PageFor(s, nextPage, index), resolver).Some?
    ensures FetchItems(s, nextPage, Some(index), resolver) ==
            Absorb(s, nextPage, PageFor(s, nextPage, index), BuildPage(PageFor(s, nextPage, index), resolver).value)
  {
  }

  /**
   * Fetching from `s` when the store answers with the documents from `lo` to
   * `hi` of the index: if every record builds, the records of those documents
   * replace the list (or are appended to it for a next page), the cursor moves
   * to the last of them (none for an empty page), and "has more" says whether
   * five came back; if a record fails, nothing changes.
   */
  ghost predicate FetchShowsSlice(s: FeedState, nextPage: bool, index: seq<Doc>, resolver: Resolver, lo: nat, hi: nat)
    requires lo <= hi <= |index|
  {
    var r := FetchItems(s, nextPage, Some(index), resolver);
    && (BuildPage(index[lo..hi], resolver).Some? ==>
          && r.items == (if nextPage then s.items + BuildPage(index[lo..hi], resolver).value
                         else BuildPage(index[lo..hi], resolver).value)
          && (r.hasMore <==> hi - lo == ItemsPerPage)
          && (hi == lo ==> r.lastDoc.None?)
          && (hi > lo ==> r.lastDoc == Some(index[hi - 1])))
    && (BuildPage(index[lo..hi], resolver).None? ==> r == s)
  }

  /**
   * A fetch without a next-page request shows the records of the index's first
   * five documents (fewer if the index is shorter), in place of whatever was
   * shown.
   */
  lemma {:induction false} FirstPageShowsFirstRecords(s: FeedState, index: seq<Doc>, resolver: Resolver)
    requires Sorted(index)
    ensures FetchShowsSlice(s, false, index, resolver, 0, if |index| < ItemsPerPage then |index| else ItemsPerPage)
  {
    var n := if |index| < ItemsPerPage then |index| else ItemsPerPage;
    assert PageFor(s, false, index) == index[0..n] by {
      QueryFromTop(index, BuildQuery(false, s.lastDoc));
    }
    FetchOfSlice(s, false, index, resolver, 0, n);
  }

  /**
   * A "Load More" from a cursor on the `k`-th document appends the records of
   * the (at most five) documents that follow it, moves the cursor to the last
   * of them, and disables the button unless the page was full.
   */
  lemma {:induction false} NextPageAppendsFollowingRecords(s: FeedState, index: seq<Doc>, resolver: Resolver, k: nat)
    requires Sorted(index)
    requires 0 < k <= |index| && s.lastDoc == Some(index[k - 1])
    ensures FetchShowsSlice(s, true, index, resolver, k, if |index| - k < ItemsPerPage then |index| else k + ItemsPerPage)
  {
    var end := if |index| - k < ItemsPerPage then |index| else k + ItemsPerPage;
    assert PageFor(s, true, index) == index[k..end] by {
      QueryAfterCursor(index, BuildQuery(true, s.lastDoc), k - 1);
    }
    FetchOfSlice(s, true, index, resolver, k, end);
  }

  /** What a fetch does with the page it receives, once that page is known to be a slice of the index. */
  lemma {:induction false} FetchOfSlice(s: FeedState, nextPage: bool, index: seq<Doc>, resolver: Resolver, lo: nat, hi: nat)
    requires lo <= hi <= |index| && PageFor(s, nextPage, index) == index[lo..hi]
    ensures FetchShowsSlice(s, nextPage, index, resolver, lo, hi)
  {
    var page := index[lo..hi];
    assert |page| == hi - lo;
    assert hi > lo ==> page[|page| - 1] == index[hi - 1];
    if BuildPage(page, resolver).Some? {
      FetchItemsSucceeds(s, nextPage, index, resolver);
    }
  }

  /** Absorbing the index's first `k'` documents as a first page (or as the next page of an empty feed) loads exactly those. */
  lemma AbsorbFirstPage(s: FeedState, nextPage: bool, index: seq<Doc>, resolver: Resolver, k: nat, k': nat)
    requires Loaded(s, index, resolver, k)
    requires nextPage ==> k == 0
    requires k' <= |index| && BuildPage(index[..k'], resolver).Some?
    ensures Loaded(Absorb(s, nextPage, index[..k'], BuildPage(index[..k'], resolver).value), index, resolver, k')
  {
    if nextPage {
      assert index[..0] == [];
      assert s.items == [];
      assert s.items + BuildPage(index[..k'], resolver).value == BuildPage(index[..k'], resolver).value;
    }
  }

  /** Absorbing the documents from `k` to `k'` as the next page extends the records of the first `k` by theirs. */
  lemma AbsorbNextPage(s: FeedState, index: seq<Doc>, resolver: Resolver, k: nat, k': nat)
    requires Loaded(s, index, resolver, k)
    requires k <= k' <= |index| && BuildPage(index[k..k'], resolver).Some?
    ensures Loaded(Absorb(s, true, index[k..k'], BuildPage(index[k..k'], resolver).value), index, resolver, k')
  {
    NextPageCursor(s, index, k, k', BuildPage(index[k..k'], resolver).value);
    PrefixSplit(index, k, k');
    BuildPageAppend(index[..k], index[k..k'], resolver);
  }

  /** After absorbing the documents from `k` to `k'`, a cursor sits on the `k'`-th. */
  lemma NextPageCursor(s: FeedState, index: seq<Doc>, k: nat, k': nat, fetched: seq<Fields>)
    requires k <= k' <= |index|
    ensures var r := Absorb(s, true, index[k..k'], fetched);
            r.lastDoc.Some? ==> k' > 0 && r.lastDoc == Some(index[k' - 1])
  {
    if k < k' {
      assert index[k..k'][k' - k - 1] == index[k' - 1];
    }
  }

  /** One mount fetch or enabled "Load More" keeps the loaded records a prefix of the index. */
  lemma FeedStepKeepsPrefix(s: FeedState, e: FeedEvent, index: seq<Doc>, resolver: Resolver, k: nat)
    returns (k': nat)
    requires Paged(index)
    requires Loaded(s, index, resolver, k)
    ensures Loaded(FeedStep(s, e, index, resolver), index, resolver, k')
    ensures e.LoadMore? ==> k <= k'
  {
    if (e.LoadMore? && !s.hasMore) || !e.ok
       || BuildPage(PageFor(s, e.LoadMore?, index), resolver).None? {
      k' := k;
    } else if e.Mounted? || s.lastDoc.None? {
      k' := FetchFromTop(s, e.LoadMore?, index, resolver, k);
    } else {
      k' := FetchAfterCursor(s, index, resolver, k);
    }
  }

  /** A successful fetch without a cursor loads the index's first page. */
  lemma FetchFromTop(s: FeedState, nextPage: bool, index: seq<Doc>, resolver: Resolver, k: nat)
    returns (k': nat)
    requires Paged(index)
    requires Loaded(s, index, resolver, k)
    requires nextPage ==> k == 0 && s.lastDoc.None?
    requires BuildPage(PageFor(s, nextPage, index), resolver).Some?
    ensures Loaded(FetchItems(s, nextPage, Some(index), resolver), index, resolver, k')
    ensures nextPage ==> k <= k'
  {
    assert PageFor(s, nextPage, index) == RunQuery(index, BuildQuery(nextPage, s.lastDoc));
    k' := if |index| < ItemsPerPage then |index| else ItemsPerPage;
    FetchItemsSucceeds(s, nextPage, index, resolver);
    AbsorbFirstPage(s, nextPage, index, resolver, k, k');
  }

  /** A successful "Load More" from a cursor on the `k`-th document loads the documents after it. */
  lemma FetchAfterCursor(s: FeedState, index: seq<Doc>, resolver: Resolver, k: nat)
    returns (k': nat)
    requires Paged(index)
    requires Loaded(s, index, resolver, k)
    requires k > 0 && s.lastDoc == Some(index[k - 1])
    requires BuildPage(PageFor(s, true, index), resolver).Some?
    ensures Loaded(FetchItems(s, true, Some(index), resolver), index, resolver, k')
    ensures k <= k'
  {
    assert PageFor(s, true, index) == RunQuery(index, BuildQuery(true, s.lastDoc));
    k' := if |index| - k < ItemsPerPage then |index| else k + ItemsPerPage;
    FetchItemsSucceeds(s, true, index, resolver);
    AbsorbNextPage(s, index, resolver, k, k');
  }

  /**
   * Against an unchanging index, the mount fetch followed by any clicks leaves
   * the records of a prefix of the index: no document is skipped or shown twice.
   */
  lemma {:induction false} FeedRunShowsPrefix(s: FeedState, events: seq<FeedEvent>, index: seq<Doc>, resolver: Resolver, k: nat)
    returns (k': nat)
    requires Sorted(index)
    requires Loaded(s, index, resolver, k)
    ensures Loaded(FeedRun(s, events, index, resolver), index, resolver, k')
    decreases |events|
  {
    if events == [] {
      return k;
    }
    SortedIsPaged(index);
    var k1 := FeedStepKeepsPrefix(s, events[0], index, resolver, k);
    k' := FeedRunShowsPrefix(FeedStep(s, events[0], index, resolver), events[1..], index, resolver, k1);
  }

  // ---------------------------------------------------------------- overlapping fetches

  /**
   * A fetch in flight: the page `fetchItems(nextPage)` read from the cursor it
   * saw when it started, and the page's records (`None` when one rejected).
   */
  datatype Answer = Answer(nextPage: bool, page: seq<Doc>, fetched: Option<seq<Fields>>)

  /** Starting a fetch from state `s`: the query uses the cursor of `s`. */
  function Issue(s: FeedState, nextPage: bool, index: seq<Doc>, resolver: Resolver): (a: Answer)
    ensures a.nextPage == nextPage
    ensures a.page == PageFor(s, nextPage, index) && a.fetched == BuildPage(a.page, resolver)
  {
    var page := PageFor(s, nextPage, index);
    Answer(nextPage, page, BuildPage(page, resolver))
  }

  /**
   * An answer arriving: `setItems(prev => ...)` extends or replaces the list
   * current at that moment, and the cursor and "has more" come from the
   * answer's page. A rejected answer changes nothing.
   */
  function Commit(s: FeedState, a: Answer): (r: FeedState)
    ensures a.fetched.None? ==> r == s
    ensures a.fetched.Some? ==> r.items == (if a.nextPage then s.items else []) + a.fetched.value
    ensures a.fetched.Some? ==> (r.hasMore <==> |a.page| == ItemsPerPage)
  {
    if a.fetched.None? then s else Absorb(s, a.nextPage, a.page, a.fetched.value)
  }

  /** A fetch that completes before the next one starts is `FetchItems`. */
  lemma FetchIsIssueThenCommit(s: FeedState, nextPage: bool, index: seq<Doc>, resolver: Resolver)
    ensures FetchItems(s, nextPage, Some(index), resolver) == Commit(s, Issue(s, nextPage, index, resolver))
  {
    if BuildPage(PageFor(s, nextPage, index), resolver).Some? {
      FetchItemsSucceeds(s, nextPage, index, resolver);
    }
  }

  /**
   * As written, the button stays enabled while a fetch is in flight. Two
   * clicks before the first answer arrives both start from the same cursor,
   * receive the same page, and each answer appends it: the page is shown twice.
   */
  lemma DoubleClickAppendsPageTwice(s: FeedState, index: seq<Doc>, resolver: Resolver)
    requires s.hasMore
    requires Issue(s, true, index, resolver).fetched.Some?
    ensures var a := Issue(s, true, index, resolver);
            var page := a.fetched.value;
            Commit(Commit(s, a), a).items == s.items + page + page
  {
  }

  /**
   * As written, a click while the mount fetch is in flight finds no cursor, so
   * it asks for the first page again; after the mount answer shows that page,
   * the click's answer appends it a second time.
   */
  lemma EarlyClickRepeatsFirstPage(index: seq<Doc>, resolver: Resolver)
    requires Issue(InitialFeed, false, index, resolver).fetched.Some?
    ensures var mount := Issue(InitialFeed, false, index, resolver);
            var click := Issue(InitialFeed, true, index, resolver);
            && click.page == mount.page
            && Commit(Commit(InitialFeed, mount), click).items == mount.fetched.value + mount.fetched.value
  {
  }

  /** Once "has more" is false the button stays disabled: any number of clicks changes nothing. */
  lemma {:induction false} ExhaustedFeedIgnoresClicks(s: FeedState, events: seq<FeedEvent>, index: seq<Doc>, resolver: Resolver)
    requires !s.hasMore
    requires forall i :: 0 <= i < |events| ==> events[i].LoadMore?
    ensures FeedRun(s, events, index, resolver) == s
    decreases |events|
  {
    if events != [] {
      assert FeedStep(s, events[0], index, resolver) == s;
      ExhaustedFeedIgnoresClicks(s, events[1..], index, resolver);
    }
  }

  /** The records shown come from distinct documents, in descending date order. */
  lemma LoadedIsOrderedAndDistinct(s: FeedState, index: seq<Doc>, resolver: Resolver, k: nat)
    requires Sorted(index)
    requires Loaded(s, index, resolver, k)
    ensures |s.items| == k
    ensures Sorted(index[..k]) && NoDup(index[..k])
    ensures forall i :: 0 <= i < k ==> s.items[i] == BuildRecord(index[i], resolver).value
  {
    SortedNoDup(index[..k]);
  }

  /**
   * When the collection's size is a multiple of five, the last full page leaves
   * "Load More" enabled; the click that follows finds nothing, changes no
   * record and disables the button.
   */
  lemma ExactMultipleCostsOneEmptyClick(s: FeedState, index: seq<Doc>, resolver: Resolver)
    requires Sorted(index)
    requires Loaded(s, index, resolver, |index|)
    requires s.hasMore
    ensures FeedStep(s, LoadMore(true), index, resolver).items == s.items
    ensures !FeedStep(s, LoadMore(true), index, resolver).hasMore
    ensures FeedStep(s, LoadMore(true), index, resolver).lastDoc.None?
  {
    var q := BuildQuery(true, s.lastDoc);
    if |index| == 0 {
      QueryFromTop(index, q);
    } else {
      QueryAfterCursor(index, q, |index| - 1);
    }
    assert RunQuery(index, q) == [];
  }
}

/**
 * The home page of web/server.go: page and limit normalisation, the
 * artist/tag filter (their intersection when both are given), the sort by
 * ID, the page window and the filter caption. The artist and tag lists and
 * the artwork page of this revision are the shared ones in module Gallery.
 */
module WebServer {
  import opened Text
  import opened Collections
  import opened Model
  import opened Gallery
  import opened Arith

  datatype Pagination = Pagination(
    currentPage: int,
    totalPages: int,
    totalItems: int,
    limit: int,
    hasPrev: bool,
    hasNext: bool,
    prevPage: int,
    nextPage: int)

  /** The pagination record and the slice bounds [start, end) of the page. */
  datatype Window = Window(pagination: Pagination, start: nat, end: nat)

  datatype HomeView = HomeView(artworks: seq<Card>, filter: string, pagination: Pagination)

  /**
   * The query of the home page. `page` and `limit` hold what fmt.Sscanf
   * stored from the parameter with "%d": None when the parameter is absent
   * or does not scan, in which case the variable keeps its default.
   */
  datatype HomeQuery = HomeQuery(artist: string, tag: string, page: Option<int>, limit: Option<int>)

  const DefaultLimit := 20

  function NormalizePage(scanned: Option<int>): (page: int)
    ensures page >= 1
    ensures scanned.Some? && scanned.value >= 1 ==> page == scanned.value
    ensures scanned.None? || scanned.value < 1 ==> page == 1
  {
    var page := if scanned.Some? then scanned.value else 1;
    if page < 1 then 1 else page
  }

  function NormalizeLimit(scanned: Option<int>): (limit: int)
    ensures limit >= 1
    ensures scanned.Some? && scanned.value >= 1 ==> limit == scanned.value
    ensures scanned.None? || scanned.value < 1 ==> limit == DefaultLimit
  {
    var limit := if scanned.Some? then scanned.value else DefaultLimit;
    if limit < 1 then DefaultLimit else limit
  }

  /**
   * The page window. totalPages is the ceiling of totalItems / limit (all
   * operands are non-negative, so Go's truncating division and Dafny's
   * agree); the page is clamped to the last page when there is one, and the
   * slice bounds are clamped to the list.
   */
  function Paginate(totalItems: nat, page: int, limit: int): (w: Window)
    requires page >= 1 && limit >= 1
    ensures 0 <= w.start <= w.end <= totalItems
    ensures w.end - w.start <= limit
    ensures totalItems == 0 ==> w.start == w.end
    ensures w.pagination.totalItems == totalItems && w.pagination.limit == limit
    ensures w.pagination.totalPages > 0 ==> 1 <= w.pagination.currentPage <= w.pagination.totalPages
    ensures w.pagination.currentPage == (if page > w.pagination.totalPages > 0 then w.pagination.totalPages else page)
    ensures w.pagination.hasPrev <==> w.pagination.currentPage > 1
    ensures w.pagination.hasNext <==> w.pagination.currentPage < w.pagination.totalPages
    ensures w.pagination.prevPage == w.pagination.currentPage - 1
    ensures w.pagination.nextPage == w.pagination.currentPage + 1
  {
    var totalPages := (totalItems + limit - 1) / limit;
    var current := if page > totalPages && totalPages > 0 then totalPages else page;
    assert current >= 1;
    var start := (current - 1) * limit;
    MulMonotone(0, current - 1, limit);
    var end := start + limit;
    var start' := if start > totalItems then totalItems else start;
    var end' := if end > totalItems then totalItems else end;
    Window(
      Pagination(current, totalPages, totalItems, limit, current > 1, current < totalPages, current - 1, current + 1),
      start', end')
  }

  /** totalPages is the least number of pages of `limit` items that hold every item. */
  lemma TotalPagesIsCeiling(totalItems: nat, limit: int)
    requires limit >= 1
    ensures var tp := Paginate(totalItems, 1, limit).pagination.totalPages;
      tp >= 0 && tp * limit >= totalItems && (tp - 1) * limit < totalItems + (if totalItems == 0 then limit else 0)
  {
    var tp := (totalItems + limit - 1) / limit;
    var r := (totalItems + limit - 1) % limit;
    assert totalItems + limit - 1 == tp * limit + r;
    assert tp * limit - limit == (tp - 1) * limit;
  }

  /** Every item is on exactly the page its index says: item j is on page j / limit + 1. */
  lemma ItemOnItsPage(totalItems: nat, limit: int, j: nat)
    requires limit >= 1 && j < totalItems
    ensures var w := Paginate(totalItems, j / limit + 1, limit);
      w.pagination.currentPage == j / limit + 1 && w.start <= j < w.end
  {
    var tp := (totalItems + limit - 1) / limit;
    var p := j / limit + 1;
    TotalPagesIsCeiling(totalItems, limit);
    assert j == (j / limit) * limit + j % limit;
    assert (p - 1) * limit <= j;
    MulCancel(p - 1, tp, limit);
  }

  /** The window of page p + 1 starts where the window of page p ends. */
  lemma PagesAdjacent(totalItems: nat, limit: int, p: int)
    requires limit >= 1 && 1 <= p < Paginate(totalItems, 1, limit).pagination.totalPages
    ensures Paginate(totalItems, p + 1, limit).start == Paginate(totalItems, p, limit).end
  {
    assert p * limit == (p - 1) * limit + limit;
  }

  // ---------------------------------------------------------------------
  // Filtering
  // ---------------------------------------------------------------------

  /** The artworks of an artist; an unknown artist has none. */
  function ArtistCards(store: Store, artist: string): seq<Card> {
    if artist in store.artistIndex then store.artistIndex[artist].artworks else []
  }

  /** The artworks of a tag; an unknown tag has none. */
  function TagCards(store: Store, tag: string): seq<Card> {
    if tag in store.tagIndex then store.tagIndex[tag] else []
  }

  function Ids(cards: seq<Card>): set<string> {
    set c | c in cards :: c.id
  }

  /** The cards whose ID is in `ids`, in their original order. */
  function KeepIds(cards: seq<Card>, ids: set<string>): seq<Card> {
    if cards == [] then []
    else
      var last := cards[|cards| - 1];
      KeepIds(cards[..|cards| - 1], ids) + (if last.id in ids then [last] else [])
  }

  /** KeepIds keeps exactly the cards with a listed ID. */
  lemma {:induction false} KeepIdsMembers(cards: seq<Card>, ids: set<string>, c: Card)
    ensures c in KeepIds(cards, ids) <==> c in cards && c.id in ids
  {
    if cards != [] {
      KeepIdsMembers(cards[..|cards| - 1], ids, c);
      assert cards == cards[..|cards| - 1] + [cards[|cards| - 1]];
    }
  }

  /** What the filter selects, up to order. */
  ghost function Candidates(store: Store, artist: string, tag: string): multiset<Card> {
    if artist == "" && tag == "" then Bag(store.artworkIndex)
    else if artist != "" && tag != "" then multiset(KeepIds(ArtistCards(store, artist), Ids(TagCards(store, tag))))
    else if artist != "" then multiset(ArtistCards(store, artist))
    else multiset(TagCards(store, tag))
  }

  /**
   * The filter of handleHome: every artwork without a filter; the artist's
   * or the tag's list with one; with both, the artist's artworks whose ID
   * is in the tag's list, in the artist list's order.
   */
  method Filter(store: Store, artist: string, tag: string) returns (filtered: seq<Card>)
    ensures multiset(filtered) == Candidates(store, artist, tag)
    ensures artist != "" && tag != "" ==> filtered == KeepIds(ArtistCards(store, artist), Ids(TagCards(store, tag)))
    ensures artist != "" && tag == "" ==> filtered == ArtistCards(store, artist)
    ensures artist == "" && tag != "" ==> filtered == TagCards(store, tag)
  {
    if artist == "" && tag == "" {
      filtered := CollectValues(store.artworkIndex);
      return;
    }
    var artistArtworks: seq<Card> := [];
    if artist != "" && artist in store.artistIndex {
      artistArtworks := store.artistIndex[artist].artworks;
    }
    var tagArtworks: seq<Card> := [];
    if tag != "" && tag in store.tagIndex {
      tagArtworks := store.tagIndex[tag];
    }
    if artist != "" && tag != "" {
      var tagIds: set<string> := {};
      var i := 0;
      while i < |tagArtworks|
        invariant 0 <= i <= |tagArtworks|
        invariant tagIds == Ids(tagArtworks[..i])
      {
        assert tagArtworks[..i + 1] == tagArtworks[..i] + [tagArtworks[i]];
        tagIds := tagIds + {tagArtworks[i].id};
        i := i + 1;
      }
      assert tagArtworks[..|tagArtworks|] == tagArtworks;
      filtered := [];
      var j := 0;
      while j < |artistArtworks|
        invariant 0 <= j <= |artistArtworks|
        invariant filtered == KeepIds(artistArtworks[..j], tagIds)
      {
        assert artistArtworks[..j + 1][..j] == artistArtworks[..j];
        if artistArtworks[j].id in tagIds {
          filtered := filtered + [artistArtworks[j]];
        }
        j := j + 1;
      }
      assert artistArtworks[..|artistArtworks|] == artistArtworks;
    } else if artist != "" {
      filtered := artistArtworks;
    } else {
      filtered := tagArtworks;
    }
  }

  // ---------------------------------------------------------------------
  // The filter caption
  // ---------------------------------------------------------------------

  /** "Artist: <id>", or "Artist: <name>" for a known artist with a name. */
  function ArtistCaption(store: Store, artist: string): string {
    if artist in store.artistIndex && store.artistIndex[artist].name != "" then
      "Artist: " + store.artistIndex[artist].name
    else
      "Artist: " + artist
  }

  /** The parts for the artist and the tag, joined by ", ". */
  function FilterText(store: Store, artist: string, tag: string): (r: string)
    ensures artist == "" && tag == "" ==> r == ""
    ensures artist != "" && tag == "" ==> r == ArtistCaption(store, artist)
    ensures artist == "" && tag != "" ==> r == "Tag: " + tag
    ensures artist != "" && tag != "" ==> r == ArtistCaption(store, artist) + ", Tag: " + tag
  {
    var parts := (if artist != "" then [ArtistCaption(store, artist)] else []) +
                 (if tag != "" then ["Tag: " + tag] else []);
    assert |parts| == 2 ==> JoinStrings(parts, ", ") == parts[0] + ", " + parts[1] by {
      if |parts| == 2 {
        assert parts[1..] == [parts[1]];
      }
    }
    assert ArtistCaption(store, artist) + ", Tag: " + tag == ArtistCaption(store, artist) + ", " + ("Tag: " + tag);
    JoinStrings(parts, ", ")
  }

  // ---------------------------------------------------------------------
  // handleHome
  // ---------------------------------------------------------------------

  /**
   * handleHome: the selected artworks sorted by ID, largest first
   * (`ordered`), and the view of the requested page of them.
   */
  method HandleHome(store: Store, q: HomeQuery) returns (view: HomeView, ordered: seq<Card>)
    ensures multiset(ordered) == Candidates(store, q.artist, q.tag)
    ensures IdsDescending(ordered)
    ensures var w := Paginate(|ordered|, NormalizePage(q.page), NormalizeLimit(q.limit));
      view == HomeView(ordered[w.start..w.end], FilterText(store, q.artist, q.tag), w.pagination)
  {
    var page := NormalizePage(q.page);
    var limit := NormalizeLimit(q.limit);
    var filtered := Filter(store, q.artist, q.tag);
    ordered := SortedById(filtered);
    var w := Paginate(|ordered|, page, limit);
    view := HomeView(ordered[w.start..w.end], FilterText(store, q.artist, q.tag), w.pagination);
  }
}

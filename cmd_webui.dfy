/**
 * The earliest server, cmd/webui.go, over the store of model/index.go whose
 * artist index maps an artist ID straight to its cards: one filter only,
 * the artist taking precedence, and the artist ID shown where later
 * revisions show the name. Its tag list is Gallery.TagList.
 */
module CmdWebui {
  import opened Collections
  import opened Model
  import opened Gallery

  datatype HomeView = HomeView(artworks: seq<Card>, filter: string)

  /** What is listed, up to order: the artist's cards, else the tag's, else all. */
  ghost function Selected(store: IndexStore, artist: string, tag: string): multiset<Card> {
    if artist != "" then
      (if artist in store.artistIndex then multiset(store.artistIndex[artist]) else multiset{})
    else if tag != "" then
      (if tag in store.tagIndex then multiset(store.tagIndex[tag]) else multiset{})
    else
      Bag(store.artworkIndex)
  }

  method HandleHome(store: IndexStore, artist: string, tag: string) returns (view: HomeView)
    ensures multiset(view.artworks) == Selected(store, artist, tag)
    ensures IdsDescending(view.artworks)
    ensures artist != "" ==> view.filter == "Artist ID: " + artist
    ensures artist == "" && tag != "" ==> view.filter == "Tag: " + tag
    ensures artist == "" && tag == "" ==> view.filter == "" && |view.artworks| == |store.artworkIndex|
  {
    var artworks: seq<Card> := [];
    var filterInfo := "";
    if artist != "" {
      filterInfo := "Artist ID: " + artist;
      if artist in store.artistIndex {
        artworks := store.artistIndex[artist];
      }
    } else if tag != "" {
      filterInfo := "Tag: " + tag;
      if tag in store.tagIndex {
        artworks := store.tagIndex[tag];
      }
    } else {
      artworks := CollectValues(store.artworkIndex);
    }
    var sorted := SortedById(artworks);
    assert |sorted| == |multiset(sorted)| == |multiset(artworks)| == |artworks|;
    view := HomeView(sorted, filterInfo);
  }

  /**
   * handleArtistList: one row per artist with label = value = artist ID and
   * Count = number of its cards; rows sorted by Count, largest first.
   */
  method ArtistList(artistIndex: map<string, seq<Card>>) returns (items: seq<ListItem>)
    ensures |items| == |artistIndex|
    ensures forall i :: 0 <= i < |items| ==>
      items[i].value in artistIndex &&
      items[i] == ListItem(items[i].value, items[i].value, |artistIndex[items[i].value]|)
    ensures forall a :: a in artistIndex ==> exists i :: 0 <= i < |items| && items[i].value == a
    ensures CountsDescending(items)
  {
    items := TagList(artistIndex);
  }
}

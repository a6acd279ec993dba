/**
 * handleHome of the two older revisions over {Name, Artworks} artist
 * entries, internal/web/server.go and internal/cli/webui.go, which agree
 * line for line: one filter only, the artist taking precedence over the
 * tag, no pagination. Their artist list, tag list and artwork page are the
 * ones in module Gallery.
 */
module InternalWeb {
  import opened Collections
  import opened Model
  import opened Gallery

  datatype HomeView = HomeView(artworks: seq<Card>, filter: string)

  /** What is listed, up to order: the artist's artworks, else the tag's, else all. */
  ghost function Selected(store: Store, artist: string, tag: string): multiset<Card> {
    if artist != "" then
      (if artist in store.artistIndex then multiset(store.artistIndex[artist].artworks) else multiset{})
    else if tag != "" then
      (if tag in store.tagIndex then multiset(store.tagIndex[tag]) else multiset{})
    else
      Bag(store.artworkIndex)
  }

  method HandleHome(store: Store, artist: string, tag: string) returns (view: HomeView)
    ensures multiset(view.artworks) == Selected(store, artist, tag)
    ensures IdsDescending(view.artworks)
    ensures artist != "" && artist !in store.artistIndex ==> view.artworks == [] && view.filter == "Artist ID: " + artist
    ensures artist != "" && artist in store.artistIndex ==>
      view.filter == (if store.artistIndex[artist].name != "" then "Artist: " + store.artistIndex[artist].name
                      else "Artist ID: " + artist)
    ensures artist == "" && tag != "" ==> view.filter == "Tag: " + tag
    ensures artist == "" && tag == "" ==> view.filter == "" && |view.artworks| == |store.artworkIndex|
  {
    var artworks: seq<Card> := [];
    var filterInfo := "";
    if artist != "" {
      filterInfo := "Artist ID: " + artist;
      if artist in store.artistIndex {
        var detail := store.artistIndex[artist];
        artworks := detail.artworks;
        if detail.name != "" {
          filterInfo := "Artist: " + detail.name;
        }
      }
    } else if tag != "" {
      filterInfo := "Tag: " + tag;
      if tag in store.tagIndex {
        artworks := store.tagIndex[tag];
      }
    } else {
      artworks := CollectValues(store.artworkIndex);
    }
    var sorted := SortedById(artworks);
    assert |sorted| == |multiset(sorted)| == |multiset(artworks)| == |artworks|;
    view := HomeView(sorted, filterInfo);
  }

}

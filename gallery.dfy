/**
 * The gallery handlers that all server revisions share: the two in-place
 * sorts (sort.Slice by ID descending and by Count descending), the tag and
 * artist lists, and the artwork detail page with its image search.
 *
 * handleTagList is the same code in web/server.go, internal/web/server.go,
 * internal/cli/webui.go and cmd/webui.go; handleArtistList and
 * handleArtwork are the same code in the first three.
 */
module Gallery {
  import opened Text
  import opened Collections
  import opened Model

  /** One row of the artist or tag list page. */
  datatype ListItem = ListItem(caption: string, value: string, count: int)

  /** Sorted by ID, largest first, under Go's string order. */
  ghost predicate IdsDescending(s: seq<Card>) {
    forall i, j :: 0 <= i < j < |s| ==> !Less(s[i].id, s[j].id)
  }

  predicate CountsDescending(s: seq<ListItem>) {
    forall i, j :: 0 <= i < j < |s| ==> s[i].count >= s[j].count
  }

  // ---------------------------------------------------------------------
  // Sorting cards by ID, largest first in byte-wise order
  // ---------------------------------------------------------------------

  /** Exchanges two neighbouring cards. */
  method SwapCards(a: array<Card>, j: int)
    requires 0 < j < a.Length
    modifies a
    ensures a[j - 1] == old(a[j]) && a[j] == old(a[j - 1])
    ensures forall k :: 0 <= k < a.Length && k != j - 1 && k != j ==> a[k] == old(a[k])
    ensures multiset(a[..]) == multiset(old(a[..]))
  {
    a[j - 1], a[j] := a[j], a[j - 1];
  }

  /** Moves a[i] left past every smaller ID, extending the sorted prefix by one. */
  method InsertCard(a: array<Card>, i: int)
    requires 0 <= i < a.Length
    requires forall p, q :: 0 <= p < q < i ==> !Less(a[p].id, a[q].id)
    modifies a
    ensures forall p, q :: 0 <= p < q <= i ==> !Less(a[p].id, a[q].id)
    ensures multiset(a[..]) == multiset(old(a[..]))
  {
    var j := i;
    while j > 0 && Less(a[j - 1].id, a[j].id)
      invariant 0 <= j <= i
      invariant forall p, q :: 0 <= p < q <= i && p != j && q != j ==> !Less(a[p].id, a[q].id)
      invariant forall q :: j < q <= i ==> Less(a[q].id, a[j].id)
      invariant multiset(a[..]) == multiset(old(a[..]))
    {
      SwapCards(a, j);
      j := j - 1;
    }
    forall p | 0 <= p < j
      ensures !Less(a[p].id, a[j].id)
    {
      if p < j - 1 {
        NotLessTransitive(a[p].id, a[j - 1].id, a[j].id);
      }
    }
    forall q | j < q <= i
      ensures !Less(a[j].id, a[q].id)
    {
      LessAsymmetric(a[q].id, a[j].id);
    }
  }

  method SortByIdDesc(a: array<Card>)
    modifies a
    ensures IdsDescending(a[..])
    ensures multiset(a[..]) == multiset(old(a[..]))
  {
    var i := 0;
    while i < a.Length
      invariant 0 <= i <= a.Length
      invariant forall p, q :: 0 <= p < q < i ==> !Less(a[p].id, a[q].id)
      invariant multiset(a[..]) == multiset(old(a[..]))
    {
      InsertCard(a, i);
      i := i + 1;
    }
  }

  /** Sorts a copy of `s`, as the handlers sort the slice they hold. */
  method SortedById(s: seq<Card>) returns (r: seq<Card>)
    ensures multiset(r) == multiset(s)
    ensures IdsDescending(r)
  {
    var a := new Card[|s|](k requires 0 <= k < |s| => s[k]);
    assert a[..] == s;
    SortByIdDesc(a);
    r := a[..];
  }

  // ---------------------------------------------------------------------
  // Sorting list items by count, largest first
  // ---------------------------------------------------------------------

  method SwapItems(a: array<ListItem>, j: int)
    requires 0 < j < a.Length
    modifies a
    ensures a[j - 1] == old(a[j]) && a[j] == old(a[j - 1])
    ensures forall k :: 0 <= k < a.Length && k != j - 1 && k != j ==> a[k] == old(a[k])
    ensures multiset(a[..]) == multiset(old(a[..]))
  {
    a[j - 1], a[j] := a[j], a[j - 1];
  }

  method InsertItem(a: array<ListItem>, i: int)
    requires 0 <= i < a.Length
    requires forall p, q :: 0 <= p < q < i ==> a[p].count >= a[q].count
    modifies a
    ensures forall p, q :: 0 <= p < q <= i ==> a[p].count >= a[q].count
    ensures multiset(a[..]) == multiset(old(a[..]))
  {
    var j := i;
    while j > 0 && a[j - 1].count < a[j].count
      invariant 0 <= j <= i
      invariant forall p, q :: 0 <= p < q <= i && p != j && q != j ==> a[p].count >= a[q].count
      invariant forall q :: j < q <= i ==> a[q].count < a[j].count
      invariant multiset(a[..]) == multiset(old(a[..]))
    {
      SwapItems(a, j);
      j := j - 1;
    }
  }

  method SortByCountDesc(a: array<ListItem>)
    modifies a
    ensures CountsDescending(a[..])
    ensures multiset(a[..]) == multiset(old(a[..]))
  {
    var i := 0;
    while i < a.Length
      invariant 0 <= i <= a.Length
      invariant forall p, q :: 0 <= p < q < i ==> a[p].count >= a[q].count
      invariant multiset(a[..]) == multiset(old(a[..]))
    {
      InsertItem(a, i);
      i := i + 1;
    }
  }

  method SortedByCount(s: seq<ListItem>) returns (r: seq<ListItem>)
    ensures multiset(r) == multiset(s)
    ensures CountsDescending(r)
  {
    var a := new ListItem[|s|](k requires 0 <= k < |s| => s[k]);
    assert a[..] == s;
    SortByCountDesc(a);
    r := a[..];
  }

  // ---------------------------------------------------------------------
  // handleTagList and handleArtistList
  // ---------------------------------------------------------------------

  function TagItem(tag: string, cards: seq<Card>): ListItem {
    ListItem(tag, tag, |cards|)
  }

  /** The row each tag gets, keyed by tag. */
  function TagItems(tagIndex: map<string, seq<Card>>): map<string, ListItem> {
    map t | t in tagIndex :: TagItem(t, tagIndex[t])
  }

  /**
   * handleTagList: one row per tag with label = value = tag and
   * Count = length of its list; rows sorted by Count, largest first.
   */
  method TagList(tagIndex: map<string, seq<Card>>) returns (items: seq<ListItem>)
    ensures |items| == |tagIndex|
    ensures forall i :: 0 <= i < |items| ==>
      items[i].value in tagIndex && items[i] == TagItem(items[i].value, tagIndex[items[i].value])
    ensures forall t :: t in tagIndex ==> exists i :: 0 <= i < |items| && items[i].value == t
    ensures CountsDescending(items)
  {
    assert TagItems(tagIndex).Keys == tagIndex.Keys;
    var rows := CollectValues(TagItems(tagIndex));
    items := SortedByCount(rows);
    forall i | 0 <= i < |items|
      ensures items[i].value in tagIndex && items[i] == TagItem(items[i].value, tagIndex[items[i].value])
    {
      assert items[i] in multiset(items);
      BagMember(TagItems(tagIndex), items[i]);
    }
    forall t | t in tagIndex
      ensures exists i :: 0 <= i < |items| && items[i].value == t
    {
      BagMember(TagItems(tagIndex), TagItems(tagIndex)[t]);
      assert TagItems(tagIndex)[t] in multiset(items);
    }
  }

  /** The row of one artist: the name, or the ID when the name is empty. */
  function ArtistItem(artistId: string, detail: ArtistDetail): ListItem {
    ListItem(if detail.name == "" then artistId else detail.name, artistId, |detail.artworks|)
  }

  function ArtistItems(artistIndex: map<string, ArtistDetail>): map<string, ListItem> {
    map a | a in artistIndex :: ArtistItem(a, artistIndex[a])
  }

  /**
   * handleArtistList over {Name, Artworks} entries: one row per artist,
   * labelled by name (the ID if the name is empty), valued by ID, counted
   * by its artworks; rows sorted by Count, largest first.
   */
  method ArtistList(artistIndex: map<string, ArtistDetail>) returns (items: seq<ListItem>)
    ensures |items| == |artistIndex|
    ensures forall i :: 0 <= i < |items| ==>
      items[i].value in artistIndex && items[i] == ArtistItem(items[i].value, artistIndex[items[i].value])
    ensures forall a :: a in artistIndex ==> exists i :: 0 <= i < |items| && items[i].value == a
    ensures CountsDescending(items)
  {
    assert ArtistItems(artistIndex).Keys == artistIndex.Keys;
    var rows := CollectValues(ArtistItems(artistIndex));
    items := SortedByCount(rows);
    forall i | 0 <= i < |items|
      ensures items[i].value in artistIndex && items[i] == ArtistItem(items[i].value, artistIndex[items[i].value])
    {
      assert items[i] in multiset(items);
      BagMember(ArtistItems(artistIndex), items[i]);
    }
    forall a | a in artistIndex
      ensures exists i :: 0 <= i < |items| && items[i].value == a
    {
      BagMember(ArtistItems(artistIndex), ArtistItems(artistIndex)[a]);
      assert ArtistItems(artistIndex)[a] in multiset(items);
    }
  }

  // ---------------------------------------------------------------------
  // handleArtwork: the image of each page is the first listed file whose
  // name starts with "p<i>."
  // ---------------------------------------------------------------------

  function PagePrefix(i: nat): string {
    "p" + NatString(i) + "."
  }

  /** A page prefix never starts with a longer page prefix: its '.' meets a digit. */
  lemma PagePrefixNotShorter(name: string, i: nat, j: nat)
    requires HasPrefix(name, PagePrefix(i)) && HasPrefix(name, PagePrefix(j))
    ensures |PagePrefix(i)| >= |PagePrefix(j)|
  {
    var p, q := PagePrefix(i), PagePrefix(j);
    assert name[|p| - 1] == '.';
    assert forall k :: 1 <= k <= |q| - 2 ==> name[k] == NatString(j)[k - 1];
  }

  /** A file name starts with the prefix of at most one page. */
  lemma PagePrefixUnique(name: string, i: nat, j: nat)
    requires HasPrefix(name, PagePrefix(i)) && HasPrefix(name, PagePrefix(j))
    ensures i == j
  {
    PagePrefixNotShorter(name, i, j);
    PagePrefixNotShorter(name, j, i);
    var p, q := PagePrefix(i), PagePrefix(j);
    assert p == name[..|p|] == q;
    assert NatString(i) == p[1..|p| - 1] == q[1..|q| - 1] == NatString(j);
    NatStringInjective(i, j);
  }

  /** The prefix of page 1 does not match the file of page 10. */
  lemma PageOneNotPageTen()
    ensures !HasPrefix("p10.jpg", PagePrefix(1))
    ensures HasPrefix("p10.jpg", PagePrefix(10))
  {
    assert PagePrefix(1) == "p1.";
    assert NatString(10) == NatString(1) + [DigitChar(0)] == "10";
    assert PagePrefix(10) == "p10.";
    assert "p10.jpg"[..3] == "p10" != "p1.";
  }

  /** The first name in `files` that starts with `prefix`. */
  function FirstWithPrefix(files: seq<string>, prefix: string): (r: Option<string>)
    ensures r.Some? ==> r.value in files && HasPrefix(r.value, prefix)
    ensures r.None? ==> forall f :: f in files ==> !HasPrefix(f, prefix)
  {
    if files == [] then None
    else if HasPrefix(files[0], prefix) then Some(files[0])
    else FirstWithPrefix(files[1..], prefix)
  }

  /** The file found is the first listed one with the prefix. */
  lemma {:induction false} FirstMatch(files: seq<string>, prefix: string, i: nat)
    requires i < |files| && HasPrefix(files[i], prefix)
    requires forall j :: 0 <= j < i ==> !HasPrefix(files[j], prefix)
    ensures FirstWithPrefix(files, prefix) == Some(files[i])
  {
    if i > 0 {
      FirstMatch(files[1..], prefix, i - 1);
    }
  }

  /** The relative image paths of pages 0 .. n-1, skipping pages without a file. */
  function PageImages(artistId: string, artworkId: string, files: seq<string>, n: nat): seq<string>
  {
    if n == 0 then []
    else
      PageImages(artistId, artworkId, files, n - 1) +
      match FirstWithPrefix(files, PagePrefix(n - 1))
      case Some(f) => [PathJoin(PathJoin(artistId, artworkId), f)]
      case None => []
  }

  /** At most one image per page. */
  lemma {:induction false} PageImagesBound(artistId: string, artworkId: string, files: seq<string>, n: nat)
    ensures |PageImages(artistId, artworkId, files, n)| <= n
  {
    if n > 0 {
      PageImagesBound(artistId, artworkId, files, n - 1);
    }
  }

  /** Two different pages never pick the same file. */
  lemma PagesPickDistinctFiles(files: seq<string>, i: nat, j: nat)
    requires i != j
    requires FirstWithPrefix(files, PagePrefix(i)).Some?
    requires FirstWithPrefix(files, PagePrefix(j)).Some?
    ensures FirstWithPrefix(files, PagePrefix(i)) != FirstWithPrefix(files, PagePrefix(j))
  {
    var f := FirstWithPrefix(files, PagePrefix(i)).value;
    if FirstWithPrefix(files, PagePrefix(j)) == Some(f) {
      PagePrefixUnique(f, i, j);
    }
  }

  /** The nested search loop of handleArtwork. */
  method FindImages(card: Card, pageCount: int, files: seq<string>) returns (images: seq<string>)
    ensures images == PageImages(card.artistId, card.id, files, if pageCount > 0 then pageCount else 0)
    ensures |images| <= if pageCount > 0 then pageCount else 0
  {
    images := [];
    var i := 0;
    while i < pageCount
      invariant 0 <= i <= (if pageCount > 0 then pageCount else 0)
      invariant images == PageImages(card.artistId, card.id, files, i)
    {
      var prefix := PagePrefix(i);
      var k := 0;
      while k < |files|
        invariant 0 <= k <= |files|
        invariant FirstWithPrefix(files, prefix) == FirstWithPrefix(files[k..], prefix)
      {
        if HasPrefix(files[k], prefix) {
          images := images + [PathJoin(PathJoin(card.artistId, card.id), files[k])];
          break;
        }
        assert files[k..][1..] == files[k + 1..];
        k := k + 1;
      }
      i := i + 1;
    }
    PageImagesBound(card.artistId, card.id, files, if pageCount > 0 then pageCount else 0);
  }

  datatype ArtworkResponse = HttpError(status: int) | Detail(artwork: ArtworkData, images: seq<string>)

  /**
   * handleArtwork: 400 for a missing id, 404 for an unknown one, 500 when
   * artwork.yaml cannot be read or parsed; otherwise the YAML record and the
   * page images (none when the directory cannot be listed).
   */
  method HandleArtwork(artworkIndex: map<string, Card>, id: string, yaml: YamlRead<ArtworkData>, dir: Option<seq<string>>)
    returns (r: ArtworkResponse)
    ensures id == "" ==> r == HttpError(400)
    ensures id != "" && id !in artworkIndex ==> r == HttpError(404)
    ensures id != "" && id in artworkIndex && !yaml.Parsed? ==> r == HttpError(500)
    ensures id != "" && id in artworkIndex && yaml.Parsed? ==>
      r.Detail? && r.artwork == yaml.value &&
      r.images == (if dir.None? then [] else
        PageImages(artworkIndex[id].artistId, artworkIndex[id].id, dir.value,
          if yaml.value.pageCount > 0 then yaml.value.pageCount else 0))
  {
    if id == "" {
      return HttpError(400);
    }
    if id !in artworkIndex {
      return HttpError(404);
    }
    var card := artworkIndex[id];
    if !yaml.Parsed? {
      return HttpError(500);
    }
    var images: seq<string> := [];
    if dir.Some? {
      images := FindImages(card, yaml.value.pageCount, dir.value);
    }
    r := Detail(yaml.value, images);
  }
}

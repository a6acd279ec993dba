/**
 * cmd/build.go: the index builder. The base directory is given as a value,
 * two levels deep: artist directories holding artwork directories, each
 * artwork with the outcome of reading its artwork.yaml and the names of the
 * files it holds (os.ReadDir lists them sorted by name).
 */
module IndexBuilder {
  import opened Text
  import opened Model
  import opened Gallery
  import Collections

  datatype ArtworkEntry = ArtworkEntry(name: string, isDir: bool, yaml: YamlRead<ArtworkData>, files: seq<string>)

  /** An entry of the base directory; `artworks` is None when it cannot be listed. */
  datatype ArtistEntry = ArtistEntry(name: string, isDir: bool, hasArtistYaml: bool, artworks: Option<seq<ArtworkEntry>>)

  /** An artwork that makes it into the index: its card and its tag entries. */
  datatype Indexed = Indexed(card: Card, tags: seq<TagData>)

  datatype BuildOutcome = Fatal | Built(store: IndexStore)

  /** artist/artwork/<the first file whose name starts with "p0.">, or "" when none does. */
  function Thumbnail(artistId: string, artworkId: string, files: seq<string>): string {
    match FirstWithPrefix(files, PagePrefix(0))
    case None => ""
    case Some(f) => PathJoin(PathJoin(artistId, artworkId), f)
  }

  /** What one artwork entry contributes: nothing unless a directory whose YAML parsed. */
  function ArtworkIndexed(artistId: string, w: ArtworkEntry): Option<Indexed> {
    if !w.isDir || !w.yaml.Parsed? then None
    else
      var data := w.yaml.value;
      Some(Indexed(Card(w.name, artistId, data.title, data.pageCount, Thumbnail(artistId, w.name, w.files)), data.tags))
  }

  function ArtworksIndexed(artistId: string, ws: seq<ArtworkEntry>): seq<Indexed> {
    if ws == [] then []
    else
      var e := ArtworkIndexed(artistId, ws[|ws| - 1]);
      ArtworksIndexed(artistId, ws[..|ws| - 1]) + (if e.Some? then [e.value] else [])
  }

  /** Everything indexed, in the order of the two loops; unlistable artists and files skipped. */
  function IndexedOf(base: seq<ArtistEntry>): seq<Indexed> {
    if base == [] then []
    else
      var a := base[|base| - 1];
      IndexedOf(base[..|base| - 1]) +
        (if a.isDir && a.artworks.Some? then ArtworksIndexed(a.name, a.artworks.value) else [])
  }

  lemma {:induction false} ArtworksIndexedMembers(artistId: string, ws: seq<ArtworkEntry>, e: Indexed)
    ensures e in ArtworksIndexed(artistId, ws) <==> exists w :: w in ws && ArtworkIndexed(artistId, w) == Some(e)
  {
    if ws != [] {
      ArtworksIndexedMembers(artistId, ws[..|ws| - 1], e);
      assert ws == ws[..|ws| - 1] + [ws[|ws| - 1]];
    }
  }

  /**
   * An entry is indexed exactly when it comes from an artwork directory with
   * a readable, parseable artwork.yaml inside a listable artist directory,
   * and its card is built from those: ID and artist ID from the directory
   * names, title and page count from the YAML, the "p0." thumbnail.
   */
  lemma {:induction false} IndexedOfMembers(base: seq<ArtistEntry>, e: Indexed)
    ensures e in IndexedOf(base) <==>
      exists a, w :: a in base && a.isDir && a.artworks.Some? && w in a.artworks.value &&
        w.isDir && w.yaml.Parsed? &&
        e == Indexed(Card(w.name, a.name, w.yaml.value.title, w.yaml.value.pageCount, Thumbnail(a.name, w.name, w.files)),
                     w.yaml.value.tags)
  {
    if base != [] {
      var a := base[|base| - 1];
      IndexedOfMembers(base[..|base| - 1], e);
      assert base == base[..|base| - 1] + [a];
      if a.isDir && a.artworks.Some? {
        ArtworksIndexedMembers(a.name, a.artworks.value, e);
      }
    }
  }

  // ---------------------------------------------------------------------
  // The three maps
  // ---------------------------------------------------------------------

  function Lookup(m: map<string, seq<Card>>, k: string): seq<Card> {
    if k in m then m[k] else []
  }

  /** The tag loop of the build: the card is appended to the list of each tag entry, in order. */
  function AddTags(tagIndex: map<string, seq<Card>>, tags: seq<TagData>, card: Card): map<string, seq<Card>> {
    if tags == [] then tagIndex
    else
      var m := AddTags(tagIndex, tags[..|tags| - 1], card);
      var t := tags[|tags| - 1].tag;
      m[t := Lookup(m, t) + [card]]
  }

  /** One indexed artwork added to the store. */
  function AddCard(s: IndexStore, e: Indexed): IndexStore {
    IndexStore(
      s.artworkIndex[e.card.id := e.card],
      AddTags(s.tagIndex, e.tags, e.card),
      s.artistIndex[e.card.artistId := Lookup(s.artistIndex, e.card.artistId) + [e.card]])
  }

  function IndexAll(es: seq<Indexed>): IndexStore {
    if es == [] then IndexStore(map[], map[], map[])
    else AddCard(IndexAll(es[..|es| - 1]), es[|es| - 1])
  }

  // ---------------------------------------------------------------------
  // Build
  // ---------------------------------------------------------------------

  /**
   * Build: a base directory that cannot be read is fatal. Otherwise every
   * artwork directory is indexed in turn; `warnings` lists the artists
   * without artist.yaml, which are indexed all the same.
   */
  method Build(base: Option<seq<ArtistEntry>>) returns (outcome: BuildOutcome, warnings: seq<string>)
    ensures base.None? ==> outcome == Fatal
    ensures base.Some? ==> outcome == Built(IndexAll(IndexedOf(base.value)))
    ensures base.Some? ==> warnings == MissingArtistYaml(base.value)
  {
    warnings := [];
    if base.None? {
      return Fatal, warnings;
    }
    var entries := base.value;
    var store := IndexStore(map[], map[], map[]);
    var i := 0;
    while i < |entries|
      invariant 0 <= i <= |entries|
      invariant store == IndexAll(IndexedOf(entries[..i]))
      invariant warnings == MissingArtistYaml(entries[..i])
    {
      var artist := entries[i];
      assert entries[..i + 1][..i] == entries[..i];
      assert IndexedOf(entries[..i + 1]) == IndexedOf(entries[..i]) +
        (if artist.isDir && artist.artworks.Some? then ArtworksIndexed(artist.name, artist.artworks.value) else []);
      assert IndexedOf(entries[..i]) + [] == IndexedOf(entries[..i]);
      if artist.isDir {
        if !artist.hasArtistYaml {
          warnings := warnings + [artist.name];
        }
        if artist.artworks.Some? {
          store := IndexArtist(store, entries[..i], artist.name, artist.artworks.value);
        }
      }
      i := i + 1;
    }
    assert entries[..|entries|] == entries;
    outcome := Built(store);
  }

  /** The artist directories without artist.yaml, in listing order. */
  function MissingArtistYaml(base: seq<ArtistEntry>): seq<string> {
    if base == [] then []
    else
      var a := base[|base| - 1];
      MissingArtistYaml(base[..|base| - 1]) + (if a.isDir && !a.hasArtistYaml then [a.name] else [])
  }

  /** Exactly the artist directories lacking artist.yaml are warned about. */
  lemma {:induction false} MissingArtistYamlMembers(base: seq<ArtistEntry>, name: string)
    ensures name in MissingArtistYaml(base) <==> exists a :: a in base && a.isDir && !a.hasArtistYaml && a.name == name
  {
    if base != [] {
      MissingArtistYamlMembers(base[..|base| - 1], name);
      assert base == base[..|base| - 1] + [base[|base| - 1]];
    }
  }

  /** The inner loop of Build over the entries of one artist directory. */
  method IndexArtist(store: IndexStore, before: seq<ArtistEntry>, artistId: string, ws: seq<ArtworkEntry>)
    returns (store': IndexStore)
    requires store == IndexAll(IndexedOf(before))
    ensures store' == IndexAll(IndexedOf(before) + ArtworksIndexed(artistId, ws))
  {
    store' := store;
    var j := 0;
    assert IndexedOf(before) + [] == IndexedOf(before);
    while j < |ws|
      invariant 0 <= j <= |ws|
      invariant store' == IndexAll(IndexedOf(before) + ArtworksIndexed(artistId, ws[..j]))
    {
      var w := ws[j];
      ArtworksIndexedStep(artistId, ws, j);
      if w.isDir && w.yaml.Parsed? {
        var e := ArtworkIndexed(artistId, w).value;
        IndexAllAppend(IndexedOf(before), ArtworksIndexed(artistId, ws[..j]), e);
        store' := AddArtwork(store', artistId, w);
      } else {
        assert ArtworksIndexed(artistId, ws[..j]) + [] == ArtworksIndexed(artistId, ws[..j]);
      }
      j := j + 1;
    }
    assert ws[..|ws|] == ws;
  }

  lemma ArtworksIndexedStep(artistId: string, ws: seq<ArtworkEntry>, j: nat)
    requires j < |ws|
    ensures var e := ArtworkIndexed(artistId, ws[j]);
      ArtworksIndexed(artistId, ws[..j + 1]) == ArtworksIndexed(artistId, ws[..j]) + (if e.Some? then [e.value] else [])
  {
    assert ws[..j + 1][..j] == ws[..j];
  }

  /** Indexing one more artwork after those of `a + b` adds its card to the store. */
  lemma IndexAllAppend(a: seq<Indexed>, b: seq<Indexed>, e: Indexed)
    ensures IndexAll(a + (b + [e])) == AddCard(IndexAll(a + b), e)
  {
    assert a + (b + [e]) == (a + b) + [e];
    assert ((a + b) + [e])[..|a + b|] == a + b;
  }

  /** The body of the inner loop for an artwork directory whose YAML parsed. */
  method AddArtwork(store: IndexStore, artistId: string, w: ArtworkEntry) returns (store': IndexStore)
    requires w.isDir && w.yaml.Parsed?
    ensures store' == AddCard(store, ArtworkIndexed(artistId, w).value)
  {
    var data := w.yaml.value;
    var thumbnail := "";
    var f := FindThumbnail(w.files);
    if f.Some? {
      thumbnail := PathJoin(PathJoin(artistId, w.name), f.value);
    }
    var card := Card(w.name, artistId, data.title, data.pageCount, thumbnail);
    var tagIndex := AppendToTags(store.tagIndex, data.tags, card);
    store' := IndexStore(
      store.artworkIndex[card.id := card],
      tagIndex,
      store.artistIndex[artistId := Lookup(store.artistIndex, artistId) + [card]]);
  }

  /** The tag loop: the card appended to the list of each tag entry in turn. */
  method AppendToTags(tagIndex: map<string, seq<Card>>, tags: seq<TagData>, card: Card) returns (tagIndex': map<string, seq<Card>>)
    ensures tagIndex' == AddTags(tagIndex, tags, card)
  {
    tagIndex' := tagIndex;
    var k := 0;
    while k < |tags|
      invariant 0 <= k <= |tags|
      invariant tagIndex' == AddTags(tagIndex, tags[..k], card)
    {
      assert tags[..k + 1][..k] == tags[..k];
      var t := tags[k].tag;
      tagIndex' := tagIndex'[t := Lookup(tagIndex', t) + [card]];
      k := k + 1;
    }
    assert tags[..|tags|] == tags;
  }

  /** The file loop: the first name starting with "p0.". */
  method FindThumbnail(files: seq<string>) returns (f: Option<string>)
    ensures f == FirstWithPrefix(files, PagePrefix(0))
  {
    var prefix := PagePrefix(0);
    var k := 0;
    while k < |files|
      invariant 0 <= k <= |files|
      invariant FirstWithPrefix(files, prefix) == FirstWithPrefix(files[k..], prefix)
    {
      if HasPrefix(files[k], prefix) {
        return Some(files[k]);
      }
      assert files[k..][1..] == files[k + 1..];
      k := k + 1;
    }
    return None;
  }

  // ---------------------------------------------------------------------
  // What the index holds
  // ---------------------------------------------------------------------

  /** The cards of artist a, in the order they were indexed. */
  function CardsOfArtist(es: seq<Indexed>, a: string): seq<Card> {
    if es == [] then []
    else CardsOfArtist(es[..|es| - 1], a) + (if es[|es| - 1].card.artistId == a then [es[|es| - 1].card] else [])
  }

  /** ArtistIndex[a] lists each card of artist a once, in indexing order. */
  lemma {:induction false} ArtistIndexLists(es: seq<Indexed>, a: string)
    ensures Lookup(IndexAll(es).artistIndex, a) == CardsOfArtist(es, a)
    ensures a in IndexAll(es).artistIndex <==> CardsOfArtist(es, a) != []
  {
    if es != [] {
      ArtistIndexLists(es[..|es| - 1], a);
    }
  }

  lemma {:induction false} CardsOfArtistAreHis(es: seq<Indexed>, a: string)
    ensures forall c :: c in CardsOfArtist(es, a) ==> c.artistId == a
  {
    if es != [] {
      CardsOfArtistAreHis(es[..|es| - 1], a);
    }
  }

  /** Every card in ArtistIndex[a] has ArtistID a. */
  lemma ArtistIndexConsistent(es: seq<Indexed>, a: string, c: Card)
    requires a in IndexAll(es).artistIndex && c in IndexAll(es).artistIndex[a]
    ensures c.artistId == a
  {
    ArtistIndexLists(es, a);
    CardsOfArtistAreHis(es, a);
  }

  /** The sum of the lengths of the lists of a map. */
  ghost function TotalLength(m: map<string, seq<Card>>): nat
    decreases |m|
  {
    if |m| == 0 then 0
    else
      var k := Collections.Pick(m);
      |m[k]| + TotalLength(m - {k})
  }

  lemma {:induction false} TotalLengthRemove(m: map<string, seq<Card>>, k: string)
    requires k in m
    ensures TotalLength(m) == |m[k]| + TotalLength(m - {k})
    decreases |m|
  {
    var j := Collections.Pick(m);
    if j != k {
      var mj, mk := m - {j}, m - {k};
      Collections.RemoveTwice(m, j, k);
      TotalLengthRemove(mj, k);
      TotalLengthRemove(mk, j);
      assert TotalLength(m) == |m[j]| + |m[k]| + TotalLength(mk - {j});
    }
  }

  /** Appending one card to one list adds one to the total. */
  lemma TotalLengthAppend(m: map<string, seq<Card>>, k: string, c: Card)
    ensures TotalLength(m[k := Lookup(m, k) + [c]]) == TotalLength(m) + 1
  {
    var m' := m[k := Lookup(m, k) + [c]];
    TotalLengthRemove(m', k);
    Collections.UpdateThenRemove(m, k, Lookup(m, k) + [c]);
    if k in m {
      TotalLengthRemove(m, k);
    } else {
      Collections.RemoveAbsent(m, k);
    }
  }

  /** The ArtistIndex lists together hold one card per indexed artwork. */
  lemma {:induction false} ArtistIndexTotal(es: seq<Indexed>)
    ensures TotalLength(IndexAll(es).artistIndex) == |es|
  {
    if es != [] {
      ArtistIndexTotal(es[..|es| - 1]);
      var e := es[|es| - 1];
      TotalLengthAppend(IndexAll(es[..|es| - 1]).artistIndex, e.card.artistId, e.card);
    }
  }

  /** ArtworkIndex holds an ID exactly when some indexed artwork has it. */
  lemma {:induction false} ArtworkIndexKeys(es: seq<Indexed>, id: string)
    ensures id in IndexAll(es).artworkIndex <==> exists i :: 0 <= i < |es| && es[i].card.id == id
  {
    if es != [] {
      var last := |es| - 1;
      ArtworkIndexKeys(es[..last], id);
      if es[last].card.id != id {
        if exists i :: 0 <= i < |es| && es[i].card.id == id {
          var i :| 0 <= i < |es| && es[i].card.id == id;
          assert es[..last][i].card.id == id;
        }
        if exists i :: 0 <= i < last && es[..last][i].card.id == id {
          var i :| 0 <= i < last && es[..last][i].card.id == id;
          assert es[i].card.id == id;
        }
      }
    }
  }

  /**
   * The card ArtworkIndex holds for an ID is that of the last indexed
   * artwork with it: a later duplicate overwrites an earlier one.
   */
  lemma {:induction false} ArtworkIndexLastWins(es: seq<Indexed>, id: string)
    ensures id in IndexAll(es).artworkIndex <==> exists i :: 0 <= i < |es| && es[i].card.id == id
    ensures id in IndexAll(es).artworkIndex ==>
      exists j :: 0 <= j < |es| && es[j].card.id == id && IndexAll(es).artworkIndex[id] == es[j].card &&
        forall i :: j < i < |es| ==> es[i].card.id != id
  {
    ArtworkIndexKeys(es, id);
    if es != [] {
      var last := |es| - 1;
      if es[last].card.id != id && id in IndexAll(es).artworkIndex {
        ArtworkIndexLastWins(es[..last], id);
        var j := LastWinsStep(es, id);
      }
    }
  }

  /** The step of ArtworkIndexLastWins when the newest artwork has another ID. */
  lemma LastWinsStep(es: seq<Indexed>, id: string) returns (j: nat)
    requires es != [] && es[|es| - 1].card.id != id
    requires var prev := es[..|es| - 1];
      id in IndexAll(prev).artworkIndex &&
      exists j :: 0 <= j < |prev| && prev[j].card.id == id && IndexAll(prev).artworkIndex[id] == prev[j].card &&
        forall i :: j < i < |prev| ==> prev[i].card.id != id
    ensures j < |es| && es[j].card.id == id && IndexAll(es).artworkIndex[id] == es[j].card
    ensures forall i :: j < i < |es| ==> es[i].card.id != id
  {
    var last := |es| - 1;
    var prev := es[..last];
    j :| 0 <= j < |prev| && prev[j].card.id == id && IndexAll(prev).artworkIndex[id] == prev[j].card &&
      forall i :: j < i < |prev| ==> prev[i].card.id != id;
    assert es[j] == prev[j];
    forall i | j < i < |es|
      ensures es[i].card.id != id
    {
      if i < last {
        assert es[i] == prev[i];
      }
    }
  }

  /** How many of the tag entries are for tag t. */
  function Occurrences(tags: seq<TagData>, t: string): nat {
    if tags == [] then 0
    else Occurrences(tags[..|tags| - 1], t) + (if tags[|tags| - 1].tag == t then 1 else 0)
  }

  function TagOccurrences(es: seq<Indexed>, t: string): nat {
    if es == [] then 0 else TagOccurrences(es[..|es| - 1], t) + Occurrences(es[|es| - 1].tags, t)
  }

  /**
   * Adding one artwork's tags keeps TagIndex[t] as it was and appends the
   * card once per tag entry t, so a tag listed twice lists the card twice.
   */
  lemma {:induction false} AddTagsCounts(tagIndex: map<string, seq<Card>>, tags: seq<TagData>, card: Card, t: string)
    ensures Lookup(AddTags(tagIndex, tags, card), t) == Lookup(tagIndex, t) + Collections.Repeat(card, Occurrences(tags, t))
  {
    if tags == [] {
      assert Lookup(tagIndex, t) + Collections.Repeat(card, 0) == Lookup(tagIndex, t);
    } else {
      var init := tags[..|tags| - 1];
      AddTagsCounts(tagIndex, init, card, t);
      var n := Occurrences(init, t);
      if tags[|tags| - 1].tag == t {
        assert Collections.Repeat(card, n + 1) == Collections.Repeat(card, n) + [card];
      }
    }
  }

  /** Reference list for TagIndex[t]: each artwork in order, its card once per entry t among its tags. */
  function TagCards(es: seq<Indexed>, t: string): seq<Card> {
    if es == [] then []
    else TagCards(es[..|es| - 1], t) + Collections.Repeat(es[|es| - 1].card, Occurrences(es[|es| - 1].tags, t))
  }

  /** How many times card c is put under t: the entries t of every artwork whose card is c. */
  function CardOccurrences(es: seq<Indexed>, t: string, c: Card): nat {
    if es == [] then 0
    else
      var own := if es[|es| - 1].card == c then Occurrences(es[|es| - 1].tags, t) else 0;
      CardOccurrences(es[..|es| - 1], t, c) + own
  }

  /**
   * TagIndex[t] lists, in indexing order, each artwork's card once per tag
   * entry t of that artwork: every card c appears exactly as often as the
   * entries t of the artworks whose card is c, so a tag listed twice on one
   * artwork lists the card twice, and no other card appears.
   */
  lemma {:induction false} TagIndexCounts(es: seq<Indexed>, t: string)
    ensures Lookup(IndexAll(es).tagIndex, t) == TagCards(es, t)
    ensures |Lookup(IndexAll(es).tagIndex, t)| == TagOccurrences(es, t)
    ensures forall c :: multiset(Lookup(IndexAll(es).tagIndex, t))[c] == CardOccurrences(es, t, c)
    ensures forall c :: c in Lookup(IndexAll(es).tagIndex, t) ==> exists i :: 0 <= i < |es| && es[i].card == c
  {
    if es != [] {
      var last := |es| - 1;
      var prev := Lookup(IndexAll(es[..last]).tagIndex, t);
      var add := Collections.Repeat(es[last].card, Occurrences(es[last].tags, t));
      TagIndexCounts(es[..last], t);
      AddTagsCounts(IndexAll(es[..last]).tagIndex, es[last].tags, es[last].card, t);
      assert Lookup(IndexAll(es).tagIndex, t) == prev + add;
      forall c
        ensures multiset(prev + add)[c] == CardOccurrences(es, t, c)
      {
        Collections.RepeatCount(es[last].card, Occurrences(es[last].tags, t), c);
      }
      forall c | c in prev + add
        ensures exists i :: 0 <= i < |es| && es[i].card == c
      {
        if c != es[last].card {
          assert c in prev;
          var i :| 0 <= i < last && es[..last][i].card == c;
          assert es[i].card == c;
        }
      }
    }
  }
}

/**
 * The records the program keeps: the index cards and stores of
 * model/index.go, the YAML records of model/yaml.go, and the store of the
 * newer server revisions, whose artist entries carry a display name.
 */
module Model {

  datatype Option<T> = None | Some(value: T)

  /** model/index.go ArtworkCard: what the gallery lists show for one artwork. */
  datatype Card = Card(id: string, artistId: string, title: string, pageCount: int, thumbnail: string)

  /** model/yaml.go TagData. */
  datatype TagData = TagData(tag: string, locked: bool, romaji: string, translation: string)

  /** model/yaml.go ArtworkData: the contents of artwork.yaml. */
  datatype ArtworkData = ArtworkData(
    id: int,
    title: string,
    description: string,
    pageCount: int,
    tags: seq<TagData>,
    originalUrl: string,
    artistId: int,
    artistName: string,
    createDate: string)

  /** model/index.go Store, as cmd/build.go writes it and cmd/webui.go reads it. */
  datatype IndexStore = IndexStore(
    artworkIndex: map<string, Card>,
    tagIndex: map<string, seq<Card>>,
    artistIndex: map<string, seq<Card>>)

  /** An artist entry of the newer store: display name and artworks. */
  datatype ArtistDetail = ArtistDetail(name: string, artworks: seq<Card>)

  /** The store read by web/server.go, internal/web/server.go and internal/cli/webui.go. */
  datatype Store = Store(
    artworkIndex: map<string, Card>,
    tagIndex: map<string, seq<Card>>,
    artistIndex: map<string, ArtistDetail>)

  /** Reading and unmarshalling a YAML file: either step can fail. */
  datatype YamlRead<T> = Unreadable | Malformed | Parsed(value: T)
}

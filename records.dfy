/**
 * The records the manga API decodes its JSON into (pkg/mangarock/model.go).
 * They carry no behaviour; the client operations read and rebuild them.
 */
module Records {

  /** `time.Time` of the last update; the client never inspects it. */
  type Timestamp = int

  /** An author; `role` is only filled when the author comes with a manga. */
  datatype Author = Author(id: string, name: string, thumbnail: string, role: string)

  /** Go's zero `Author{}`, what a lookup of a missing key in a `map[string]Author` yields. */
  const ZeroAuthor: Author := Author("", "", "", "")

  /** A chapter; `order` only comes with a single manga, `pages` only with a chapter request. */
  datatype Chapter = Chapter(id: string, name: string, order: int, pages: seq<string>)

  datatype Category = Category(id: string, name: string)

  /** A manga as listing endpoints return it. `author` is not decoded, the client fills it. */
  datatype Manga = Manga(
    id: string,
    name: string,
    author: Author,
    authors: seq<Author>,
    authorIds: seq<string>,
    genres: seq<string>,
    rank: int,
    updatedChapters: int,
    newChapters: seq<Chapter>,
    completed: bool,
    thumbnail: string,
    updated: Timestamp)

  /** A single manga: the embedded `Manga` plus the fields only the info endpoint returns. */
  datatype MangaSingle = MangaSingle(
    manga: Manga,
    description: string,
    chapters: seq<Chapter>,
    categories: seq<Category>,
    cover: string,
    artworks: seq<string>,
    aliases: seq<string>)

  /** The `{oid}` records of the author's related-series endpoint. */
  datatype SeriesRef = SeriesRef(id: string)
}

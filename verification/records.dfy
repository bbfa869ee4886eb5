/** The raw book records the scripts receive: OpenLibrary search documents,
    work documents, stored favourites and already formatted books all pass
    through the same normalisers, so one record type carries every property
    any of them reads. A property the object does not have is `Undefined`. */
module Records {
  import opened JsValues

  datatype RawBook = RawBook(
    key: Js,
    id: Js,
    bookId: Js,
    cover_edition_key: Js,
    title: Js,
    bookTitle: Js,
    author_name: Js,
    authors: Js,
    author: Js,
    by_statement: Js,
    cover_i: Js,
    cover_id: Js,
    covers: Js,
    coverId: Js,
    bookCoverId: Js,
    coverUrl: Js,
    subject: Js,
    subjects: Js,
    first_publish_year: Js,
    first_publish_date: Js,
    publish_year: Js)

  /** `{}`: a record with none of the properties. */
  const EmptyBook := RawBook(Undefined, Undefined, Undefined, Undefined, Undefined, Undefined,
    Undefined, Undefined, Undefined, Undefined, Undefined, Undefined, Undefined, Undefined,
    Undefined, Undefined, Undefined, Undefined, Undefined, Undefined, Undefined)

  const UnknownAuthor := "Autor desconocido"
  const UnknownTitle := "Título desconocido"
  const UnknownYear := "Año desconocido"

  /** The prefix work keys carry, removed by every id normaliser. */
  const WorksPrefix := "/works/"

  /** `https://covers.openlibrary.org/b/id/${coverId}-M.jpg` */
  function MediumCoverUrl(coverId: Js): string {
    "https://covers.openlibrary.org/b/id/" + ToStr(coverId) + "-M.jpg"
  }
}

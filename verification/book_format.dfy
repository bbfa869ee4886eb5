/** The page-level `formatBookData` normalisers: the one in book.js (which
    understands search documents, work documents and stored books), the
    older one in books.js, the author extraction that authors.js installs
    over whichever of them the page defines, and the safe-field fallbacks
    the same script puts in front of `renderBookCardHTML`. */
module BookFormat {
  import opened JsValues
  import opened JsText
  import opened Records

  /** The object both `formatBookData` functions return. */
  datatype BookData = BookData(
    id: Js,
    title: Js,
    authors: Js,
    coverId: Js,
    coverUrl: string,
    publishYear: Js,
    subjects: Js)

  /** DEFAULT_COVER of book.js and books.js. */
  const DefaultCover := "/images/default-cover.jpg"

  /** `arr.map(f)` for a callback that may throw (None): the whole map throws
      as soon as one call does. */
  function MapOpt(elems: seq<Js>, f: Js -> Option<Js>): (r: Option<seq<Js>>)
    ensures r.Some? <==> forall i :: 0 <= i < |elems| ==> f(elems[i]).Some?
    ensures r.Some? ==> |r.value| == |elems| && forall i :: 0 <= i < |elems| ==> r.value[i] == f(elems[i]).value
  {
    if elems == [] then Some([])
    else match f(elems[0])
      case None => None
      case Some(x) =>
        match MapOpt(elems[1..], f)
        case None => None
        case Some(rest) => Some([x] + rest)
  }

  /** `a => typeof a === 'string' ? a : (a.name || 'Autor desconocido')`
      (book.js and authors.js): reading `.name` of null or undefined throws. */
  function StringOrName(a: Js): Option<Js> {
    if a.Str? then Some(a)
    else if IsNullish(a) then None
    else Some(Or(Prop(a, "name"), Str(UnknownAuthor)))
  }

  /** `author => author.name || 'Autor desconocido'` (books.js): a string
      author has no `name`, so it becomes the sentinel too. */
  function NameOnly(a: Js): Option<Js> {
    if IsNullish(a) then None else Some(Or(Prop(a, "name"), Str(UnknownAuthor)))
  }

  /** `mapped.join(', ')` for a map that did not throw. */
  function JoinMapped(m: Option<seq<Js>>): Option<Js> {
    match m
    case None => None
    case Some(ns) => Some(Str(JoinJs(ns, ", ")))
  }

  /** `book.key ? book.key.replace('/works/', '') : <fallback>`; a truthy key
      that is not a string has no `replace` (None). */
  function WorkId(key: Js, fallback: Js): Option<Js> {
    if !Truthy(key) then Some(fallback)
    else if key.Str? then Some(Str(RemoveFirst(key.s, WorksPrefix)))
    else None
  }

  /** The author chain of book.js: a truthy `author_name?.length` joined (an
      `author_name` that is not an array has no `join`), else a truthy
      `authors?.length` mapped and joined (no `map` on a non-array), else a
      truthy `author` as it is, else the sentinel. */
  function BookJsAuthors(b: RawBook): Option<Js> {
    if Truthy(OptLength(b.author_name)) then
      (if b.author_name.Arr? then Some(Str(JoinJs(b.author_name.elems, ", "))) else None)
    else if Truthy(OptLength(b.authors)) then
      (if b.authors.Arr? then JoinMapped(MapOpt(b.authors.elems, StringOrName)) else None)
    else if Truthy(b.author) then Some(b.author)
    else Some(Str(UnknownAuthor))
  }

  /** `book.cover_id || book.cover_i || book.covers?.[0] || null` */
  function BookJsCoverId(b: RawBook): Js {
    Or(Or(Or(b.cover_id, b.cover_i), OptIndex(b.covers, 0)), Null)
  }

  /** formatBookData of book.js; None is the TypeError it throws. */
  function FormatBookData(b: RawBook): (r: Option<BookData>)
    ensures r.Some? <==> WorkId(b.key, Or(b.id, Str(""))).Some? && BookJsAuthors(b).Some?
    ensures r.Some? ==> Truthy(r.value.title) && Truthy(r.value.publishYear) && Truthy(r.value.subjects)
    ensures r.Some? ==> (r.value.coverId != Null <==> r.value.coverUrl != DefaultCover)
  {
    match WorkId(b.key, Or(b.id, Str("")))
    case None => None
    case Some(id) =>
      match BookJsAuthors(b)
      case None => None
      case Some(authors) =>
        var coverId := BookJsCoverId(b);
        Some(BookData(
          id := id,
          title := Or(b.title, Str(UnknownTitle)),
          authors := authors,
          coverId := coverId,
          coverUrl := if Truthy(coverId) then MediumCoverUrl(coverId) else DefaultCover,
          publishYear := Or(Or(b.first_publish_year, b.publish_year), Str(UnknownYear)),
          subjects := Or(Or(b.subject, b.subjects), Arr([]))))
  }

  /** formatBookData of books.js; None is the TypeError it throws (a key
      that is not a string, an `authors` that is not an array, a null
      author entry). */
  function OldFormatBookData(b: RawBook): (r: Option<BookData>)
    ensures r.Some? ==> Truthy(r.value.title) && Truthy(r.value.publishYear) && Truthy(r.value.subjects)
    ensures r.Some? ==> (r.value.coverId != Null <==> r.value.coverUrl != DefaultCover)
    ensures r.Some? && !Truthy(b.key) ==> r.value.id == Null
  {
    match WorkId(b.key, Null)
    case None => None
    case Some(id) =>
      var authors :=
        if !Truthy(b.authors) then Some(Str(UnknownAuthor))
        else if b.authors.Arr? then JoinMapped(MapOpt(b.authors.elems, NameOnly))
        else None;
      match authors
      case None => None
      case Some(a) =>
        var coverId := Or(Or(b.cover_id, b.cover_i), Null);
        Some(BookData(
          id := id,
          title := Or(b.title, Str(UnknownTitle)),
          authors := a,
          coverId := coverId,
          coverUrl := if Truthy(Or(b.cover_id, b.cover_i)) then MediumCoverUrl(Or(b.cover_id, b.cover_i)) else DefaultCover,
          publishYear := Or(Or(b.first_publish_year, b.publish_year), Str(UnknownYear)),
          subjects := Or(b.subject, Arr([]))))
  }

  /** extractAuthors of authors.js: a non-empty array `author_name` joined;
      else any array `authors` (an empty one gives '') mapped and joined;
      else a non-empty string `author`; else a non-empty string `authors`;
      else a truthy `by_statement` as it is; else the sentinel. None is the
      TypeError of a null or undefined entry in `authors`. */
  function ExtractAuthors(b: RawBook): Option<Js> {
    if b.author_name.Arr? && |b.author_name.elems| > 0 then Some(Str(JoinJs(b.author_name.elems, ", ")))
    else if b.authors.Arr? then JoinMapped(MapOpt(b.authors.elems, StringOrName))
    else if b.author.Str? && b.author.s != "" then Some(b.author)
    else if b.authors.Str? && b.authors.s != "" then Some(b.authors)
    else if Truthy(b.by_statement) then Some(b.by_statement)
    else Some(Str(UnknownAuthor))
  }

  /** The formatBookData override of authors.js: `original` is what the
      page's own formatBookData returned for `b` (None when it threw); its
      `authors` is replaced by extractAuthors(b). */
  function WithExtractedAuthors(original: Option<BookData>, b: RawBook): (r: Option<BookData>)
    ensures r.Some? <==> original.Some? && ExtractAuthors(b).Some?
    ensures r.Some? ==> r.value == original.value.(authors := ExtractAuthors(b).value)
  {
    match original
    case None => None
    case Some(o) =>
      match ExtractAuthors(b)
      case None => None
      case Some(a) => Some(o.(authors := a))
  }

  /** The object the renderBookCardHTML wrapper of authors.js passes on. */
  datatype SafeCard = SafeCard(id: Js, title: Js, authors: Js, coverUrl: Js, coverId: Js)

  /** `safeBook`; `defaultCover` is the DEFAULT_COVER global of the page. */
  function SafeBook(b: RawBook, defaultCover: string): (r: SafeCard)
    ensures Truthy(r.title) && Truthy(r.authors)
    ensures defaultCover != "" ==> Truthy(r.coverUrl)
    ensures Truthy(r.id) <==> Truthy(b.id) || Truthy(b.bookId)
    ensures Truthy(r.coverId) <==> Truthy(b.coverId) || Truthy(b.bookCoverId)
  {
    SafeCard(
      id := Or(Or(b.id, b.bookId), Str("")),
      title := Or(Or(b.title, b.bookTitle), Str(UnknownTitle)),
      authors := Or(b.authors, Str(UnknownAuthor)),
      coverUrl := Or(b.coverUrl, Str(defaultCover)),
      coverId := Or(Or(b.coverId, b.bookCoverId), Null))
  }

  // ----- Properties -----

  /** In book.js the author sources are tried in order: a non-empty array
      `author_name`, joined with ', '; else a non-empty array `authors`,
      strings kept and objects replaced by their name or the sentinel (a
      null entry makes `a.name` throw); else a truthy `author`; else the
      sentinel. A source is passed over whenever its `length` is falsy, so
      an empty array or an empty string moves on as a missing one does. A
      source with a truthy `length` that is not an array, such as a
      non-empty string, throws: it has no `join` or `map`. */
  lemma {:induction false} BookJsAuthorPrecedence(b: RawBook)
    ensures b.author_name.Arr? && b.author_name.elems != [] ==>
      BookJsAuthors(b) == Some(Str(JoinJs(b.author_name.elems, ", ")))
    ensures Truthy(OptLength(b.author_name)) && !b.author_name.Arr? ==> BookJsAuthors(b).None?
    ensures (!Truthy(OptLength(b.author_name)) && Truthy(OptLength(b.authors)) && !b.authors.Arr?) ==>
      BookJsAuthors(b).None?
    ensures (!Truthy(OptLength(b.author_name)) && b.authors.Arr? && b.authors.elems != []
        && forall i :: 0 <= i < |b.authors.elems| ==> !IsNullish(b.authors.elems[i])) ==>
      exists names: seq<Js> ::
        && |names| == |b.authors.elems|
        && (forall i :: 0 <= i < |names| ==>
              names[i] == (if b.authors.elems[i].Str? then b.authors.elems[i]
                           else Or(Prop(b.authors.elems[i], "name"), Str(UnknownAuthor))))
        && BookJsAuthors(b) == Some(Str(JoinJs(names, ", ")))
    ensures (!Truthy(OptLength(b.author_name)) && b.authors.Arr? && b.authors.elems != []
        && exists i :: 0 <= i < |b.authors.elems| && IsNullish(b.authors.elems[i])) ==>
      BookJsAuthors(b).None?
    ensures !Truthy(OptLength(b.author_name)) && !Truthy(OptLength(b.authors)) ==>
      BookJsAuthors(b) == (if Truthy(b.author) then Some(b.author) else Some(Str(UnknownAuthor)))
  {
    if !Truthy(OptLength(b.author_name)) && b.authors.Arr? && b.authors.elems != []
      && (forall i :: 0 <= i < |b.authors.elems| ==> !IsNullish(b.authors.elems[i]))
    {
      var m := MapOpt(b.authors.elems, StringOrName);
      assert m.Some?;
      var names := m.value;
      assert BookJsAuthors(b) == Some(Str(JoinJs(names, ", ")));
    }
  }

  /** The id: a work key loses its '/works/' prefix; with no key book.js
      falls back to `id`, then '', and books.js gives null. */
  lemma WorkIdFromKey(b: RawBook, rest: string)
    requires b.key == Str(WorksPrefix + rest)
    ensures FormatBookData(b).Some? ==> FormatBookData(b).value.id == Str(rest)
    ensures OldFormatBookData(b).Some? ==> OldFormatBookData(b).value.id == Str(rest)
  {
    RemoveFirstOfPrefix(WorksPrefix, rest);
  }

  lemma WorkIdWithoutKey(b: RawBook)
    requires !Truthy(b.key)
    ensures FormatBookData(b).Some? ==> FormatBookData(b).value.id == Or(b.id, Str(""))
    ensures OldFormatBookData(b).Some? ==> OldFormatBookData(b).value.id == Null
  {
  }

  /** The cover id of book.js is the first truthy of `cover_id`, `cover_i`,
      `covers[0]`, else null, and the URL is the covers-service URL of that
      id exactly when it is not null; books.js reads only `cover_id` and
      `cover_i`. */
  lemma CoverPrecedence(b: RawBook)
    ensures FormatBookData(b).Some? ==>
      var r := FormatBookData(b).value;
      && (Truthy(b.cover_id) ==> r.coverId == b.cover_id)
      && (!Truthy(b.cover_id) && Truthy(b.cover_i) ==> r.coverId == b.cover_i)
      && (!Truthy(b.cover_id) && !Truthy(b.cover_i) ==> r.coverId == Or(OptIndex(b.covers, 0), Null))
      && (r.coverId == Null || Truthy(r.coverId))
      && r.coverUrl == (if r.coverId == Null then DefaultCover else MediumCoverUrl(r.coverId))
    ensures OldFormatBookData(b).Some? ==>
      var r := OldFormatBookData(b).value;
      && r.coverId == Or(Or(b.cover_id, b.cover_i), Null)
      && r.coverUrl == (if r.coverId == Null then DefaultCover else MediumCoverUrl(r.coverId))
  {
  }

  /** The plain defaults both versions share: title, publication year and
      subjects fall back to their sentinels; only book.js reads `subjects`. */
  lemma FieldDefaults(b: RawBook)
    ensures FormatBookData(b).Some? ==>
      var r := FormatBookData(b).value;
      && r.title == (if Truthy(b.title) then b.title else Str(UnknownTitle))
      && r.publishYear == Or(Or(b.first_publish_year, b.publish_year), Str(UnknownYear))
      && r.subjects == Or(Or(b.subject, b.subjects), Arr([]))
    ensures OldFormatBookData(b).Some? ==>
      var r := OldFormatBookData(b).value;
      && r.title == (if Truthy(b.title) then b.title else Str(UnknownTitle))
      && r.subjects == Or(b.subject, Arr([]))
  {
  }

  /** books.js ignores `author_name`: only an array `authors` gives names,
      and a string author counts as a missing name. */
  lemma OldFormatIgnoresAuthorName(b: RawBook, x: Js)
    ensures OldFormatBookData(b.(author_name := x)) == OldFormatBookData(b)
    ensures OldFormatBookData(b).Some? && !Truthy(b.authors) ==>
      OldFormatBookData(b).value.authors == Str(UnknownAuthor)
  {
  }

  /** extractAuthors tries its sources in order: a non-empty array
      `author_name`, joined; else any array `authors`, which throws exactly
      when it holds a null or undefined entry and otherwise joins its
      strings as they are and its objects' names (or the sentinel); else a
      non-empty string `author`, a non-empty string `authors`, a truthy
      `by_statement`; else the sentinel. */
  lemma ExtractAuthorsPrecedence(b: RawBook)
    ensures b.author_name.Arr? && b.author_name.elems != [] ==>
      ExtractAuthors(b) == Some(Str(JoinJs(b.author_name.elems, ", ")))
    ensures !(b.author_name.Arr? && b.author_name.elems != []) && b.authors.Arr? ==>
      (ExtractAuthors(b).None? <==> exists i :: 0 <= i < |b.authors.elems| && IsNullish(b.authors.elems[i]))
    ensures (!(b.author_name.Arr? && b.author_name.elems != []) && b.authors.Arr?
        && forall i :: 0 <= i < |b.authors.elems| ==> !IsNullish(b.authors.elems[i])) ==>
      exists names: seq<Js> ::
        && |names| == |b.authors.elems|
        && (forall i :: 0 <= i < |names| ==>
              names[i] == (if b.authors.elems[i].Str? then b.authors.elems[i]
                           else Or(Prop(b.authors.elems[i], "name"), Str(UnknownAuthor))))
        && ExtractAuthors(b) == Some(Str(JoinJs(names, ", ")))
    ensures !(b.author_name.Arr? && b.author_name.elems != []) && !b.authors.Arr? ==>
      ExtractAuthors(b) ==
        if b.author.Str? && b.author.s != "" then Some(b.author)
        else if b.authors.Str? && b.authors.s != "" then Some(b.authors)
        else if Truthy(b.by_statement) then Some(b.by_statement)
        else Some(Str(UnknownAuthor))
  {
    if !(b.author_name.Arr? && b.author_name.elems != []) && b.authors.Arr? {
      var m := MapOpt(b.authors.elems, StringOrName);
      if forall i :: 0 <= i < |b.authors.elems| ==> !IsNullish(b.authors.elems[i]) {
        assert m.Some?;
        assert ExtractAuthors(b) == Some(Str(JoinJs(m.value, ", ")));
      } else {
        var i :| 0 <= i < |b.authors.elems| && IsNullish(b.authors.elems[i]);
        assert StringOrName(b.authors.elems[i]).None?;
      }
    }
  }

  /** A stored favourite (an author string and no other author field)
      keeps its author string through extractAuthors, while book.js throws
      on it (`map` on a string). */
  lemma StoredAuthorsString(b: RawBook, s: string)
    requires IsNullish(b.author_name) && IsNullish(b.author) && b.authors == Str(s) && s != ""
    ensures ExtractAuthors(b) == Some(Str(s))
    ensures BookJsAuthors(b).None? && FormatBookData(b).None?
  {
  }

  /** An empty `authors` array: extractAuthors gives '', book.js moves on
      to `author`. */
  lemma EmptyAuthorsArray(b: RawBook)
    requires IsNullish(b.author_name) && b.authors == Arr([])
    ensures ExtractAuthors(b) == Some(Str(""))
    ensures BookJsAuthors(b) == (if Truthy(b.author) then Some(b.author) else Some(Str(UnknownAuthor)))
  {
    assert MapOpt([], StringOrName) == Some([]);
    assert JoinJs([], ", ") == "";
  }

  /** The override leaves every field but `authors` as the page's own
      formatter made it, for either version of the formatter. */
  lemma OverrideKeepsFields(b: RawBook)
    ensures WithExtractedAuthors(FormatBookData(b), b).Some? ==>
      var o := FormatBookData(b).value;
      var r := WithExtractedAuthors(FormatBookData(b), b).value;
      r.id == o.id && r.title == o.title && r.coverId == o.coverId && r.coverUrl == o.coverUrl
      && r.publishYear == o.publishYear && r.subjects == o.subjects
    ensures WithExtractedAuthors(OldFormatBookData(b), b).Some? ==>
      var o := OldFormatBookData(b).value;
      var r := WithExtractedAuthors(OldFormatBookData(b), b).value;
      r.id == o.id && r.title == o.title && r.coverId == o.coverId && r.coverUrl == o.coverUrl
      && r.publishYear == o.publishYear && r.subjects == o.subjects
  {
  }

  /** Where the page formatter's author chain and extractAuthors both start
      from a non-empty `author_name` array, the override changes nothing. */
  lemma OverrideAgreesOnAuthorName(b: RawBook)
    requires b.author_name.Arr? && b.author_name.elems != []
    ensures WithExtractedAuthors(FormatBookData(b), b) == FormatBookData(b)
  {
    BookJsAuthorPrecedence(b);
  }

  /** `safeBook` falls back field by field: id to `bookId` then '', title
      to `bookTitle` then the sentinel, authors to the sentinel, cover URL
      to the default, cover id to `bookCoverId` then null. A record that
      already has every field truthy passes through unchanged. */
  lemma SafeBookFallbacks(b: RawBook, defaultCover: string)
    ensures var r := SafeBook(b, defaultCover);
      && r.id == (if Truthy(b.id) then b.id else if Truthy(b.bookId) then b.bookId else Str(""))
      && r.title == (if Truthy(b.title) then b.title else if Truthy(b.bookTitle) then b.bookTitle else Str(UnknownTitle))
      && r.coverId == (if Truthy(b.coverId) then b.coverId else if Truthy(b.bookCoverId) then b.bookCoverId else Null)
    ensures Truthy(b.id) && Truthy(b.title) && Truthy(b.authors) && Truthy(b.coverUrl) && Truthy(b.coverId) ==>
      SafeBook(b, defaultCover) == SafeCard(b.id, b.title, b.authors, b.coverUrl, b.coverId)
  {
  }

  /** The card a formatted book becomes: its fields read back under the names
      renderBookCardHTML uses. */
  function AsRecord(d: BookData): RawBook {
    EmptyBook.(id := d.id, title := d.title, authors := d.authors, coverId := d.coverId, coverUrl := Str(d.coverUrl))
  }

  /** A book formatted by book.js keeps its title, cover id and cover URL
      through `safeBook`, and its authors whenever they are truthy. */
  lemma SafeBookOfFormatted(b: RawBook)
    requires FormatBookData(b).Some?
    ensures var d := FormatBookData(b).value;
      var s := SafeBook(AsRecord(d), DefaultCover);
      && s.title == d.title
      && s.coverUrl == Str(d.coverUrl)
      && s.coverId == d.coverId
      && (Truthy(d.authors) ==> s.authors == d.authors)
  {
    var d := FormatBookData(b).value;
    assert d.coverUrl != "" by {
      if Truthy(d.coverId) {
        assert MediumCoverUrl(d.coverId)[0] == 'h';
      }
    }
  }
}

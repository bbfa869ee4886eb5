/** The two `formatBookForRecommendation` normalisers (the recommendation
    page's and the engine's), the search-result overrides the engine applies
    before formatting, the subject search-term tables and the general
    (no-favourites) recommendation list. */
module RecFormat {
  import opened JsValues
  import opened JsText
  import opened Records

  /** The book shape every recommendation path produces. */
  datatype RecBook = RecBook(
    id: Js,
    title: Js,
    authors: string,
    authorNames: seq<Js>,
    subjects: Js,
    first_publish_date: Js,
    publishYear: Js,
    coverUrl: Js,
    coverId: Js)

  const PageDefaultCover := "/images/default-book-cover.jpg"

  /** `book.key?.replace('/works/', '')`: undefined for a missing key, the key
      without its first '/works/' for a string, a TypeError (None) for any
      other value, which has no `replace`. */
  function KeyWithoutWorks(key: Js): Option<Js> {
    if IsNullish(key) then Some(Undefined)
    else if key.Str? then Some(Str(RemoveFirst(key.s, WorksPrefix)))
    else None
  }

  /** `arr.map(a => a.name)`: a TypeError (None) as soon as an entry is null
      or undefined. */
  function MapNames(elems: seq<Js>): (r: Option<seq<Js>>)
    ensures r.Some? ==> |r.value| == |elems| && forall i :: 0 <= i < |elems| ==> r.value[i] == Prop(elems[i], "name")
    ensures r.None? <==> exists i :: 0 <= i < |elems| && IsNullish(elems[i])
  {
    if elems == [] then Some([])
    else if IsNullish(elems[0]) then None
    else match MapNames(elems[1..])
      case None => None
      case Some(rest) => Some([Prop(elems[0], "name")] + rest)
  }

  /** `book.cover_i || book.cover_id || book.covers?.[0] || book.coverId` */
  function RecCoverId(b: RawBook): Js {
    Or(Or(Or(b.cover_i, b.cover_id), OptIndex(b.covers, 0)), b.coverId)
  }

  /** The cover URL both recommendation formatters build: the medium cover for
      a truthy cover id, else the record's own `coverUrl` if truthy, else the
      default. */
  function RecCoverUrl(coverId: Js, ownUrl: Js, defaultCover: string): Js {
    if Truthy(coverId) then Str(MediumCoverUrl(coverId))
    else if Truthy(ownUrl) then ownUrl
    else Str(defaultCover)
  }

  /** The value `authorNames` holds in the page formatter, before `join`. It
      need not be an array: a non-empty string `author_name` is taken as is. */
  function PageAuthorNames(b: RawBook): Option<Js> {
    if Truthy(OptLength(b.author_name)) then Some(b.author_name)
    else if Truthy(OptLength(b.authors)) then
      var first := Index(b.authors, 0);
      if IsString(first) then Some(b.authors)
      else if Truthy(OptProp(first, "name")) then
        (if b.authors.Arr? then
           (match MapNames(b.authors.elems) case Some(ns) => Some(Arr(ns)) case None => None)
         else None)
      else Some(Arr([Str(UnknownAuthor)]))
    else if IsString(b.authors) then Some(Arr([b.authors]))
    else Some(Arr([Str(UnknownAuthor)]))
  }

  /** formatBookForRecommendation of the recommendation page. None is the
      TypeError it throws on a key that is not a string, on an `authorNames`
      that has no `join`, and on a null entry met by `map`. */
  function FormatForRecommendation(b: RawBook): (r: Option<RecBook>)
    ensures r.Some? ==> r.value.authors == JoinJs(r.value.authorNames, ", ")
    ensures r.Some? ==> Truthy(r.value.title) && Truthy(r.value.subjects) && Truthy(r.value.publishYear)
    ensures r.Some? ==> Truthy(r.value.coverUrl)
  {
    match KeyWithoutWorks(b.key)
    case None => None
    case Some(k) =>
      match PageAuthorNames(b)
      case None => None
      case Some(names) =>
        if !names.Arr? then None
        else
          var coverId := RecCoverId(b);
          var published := Or(b.first_publish_year, b.first_publish_date);
          Some(RecBook(
            id := Or(Or(k, b.id), b.cover_edition_key),
            title := Or(b.title, Str(UnknownTitle)),
            authors := JoinJs(names.elems, ", "),
            authorNames := names.elems,
            subjects := Or(Or(b.subject, b.subjects), Arr([])),
            first_publish_date := published,
            publishYear := Or(published, Str(UnknownYear)),
            coverUrl := RecCoverUrl(coverId, b.coverUrl, PageDefaultCover),
            coverId := coverId))
  }

  /** `authorNames` in the engine formatter: any array `author_name` wins,
      an empty one included; then an array `authors`; then a string
      `authors`. */
  function EngineAuthorNames(b: RawBook): Option<seq<Js>> {
    if Truthy(b.author_name) && b.author_name.Arr? then Some(b.author_name.elems)
    else if Truthy(b.authors) && b.authors.Arr? then
      var first := Index(b.authors, 0);
      if IsString(first) then Some(b.authors.elems)
      else if Truthy(OptProp(first, "name")) then MapNames(b.authors.elems)
      else Some([Str(UnknownAuthor)])
    else if IsString(b.authors) then Some([b.authors])
    else Some([Str(UnknownAuthor)])
  }

  /** The engine's `book.key ? book.key.replace('/works/', '') : (book.id || book.cover_edition_key)` */
  function EngineId(b: RawBook): Option<Js> {
    if !Truthy(b.key) then Some(Or(b.id, b.cover_edition_key))
    else if b.key.Str? then Some(Str(RemoveFirst(b.key.s, WorksPrefix)))
    else None
  }

  /** formatBookForRecommendation of the recommendations engine. The engine
      file reads the page's global `DEFAULT_COVER`, passed here as
      `defaultCover`. */
  function EngineFormatForRecommendation(b: RawBook, defaultCover: string): (r: Option<RecBook>)
    ensures r.Some? ==> r.value.authors == JoinJs(r.value.authorNames, ", ")
    ensures r.Some? ==> Truthy(r.value.title) && Truthy(r.value.subjects) && Truthy(r.value.publishYear)
    ensures r.Some? ==> (defaultCover != "" ==> Truthy(r.value.coverUrl))
  {
    match EngineId(b)
    case None => None
    case Some(id) =>
      match EngineAuthorNames(b)
      case None => None
      case Some(names) =>
        var coverId := RecCoverId(b);
        var published := Or(b.first_publish_year, b.first_publish_date);
        Some(RecBook(
          id := id,
          title := Or(b.title, Str(UnknownTitle)),
          authors := JoinJs(names, ", "),
          authorNames := names,
          subjects := Or(Or(b.subject, b.subjects), Arr([])),
          first_publish_date := published,
          publishYear := Or(published, Str(UnknownYear)),
          coverUrl := RecCoverUrl(coverId, b.coverUrl, defaultCover),
          coverId := coverId))
  }

  /** In the page formatter the author sources are tried in order: a
      non-empty `author_name` array as is, else a non-empty `authors` array
      as is when its first entry is a string or mapped to `.name` when its
      first entry has a name, else a string `authors`; with none of them the
      list is the single 'Autor desconocido'. */
  lemma PageAuthorPrecedence(b: RawBook)
    requires FormatForRecommendation(b).Some?
    ensures var r := FormatForRecommendation(b).value;
      && (b.author_name.Arr? && b.author_name.elems != [] ==> r.authorNames == b.author_name.elems)
      && ((!Truthy(OptLength(b.author_name)) && b.authors.Arr? && b.authors.elems != []
          && IsString(b.authors.elems[0])) ==> r.authorNames == b.authors.elems)
      && ((!Truthy(OptLength(b.author_name)) && b.authors.Arr? && b.authors.elems != []
          && !IsString(b.authors.elems[0]) && Truthy(OptProp(b.authors.elems[0], "name"))) ==>
            |r.authorNames| == |b.authors.elems|
            && forall i :: 0 <= i < |r.authorNames| ==> r.authorNames[i] == Prop(b.authors.elems[i], "name"))
      && ((!Truthy(OptLength(b.author_name)) && b.authors.Arr? && b.authors.elems != []
          && !IsString(b.authors.elems[0]) && !Truthy(OptProp(b.authors.elems[0], "name"))) ==>
            r.authorNames == [Str(UnknownAuthor)] && r.authors == UnknownAuthor)
      && (!Truthy(OptLength(b.author_name)) && !Truthy(OptLength(b.authors)) && b.authors.Str? ==>
            r.authorNames == [b.authors])
      && (!Truthy(OptLength(b.author_name)) && !Truthy(OptLength(b.authors)) && !b.authors.Str? ==>
            r.authorNames == [Str(UnknownAuthor)] && r.authors == UnknownAuthor)
  {
    var r := FormatForRecommendation(b).value;
    assert JoinJs([Str(UnknownAuthor)], ", ") == UnknownAuthor;
    if !Truthy(OptLength(b.author_name)) && !Truthy(OptLength(b.authors)) && !b.authors.Str? {
      assert r.authorNames == [Str(UnknownAuthor)];
    }
  }

  /** A non-empty string in `author_name` (or a non-empty string `authors`)
      makes the page formatter throw: `authorNames` becomes that string,
      which has no `join`. The empty string `authors` is the only string the
      dedicated string branch ever receives, giving one empty name. */
  lemma PageStringAuthorsThrow(b: RawBook)
    ensures b.author_name.Str? && b.author_name.s != [] ==> FormatForRecommendation(b).None?
    ensures !Truthy(OptLength(b.author_name)) && b.authors.Str? && b.authors.s != []
      ==> FormatForRecommendation(b).None?
    ensures !Truthy(OptLength(b.author_name)) && b.authors == Str("") && KeyWithoutWorks(b.key).Some?
      ==> FormatForRecommendation(b).Some? && FormatForRecommendation(b).value.authorNames == [Str("")]
          && FormatForRecommendation(b).value.authors == ""
  {
    if !Truthy(OptLength(b.author_name)) && b.authors == Str("") && KeyWithoutWorks(b.key).Some? {
      assert JoinJs([Str("")], ", ") == "";
    }
  }

  /** In the engine formatter any array `author_name` wins, even an empty
      one, which leaves no author name at all and an empty `authors`. */
  lemma EngineEmptyAuthorName(b: RawBook, defaultCover: string)
    requires b.author_name == Arr([]) && EngineId(b).Some?
    ensures EngineFormatForRecommendation(b, defaultCover).Some?
    ensures EngineFormatForRecommendation(b, defaultCover).value.authorNames == []
    ensures EngineFormatForRecommendation(b, defaultCover).value.authors == ""
  {
  }

  /** For the same empty `author_name`, the page formatter instead falls
      through to `authors`, so the two formatters disagree. */
  lemma VariantsDisagreeOnEmptyAuthorName(b: RawBook)
    requires b.author_name == Arr([]) && b.authors == Undefined && KeyWithoutWorks(b.key).Some?
    ensures FormatForRecommendation(b).Some?
    ensures FormatForRecommendation(b).value.authorNames == [Str(UnknownAuthor)]
    ensures EngineFormatForRecommendation(b, PageDefaultCover).Some?
    ensures EngineFormatForRecommendation(b, PageDefaultCover).value.authorNames == []
  {
  }

  /** The id: a work key loses its '/works/' prefix in both formatters; with
      no key both fall back to `id`, then `cover_edition_key`. */
  lemma RecIdFromKey(b: RawBook, rest: string)
    requires b.key == Str(WorksPrefix + rest) && rest != []
    ensures FormatForRecommendation(b).Some? ==> FormatForRecommendation(b).value.id == Str(rest)
    ensures EngineId(b) == Some(Str(rest))
  {
    RemoveFirstOfPrefix(WorksPrefix, rest);
  }

  lemma RecIdWithoutKey(b: RawBook, defaultCover: string)
    requires IsNullish(b.key)
    ensures FormatForRecommendation(b).Some? ==> FormatForRecommendation(b).value.id == Or(b.id, b.cover_edition_key)
    ensures EngineFormatForRecommendation(b, defaultCover).Some? ==>
      EngineFormatForRecommendation(b, defaultCover).value.id == Or(b.id, b.cover_edition_key)
  {
  }

  /** The bare key '/works/' shows the two id rules apart: the page's `||`
      chain skips the empty remainder, the engine's conditional keeps it. */
  lemma VariantsDisagreeOnBareWorksKey(b: RawBook)
    requires b.key == Str(WorksPrefix)
    ensures KeyWithoutWorks(b.key) == Some(Str(""))
    ensures FormatForRecommendation(b).Some? ==> FormatForRecommendation(b).value.id == Or(b.id, b.cover_edition_key)
    ensures EngineId(b) == Some(Str(""))
  {
    RemoveFirstOfPrefix(WorksPrefix, "");
    assert WorksPrefix + "" == WorksPrefix;
  }

  /** The cover: the covers-service URL exactly when some cover id is truthy
      (`cover_i`, `cover_id`, `covers[0]`, `coverId`, first truthy wins, and
      `coverId` itself when none is); otherwise the record's own `coverUrl`,
      otherwise the default. */
  lemma RecCoverPrecedence(b: RawBook)
    requires FormatForRecommendation(b).Some?
    ensures var r := FormatForRecommendation(b).value;
      && (Truthy(r.coverId) <==> (Truthy(b.cover_i) || Truthy(b.cover_id)
            || Truthy(OptIndex(b.covers, 0)) || Truthy(b.coverId)))
      && (Truthy(b.cover_i) ==> r.coverId == b.cover_i)
      && (!Truthy(b.cover_i) && Truthy(b.cover_id) ==> r.coverId == b.cover_id)
      && (!Truthy(b.cover_i) && !Truthy(b.cover_id) && Truthy(OptIndex(b.covers, 0)) ==>
            r.coverId == OptIndex(b.covers, 0))
      && (!Truthy(b.cover_i) && !Truthy(b.cover_id) && !Truthy(OptIndex(b.covers, 0)) ==>
            r.coverId == b.coverId)
      && (Truthy(r.coverId) ==> r.coverUrl == Str(MediumCoverUrl(r.coverId)))
      && (!Truthy(r.coverId) && Truthy(b.coverUrl) ==> r.coverUrl == b.coverUrl)
      && (!Truthy(r.coverId) && !Truthy(b.coverUrl) ==> r.coverUrl == Str(PageDefaultCover))
  {
  }

  /** A well-formed search document (a string or missing key, array or
      missing author fields, no null author entry) never makes the page
      formatter throw. */
  predicate ApiShaped(b: RawBook) {
    (IsNullish(b.key) || b.key.Str?)
    && (IsNullish(b.author_name) || b.author_name.Arr?)
    && (IsNullish(b.authors) || (b.authors.Arr? && forall i :: 0 <= i < |b.authors.elems| ==> !IsNullish(b.authors.elems[i])))
  }

  lemma ApiShapedFormats(b: RawBook, defaultCover: string)
    requires ApiShaped(b)
    ensures FormatForRecommendation(b).Some?
    ensures EngineFormatForRecommendation(b, defaultCover).Some?
  {
    if b.authors.Arr? {
      var m := MapNames(b.authors.elems);
      assert m.Some?;
    }
  }

  /** `docs.map(format)` inside a try whose catch returns []: one throw
      empties the whole result. */
  function FormatAllOrNothing(xs: seq<Option<RecBook>>): (r: seq<RecBook>)
    ensures (forall i :: 0 <= i < |xs| ==> xs[i].Some?) ==>
      |r| == |xs| && forall i :: 0 <= i < |xs| ==> r[i] == xs[i].value
    ensures (exists i :: 0 <= i < |xs| && xs[i].None?) ==> r == []
  {
    if xs == [] then []
    else match xs[0]
      case None => []
      case Some(x) =>
        var rest := FormatAllOrNothing(xs[1..]);
        if exists i :: 0 <= i < |xs| - 1 && xs[1..][i].None? then []
        else [x] + rest
  }

  /** The engine author search rewrites `key` as
      `book.key || '/works/' + book.key.replace(...)`: a missing key throws. */
  function AuthorSearchKey(key: Js): Option<Js> {
    if Truthy(key) then Some(key)
    else if key.Str? then Some(Str(WorksPrefix + RemoveFirst(key.s, WorksPrefix)))
    else None
  }

  /** The subject and popular searches use `book.key?.replace(...)`: a missing
      key becomes '/works/undefined'. */
  function SubjectSearchKey(key: Js): Option<Js> {
    if Truthy(key) then Some(key)
    else if IsNullish(key) then Some(Str(WorksPrefix + "undefined"))
    else if key.Str? then Some(Str(WorksPrefix + RemoveFirst(key.s, WorksPrefix)))
    else None
  }

  /** One document of the engine's searchBooksByAuthor, formatted after
      `author_name` is overwritten with `[author]`. */
  function EngineAuthorDoc(b: RawBook, author: Js, defaultCover: string): Option<RecBook> {
    match AuthorSearchKey(b.key)
    case None => None
    case Some(k) => EngineFormatForRecommendation(b.(author_name := Arr([author]), key := k), defaultCover)
  }

  function EngineAuthorSearch(author: Js, docs: seq<RawBook>, defaultCover: string): seq<RecBook> {
    FormatAllOrNothing(seq(|docs|, i requires 0 <= i < |docs| => EngineAuthorDoc(docs[i], author, defaultCover)))
  }

  /** One document of the engine's searchBooksBySubject or
      getPopularBooksInSubject, formatted after `subject` is set to
      `[subject]`. */
  function EngineSubjectDoc(b: RawBook, subject: string, defaultCover: string): Option<RecBook> {
    match SubjectSearchKey(b.key)
    case None => None
    case Some(k) => EngineFormatForRecommendation(b.(subject := Arr([Str(subject)]), key := k), defaultCover)
  }

  function EngineSubjectSearch(subject: string, docs: seq<RawBook>, defaultCover: string): seq<RecBook> {
    FormatAllOrNothing(seq(|docs|, i requires 0 <= i < |docs| => EngineSubjectDoc(docs[i], subject, defaultCover)))
  }

  /** Every candidate the engine's author search returns names exactly the
      searched author, whatever the document said. */
  lemma EngineAuthorSearchNamesAuthor(author: Js, docs: seq<RawBook>, defaultCover: string)
    ensures forall r :: r in EngineAuthorSearch(author, docs, defaultCover) ==>
      r.authorNames == [author] && r.authors == ElemStr(author)
  {
    var xs := seq(|docs|, i requires 0 <= i < |docs| => EngineAuthorDoc(docs[i], author, defaultCover));
    var rs := EngineAuthorSearch(author, docs, defaultCover);
    forall r | r in rs ensures r.authorNames == [author] && r.authors == ElemStr(author) {
      var i :| 0 <= i < |rs| && rs[i] == r;
      assert xs[i].Some? && r == xs[i].value;
      EngineAuthorDocNamesAuthor(docs[i], author, defaultCover);
    }
  }

  /** One document of the author search names the searched author. */
  lemma EngineAuthorDocNamesAuthor(b: RawBook, author: Js, defaultCover: string)
    ensures EngineAuthorDoc(b, author, defaultCover).Some? ==>
              && EngineAuthorDoc(b, author, defaultCover).value.authorNames == [author]
              && EngineAuthorDoc(b, author, defaultCover).value.authors == ElemStr(author)
  {
    if AuthorSearchKey(b.key).Some? {
      var b' := b.(author_name := Arr([author]), key := AuthorSearchKey(b.key).value);
      assert EngineAuthorNames(b') == Some([author]);
      assert JoinJs([author], ", ") == ElemStr(author);
    }
  }

  /** Every candidate of the engine's subject searches has exactly the
      searched subject as its subjects. */
  lemma EngineSubjectSearchSetsSubject(subject: string, docs: seq<RawBook>, defaultCover: string)
    ensures forall r :: r in EngineSubjectSearch(subject, docs, defaultCover) ==> r.subjects == Arr([Str(subject)])
  {
    var xs := seq(|docs|, i requires 0 <= i < |docs| => EngineSubjectDoc(docs[i], subject, defaultCover));
    var rs := EngineSubjectSearch(subject, docs, defaultCover);
    forall r | r in rs ensures r.subjects == Arr([Str(subject)]) {
      var i :| 0 <= i < |rs| && rs[i] == r;
      assert xs[i].Some? && r == xs[i].value;
      EngineSubjectDocSetsSubject(docs[i], subject, defaultCover);
    }
  }

  /** One document of the subject searches carries the searched subject. */
  lemma EngineSubjectDocSetsSubject(b: RawBook, subject: string, defaultCover: string)
    ensures EngineSubjectDoc(b, subject, defaultCover).Some? ==>
              EngineSubjectDoc(b, subject, defaultCover).value.subjects == Arr([Str(subject)])
  {
  }

  const PageSubjectMappings: map<string, seq<string>> := map[
    "fiction" := ["fiction", "novel", "story"],
    "fantasy" := ["fantasy", "magic", "dragons"],
    "science_fiction" := ["science fiction", "sci-fi", "space"],
    "mystery" := ["mystery", "detective", "crime"]]

  const EngineSubjectMappings: map<string, seq<string>> := PageSubjectMappings + map[
    "biography" := ["biography", "memoir", "life story"],
    "history" := ["history", "historical", "past"],
    "romance" := ["romance", "love story", "romantic"],
    "thriller" := ["thriller", "suspense", "action"],
    "horror" := ["horror", "scary", "supernatural"],
    "poetry" := ["poetry", "poems", "verse"]]

  /** `[subject, ...(subjectMappings[subject.toLowerCase()] || [])]`; None is
      the TypeError of spreading an inherited Object.prototype member. */
  function SubjectSearchTerms(mappings: map<string, seq<string>>, subject: string): Option<seq<string>> {
    var k := ToLowerCase(subject);
    if k in mappings then Some([subject] + mappings[k])
    else if k in ObjectPrototypeNames then None
    else Some([subject])
  }

  /** Every entry of both tables maps to exactly three terms, and the
      engine's table extends the page's. */
  lemma SubjectMappingsShape()
    ensures forall k :: k in PageSubjectMappings ==> |PageSubjectMappings[k]| == 3
    ensures forall k :: k in EngineSubjectMappings ==> |EngineSubjectMappings[k]| == 3
    ensures forall k :: k in PageSubjectMappings ==>
      (k in EngineSubjectMappings && EngineSubjectMappings[k] == PageSubjectMappings[k])
  {
  }

  /** The search terms start with the subject itself, followed by the three
      mapped terms when the lower-cased subject is in the table and by
      nothing otherwise. */
  lemma SubjectSearchTermsShape(mappings: map<string, seq<string>>, subject: string)
    requires forall k :: k in mappings ==> |mappings[k]| == 3
    ensures var t := SubjectSearchTerms(mappings, subject);
      t.Some? ==> (t.value[0] == subject && (|t.value| == 4 <==> ToLowerCase(subject) in mappings)
        && (|t.value| == 1 <==> ToLowerCase(subject) !in mappings))
    ensures SubjectSearchTerms(mappings, subject).None? <==>
      ToLowerCase(subject) !in mappings && ToLowerCase(subject) in ObjectPrototypeNames
  {
  }

  /** Where the page's table has an entry, the engine's gives the same terms. */
  lemma SubjectSearchTermsAgree(subject: string)
    requires ToLowerCase(subject) in PageSubjectMappings
    ensures SubjectSearchTerms(EngineSubjectMappings, subject) == SubjectSearchTerms(PageSubjectMappings, subject)
  {
    SubjectMappingsShape();
  }

  const PageGeneralTerms := ["popular fiction", "bestseller", "classic literature",
    "fantasy adventure", "mystery thriller", "science fiction"]

  const EngineGeneralTerms := PageGeneralTerms + ["historical fiction", "contemporary fiction", "biography"]

  /** The documents of one general search after formatting: None when the
      fetch failed or a document made the formatter throw (the whole push is
      skipped). The page spreads `reason` and `score` into each document,
      which its formatter then drops. */
  function PageGeneralBatch(docs: Option<seq<RawBook>>): Option<seq<RecBook>> {
    match docs
    case None => None
    case Some(ds) =>
      var xs := seq(|ds|, i requires 0 <= i < |ds| => FormatForRecommendation(ds[i]));
      if forall i :: 0 <= i < |xs| ==> xs[i].Some? then Some(FormatAllOrNothing(xs)) else None
  }

  function EngineGeneralBatch(docs: Option<seq<RawBook>>, defaultCover: string): Option<seq<RecBook>> {
    match docs
    case None => None
    case Some(ds) =>
      var xs := seq(|ds|, i requires 0 <= i < |ds| => EngineSubjectKeyDoc(ds[i], defaultCover));
      if forall i :: 0 <= i < |xs| ==> xs[i].Some? then Some(FormatAllOrNothing(xs)) else None
  }

  /** The engine's general search rewrites the key like its subject search
      but keeps the document's subjects. */
  function EngineSubjectKeyDoc(b: RawBook, defaultCover: string): Option<RecBook> {
    match SubjectSearchKey(b.key)
    case None => None
    case Some(k) => EngineFormatForRecommendation(b.(key := k), defaultCover)
  }

  /** The list getGeneralRecommendations builds before its final slice: the
      batches of the terms in order, stopping after the first successful
      batch that brings the list to `limit` or more. */
  function Gathered(acc: seq<RecBook>, terms: seq<string>, batch: string -> Option<seq<RecBook>>, limit: int): seq<RecBook>
    decreases |terms|
  {
    if terms == [] then acc
    else match batch(terms[0])
      case None => Gathered(acc, terms[1..], batch, limit)
      case Some(xs) => if |acc + xs| >= limit then acc + xs else Gathered(acc + xs, terms[1..], batch, limit)
  }

  /** getGeneralRecommendations: one search per popular term, appending each
      formatted batch and stopping once `limit` books are collected. */
  method GeneralRecommendations(terms: seq<string>, batch: string -> Option<seq<RecBook>>, limit: int)
    returns (r: seq<RecBook>)
    ensures r == Slice(Gathered([], terms, batch, limit), limit)
    ensures limit >= 0 ==> |r| <= limit
    ensures forall x :: x in r ==> exists t :: t in terms && batch(t).Some? && x in batch(t).value
  {
    var recs: seq<RecBook> := [];
    var i := 0;
    while i < |terms|
      invariant 0 <= i <= |terms|
      invariant Gathered([], terms, batch, limit) == Gathered(recs, terms[i..], batch, limit)
      invariant forall x :: x in recs ==> exists t :: t in terms[..i] && batch(t).Some? && x in batch(t).value
    {
      assert terms[i..][1..] == terms[i + 1..];
      match batch(terms[i]) {
        case None =>
        case Some(xs) =>
          ghost var before := recs;
          recs := recs + xs;
          if |recs| >= limit {
            assert Gathered(before, terms[i..], batch, limit) == recs;
            assert terms[..i + 1] == terms[..i] + [terms[i]];
            break;
          }
      }
      assert terms[..i + 1] == terms[..i] + [terms[i]];
      i := i + 1;
    }
    assert recs == Gathered([], terms, batch, limit);
    r := Slice(recs, limit);
    assert forall x :: x in r ==> x in recs;
  }
}

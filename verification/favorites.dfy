/** The favourite-toggling helpers of favorite.js and favorites-update.js:
    the cover-id extraction from a card or an image URL, the title and author
    extraction from a card, the search of the in-memory book collections,
    the sentinel fill that completes what the card lacks from those
    collections, and the request each toggleFavorite sends. The page is an
    input: a card is the text, data attributes and image source the script
    reads from it. */
module Favorites {
  import opened JsValues
  import opened JsText
  import opened Records

  /** FAVORITES_CONFIG.DEFAULT_COVER */
  const FavoritesDefaultCover := "/images/default-cover.jpg"
  /** FAVORITES_CONFIG.API_BASE; favorites-update.js writes the same path. */
  const FavoritesApi := "/api/favorites"

  // ----- Regular-expression searches on image URLs -----

  /** `\d` without the `u` flag. */
  predicate IsAsciiDigit(c: char) {
    '0' <= c <= '9'
  }

  /** `[A-Za-z0-9]` */
  predicate IsAsciiAlnum(c: char) {
    ('0' <= c <= '9') || ('A' <= c <= 'Z') || ('a' <= c <= 'z')
  }

  predicate NotSlash(c: char) {
    c != '/'
  }

  /** `[^-\.]` */
  predicate NotDashOrDot(c: char) {
    c != '-' && c != '.'
  }

  /** The longest run of `cls` characters starting at `from` (what a greedy
      `cls+` or `cls*` takes). */
  function RunFrom(s: string, from: nat, cls: char -> bool): (r: string)
    requires from <= |s|
    ensures from + |r| <= |s| && r == s[from..from + |r|]
    ensures forall k :: 0 <= k < |r| ==> cls(r[k])
    ensures from + |r| == |s| || !cls(s[from + |r|])
    decreases |s| - from
  {
    if from < |s| && cls(s[from]) then [s[from]] + RunFrom(s, from + 1, cls) else []
  }

  /** A run is determined by where it starts: any run of `cls` characters
      followed by the end or a non-`cls` character is the run. */
  lemma RunFromIs(s: string, from: nat, cls: char -> bool, run: string)
    requires from + |run| <= |s| && s[from..from + |run|] == run
    requires forall k :: 0 <= k < |run| ==> cls(run[k])
    requires from + |run| == |s| || !cls(s[from + |run|])
    ensures RunFrom(s, from, cls) == run
    decreases |run|
  {
    if run != [] {
      assert s[from] == run[0];
      assert s[from + 1..from + 1 + |run[1..]|] == run[1..];
      RunFromIs(s, from + 1, cls, run[1..]);
      assert run == [run[0]] + run[1..];
    }
  }

  /** `lit(cls+)` matches at `p`. */
  predicate RunMatchAt(s: string, lit: string, cls: char -> bool, p: nat) {
    p + |lit| < |s| && s[p..p + |lit|] == lit && cls(s[p + |lit|])
  }

  /** Where `s.match(/lit(cls+)/)` finds its leftmost match, searching
      from `from`; None when there is no match. */
  function FirstRunMatch(s: string, lit: string, cls: char -> bool, from: nat): (r: Option<nat>)
    requires from <= |s|
    ensures r.None? <==> forall p :: from <= p < |s| ==> !RunMatchAt(s, lit, cls, p)
    ensures r.Some? ==> from <= r.value < |s| && RunMatchAt(s, lit, cls, r.value)
    ensures r.Some? ==> forall q :: from <= q < r.value ==> !RunMatchAt(s, lit, cls, q)
    decreases |s| - from
  {
    if from == |s| then None
    else if RunMatchAt(s, lit, cls, from) then Some(from)
    else FirstRunMatch(s, lit, cls, from + 1)
  }

  /** The leftmost match is found wherever it is. */
  lemma FirstRunMatchAt(s: string, lit: string, cls: char -> bool, from: nat, p: nat)
    requires from <= p < |s| && RunMatchAt(s, lit, cls, p)
    requires forall q :: from <= q < p ==> !RunMatchAt(s, lit, cls, q)
    ensures FirstRunMatch(s, lit, cls, from) == Some(p)
  {
    var r := FirstRunMatch(s, lit, cls, from);
    assert r.Some?;
  }

  /** The capture `(cls+)` of the leftmost match of `lit(cls+)`. */
  function RunCapture(s: string, lit: string, cls: char -> bool): (r: Option<string>)
    ensures r.Some? ==> r.value != [] && forall k :: 0 <= k < |r.value| ==> cls(r.value[k])
  {
    match FirstRunMatch(s, lit, cls, 0)
    case None => None
    case Some(p) => Some(RunFrom(s, p + |lit|, cls))
  }

  /** `src.match(/\/id\/(\d+)/)[1]` */
  function IdDigits(src: string): Option<string> {
    RunCapture(src, "/id/", IsAsciiDigit)
  }

  /** `src.match(/\/olid\/([A-Za-z0-9]+)/)[1]` */
  function OlidRun(src: string): Option<string> {
    RunCapture(src, "/olid/", IsAsciiAlnum)
  }

  /** `\/covers\/[^\/]+\/[^-\.]` matches at `p`. The segment `[^\/]+` can
      only end where a '/' follows, so it is the whole run of non-slashes
      after '/covers/'. */
  predicate CoversMatchAt(s: string, p: nat) {
    && p + 8 <= |s| && s[p..p + 8] == "/covers/"
    && var q := p + 8 + |RunFrom(s, p + 8, NotSlash)|;
       q > p + 8 && q + 1 < |s| && s[q] == '/' && NotDashOrDot(s[q + 1])
  }

  /** `s.match(/\/covers\/[^\/]+\/([^-\.]+)/)[1]` from `from`. */
  function FirstCoversMatch(s: string, from: nat): (r: Option<string>)
    requires from <= |s|
    ensures r.None? <==> forall p :: from <= p < |s| ==> !CoversMatchAt(s, p)
    decreases |s| - from
  {
    if from == |s| then None
    else if CoversMatchAt(s, from) then
      var q := from + 8 + |RunFrom(s, from + 8, NotSlash)|;
      Some(RunFrom(s, q + 1, NotDashOrDot))
    else FirstCoversMatch(s, from + 1)
  }

  /** extractCoverIdFromSrc of favorites-update.js, as written: null for a
      falsy source or no match; a truthy source that is not a string has no
      `match` (None). */
  function ExtractCoverIdFromSrc(src: Js): Option<Js> {
    if !Truthy(src) then Some(Null)
    else if !src.Str? then None
    else match FirstCoversMatch(src.s, 0)
      case Some(c) => Some(Str(c))
      case None => Some(Null)
  }

  /** The cover id of a covers-service URL, read with the '/id/' rule the
      card extractors use: what extractCoverIdFromSrc is meant to return. */
  function CoverIdFromUrl(src: Js): Option<Js> {
    if !Truthy(src) then Some(Null)
    else if !src.Str? then None
    else match IdDigits(src.s)
      case Some(c) => Some(Str(c))
      case None => Some(Null)
  }

  /** The covers-service URL of a digit string, split at the '/id/' the
      extractors look for. */
  lemma MediumCoverUrlShape(d: string)
    ensures MediumCoverUrl(Str(d)) == "https://covers.openlibrary.org/b" + "/id/" + d + "-M.jpg"
    ensures |"https://covers.openlibrary.org/b"| == 32
  {
  }

  /** The URL of a numeric cover id gives that id back, in decimal. */
  lemma CoverIdFromUrlRoundTrip(d: string)
    requires d != [] && forall k :: 0 <= k < |d| ==> IsAsciiDigit(d[k])
    ensures CoverIdFromUrl(Str(MediumCoverUrl(Str(d)))) == Some(Str(d))
  {
    var s := MediumCoverUrl(Str(d));
    MediumCoverUrlShape(d);
    IdDigitsOfCoverUrl("https://covers.openlibrary.org/b", d, s);
  }

  /** The '/id/' digits of `host + "/id/" + d + "-M.jpg"` are `d` when
      `host` holds no '/id/' followed by a digit. */
  lemma IdDigitsOfCoverUrl(host: string, d: string, s: string)
    requires host == "https://covers.openlibrary.org/b"
    requires d != [] && forall k :: 0 <= k < |d| ==> IsAsciiDigit(d[k])
    requires s == host + "/id/" + d + "-M.jpg"
    ensures IdDigits(s) == Some(d)
  {
    assert s[32..36] == "/id/";
    assert s[36..36 + |d|] == d;
    assert s[36 + |d|] == '-';
    assert RunMatchAt(s, "/id/", IsAsciiDigit, 32) by {
      assert s[36] == d[0];
    }
    NoIdInHost(host, s);
    FirstRunMatchAt(s, "/id/", IsAsciiDigit, 0, 32);
    RunFromIs(s, 36, IsAsciiDigit, d);
  }

  /** No '/id/' match starts inside the host part of a cover URL: the only
      'i' followed by 'd' is not preceded by '/'. */
  lemma NoIdInHost(host: string, s: string)
    requires host == "https://covers.openlibrary.org/b"
    requires |s| > 36 && s[..32] == host
    ensures forall q :: 0 <= q < 32 ==> !RunMatchAt(s, "/id/", IsAsciiDigit, q)
  {
    forall q | 0 <= q < 32
      ensures !RunMatchAt(s, "/id/", IsAsciiDigit, q)
    {
      IdMatchStart(s, q);
      assert s[q] == host[q];
      if q < 31 {
        assert s[q + 1] == host[q + 1];
      }
      assert s[q] != '/' || s[q + 1] != 'i';
    }
  }

  /** A '/id/' match starts with '/' and 'i'. */
  lemma IdMatchStart(s: string, q: nat)
    requires q + 1 < |s|
    ensures RunMatchAt(s, "/id/", IsAsciiDigit, q) ==> s[q] == '/' && s[q + 1] == 'i'
  {
    if q + 4 < |s| {
      var w := s[q..q + 4];
      assert w[0] == s[q] && w[1] == s[q + 1];
    }
  }

  /** The same for a number: `String(n)` comes back. */
  lemma CoverIdFromNumber(n: nat)
    ensures CoverIdFromUrl(Str(MediumCoverUrl(Num(n)))) == Some(Str(NatToString(n)))
  {
    assert MediumCoverUrl(Num(n)) == MediumCoverUrl(Str(NatToString(n)));
    CoverIdFromUrlRoundTrip(NatToString(n));
  }

  /** As written, extractCoverIdFromSrc recognises no covers-service URL:
      their host is 'covers.openlibrary.org', so the text never holds
      '/covers/'. */
  lemma CoverUrlNotRecognised(d: string)
    requires forall k :: 0 <= k < |d| ==> d[k] != '/'
    ensures ExtractCoverIdFromSrc(Str(MediumCoverUrl(Str(d)))) == Some(Null)
  {
    var s := MediumCoverUrl(Str(d));
    var head := "https://covers.openlibrary.org/b/id/";
    assert s == head + d + "-M.jpg";
    CoverUrlSlashes(head, d, s);
    forall p | 0 <= p < |s|
      ensures !CoversMatchAt(s, p)
    {
      if p + 8 <= |s| {
        var w := s[p..p + 8];
        assert w[0] == s[p] && w[7] == s[p + 7];
      }
    }
  }

  /** Where the slashes of a covers-service URL are: only at 6, 7, 30, 32
      and 35, all in the fixed head, and those at 6 and 7 are followed seven
      places on by 's' and '.'. */
  lemma CoverUrlSlashes(head: string, d: string, s: string)
    requires head == "https://covers.openlibrary.org/b/id/"
    requires forall k :: 0 <= k < |d| ==> d[k] != '/'
    requires s == head + d + "-M.jpg"
    ensures forall k :: 36 <= k < |s| ==> s[k] != '/'
    ensures forall k :: 0 <= k < 29 && s[k] == '/' ==> s[k + 7] != '/'
  {
    forall k | 36 <= k < |s|
      ensures s[k] != '/'
    {
      if k < 36 + |d| {
        assert s[k] == d[k - 36];
      } else {
        assert s[k] == "-M.jpg"[k - 36 - |d|];
      }
    }
    forall k | 0 <= k < 29 && s[k] == '/'
      ensures s[k + 7] != '/'
    {
      assert s[k] == head[k] && s[k + 7] == head[k + 7];
    }
  }

  // ----- The page as input -----

  /** A book card as the scripts read it: the text content of the first
      element each selector finds (a selector that finds nothing has no
      entry), the texts of the paragraphs inside `.book-info` (None without
      that element), the `data-*` attributes, and the `src` of the first
      image (None without an image). */
  datatype CardDom = CardDom(
    text: map<string, string>,
    infoParagraphs: Option<seq<string>>,
    dataset: map<string, string>,
    imgSrc: Option<string>)

  /** `element.dataset.name` */
  function Dataset(card: CardDom, name: string): Js {
    if name in card.dataset then Str(card.dataset[name]) else Undefined
  }

  const TitleSelectors := ["h3", "h4", ".book-title", ".favorite-card-title", "[data-book-title]", ".title"]
  /** The title selectors of favorites-update.js, in their own order. */
  const UpdateTitleSelectors := ["h3", ".book-title", ".favorite-card-title", "[data-book-title]", "h4", ".title"]
  const AuthorSelectors := ["p.book-author", ".book-author", ".author", "[data-book-author]", "[data-author]"]

  /** `el && el.textContent.trim()`: the selector finds an element whose
      trimmed text is not blank. */
  predicate HasText(card: CardDom, selector: string) {
    selector in card.text && Trim(card.text[selector]) != ""
  }

  /** The selector loop: the trimmed text of the first selector whose element
      exists and has non-blank text. */
  function FirstText(card: CardDom, selectors: seq<string>): (r: Option<string>)
    ensures r.None? <==> forall i :: 0 <= i < |selectors| ==> !HasText(card, selectors[i])
    ensures r.Some? ==> r.value != "" && exists i ::
      && 0 <= i < |selectors| && HasText(card, selectors[i])
      && r.value == Trim(card.text[selectors[i]])
      && forall j :: 0 <= j < i ==> !HasText(card, selectors[j])
  {
    if selectors == [] then None
    else if HasText(card, selectors[0]) then Some(Trim(card.text[selectors[0]]))
    else
      var r := FirstText(card, selectors[1..]);
      assert forall i :: 1 <= i < |selectors| ==> selectors[i] == selectors[1..][i - 1];
      r
  }

  /** extractBookTitle (both versions, with their own selector lists): the
      first non-blank selector text, else the `data-book-title` attribute,
      else the sentinel. */
  function ExtractBookTitle(card: CardDom, selectors: seq<string>): (r: Js)
    ensures Truthy(r)
  {
    match FirstText(card, selectors)
    case Some(t) => Str(t)
    case None => Or(Dataset(card, "bookTitle"), Str(UnknownTitle))
  }

  /** extractBookAuthors of favorite.js: the author selectors, then the first
      paragraph of `.book-info` (trimmed, even when blank), then the
      `data-book-author` attribute, then the sentinel. */
  function ExtractBookAuthors(card: CardDom): (r: Js)
    ensures r.Str?
    ensures r.s == "" ==>
      && FirstText(card, AuthorSelectors).None?
      && card.infoParagraphs.Some? && |card.infoParagraphs.value| > 0
      && Trim(card.infoParagraphs.value[0]) == ""
  {
    match FirstText(card, AuthorSelectors)
    case Some(t) => Str(t)
    case None =>
      if card.infoParagraphs.Some? && |card.infoParagraphs.value| > 0 then Str(Trim(card.infoParagraphs.value[0]))
      else Or(Dataset(card, "bookAuthor"), Str(UnknownAuthor))
  }

  /** The author sources in order: the first author selector with
      non-blank text; else the first `.book-info` paragraph, trimmed, blank
      or not; else a non-empty `data-book-author`; else the sentinel. */
  lemma AuthorsPrecedence(card: CardDom)
    ensures forall i ::
      (&& 0 <= i < |AuthorSelectors| && HasText(card, AuthorSelectors[i])
       && forall j :: 0 <= j < i ==> !HasText(card, AuthorSelectors[j])) ==>
      ExtractBookAuthors(card) == Str(Trim(card.text[AuthorSelectors[i]]))
    ensures (FirstText(card, AuthorSelectors).None? && card.infoParagraphs.Some?
             && |card.infoParagraphs.value| > 0) ==>
      ExtractBookAuthors(card) == Str(Trim(card.infoParagraphs.value[0]))
    ensures (FirstText(card, AuthorSelectors).None?
             && (card.infoParagraphs.None? || card.infoParagraphs.value == [])
             && Truthy(Dataset(card, "bookAuthor"))) ==>
      ExtractBookAuthors(card) == Dataset(card, "bookAuthor")
    ensures (FirstText(card, AuthorSelectors).None?
             && (card.infoParagraphs.None? || card.infoParagraphs.value == [])
             && !Truthy(Dataset(card, "bookAuthor"))) ==>
      ExtractBookAuthors(card) == Str(UnknownAuthor)
  {
    forall i | 0 <= i < |AuthorSelectors| && HasText(card, AuthorSelectors[i])
        && (forall j :: 0 <= j < i ==> !HasText(card, AuthorSelectors[j]))
      ensures ExtractBookAuthors(card) == Str(Trim(card.text[AuthorSelectors[i]]))
    {
      var r := FirstText(card, AuthorSelectors);
      assert r.Some?;
      var k :| && 0 <= k < |AuthorSelectors| && HasText(card, AuthorSelectors[k])
               && r.value == Trim(card.text[AuthorSelectors[k]])
               && forall j :: 0 <= j < k ==> !HasText(card, AuthorSelectors[j]);
      assert k == i;
    }
  }

  /** extractCoverIdFromElement (the same in both files): the
      `data-book-cover-id` attribute, else the digits after '/id/' in the
      image source, else the letters and digits after '/olid/', else null. */
  function ExtractCoverIdFromElement(card: CardDom): (r: Js)
    ensures r == Null || Truthy(r)
  {
    if Truthy(Dataset(card, "bookCoverId")) then Dataset(card, "bookCoverId")
    else if card.imgSrc.Some? && card.imgSrc.value != "" then
      match IdDigits(card.imgSrc.value)
      case Some(d) => Str(d)
      case None =>
        match OlidRun(card.imgSrc.value)
        case Some(o) => Str(o)
        case None => Null
    else Null
  }

  /** A card showing a covers-service image and no cover-id attribute gives
      back the id the image was built from. */
  lemma CoverIdFromCardImage(card: CardDom, d: string)
    requires !Truthy(Dataset(card, "bookCoverId"))
    requires d != [] && forall k :: 0 <= k < |d| ==> IsAsciiDigit(d[k])
    requires card.imgSrc == Some(MediumCoverUrl(Str(d)))
    ensures ExtractCoverIdFromElement(card) == Str(d)
  {
    CoverIdFromUrlRoundTrip(d);
  }

  /** The attribute wins over the image, the '/id/' digits over the
      '/olid/' run, and the run over null. */
  lemma CoverIdPrecedence(card: CardDom)
    ensures Truthy(Dataset(card, "bookCoverId")) ==> ExtractCoverIdFromElement(card) == Dataset(card, "bookCoverId")
    ensures !Truthy(Dataset(card, "bookCoverId")) && card.imgSrc.Some? && IdDigits(card.imgSrc.value).Some? ==>
      ExtractCoverIdFromElement(card) == Str(IdDigits(card.imgSrc.value).value)
    ensures (!Truthy(Dataset(card, "bookCoverId")) && card.imgSrc.Some? && IdDigits(card.imgSrc.value).None?
             && OlidRun(card.imgSrc.value).Some?) ==>
      ExtractCoverIdFromElement(card) == Str(OlidRun(card.imgSrc.value).value)
    ensures (!Truthy(Dataset(card, "bookCoverId")) && card.imgSrc.Some? && IdDigits(card.imgSrc.value).None?
             && OlidRun(card.imgSrc.value).None?) ==>
      ExtractCoverIdFromElement(card) == Null
    ensures !Truthy(Dataset(card, "bookCoverId")) && (card.imgSrc.None? || card.imgSrc.value == "") ==>
      ExtractCoverIdFromElement(card) == Null
  {
    if !Truthy(Dataset(card, "bookCoverId")) && card.imgSrc.Some?
      && (IdDigits(card.imgSrc.value).Some? || OlidRun(card.imgSrc.value).Some?)
    {
      assert card.imgSrc.value != "";
    }
  }

  // ----- The in-memory collections -----

  /** The `find` callback: `b.id === bookId`, and in favorite.js also
      `|| b.bookId === bookId`. */
  predicate MatchesId(b: Js, bookId: string, alsoBookId: bool) {
    Prop(b, "id") == Str(bookId) || (alsoBookId && Prop(b, "bookId") == Str(bookId))
  }

  /** The callback ran on the first `n` elements without throwing and
      without a match. */
  predicate Skipped(elems: seq<Js>, n: nat, bookId: string, alsoBookId: bool)
    requires n <= |elems|
  {
    forall j :: 0 <= j < n ==> !IsNullish(elems[j]) && !MatchesId(elems[j], bookId, alsoBookId)
  }

  /** `collection.find(callback)`: the first matching element, Undefined when
      none matches, None when the callback meets a null or undefined element
      first (reading its `id` throws). */
  function FindIn(elems: seq<Js>, bookId: string, alsoBookId: bool): (r: Option<Js>)
    ensures r == Some(Undefined) <==> Skipped(elems, |elems|, bookId, alsoBookId)
    ensures r.None? <==> exists i :: 0 <= i < |elems| && IsNullish(elems[i]) && Skipped(elems, i, bookId, alsoBookId)
    ensures r.Some? && r.value != Undefined ==> exists i ::
      && 0 <= i < |elems| && elems[i] == r.value && MatchesId(r.value, bookId, alsoBookId)
      && Skipped(elems, i, bookId, alsoBookId)
  {
    if elems == [] then Some(Undefined)
    else if IsNullish(elems[0]) then
      assert Skipped(elems, 0, bookId, alsoBookId);
      None
    else if MatchesId(elems[0], bookId, alsoBookId) then
      assert Skipped(elems, 0, bookId, alsoBookId);
      Some(elems[0])
    else
      var r := FindIn(elems[1..], bookId, alsoBookId);
      SkippedCons(elems, bookId, alsoBookId);
      assert r.None? ==> exists i :: 0 <= i < |elems| && IsNullish(elems[i]) && Skipped(elems, i, bookId, alsoBookId) by {
        if r.None? {
          var i :| 0 <= i < |elems[1..]| && IsNullish(elems[1..][i]) && Skipped(elems[1..], i, bookId, alsoBookId);
          assert elems[i + 1] == elems[1..][i];
        }
      }
      assert r.Some? && r.value != Undefined ==> exists i ::
          && 0 <= i < |elems| && elems[i] == r.value && MatchesId(r.value, bookId, alsoBookId)
          && Skipped(elems, i, bookId, alsoBookId) by {
        if r.Some? && r.value != Undefined {
          var i :| && 0 <= i < |elems[1..]| && elems[1..][i] == r.value && MatchesId(r.value, bookId, alsoBookId)
                   && Skipped(elems[1..], i, bookId, alsoBookId);
          assert elems[i + 1] == elems[1..][i];
        }
      }
      r
  }

  /** Skipping the first element and then `n` more is skipping `n + 1`. */
  lemma SkippedCons(elems: seq<Js>, bookId: string, alsoBookId: bool)
    requires elems != [] && !IsNullish(elems[0]) && !MatchesId(elems[0], bookId, alsoBookId)
    ensures forall n :: 0 <= n <= |elems| - 1 ==>
      (Skipped(elems[1..], n, bookId, alsoBookId) <==> Skipped(elems, n + 1, bookId, alsoBookId))
  {
    forall n | 0 <= n <= |elems| - 1
      ensures Skipped(elems[1..], n, bookId, alsoBookId) <==> Skipped(elems, n + 1, bookId, alsoBookId)
    {
      assert forall j :: 0 <= j < n ==> elems[1..][j] == elems[j + 1];
    }
  }

  /** Only an object has an `id` or `bookId` property, so a found element is
      truthy. */
  lemma MatchIsObject(b: Js, bookId: string, alsoBookId: bool)
    requires MatchesId(b, bookId, alsoBookId)
    ensures b.Obj? && Truthy(b)
  {
  }

  /** findBookInCollections without the stub: the collections in order, each
      one that is an array searched with `find`; null when none holds the
      book. */
  function FindBookInCollections(cols: seq<Js>, bookId: string, alsoBookId: bool): (r: Option<Js>)
    ensures r.Some? && r.value != Null ==> MatchesId(r.value, bookId, alsoBookId)
    ensures r.Some? && r.value != Null ==> exists i :: 0 <= i < |cols| && cols[i].Arr? && r.value in cols[i].elems
  {
    if cols == [] then Some(Null)
    else if !cols[0].Arr? then
      var r := FindBookInCollections(cols[1..], bookId, alsoBookId);
      assert r.Some? && r.value != Null ==> exists i :: 1 <= i < |cols| && cols[i].Arr? && r.value in cols[i].elems by {
        if r.Some? && r.value != Null {
          var i :| 0 <= i < |cols[1..]| && cols[1..][i].Arr? && r.value in cols[1..][i].elems;
          assert cols[i + 1] == cols[1..][i];
        }
      }
      r
    else match FindIn(cols[0].elems, bookId, alsoBookId)
      case None => None
      case Some(b) =>
        if b != Undefined then (MatchIsObject(b, bookId, alsoBookId); Some(b))
        else
          var r := FindBookInCollections(cols[1..], bookId, alsoBookId);
          assert r.Some? && r.value != Null ==> exists i :: 1 <= i < |cols| && cols[i].Arr? && r.value in cols[i].elems by {
            if r.Some? && r.value != Null {
              var i :| 0 <= i < |cols[1..]| && cols[1..][i].Arr? && r.value in cols[1..][i].elems;
              assert cols[i + 1] == cols[1..][i];
            }
          }
          r
  }

  /** The first collection that holds the book decides; the collections
      before it are skipped when they are not arrays or hold no match. */
  lemma {:induction false} FirstCollectionWins(cols: seq<Js>, bookId: string, alsoBookId: bool, i: nat)
    requires i < |cols| && cols[i].Arr?
    requires FindIn(cols[i].elems, bookId, alsoBookId).Some?
    requires FindIn(cols[i].elems, bookId, alsoBookId).value != Undefined
    requires forall j :: 0 <= j < i ==> !cols[j].Arr? || FindIn(cols[j].elems, bookId, alsoBookId) == Some(Undefined)
    ensures FindBookInCollections(cols, bookId, alsoBookId) == FindIn(cols[i].elems, bookId, alsoBookId)
  {
    if i > 0 {
      FirstCollectionWins(cols[1..], bookId, alsoBookId, i - 1);
    }
  }

  /** With no collection holding the book (and no null element in any array
      collection), the result is null. */
  lemma {:induction false} NoCollectionHolds(cols: seq<Js>, bookId: string, alsoBookId: bool)
    requires forall j :: 0 <= j < |cols| ==> !cols[j].Arr? || FindIn(cols[j].elems, bookId, alsoBookId) == Some(Undefined)
    ensures FindBookInCollections(cols, bookId, alsoBookId) == Some(Null)
  {
    if cols != [] {
      NoCollectionHolds(cols[1..], bookId, alsoBookId);
    }
  }

  /** `bookId.startsWith('OL') && bookId.endsWith('W')` and the number
      between them is not NaN. `replace` removes the first 'OL' and then the
      first 'W', wherever it is. */
  predicate IsOlWorkId(bookId: string) {
    StartsWith(bookId, "OL") && EndsWith(bookId, "W")
    && !IsNaNString(RemoveFirst(RemoveFirst(bookId, "OL"), "W"))
  }

  /** `{ id: bookId, title: null, coverId: null }` */
  function Stub(bookId: string): Js {
    Obj(map["id" := Str(bookId), "title" := Null, "coverId" := Null])
  }

  /** findBookInCollections of favorites-update.js: a search on `id` only,
      then the stub for an OpenLibrary work id. */
  function UpdateFindBookInCollections(cols: seq<Js>, bookId: string): (r: Option<Js>)
    ensures r.Some? && r.value != Null ==> MatchesId(r.value, bookId, false)
    ensures r.Some? && r.value != Null && r.value != Stub(bookId) ==>
      r == FindBookInCollections(cols, bookId, false)
  {
    match FindBookInCollections(cols, bookId, false)
    case None => None
    case Some(b) =>
      if b != Null then Some(b)
      else if IsOlWorkId(bookId) then Some(Stub(bookId))
      else Some(Null)
  }

  /** The stub rule on a few ids: 'OL123W' and even 'OLW' (the empty
      string is not NaN) give the stub, 'OLXW' does not. */
  lemma StubIds()
    ensures IsOlWorkId("OL" + "123" + "W")
    ensures IsOlWorkId("OL" + "" + "W")
    ensures !IsOlWorkId("OL" + "X" + "W")
  {
    NumberId();
    EmptyId();
    LetterId();
  }

  lemma NumberId()
    ensures IsOlWorkId("OL" + "123" + "W")
  {
    OlWorkNumber("123");
    NumberNotNaN();
  }

  lemma EmptyId()
    ensures IsOlWorkId("OL" + "" + "W")
  {
    OlWorkNumber("");
    assert Trim("") == "";
  }

  lemma LetterId()
    ensures !IsOlWorkId("OL" + "X" + "W")
  {
    OlWorkNumber("X");
    LetterNaN();
  }

  lemma NumberNotNaN()
    ensures !IsNaNString("123")
  {
    assert Trim("123") == "123";
    assert IndexOf("123", ".") == None;
    assert IndexOf("123", "e") == None;
    assert IndexOf("123", "E") == None;
    assert IsUnsignedDecimal("123");
  }

  lemma LetterNaN()
    ensures IsNaNString("X")
  {
    assert Trim("X") == "X";
    assert IndexOf("X", ".") == None;
    assert IndexOf("X", "e") == None;
    assert IndexOf("X", "E") == None;
  }

  /** For an id 'OL' + m + 'W' with no 'W' in m, the text isNaN sees is m. */
  lemma OlWorkNumber(m: string)
    requires forall k :: 0 <= k < |m| ==> m[k] != 'W'
    ensures StartsWith("OL" + m + "W", "OL") && EndsWith("OL" + m + "W", "W")
    ensures IsOlWorkId("OL" + m + "W") <==> !IsNaNString(m)
  {
    assert "OL" + m + "W" == "OL" + (m + "W");
    RemoveFirstOfPrefix("OL", m + "W");
    RemoveFirstOfSuffix(m, "W");
  }

  /** `s.replace(pat, '')` where `s` is `head + pat` and `head` holds no
      character of a one-character `pat`. */
  lemma RemoveFirstOfSuffix(head: string, pat: string)
    requires |pat| == 1 && forall k :: 0 <= k < |head| ==> head[k] != pat[0]
    ensures RemoveFirst(head + pat, pat) == head
  {
    var s := head + pat;
    forall k | 0 <= k < |head|
      ensures !StartsWith(s[k..], pat)
    {
      assert s[k..][0] == head[k];
    }
    assert StartsWith(s[|head|..], pat);
    var i := IndexOf(s, pat);
    assert i == Some(|head|);
    assert s[..|head|] + s[|head| + 1..] == head;
  }

  // ----- Completing the favourite's data -----

  /** The title, authors and cover id a new favourite is saved with. */
  datatype FavoriteData = FavoriteData(title: Js, authors: Js, coverId: Js)

  /** `if (current === sentinel && candidate) current = candidate` */
  function Fill(current: Js, sentinel: Js, candidate: Js): (r: Js)
    ensures current != sentinel ==> r == current
    ensures r == current || (current == sentinel && Truthy(candidate) && r == candidate)
  {
    if current == sentinel && Truthy(candidate) then candidate else current
  }

  /** What extractBookData reads from the card, or the sentinels when no
      card was found. */
  function DomData(card: Option<CardDom>): FavoriteData {
    match card
    case None => FavoriteData(Str(UnknownTitle), Str(UnknownAuthor), Null)
    case Some(c) => FavoriteData(ExtractBookTitle(c, TitleSelectors), ExtractBookAuthors(c), ExtractCoverIdFromElement(c))
  }

  /** Some field still holds its sentinel. */
  predicate Incomplete(d: FavoriteData) {
    d.title == Str(UnknownTitle) || d.authors == Str(UnknownAuthor) || d.coverId == Null
  }

  /** The fill from a found book (nothing when `found` is null). */
  function Completed(d: FavoriteData, found: Js): FavoriteData {
    if !Truthy(found) then d
    else FavoriteData(
      Fill(d.title, Str(UnknownTitle), Prop(found, "title")),
      Fill(d.authors, Str(UnknownAuthor), Prop(found, "authors")),
      Fill(d.coverId, Null, Prop(found, "coverId")))
  }

  /** extractBookData of favorite.js. None is the TypeError the collection
      search throws; it is searched only when some field is still a
      sentinel. */
  method ExtractBookData(bookId: string, card: Option<CardDom>, cols: seq<Js>) returns (r: Option<FavoriteData>)
    ensures !Incomplete(DomData(card)) ==> r == Some(DomData(card))
    ensures Incomplete(DomData(card)) ==>
      match FindBookInCollections(cols, bookId, true)
      case None => r.None?
      case Some(found) => r == Some(Completed(DomData(card), found))
  {
    var title := Str(UnknownTitle);
    var authors := Str(UnknownAuthor);
    var coverId := Null;
    if card.Some? {
      title := ExtractBookTitle(card.value, TitleSelectors);
      authors := ExtractBookAuthors(card.value);
      coverId := ExtractCoverIdFromElement(card.value);
    }
    if title == Str(UnknownTitle) || authors == Str(UnknownAuthor) || coverId == Null {
      var found := FindBookInCollections(cols, bookId, true);
      if found.None? {
        return None;
      }
      var g := found.value;
      if Truthy(g) {
        if title == Str(UnknownTitle) && Truthy(Prop(g, "title")) {
          title := Prop(g, "title");
        }
        if authors == Str(UnknownAuthor) && Truthy(Prop(g, "authors")) {
          authors := Prop(g, "authors");
        }
        if coverId == Null && Truthy(Prop(g, "coverId")) {
          coverId := Prop(g, "coverId");
        }
      }
    }
    return Some(FavoriteData(title, authors, coverId));
  }

  /** The fill never overwrites what the card gave: a field that is not its
      sentinel is kept, and a sentinel field becomes the found book's value
      only when that value is truthy. */
  lemma CompletedKeepsCard(d: FavoriteData, found: Js)
    ensures var c := Completed(d, found);
      && (d.title != Str(UnknownTitle) ==> c.title == d.title)
      && (d.authors != Str(UnknownAuthor) ==> c.authors == d.authors)
      && (d.coverId != Null ==> c.coverId == d.coverId)
      && (c.title == d.title || (Truthy(found) && c.title == Prop(found, "title") && Truthy(c.title)))
      && (c.authors == d.authors || (Truthy(found) && c.authors == Prop(found, "authors") && Truthy(c.authors)))
      && (c.coverId == d.coverId || (Truthy(found) && c.coverId == Prop(found, "coverId") && Truthy(c.coverId)))
    ensures !Incomplete(d) ==> Completed(d, found) == d
  {
    if Truthy(found) {
      var _ := Fill(d.title, Str(UnknownTitle), Prop(found, "title"));
    }
  }

  /** The card's title is always truthy, so with a card found the title is
      filled only when the card itself says the sentinel. */
  lemma CardTitleTruthy(card: CardDom)
    ensures Truthy(DomData(Some(card)).title)
    ensures Truthy(DomData(Some(card)).authors) || DomData(Some(card)).authors == Str("")
  {
  }

  // ----- The requests -----

  /** The JSON body of a POST; favorites-update.js sends no `authors`. */
  datatype FavoriteBody = FavoriteBody(bookId: string, bookTitle: Js, bookCoverId: Js, authors: Option<Js>)

  /** The `fetch` the toggle makes: method, URL and body (None: no body). */
  datatype Request = Request(verb: string, url: string, body: Option<FavoriteBody>)

  function FavoriteUrl(bookId: string): string {
    FavoritesApi + "/" + bookId
  }

  /** toggleFavorite of favorite.js up to the `fetch`: DELETE with no body
      for a favourite, otherwise POST with the extracted data. None is a
      TypeError thrown by extractBookData. */
  method ToggleFavorite(bookId: string, isFavorite: bool, card: Option<CardDom>, cols: seq<Js>)
    returns (r: Option<Request>)
    ensures isFavorite ==> r == Some(Request("DELETE", FavoriteUrl(bookId), None))
    ensures !isFavorite && !Incomplete(DomData(card)) ==>
      var d := DomData(card);
      r == Some(Request("POST", FavoriteUrl(bookId), Some(FavoriteBody(bookId, d.title, d.coverId, Some(d.authors)))))
    ensures !isFavorite && Incomplete(DomData(card)) ==>
      match FindBookInCollections(cols, bookId, true)
      case None => r.None?
      case Some(found) =>
        var d := Completed(DomData(card), found);
        r == Some(Request("POST", FavoriteUrl(bookId), Some(FavoriteBody(bookId, d.title, d.coverId, Some(d.authors)))))
  {
    var verb := if isFavorite then "DELETE" else "POST";
    var body: Option<FavoriteBody> := None;
    if verb == "POST" {
      var data := ExtractBookData(bookId, card, cols);
      if data.None? {
        return None;
      }
      body := Some(FavoriteBody(bookId, data.value.title, data.value.coverId, Some(data.value.authors)));
    }
    return Some(Request(verb, FavoriteUrl(bookId), body));
  }

  /** The title and cover id favorites-update.js reads from the card, or the
      sentinels without a card. */
  function UpdateDomData(card: Option<CardDom>): (Js, Js) {
    match card
    case None => (Str(UnknownTitle), Null)
    case Some(c) => (ExtractBookTitle(c, UpdateTitleSelectors), ExtractCoverIdFromElement(c))
  }

  /** The two-field fill of favorites-update.js. */
  function UpdateCompleted(title: Js, coverId: Js, found: Js): (Js, Js) {
    if !Truthy(found) then (title, coverId)
    else (Fill(title, Str(UnknownTitle), Prop(found, "title")), Fill(coverId, Null, Prop(found, "coverId")))
  }

  /** toggleFavorite of favorites-update.js up to the `fetch`. Title and
      cover are read and completed before the method is chosen, so even a
      DELETE can throw in the collection search; only a POST carries a body,
      and it never has `authors`. */
  method UpdateToggleFavorite(bookId: string, isFavorite: bool, card: Option<CardDom>, cols: seq<Js>)
    returns (r: Option<Request>)
    ensures var (t, c) := UpdateDomData(card);
      var needed := t == Str(UnknownTitle) || c == Null;
      && (r.None? <==> needed && UpdateFindBookInCollections(cols, bookId).None?)
      && (r.Some? ==>
            var (t', c') := if needed then UpdateCompleted(t, c, UpdateFindBookInCollections(cols, bookId).value) else (t, c);
            && r.value.verb == (if isFavorite then "DELETE" else "POST")
            && r.value.url == FavoriteUrl(bookId)
            && r.value.body == (if isFavorite then None else Some(FavoriteBody(bookId, t', c', None))))
  {
    var verb := if isFavorite then "DELETE" else "POST";
    var bookTitle := Str(UnknownTitle);
    var bookCoverId := Null;
    if card.Some? {
      bookTitle := ExtractBookTitle(card.value, UpdateTitleSelectors);
      bookCoverId := ExtractCoverIdFromElement(card.value);
    }
    if bookTitle == Str(UnknownTitle) || bookCoverId == Null {
      var found := UpdateFindBookInCollections(cols, bookId);
      if found.None? {
        return None;
      }
      var g := found.value;
      if Truthy(g) {
        if bookTitle == Str(UnknownTitle) && Truthy(Prop(g, "title")) {
          bookTitle := Prop(g, "title");
        }
        if bookCoverId == Null && Truthy(Prop(g, "coverId")) {
          bookCoverId := Prop(g, "coverId");
        }
      }
    }
    var body: Option<FavoriteBody> := None;
    if verb == "POST" {
      body := Some(FavoriteBody(bookId, bookTitle, bookCoverId, None));
    }
    return Some(Request(verb, FavoriteUrl(bookId), body));
  }

  /** The OpenLibrary stub has a null title and cover, so it fills
      nothing. */
  lemma StubFillsNothing(bookId: string, title: Js, coverId: Js)
    ensures UpdateCompleted(title, coverId, Stub(bookId)) == (title, coverId)
  {
    assert Prop(Stub(bookId), "title") == Null;
    assert Prop(Stub(bookId), "coverId") == Null;
  }

  // ----- Rendering a stored favourite -----

  /** The fields renderBookCardHTML of favorite.js shows. */
  datatype CardFields = CardFields(bookId: Js, title: Js, authors: Js, coverUrl: Js)

  /** `bookId || id`, `bookTitle || title || sentinel`, `authors ||
      sentinel`, and `coverUrl`, else the covers URL of a truthy
      `bookCoverId`, else the default. */
  function RenderFields(b: RawBook): (r: CardFields)
    ensures Truthy(r.title) && Truthy(r.authors) && Truthy(r.coverUrl)
  {
    CardFields(
      bookId := Or(b.bookId, b.id),
      title := Or(Or(b.bookTitle, b.title), Str(UnknownTitle)),
      authors := Or(b.authors, Str(UnknownAuthor)),
      coverUrl := if Truthy(b.coverUrl) then b.coverUrl
        else if Truthy(b.bookCoverId) then Str(MediumCoverUrl(b.bookCoverId))
        else Str(FavoritesDefaultCover))
  }

  /** A favourite saved with a numeric cover id and no cover URL is shown
      with the image whose '/id/' digits are that id again, so a card built
      from it gives the same cover id back. */
  lemma RenderedCoverRoundTrip(b: RawBook, d: string)
    requires !Truthy(b.coverUrl) && b.bookCoverId == Str(d)
    requires d != [] && forall k :: 0 <= k < |d| ==> IsAsciiDigit(d[k])
    ensures RenderFields(b).coverUrl == Str(MediumCoverUrl(Str(d)))
    ensures CoverIdFromUrl(RenderFields(b).coverUrl) == Some(Str(d))
  {
    CoverIdFromUrlRoundTrip(d);
  }
}

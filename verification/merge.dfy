/** The merge of findRecommendedBooks (the recommendation page's and the
    engine's are the same code). Three passes ask for candidates: books by
    each of the first three top authors, books on each of the first four top
    subjects, popular books on each of the first two. Every candidate that
    is not a favourite is scored, and a Map keyed by book id keeps, per id,
    the candidate with the highest score, replacing an entry only when a
    later candidate scores strictly more. An exception ends the passes, and
    what the Map holds by then is sorted by score, highest first, and cut to
    `limit`. */
module Merge {
  import opened JsValues
  import opened StableSort
  import opened Preferences
  import opened RecFormat
  import opened Scoring

  /** `{ ...book, score, reason }`, a value of the Map. */
  datatype Recommendation = Recommendation(book: RecBook, score: real, reason: string)

  /** One candidate of a pass: the book, the bonus its pass adds to the
      score, and the reason it records. */
  datatype Offer = Offer(book: RecBook, bonus: real, reason: string)

  /** The books one search returned, with the bonus and reason of that
      search. */
  datatype Query = Query(books: seq<RecBook>, bonus: real, reason: string)

  /** The Map's values in insertion order, and whether an exception has
      ended the passes. */
  datatype MergeState = MergeState(entries: seq<Recommendation>, failed: bool)

  /** The three searches, as the results they return for each query; each
      search catches its own errors and returns []. */
  datatype Searches = Searches(
    byAuthor: Js -> seq<RecBook>,
    bySubject: string -> seq<RecBook>,
    popular: string -> seq<RecBook>)

  const AuthorPasses := 3
  const SubjectPasses := 4
  const PopularPasses := 2
  const AuthorBonus: real := 0.4
  const SubjectBonus: real := 0.35
  const PopularBonus: real := 0.25

  const Empty := MergeState([], false)

  /** `recommendedBooks.has(id)` / `get(id)`: where the entry for `id` is. */
  function IndexOfId(entries: seq<Recommendation>, id: Js): (r: Option<nat>)
    ensures r.Some? ==> r.value < |entries| && entries[r.value].book.id == id
    ensures r.None? <==> forall i :: 0 <= i < |entries| ==> entries[i].book.id != id
  {
    if entries == [] then None
    else if entries[0].book.id == id then Some(0)
    else match IndexOfId(entries[1..], id)
      case None => None
      case Some(k) => Some(k + 1)
  }

  /** `if (!has(id) || get(id).score < score) set(id, rec)`: a new id goes at
      the end; an existing one is replaced in place, and only by a strictly
      higher score. */
  function Upsert(entries: seq<Recommendation>, rec: Recommendation): seq<Recommendation> {
    match IndexOfId(entries, rec.book.id)
    case None => entries + [rec]
    case Some(i) => if entries[i].score < rec.score then entries[i := rec] else entries
  }

  /** What scoring an offer records, or None when calculateBookScore throws. */
  function Scored(o: Offer, prefs: Profile): Option<Recommendation> {
    match BookScore(o.book, prefs)
    case None => None
    case Some(s) => Some(Recommendation(o.book, s + o.bonus, o.reason))
  }

  /** One book of one `forEach`: favourites are skipped, a throwing score ends
      everything, any other candidate is offered to the Map. */
  function Step(st: MergeState, o: Offer, prefs: Profile, favoriteIds: set<Js>): MergeState {
    if st.failed || o.book.id in favoriteIds then st
    else match Scored(o, prefs)
      case None => MergeState(st.entries, true)
      case Some(rec) => MergeState(Upsert(st.entries, rec), false)
  }

  function MergeFrom(st: MergeState, offers: seq<Offer>, prefs: Profile, favoriteIds: set<Js>): MergeState {
    if offers == [] then st
    else Step(MergeFrom(st, offers[..|offers| - 1], prefs, favoriteIds), offers[|offers| - 1], prefs, favoriteIds)
  }

  function BookOffers(books: seq<RecBook>, bonus: real, reason: string): seq<Offer> {
    if books == [] then []
    else BookOffers(books[..|books| - 1], bonus, reason) + [Offer(books[|books| - 1], bonus, reason)]
  }

  function QueryOffers(qs: seq<Query>): seq<Offer> {
    if qs == [] then []
    else
      var q := qs[|qs| - 1];
      QueryOffers(qs[..|qs| - 1]) + BookOffers(q.books, q.bonus, q.reason)
  }

  /** `for (const [author, count] of topAuthors.slice(0, 3))`:
      searchBooksByAuthor, `count * 0.4`, `Porque te gusta ${author}`. */
  function AuthorQueries(authors: seq<(Js, nat)>, search: Js -> seq<RecBook>): seq<Query> {
    seq(|authors|, i requires 0 <= i < |authors| =>
      Query(search(authors[i].0), authors[i].1 as real * AuthorBonus, "Porque te gusta " + ToStr(authors[i].0)))
  }

  /** `for (const [subject, count] of topSubjects.slice(0, 4))`:
      searchBooksBySubject, `count * 0.35`, `Basado en tu interés en ${subject}`. */
  function SubjectQueries(subjects: seq<(string, nat)>, search: string -> seq<RecBook>): seq<Query> {
    seq(|subjects|, i requires 0 <= i < |subjects| =>
      Query(search(subjects[i].0), subjects[i].1 as real * SubjectBonus, "Basado en tu interés en " + subjects[i].0))
  }

  /** `for (const [subject] of topSubjects.slice(0, 2))`:
      getPopularBooksInSubject, `+ 0.25`, `Popular en ${subject}`. */
  function PopularQueries(subjects: seq<(string, nat)>, search: string -> seq<RecBook>): seq<Query> {
    seq(|subjects|, i requires 0 <= i < |subjects| =>
      Query(search(subjects[i].0), PopularBonus, "Popular en " + subjects[i].0))
  }

  function AllQueries(prefs: Profile, searches: Searches): seq<Query> {
    AuthorQueries(Slice(prefs.topAuthors, AuthorPasses), searches.byAuthor)
      + SubjectQueries(Slice(prefs.topSubjects, SubjectPasses), searches.bySubject)
      + PopularQueries(Slice(prefs.topSubjects, PopularPasses), searches.popular)
  }

  function ByScore(r: Recommendation): real {
    r.score
  }

  /** `new Set(favorites.map(f => f.bookId))`, given the favourites' ids. */
  function FavoriteIds(favorites: seq<Js>): set<Js> {
    set f | f in favorites
  }

  /** What findRecommendedBooks returns. */
  function Recommended(prefs: Profile, favorites: seq<Js>, searches: Searches, limit: int): seq<Recommendation> {
    var st := MergeFrom(Empty, QueryOffers(AllQueries(prefs, searches)), prefs, FavoriteIds(favorites));
    Slice(SortDesc(st.entries, ByScore), limit)
  }

  // ---- the imperative merge ----

  lemma MergeFromLast(st: MergeState, offers: seq<Offer>, o: Offer, prefs: Profile, favoriteIds: set<Js>)
    ensures MergeFrom(st, offers + [o], prefs, favoriteIds) == Step(MergeFrom(st, offers, prefs, favoriteIds), o, prefs, favoriteIds)
  {
    assert (offers + [o])[..|offers + [o]| - 1] == offers;
  }

  lemma BookOffersPrefix(books: seq<RecBook>, bonus: real, reason: string, i: nat)
    requires i < |books|
    ensures BookOffers(books[..i + 1], bonus, reason) == BookOffers(books[..i], bonus, reason) + [Offer(books[i], bonus, reason)]
  {
    assert books[..i + 1][..i] == books[..i];
  }

  /** A failed state stays as it is. */
  lemma {:induction false} FailedFrozen(st: MergeState, offers: seq<Offer>, prefs: Profile, favoriteIds: set<Js>)
    requires st.failed
    ensures MergeFrom(st, offers, prefs, favoriteIds) == st
  {
    if offers != [] {
      FailedFrozen(st, offers[..|offers| - 1], prefs, favoriteIds);
    }
  }

  lemma {:induction false} MergeFromAppend(st: MergeState, a: seq<Offer>, b: seq<Offer>, prefs: Profile, favoriteIds: set<Js>)
    ensures MergeFrom(st, a + b, prefs, favoriteIds) == MergeFrom(MergeFrom(st, a, prefs, favoriteIds), b, prefs, favoriteIds)
  {
    if b == [] {
      assert a + b == a;
    } else {
      var pre := b[..|b| - 1];
      MergeFromAppend(st, a, pre, prefs, favoriteIds);
      assert (a + b)[..|a + b| - 1] == a + pre;
      assert (a + b)[|a + b| - 1] == b[|b| - 1];
    }
  }

  /** The body of the `forEach` callback for one book. */
  method OfferBook(st: MergeState, o: Offer, prefs: Profile, favoriteIds: set<Js>) returns (next: MergeState)
    requires !st.failed
    ensures next == Step(st, o, prefs, favoriteIds)
  {
    next := st;
    var book := o.book;
    if book.id !in favoriteIds {
      var base := CalculateBookScore(book, prefs);
      if base.None? {
        return MergeState(st.entries, true);
      }
      var score := base.value + o.bonus;
      var entries := st.entries;
      var at := IndexOfId(entries, book.id);
      if at.None? {
        entries := entries + [Recommendation(book, score, o.reason)];
      } else if entries[at.value].score < score {
        entries := entries[at.value := Recommendation(book, score, o.reason)];
      }
      next := MergeState(entries, false);
    }
  }

  /** `books.forEach(book => { … })` for the books of one search. */
  method MergeBooks(st: MergeState, q: Query, prefs: Profile, favoriteIds: set<Js>) returns (o: MergeState)
    requires !st.failed
    ensures o == MergeFrom(st, BookOffers(q.books, q.bonus, q.reason), prefs, favoriteIds)
  {
    o := st;
    var books := q.books;
    for i := 0 to |books|
      invariant !o.failed
      invariant o == MergeFrom(st, BookOffers(books[..i], q.bonus, q.reason), prefs, favoriteIds)
    {
      BookOffersPrefix(books, q.bonus, q.reason, i);
      MergeFromLast(st, BookOffers(books[..i], q.bonus, q.reason), Offer(books[i], q.bonus, q.reason), prefs, favoriteIds);
      o := OfferBook(o, Offer(books[i], q.bonus, q.reason), prefs, favoriteIds);
      if o.failed {
        FailedFrozen(o, BookOffers(books[i + 1..], q.bonus, q.reason), prefs, favoriteIds);
        MergeRest(st, books, q.bonus, q.reason, i + 1, prefs, favoriteIds);
        return;
      }
    }
    assert books[..|books|] == books;
  }

  /** The offers of a query split at any book. */
  lemma MergeRest(st: MergeState, books: seq<RecBook>, bonus: real, reason: string, i: nat, prefs: Profile, favoriteIds: set<Js>)
    requires i <= |books|
    ensures MergeFrom(st, BookOffers(books, bonus, reason), prefs, favoriteIds)
      == MergeFrom(MergeFrom(st, BookOffers(books[..i], bonus, reason), prefs, favoriteIds),
                   BookOffers(books[i..], bonus, reason), prefs, favoriteIds)
  {
    BookOffersSplit(books, bonus, reason, i);
    MergeFromAppend(st, BookOffers(books[..i], bonus, reason), BookOffers(books[i..], bonus, reason), prefs, favoriteIds);
  }

  lemma {:induction false} BookOffersSplit(books: seq<RecBook>, bonus: real, reason: string, i: nat)
    requires i <= |books|
    ensures BookOffers(books, bonus, reason) == BookOffers(books[..i], bonus, reason) + BookOffers(books[i..], bonus, reason)
  {
    if i == |books| {
      assert books[..i] == books;
      assert books[i..] == [];
    } else {
      var pre := books[..|books| - 1];
      BookOffersSplit(pre, bonus, reason, i);
      assert pre[..i] == books[..i];
      assert books[i..][..|books[i..]| - 1] == pre[i..];
      assert books[i..][|books[i..]| - 1] == books[|books| - 1];
    }
  }

  /** The passes over a list of searches; an exception ends them. */
  method MergeQueries(st: MergeState, qs: seq<Query>, prefs: Profile, favoriteIds: set<Js>) returns (o: MergeState)
    ensures o == MergeFrom(st, QueryOffers(qs), prefs, favoriteIds)
  {
    if st.failed {
      FailedFrozen(st, QueryOffers(qs), prefs, favoriteIds);
      return st;
    }
    o := st;
    for i := 0 to |qs|
      invariant o == MergeFrom(st, QueryOffers(qs[..i]), prefs, favoriteIds)
    {
      assert qs[..i + 1][..i] == qs[..i];
      MergeFromAppend(st, QueryOffers(qs[..i]), BookOffers(qs[i].books, qs[i].bonus, qs[i].reason), prefs, favoriteIds);
      if o.failed {
        FailedFrozen(o, QueryOffers(qs[i..]), prefs, favoriteIds);
        QueryOffersSplit(qs, i);
        MergeFromAppend(st, QueryOffers(qs[..i]), QueryOffers(qs[i..]), prefs, favoriteIds);
        return;
      }
      o := MergeBooks(o, qs[i], prefs, favoriteIds);
    }
    assert qs[..|qs|] == qs;
  }

  lemma {:induction false} QueryOffersSplit(qs: seq<Query>, i: nat)
    requires i <= |qs|
    ensures QueryOffers(qs) == QueryOffers(qs[..i]) + QueryOffers(qs[i..])
    decreases |qs|
  {
    if i == |qs| {
      assert qs[..i] == qs;
      assert qs[i..] == [];
    } else {
      var pre := qs[..|qs| - 1];
      QueryOffersSplit(pre, i);
      assert pre[..i] == qs[..i];
      assert qs[i..][..|qs[i..]| - 1] == pre[i..];
      assert qs[i..][|qs[i..]| - 1] == qs[|qs| - 1];
    }
  }

  /** findRecommendedBooks. */
  method FindRecommendedBooks(prefs: Profile, favorites: seq<Js>, searches: Searches, limit: int)
    returns (r: seq<Recommendation>)
    ensures r == Recommended(prefs, favorites, searches, limit)
  {
    var favoriteIds := set f | f in favorites;
    var authorQueries := AuthorQueries(Slice(prefs.topAuthors, AuthorPasses), searches.byAuthor);
    var subjectQueries := SubjectQueries(Slice(prefs.topSubjects, SubjectPasses), searches.bySubject);
    var popularQueries := PopularQueries(Slice(prefs.topSubjects, PopularPasses), searches.popular);
    var st := MergeQueries(Empty, authorQueries, prefs, favoriteIds);
    st := MergeQueries(st, subjectQueries, prefs, favoriteIds);
    st := MergeQueries(st, popularQueries, prefs, favoriteIds);
    QueryOffersConcat(authorQueries, subjectQueries);
    QueryOffersConcat(authorQueries + subjectQueries, popularQueries);
    MergeFromAppend(Empty, QueryOffers(authorQueries), QueryOffers(subjectQueries), prefs, favoriteIds);
    MergeFromAppend(Empty, QueryOffers(authorQueries + subjectQueries), QueryOffers(popularQueries), prefs, favoriteIds);
    r := Slice(SortDesc(st.entries, ByScore), limit);
  }

  lemma QueryOffersConcat(a: seq<Query>, b: seq<Query>)
    ensures QueryOffers(a + b) == QueryOffers(a) + QueryOffers(b)
  {
    QueryOffersSplit(a + b, |a|);
    assert (a + b)[..|a|] == a && (a + b)[|a|..] == b;
  }

  // ---- what the merge guarantees ----

  /** No two entries share an id: the Map's keys. */
  predicate DistinctIds(entries: seq<Recommendation>) {
    forall i, j :: 0 <= i < j < |entries| ==> entries[i].book.id != entries[j].book.id
  }

  predicate NoFavorites(entries: seq<Recommendation>, favoriteIds: set<Js>) {
    forall e :: e in entries ==> e.book.id !in favoriteIds
  }

  /** The Map's value for `id`. */
  function EntryFor(entries: seq<Recommendation>, id: Js): Option<Recommendation> {
    match IndexOfId(entries, id)
    case None => None
    case Some(i) => Some(entries[i])
  }

  /** `set`: the value for the candidate's id becomes the candidate exactly
      when there was none or the old one scored strictly less; every other
      id keeps its value and its place, and a new id is added last. */
  lemma UpsertSpec(entries: seq<Recommendation>, rec: Recommendation)
    requires DistinctIds(entries)
    ensures var u := Upsert(entries, rec);
      var prior := EntryFor(entries, rec.book.id);
      && DistinctIds(u)
      && EntryFor(u, rec.book.id) == (if prior.None? || prior.value.score < rec.score then Some(rec) else prior)
      && (forall id :: id != rec.book.id ==> EntryFor(u, id) == EntryFor(entries, id))
      && |u| == |entries| + (if prior.None? then 1 else 0)
      && (forall i :: 0 <= i < |entries| && entries[i].book.id != rec.book.id ==> u[i] == entries[i])
  {
    var u := Upsert(entries, rec);
    var id := rec.book.id;
    match IndexOfId(entries, id)
    case None =>
      assert u == entries + [rec];
      IndexOfIdAt(u, |entries|);
      forall x | x != id ensures EntryFor(u, x) == EntryFor(entries, x) {
        IndexOfIdPrefix(entries, [rec], x);
      }
    case Some(i) =>
      if entries[i].score < rec.score {
        assert u == entries[i := rec];
        IndexOfIdAt(u, i);
        forall x | x != id ensures EntryFor(u, x) == EntryFor(entries, x) {
          IndexOfIdReplace(entries, i, rec, x);
        }
      }
  }

  lemma IndexOfIdAt(entries: seq<Recommendation>, i: nat)
    requires DistinctIds(entries) && i < |entries|
    ensures IndexOfId(entries, entries[i].book.id) == Some(i)
  {
  }

  lemma IndexOfIdPrefix(a: seq<Recommendation>, b: seq<Recommendation>, id: Js)
    requires IndexOfId(a, id).Some? || forall e :: e in b ==> e.book.id != id
    ensures IndexOfId(a + b, id) == IndexOfId(a, id)
  {
    if a != [] && a[0].book.id != id {
      assert (a + b)[1..] == a[1..] + b;
      IndexOfIdPrefix(a[1..], b, id);
    }
  }

  lemma {:induction false} IndexOfIdReplace(entries: seq<Recommendation>, i: nat, rec: Recommendation, id: Js)
    requires i < |entries| && rec.book.id == entries[i].book.id && id != rec.book.id
    ensures IndexOfId(entries[i := rec], id) == IndexOfId(entries, id)
  {
    var u := entries[i := rec];
    assert u[0].book.id == entries[0].book.id;
    if entries[0].book.id != id {
      if i == 0 {
        assert u[1..] == entries[1..];
      } else {
        assert u[1..] == entries[1..][i - 1 := rec];
        IndexOfIdReplace(entries[1..], i - 1, rec, id);
      }
      assert IndexOfId(u[1..], id) == IndexOfId(entries[1..], id);
      assert IndexOfId(u, id) == match IndexOfId(u[1..], id) case None => None case Some(k) => Some(k + 1);
    }
  }

  /** Upsert never lowers the score kept for an id, and the candidate's id
      ends up with at least the candidate's score. */
  lemma UpsertMonotone(entries: seq<Recommendation>, rec: Recommendation)
    ensures forall e :: e in entries ==>
      exists x :: x in Upsert(entries, rec) && x.book.id == e.book.id && x.score >= e.score
    ensures exists x :: x in Upsert(entries, rec) && x.book.id == rec.book.id && x.score >= rec.score
    ensures forall x :: x in Upsert(entries, rec) ==> x in entries || x == rec
  {
    var u := Upsert(entries, rec);
    match IndexOfId(entries, rec.book.id)
    case None =>
      assert u[|entries|] == rec;
      forall e | e in entries
        ensures exists x :: x in u && x.book.id == e.book.id && x.score >= e.score
      {
        assert e in u;
      }
    case Some(i) =>
      if entries[i].score < rec.score {
        assert u == entries[i := rec];
        ReplaceMonotone(entries, i, rec);
      } else {
        assert entries[i] in u;
      }
  }

  /** Replacing the entry for an id by a higher-scoring one. */
  lemma ReplaceMonotone(entries: seq<Recommendation>, i: nat, rec: Recommendation)
    requires i < |entries| && entries[i].book.id == rec.book.id && entries[i].score < rec.score
    ensures var u := entries[i := rec];
      && (forall e :: e in entries ==> exists x :: x in u && x.book.id == e.book.id && x.score >= e.score)
      && rec in u
      && (forall x :: x in u ==> x in entries || x == rec)
  {
    var u := entries[i := rec];
    assert u[i] == rec;
    forall e | e in entries
      ensures exists x :: x in u && x.book.id == e.book.id && x.score >= e.score
    {
      var j :| 0 <= j < |entries| && entries[j] == e;
      if j == i {
        assert u[i].book.id == e.book.id && u[i].score >= e.score;
      } else {
        assert u[j] == e;
      }
    }
    forall x | x in u ensures x in entries || x == rec {
      var j :| 0 <= j < |u| && u[j] == x;
      if j != i {
        assert x == entries[j];
      }
    }
  }

  /** The merge keeps the Map's keys distinct and free of favourites. */
  lemma {:induction false} MergeValid(st: MergeState, offers: seq<Offer>, prefs: Profile, favoriteIds: set<Js>)
    requires DistinctIds(st.entries) && NoFavorites(st.entries, favoriteIds)
    ensures DistinctIds(MergeFrom(st, offers, prefs, favoriteIds).entries)
    ensures NoFavorites(MergeFrom(st, offers, prefs, favoriteIds).entries, favoriteIds)
  {
    if offers != [] {
      var prev := MergeFrom(st, offers[..|offers| - 1], prefs, favoriteIds);
      var o := offers[|offers| - 1];
      MergeValid(st, offers[..|offers| - 1], prefs, favoriteIds);
      if !prev.failed && o.book.id !in favoriteIds && Scored(o, prefs).Some? {
        UpsertSpec(prev.entries, Scored(o, prefs).value);
        UpsertMonotone(prev.entries, Scored(o, prefs).value);
      }
    }
  }

  /** Every entry is what scoring some candidate that is not a favourite
      gave: that candidate's book, its score plus bonus, its reason. */
  lemma {:induction false} EntriesFromOffers(offers: seq<Offer>, prefs: Profile, favoriteIds: set<Js>)
    ensures forall e :: e in MergeFrom(Empty, offers, prefs, favoriteIds).entries ==>
      exists k :: 0 <= k < |offers| && offers[k].book.id !in favoriteIds && Scored(offers[k], prefs) == Some(e)
  {
    if offers != [] {
      var pre := offers[..|offers| - 1];
      var prev := MergeFrom(Empty, pre, prefs, favoriteIds);
      var o := offers[|offers| - 1];
      EntriesFromOffers(pre, prefs, favoriteIds);
      if !prev.failed && o.book.id !in favoriteIds && Scored(o, prefs).Some? {
        UpsertMonotone(prev.entries, Scored(o, prefs).value);
      }
      forall e | e in MergeFrom(Empty, offers, prefs, favoriteIds).entries
        ensures exists k :: 0 <= k < |offers| && offers[k].book.id !in favoriteIds && Scored(offers[k], prefs) == Some(e)
      {
        if e in prev.entries {
          var k :| 0 <= k < |pre| && pre[k].book.id !in favoriteIds && Scored(pre[k], prefs) == Some(e);
          assert offers[k] == pre[k];
        } else {
          assert Scored(offers[|offers| - 1], prefs) == Some(e);
        }
      }
    }
  }

  /** The passes end early exactly when some candidate that is not a
      favourite makes calculateBookScore throw. */
  lemma {:induction false} MergeFailsIff(offers: seq<Offer>, prefs: Profile, favoriteIds: set<Js>)
    ensures MergeFrom(Empty, offers, prefs, favoriteIds).failed <==>
      exists k :: 0 <= k < |offers| && offers[k].book.id !in favoriteIds && Scored(offers[k], prefs).None?
  {
    if offers != [] {
      var pre := offers[..|offers| - 1];
      MergeFailsIff(pre, prefs, favoriteIds);
      if exists k :: 0 <= k < |pre| && pre[k].book.id !in favoriteIds && Scored(pre[k], prefs).None? {
        var k :| 0 <= k < |pre| && pre[k].book.id !in favoriteIds && Scored(pre[k], prefs).None?;
        assert offers[k] == pre[k];
      }
      if exists k :: 0 <= k < |offers| && offers[k].book.id !in favoriteIds && Scored(offers[k], prefs).None? {
        var k :| 0 <= k < |offers| && offers[k].book.id !in favoriteIds && Scored(offers[k], prefs).None?;
        if k < |pre| {
          assert pre[k] == offers[k];
        }
      }
    }
  }

  /** When no exception ends the passes, the entry kept for the id of each
      candidate that is not a favourite scores at least as much as that
      candidate: the Map keeps the best score per id. */
  lemma {:induction false} EntriesDominate(offers: seq<Offer>, prefs: Profile, favoriteIds: set<Js>)
    ensures var st := MergeFrom(Empty, offers, prefs, favoriteIds);
      !st.failed ==>
        forall k :: 0 <= k < |offers| && offers[k].book.id !in favoriteIds ==>
          && Scored(offers[k], prefs).Some?
          && exists x :: x in st.entries && x.book.id == offers[k].book.id && x.score >= Scored(offers[k], prefs).value.score
  {
    if offers != [] {
      var pre := offers[..|offers| - 1];
      var prev := MergeFrom(Empty, pre, prefs, favoriteIds);
      var st := MergeFrom(Empty, offers, prefs, favoriteIds);
      var o := offers[|offers| - 1];
      EntriesDominate(pre, prefs, favoriteIds);
      if !st.failed {
        assert st == Step(prev, o, prefs, favoriteIds);
        StepKeeps(prev, o, prefs, favoriteIds);
        forall k | 0 <= k < |offers| && offers[k].book.id !in favoriteIds
          ensures Scored(offers[k], prefs).Some?
          ensures Kept(st.entries, Scored(offers[k], prefs).value)
        {
          if k < |pre| {
            assert pre[k] == offers[k];
            assert Kept(prev.entries, Scored(pre[k], prefs).value);
          }
        }
      }
    }
  }

  /** Some entry has the id of `rec` and at least its score. */
  predicate Kept(entries: seq<Recommendation>, rec: Recommendation) {
    exists x :: x in entries && x.book.id == rec.book.id && x.score >= rec.score
  }

  /** One step that does not fail keeps what was kept, and keeps the offer
      it scores. */
  lemma StepKeeps(prev: MergeState, o: Offer, prefs: Profile, favoriteIds: set<Js>)
    requires !Step(prev, o, prefs, favoriteIds).failed
    ensures !prev.failed
    ensures forall rec :: Kept(prev.entries, rec) ==> Kept(Step(prev, o, prefs, favoriteIds).entries, rec)
    ensures o.book.id !in favoriteIds ==>
      Scored(o, prefs).Some? && Kept(Step(prev, o, prefs, favoriteIds).entries, Scored(o, prefs).value)
  {
    var st := Step(prev, o, prefs, favoriteIds);
    if o.book.id !in favoriteIds {
      var rec := Scored(o, prefs).value;
      assert st.entries == Upsert(prev.entries, rec);
      UpsertMonotone(prev.entries, rec);
      forall r | Kept(prev.entries, r) ensures Kept(st.entries, r) {
        var y :| y in prev.entries && y.book.id == r.book.id && y.score >= r.score;
        var x :| x in st.entries && x.book.id == y.book.id && x.score >= y.score;
      }
    }
  }

  lemma {:induction false} InsertIds(e: Recommendation, r: seq<Recommendation>)
    requires DistinctIds(r) && forall x :: x in r ==> x.book.id != e.book.id
    ensures DistinctIds(Insert(e, r, ByScore))
  {
    if r != [] && ByScore(r[0]) > ByScore(e) {
      InsertIds(e, r[1..]);
      var o := Insert(e, r, ByScore);
      var rest := Insert(e, r[1..], ByScore);
      assert o == [r[0]] + rest;
      forall j | 0 < j < |o| ensures o[0].book.id != o[j].book.id {
        assert o[j] in multiset(rest);
        assert o[j] in r[1..] || o[j] == e;
      }
    }
  }

  lemma {:induction false} SortIds(t: seq<Recommendation>)
    requires DistinctIds(t)
    ensures DistinctIds(SortDesc(t, ByScore))
  {
    if t != [] {
      SortIds(t[1..]);
      var s := SortDesc(t[1..], ByScore);
      forall x | x in s ensures x.book.id != t[0].book.id {
        assert x in multiset(t[1..]);
        var q :| 0 <= q < |t[1..]| && t[1..][q] == x;
        assert t[q + 1] == x;
      }
      InsertIds(t[0], s);
    }
  }

  /** findRecommendedBooks returns the `limit` best entries of the Map
      (`slice` counts a negative limit from the end), by score from highest
      to lowest: no entry left out scores more than one kept. No two share an
      id, none is a favourite, each is an entry of the Map; with a limit as
      large as the Map, all of its entries. */
  lemma RecommendedSpec(prefs: Profile, favorites: seq<Js>, searches: Searches, limit: int)
    ensures var st := MergeFrom(Empty, QueryOffers(AllQueries(prefs, searches)), prefs, FavoriteIds(favorites));
      var r := Recommended(prefs, favorites, searches, limit);
      && (limit >= 0 ==> |r| == if limit < |st.entries| then limit else |st.entries|)
      && (limit < 0 ==> |r| == if |st.entries| + limit > 0 then |st.entries| + limit else 0)
      && SortedDesc(r, ByScore)
      && (forall e, x :: e in st.entries && e !in r && x in r ==> x.score >= e.score)
      && DistinctIds(r)
      && (forall e :: e in r ==> e.book.id !in favorites)
      && (forall e :: e in r ==> e in st.entries)
      && (limit >= |st.entries| ==> multiset(r) == multiset(st.entries))
  {
    var favoriteIds := FavoriteIds(favorites);
    var st := MergeFrom(Empty, QueryOffers(AllQueries(prefs, searches)), prefs, favoriteIds);
    MergeValid(Empty, QueryOffers(AllQueries(prefs, searches)), prefs, favoriteIds);
    TopSlice(st.entries, limit);
    TopSliceIds(st.entries, limit);
  }

  /** The sorted slice of any entry list: `limit` entries, sorted, each one
      of the list, all of it for a large enough limit. */
  lemma TopSlice(entries: seq<Recommendation>, limit: int)
    ensures var r := Slice(SortDesc(entries, ByScore), limit);
      && (limit >= 0 ==> |r| == if limit < |entries| then limit else |entries|)
      && (limit < 0 ==> |r| == if |entries| + limit > 0 then |entries| + limit else 0)
      && SortedDesc(r, ByScore)
      && (forall e, x :: e in entries && e !in r && x in r ==> x.score >= e.score)
      && (forall e :: e in r ==> e in entries)
      && (limit >= |entries| ==> multiset(r) == multiset(entries))
  {
    var sorted := SortDesc(entries, ByScore);
    var r := Slice(sorted, limit);
    SortDescSorted(entries, ByScore);
    forall e | e in r ensures e in entries {
      assert e in multiset(sorted);
    }
    TopSliceDominates(entries, limit);
    if limit >= |entries| {
      assert r == sorted;
    }
  }

  /** No entry left out of the sorted slice scores more than one kept. */
  lemma TopSliceDominates(entries: seq<Recommendation>, limit: int)
    ensures var r := Slice(SortDesc(entries, ByScore), limit);
      forall e, x :: e in entries && e !in r && x in r ==> x.score >= e.score
  {
    var sorted := SortDesc(entries, ByScore);
    var r := Slice(sorted, limit);
    SortDescSorted(entries, ByScore);
    PrefixDominates(entries, sorted, |r|, ByScore);
    assert r == sorted[..|r|];
    forall e, x | e in entries && e !in r && x in r ensures x.score >= e.score {
      assert ByScore(x) >= ByScore(e);
    }
  }

  /** The sorted slice keeps ids distinct and favourites out. */
  lemma TopSliceIds(entries: seq<Recommendation>, limit: int)
    requires DistinctIds(entries)
    ensures DistinctIds(Slice(SortDesc(entries, ByScore), limit))
  {
    var sorted := SortDesc(entries, ByScore);
    SortIds(entries);
    var r := Slice(sorted, limit);
    forall i, j | 0 <= i < j < |r| ensures r[i].book.id != r[j].book.id {
      assert r[i] == sorted[i] && r[j] == sorted[j];
    }
  }

  /** Ties keep the Map's insertion order: of the entries with any one
      score, the kept ones are the first inserted. */
  lemma RecommendedTies(prefs: Profile, favorites: seq<Js>, searches: Searches, limit: int, v: real)
    ensures var st := MergeFrom(Empty, QueryOffers(AllQueries(prefs, searches)), prefs, FavoriteIds(favorites));
      var kept := WithKey(Recommended(prefs, favorites, searches, limit), ByScore, v);
      |kept| <= |WithKey(st.entries, ByScore, v)| && kept == WithKey(st.entries, ByScore, v)[..|kept|]
  {
    var st := MergeFrom(Empty, QueryOffers(AllQueries(prefs, searches)), prefs, FavoriteIds(favorites));
    var sorted := SortDesc(st.entries, ByScore);
    var r := Recommended(prefs, favorites, searches, limit);
    assert r == sorted[..|r|];
    WithKeyPrefix(sorted, |r|, ByScore, v);
    SortDescStable(st.entries, ByScore, v);
  }
}

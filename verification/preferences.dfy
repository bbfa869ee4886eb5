/** analyzeUserPreferences of the recommendations engine: counts authors,
    subjects, publication decades and languages over the favourites' work
    details and keeps the most frequent of each. The fetches are inputs: one
    optional work detail per favourite (None when the fetch failed) and, in
    each author reference, the name its author fetch resolved. */
module Preferences {
  import opened JsValues
  import opened Frequency
  import opened Subjects

  /** One entry of a work's `authors`: whether it has an `author` link to
      follow, and the `name` the author fetch returned (None when the fetch
      failed, which the code turns into null). */
  datatype AuthorRef = AuthorRef(hasAuthor: bool, resolved: Option<Js>)

  datatype WorkDetail = WorkDetail(
    authors: seq<AuthorRef>,
    subjects: seq<Js>,
    first_publish_date: Js,
    languages: seq<Js>)

  datatype Profile = Profile(
    topAuthors: seq<(Js, nat)>,
    topSubjects: seq<(string, nat)>,
    topDecades: seq<(int, nat)>,
    topLanguages: seq<(Js, nat)>,
    totalAnalyzed: nat)

  const AuthorCap := 5
  const SubjectCap := 8
  const DecadeCap := 3
  const LanguageCap := 2

  /** `(await Promise.all(detailsPromises)).filter(book => book !== null)` */
  function Fetched(details: seq<Option<WorkDetail>>): (ws: seq<WorkDetail>)
    ensures |ws| <= |details|
  {
    if details == [] then []
    else
      var rest := Fetched(details[..|details| - 1]);
      match details[|details| - 1]
      case None => rest
      case Some(w) => rest + [w]
  }

  /** The names a work's author references add to the count: only
      references with an `author` link, only fetches that succeeded, only
      truthy names. */
  function RefNames(refs: seq<AuthorRef>): seq<Js> {
    if refs == [] then []
    else
      var last := refs[|refs| - 1];
      RefNames(refs[..|refs| - 1])
        + (if last.hasAuthor && last.resolved.Some? && Truthy(last.resolved.value) then [last.resolved.value] else [])
  }

  /** The keys a work's subjects add: non-empty strings, normalised. */
  function SubjectNames(subjects: seq<Js>): seq<string> {
    if subjects == [] then []
    else
      var last := subjects[|subjects| - 1];
      SubjectNames(subjects[..|subjects| - 1])
        + (if last.Str? && last.s != "" then [NormalizeSubject(last.s)] else [])
  }

  /** The decade a work adds: none for a falsy date, a NaN year or decade 0. */
  function DecadeNames(w: WorkDetail): seq<int> {
    if Truthy(w.first_publish_date) then
      match ExtractDecade(w.first_publish_date)
      case Some(d) => if d != 0 then [d] else []
      case None => []
    else []
  }

  function AuthorKeys(ws: seq<WorkDetail>): seq<Js> {
    if ws == [] then [] else AuthorKeys(ws[..|ws| - 1]) + RefNames(ws[|ws| - 1].authors)
  }

  function SubjectKeys(ws: seq<WorkDetail>): seq<string> {
    if ws == [] then [] else SubjectKeys(ws[..|ws| - 1]) + SubjectNames(ws[|ws| - 1].subjects)
  }

  function DecadeKeys(ws: seq<WorkDetail>): seq<int> {
    if ws == [] then [] else DecadeKeys(ws[..|ws| - 1]) + DecadeNames(ws[|ws| - 1])
  }

  function LanguageKeys(ws: seq<WorkDetail>): seq<Js> {
    if ws == [] then [] else LanguageKeys(ws[..|ws| - 1]) + ws[|ws| - 1].languages
  }

  /** The profile analyzeUserPreferences returns for these fetch results. */
  function ProfileOf(details: seq<Option<WorkDetail>>): Profile {
    var ws := Fetched(details);
    Profile(
      GetTopEntries(TallyOf(AuthorKeys(ws)), AuthorCap),
      GetTopEntries(TallyOf(SubjectKeys(ws)), SubjectCap),
      GetTopEntries(TallyOf(DecadeKeys(ws)), DecadeCap),
      GetTopEntries(TallyOf(LanguageKeys(ws)), LanguageCap),
      |ws|)
  }

  lemma TallyStep<K>(ks: seq<K>, k: K)
    ensures TallyOf(ks + [k]) == Increment(TallyOf(ks), k)
  {
    assert (ks + [k])[..|ks|] == ks;
  }

  /** The author part of the loop body: every resolved, truthy name adds
      one to its counter. */
  method CountAuthorNames(counts: seq<(Js, nat)>, ghost seen: seq<Js>, refs: seq<AuthorRef>)
    returns (o: seq<(Js, nat)>)
    requires counts == TallyOf(seen)
    ensures o == TallyOf(seen + RefNames(refs))
  {
    o := counts;
    var j := 0;
    assert seen + RefNames(refs[..0]) == seen;
    while j < |refs|
      invariant 0 <= j <= |refs|
      invariant o == TallyOf(seen + RefNames(refs[..j]))
    {
      var ref := refs[j];
      assert refs[..j + 1][..j] == refs[..j] && refs[..j + 1][j] == ref;
      if ref.hasAuthor && ref.resolved.Some? && Truthy(ref.resolved.value) {
        TallyStep(seen + RefNames(refs[..j]), ref.resolved.value);
        assert seen + RefNames(refs[..j + 1]) == (seen + RefNames(refs[..j])) + [ref.resolved.value];
        o := Increment(o, ref.resolved.value);
      } else {
        assert RefNames(refs[..j + 1]) == RefNames(refs[..j]);
      }
      j := j + 1;
    }
    assert refs[..j] == refs;
  }

  /** The subject part: every non-empty string subject adds one under its
      normalised key. */
  method CountSubjects(counts: seq<(string, nat)>, ghost seen: seq<string>, subjects: seq<Js>)
    returns (o: seq<(string, nat)>)
    requires counts == TallyOf(seen)
    ensures o == TallyOf(seen + SubjectNames(subjects))
  {
    o := counts;
    var j := 0;
    assert seen + SubjectNames(subjects[..0]) == seen;
    while j < |subjects|
      invariant 0 <= j <= |subjects|
      invariant o == TallyOf(seen + SubjectNames(subjects[..j]))
    {
      var subject := subjects[j];
      SubjectNamesStep(seen, subjects, j);
      if subject.Str? && subject.s != "" {
        var key := NormalizeSubject(subject.s);
        TallyStep(seen + SubjectNames(subjects[..j]), key);
        o := Increment(o, key);
      } else {
        assert seen + SubjectNames(subjects[..j + 1]) == seen + SubjectNames(subjects[..j]);
      }
      j := j + 1;
    }
    assert subjects[..j] == subjects;
  }

  lemma SubjectNamesStep(seen: seq<string>, subjects: seq<Js>, j: nat)
    requires j < |subjects|
    ensures var subject := subjects[j];
      seen + SubjectNames(subjects[..j + 1]) == (seen + SubjectNames(subjects[..j]))
        + (if subject.Str? && subject.s != "" then [NormalizeSubject(subject.s)] else [])
  {
    assert subjects[..j + 1][..j] == subjects[..j] && subjects[..j + 1][j] == subjects[j];
  }

  lemma KeysStep(ws: seq<WorkDetail>, i: nat)
    requires i < |ws|
    ensures AuthorKeys(ws[..i + 1]) == AuthorKeys(ws[..i]) + RefNames(ws[i].authors)
    ensures SubjectKeys(ws[..i + 1]) == SubjectKeys(ws[..i]) + SubjectNames(ws[i].subjects)
    ensures DecadeKeys(ws[..i + 1]) == DecadeKeys(ws[..i]) + DecadeNames(ws[i])
    ensures LanguageKeys(ws[..i + 1]) == LanguageKeys(ws[..i]) + ws[i].languages
  {
    assert ws[..i + 1][..i] == ws[..i] && ws[..i + 1][i] == ws[i];
  }

  /** The language part: every entry adds one. */
  method CountLanguages(counts: seq<(Js, nat)>, ghost seen: seq<Js>, languages: seq<Js>)
    returns (o: seq<(Js, nat)>)
    requires counts == TallyOf(seen)
    ensures o == TallyOf(seen + languages)
  {
    o := counts;
    var j := 0;
    assert seen + languages[..0] == seen;
    while j < |languages|
      invariant 0 <= j <= |languages|
      invariant o == TallyOf(seen + languages[..j])
    {
      TallyStep(seen + languages[..j], languages[j]);
      assert seen + languages[..j + 1] == (seen + languages[..j]) + [languages[j]];
      o := Increment(o, languages[j]);
      j := j + 1;
    }
    assert languages[..j] == languages;
  }

  /** The decade part: a truthy date whose decade is neither NaN nor 0
      adds one to that decade. */
  method CountDecade(counts: seq<(int, nat)>, ghost seen: seq<int>, w: WorkDetail)
    returns (o: seq<(int, nat)>)
    requires counts == TallyOf(seen)
    ensures o == TallyOf(seen + DecadeNames(w))
  {
    o := counts;
    if Truthy(w.first_publish_date) {
      var decade := ExtractDecade(w.first_publish_date);
      if decade.Some? && decade.value != 0 {
        TallyStep(seen, decade.value);
        o := Increment(o, decade.value);
      } else {
        assert seen + DecadeNames(w) == seen;
      }
    } else {
      assert seen + DecadeNames(w) == seen;
    }
  }

  /** analyzeUserPreferences: the Map counters are updated work by work,
      then cut down by getTopEntries. */
  method AnalyzeUserPreferences(details: seq<Option<WorkDetail>>) returns (p: Profile)
    ensures p == ProfileOf(details)
  {
    var ws := Fetched(details);
    var authors: seq<(Js, nat)> := [];
    var subjects: seq<(string, nat)> := [];
    var decades: seq<(int, nat)> := [];
    var languages: seq<(Js, nat)> := [];
    var i := 0;
    while i < |ws|
      invariant 0 <= i <= |ws|
      invariant authors == TallyOf(AuthorKeys(ws[..i]))
      invariant subjects == TallyOf(SubjectKeys(ws[..i]))
      invariant decades == TallyOf(DecadeKeys(ws[..i]))
      invariant languages == TallyOf(LanguageKeys(ws[..i]))
    {
      var w := ws[i];
      KeysStep(ws, i);
      authors := CountAuthorNames(authors, AuthorKeys(ws[..i]), w.authors);
      subjects := CountSubjects(subjects, SubjectKeys(ws[..i]), w.subjects);
      decades := CountDecade(decades, DecadeKeys(ws[..i]), w);
      languages := CountLanguages(languages, LanguageKeys(ws[..i]), w.languages);
      i := i + 1;
    }
    assert ws[..i] == ws;
    p := Profile(
      GetTopEntries(authors, AuthorCap),
      GetTopEntries(subjects, SubjectCap),
      GetTopEntries(decades, DecadeCap),
      GetTopEntries(languages, LanguageCap),
      |ws|);
  }

  lemma {:induction false} FetchedCount(details: seq<Option<WorkDetail>>)
    ensures |Fetched(details)| == |details| - multiset(details)[None]
  {
    if details != [] {
      var pre := details[..|details| - 1];
      FetchedCount(pre);
      assert details == pre + [details[|details| - 1]];
      assert multiset(details) == multiset(pre) + multiset{details[|details| - 1]};
    }
  }

  /** `totalAnalyzed` is the number of favourites whose detail fetch
      succeeded. */
  lemma TotalAnalyzedCountsFetched(details: seq<Option<WorkDetail>>)
    ensures ProfileOf(details).totalAnalyzed == |details| - multiset(details)[None]
    ensures (forall i :: 0 <= i < |details| ==> details[i].Some?) ==> ProfileOf(details).totalAnalyzed == |details|
  {
    FetchedCount(details);
    if forall i :: 0 <= i < |details| ==> details[i].Some? {
      assert None !in details;
    }
  }

  /** The caps: at most 5 authors, 8 subjects, 3 decades and 2 languages,
      fewer only when fewer distinct keys were seen. */
  lemma ProfileCaps(details: seq<Option<WorkDetail>>)
    ensures var p := ProfileOf(details);
      var ws := Fetched(details);
      && |p.topAuthors| == (if |FirstAppearances(AuthorKeys(ws))| < AuthorCap then |FirstAppearances(AuthorKeys(ws))| else AuthorCap)
      && |p.topSubjects| == (if |FirstAppearances(SubjectKeys(ws))| < SubjectCap then |FirstAppearances(SubjectKeys(ws))| else SubjectCap)
      && |p.topDecades| == (if |FirstAppearances(DecadeKeys(ws))| < DecadeCap then |FirstAppearances(DecadeKeys(ws))| else DecadeCap)
      && |p.topLanguages| == (if |FirstAppearances(LanguageKeys(ws))| < LanguageCap then |FirstAppearances(LanguageKeys(ws))| else LanguageCap)
  {
    var ws := Fetched(details);
    TallyOfSpec(AuthorKeys(ws));
    TallyOfSpec(SubjectKeys(ws));
    TallyOfSpec(DecadeKeys(ws));
    TallyOfSpec(LanguageKeys(ws));
  }

  /** Each kept entry of a counted map carries the number of occurrences
      of its key, which is at least one. */
  lemma TopCounts<K>(ks: seq<K>, cap: int)
    requires cap >= 0
    ensures forall e :: e in GetTopEntries(TallyOf(ks), cap) ==> e.1 == multiset(ks)[e.0] && e.1 > 0
  {
    var t := TallyOf(ks);
    TallyOfSpec(ks);
    TopEntriesSpec(t, cap);
    forall e | e in GetTopEntries(t, cap) ensures e.1 == multiset(ks)[e.0] && e.1 > 0 {
      EntryCount(t, e);
      FirstAppearancesIn(ks, e.0);
    }
  }

  /** Every kept author carries the number of resolved, truthy names equal
      to it: each such name added exactly one. */
  lemma TopAuthorCounts(details: seq<Option<WorkDetail>>)
    ensures forall e :: e in ProfileOf(details).topAuthors ==>
      e.1 == multiset(AuthorKeys(Fetched(details)))[e.0] && e.1 > 0
  {
    TopCounts(AuthorKeys(Fetched(details)), AuthorCap);
  }

  /** In a map with distinct keys, an entry's count is what `get` returns. */
  lemma {:induction false} EntryCount<K>(t: seq<(K, nat)>, e: (K, nat))
    requires DistinctKeys(t) && e in t
    ensures CountOf(t, e.0) == e.1 && e.0 in Keys(t)
  {
    if t[0] != e {
      assert e in t[1..];
      assert t[0].0 != e.0 by {
        var q :| 0 <= q < |t| && t[q] == e;
      }
      EntryCount(t[1..], e);
      assert Keys(t) == [t[0].0] + Keys(t[1..]);
    } else {
      assert Keys(t)[0] == e.0;
    }
  }

  lemma {:induction false} FirstAppearancesIn<K>(s: seq<K>, k: K)
    requires k in FirstAppearances(s)
    ensures k in s
  {
    if s != [] {
      var pre := s[..|s| - 1];
      if k in FirstAppearances(pre) {
        FirstAppearancesIn(pre, k);
      }
    }
  }

  /** Only string subjects are counted, each under its normalised key; and
      decade 0 or a NaN year is never counted. */
  lemma {:induction false} SubjectKeysNormalized(ws: seq<WorkDetail>)
    ensures forall k :: k in SubjectKeys(ws) ==> IsNormalized(k)
  {
    if ws != [] {
      SubjectKeysNormalized(ws[..|ws| - 1]);
      SubjectNamesNormalized(ws[|ws| - 1].subjects);
    }
  }

  lemma {:induction false} SubjectNamesNormalized(subjects: seq<Js>)
    ensures forall k :: k in SubjectNames(subjects) ==> IsNormalized(k)
  {
    if subjects != [] {
      SubjectNamesNormalized(subjects[..|subjects| - 1]);
      var last := subjects[|subjects| - 1];
      if last.Str? && last.s != "" {
        NormalizeSubjectShape(last.s);
      }
    }
  }

  lemma {:induction false} DecadeKeysNonZero(ws: seq<WorkDetail>)
    ensures forall d :: d in DecadeKeys(ws) ==> d != 0 && d % 10 == 0
  {
    if ws != [] {
      DecadeKeysNonZero(ws[..|ws| - 1]);
      var w := ws[|ws| - 1];
      if Truthy(w.first_publish_date) && ExtractDecade(w.first_publish_date).Some? {
        ExtractDecadeSpec(w.first_publish_date);
      }
    }
  }

  /** The kept subjects are normalised keys; the kept decades are non-zero
      multiples of ten. */
  lemma ProfileKeys(details: seq<Option<WorkDetail>>)
    ensures forall e :: e in ProfileOf(details).topSubjects ==> IsNormalized(e.0)
    ensures forall e :: e in ProfileOf(details).topDecades ==> e.0 != 0 && e.0 % 10 == 0
  {
    var ws := Fetched(details);
    var st := TallyOf(SubjectKeys(ws));
    var dt := TallyOf(DecadeKeys(ws));
    TallyOfSpec(SubjectKeys(ws));
    TallyOfSpec(DecadeKeys(ws));
    SubjectKeysNormalized(ws);
    DecadeKeysNonZero(ws);
    TopEntriesSpec(st, SubjectCap);
    TopEntriesSpec(dt, DecadeCap);
    forall e | e in ProfileOf(details).topSubjects ensures IsNormalized(e.0) {
      EntryCount(st, e);
      FirstAppearancesIn(SubjectKeys(ws), e.0);
    }
    forall e | e in ProfileOf(details).topDecades ensures e.0 != 0 && e.0 % 10 == 0 {
      EntryCount(dt, e);
      FirstAppearancesIn(DecadeKeys(ws), e.0);
    }
  }
}

/** calculateBookScore: how well a candidate book matches a preference
    profile. Each of the book's authors found among the top authors adds
    0.3 times that author's count, each of its subjects whose normalised form
    is among the top subjects adds 0.2 times its count, and a publication
    decade among the top decades adds 0.1 times its count. The recommendation
    page and the engine define the same function. */
module Scoring {
  import opened JsValues
  import opened Frequency
  import opened Subjects
  import opened Preferences
  import opened RecFormat

  const AuthorWeight: real := 0.3
  const SubjectWeight: real := 0.2
  const DecadeWeight: real := 0.1

  /** `entries.find(([k]) => k === x)`, reduced to the count of the first
      entry whose key is `x` (None when `find` gives undefined). */
  function FindCount<K(==)>(t: seq<(K, nat)>, x: K): (r: Option<nat>)
    ensures r.None? <==> forall e :: e in t ==> e.0 != x
    ensures r.Some? ==> (x, r.value) in t
  {
    if t == [] then None
    else if t[0].0 == x then Some(t[0].1)
    else FindCount(t[1..], x)
  }

  /** The author lookup. `===` compares strings, numbers, booleans, null and
      undefined by value; an array or object author is a separate object
      from every key of the profile, so it is never found. */
  function FindAuthor(t: seq<(Js, nat)>, author: Js): Option<nat> {
    if author.Arr? || author.Obj? then None else FindCount(t, author)
  }

  /** What a lookup adds to the score: the found count times the weight. */
  function Points(found: Option<nat>, weight: real): real {
    if found.Some? then found.value as real * weight else 0.0
  }

  /** The author part of the score. */
  function AuthorPoints(names: seq<Js>, top: seq<(Js, nat)>): real {
    if names == [] then 0.0
    else AuthorPoints(names[..|names| - 1], top) + Points(FindAuthor(top, names[|names| - 1]), AuthorWeight)
  }

  /** Every subject is a string. Otherwise normalizeSubject throws on the
      first one that is not, which has no `toLowerCase`. */
  predicate AllStrings(subjects: seq<Js>) {
    forall j :: 0 <= j < |subjects| ==> subjects[j].Str?
  }

  /** What one subject adds. */
  function SubjectPoint(subject: Js, top: seq<(string, nat)>): real {
    if subject.Str? then Points(FindCount(top, NormalizeSubject(subject.s)), SubjectWeight) else 0.0
  }

  /** The subject part of the score, for subjects that are all strings. */
  function SubjectPoints(subjects: seq<Js>, top: seq<(string, nat)>): real {
    if subjects == [] then 0.0
    else SubjectPoints(subjects[..|subjects| - 1], top) + SubjectPoint(subjects[|subjects| - 1], top)
  }

  /** The decade part: only for a truthy date; a NaN year (null decade)
      equals no key. */
  function DecadePoints(date: Js, top: seq<(int, nat)>): real {
    if Truthy(date) then
      match ExtractDecade(date)
      case Some(d) => Points(FindCount(top, d), DecadeWeight)
      case None => 0.0
    else 0.0
  }

  /** The score calculateBookScore returns, or None when it throws: a truthy
      `subjects` that is not an array has no `forEach`, and a non-string
      subject has no `toLowerCase`. `authorNames` is always an array. */
  function BookScore(book: RecBook, prefs: Profile): Option<real> {
    var a := AuthorPoints(book.authorNames, prefs.topAuthors);
    var d := DecadePoints(book.first_publish_date, prefs.topDecades);
    if !Truthy(book.subjects) then Some(a + d)
    else if !book.subjects.Arr? || !AllStrings(book.subjects.elems) then None
    else Some(a + SubjectPoints(book.subjects.elems, prefs.topSubjects) + d)
  }

  /** The `forEach` over the authors, adding to `score`. */
  method AddAuthorPoints(score: real, names: seq<Js>, top: seq<(Js, nat)>) returns (o: real)
    ensures o == score + AuthorPoints(names, top)
  {
    o := score;
    for i := 0 to |names|
      invariant o == score + AuthorPoints(names[..i], top)
    {
      assert names[..i + 1][..i] == names[..i];
      var found := FindAuthor(top, names[i]);
      if found.Some? {
        o := o + found.value as real * AuthorWeight;
      }
    }
    assert names[..|names|] == names;
  }

  /** One string subject more: the prefix stays all strings and its points
      grow by that subject's. */
  lemma SubjectPointsStep(subjects: seq<Js>, top: seq<(string, nat)>, j: nat, found: Option<nat>)
    requires j < |subjects| && subjects[j].Str? && AllStrings(subjects[..j])
    requires found == FindCount(top, NormalizeSubject(subjects[j].s))
    ensures AllStrings(subjects[..j + 1])
    ensures SubjectPoints(subjects[..j + 1], top) == SubjectPoints(subjects[..j], top) + Points(found, SubjectWeight)
  {
    var done := subjects[..j + 1];
    assert done[..j] == subjects[..j];
    forall k | 0 <= k < |done| ensures done[k].Str? {
      if k < j {
        assert done[k] == subjects[..j][k];
      }
    }
  }

  /** The `forEach` over the subjects, adding to `score`; None when it meets
      a subject that is not a string. */
  method AddSubjectPoints(score: real, subjects: seq<Js>, top: seq<(string, nat)>) returns (o: Option<real>)
    ensures o.Some? <==> AllStrings(subjects)
    ensures o.Some? ==> o.value == score + SubjectPoints(subjects, top)
  {
    var sum := score;
    for j := 0 to |subjects|
      invariant AllStrings(subjects[..j])
      invariant sum == score + SubjectPoints(subjects[..j], top)
    {
      if !subjects[j].Str? {
        assert !AllStrings(subjects);
        return None;
      }
      var found := FindCount(top, NormalizeSubject(subjects[j].s));
      SubjectPointsStep(subjects, top, j, found);
      if found.Some? {
        sum := sum + found.value as real * SubjectWeight;
      }
    }
    assert subjects[..|subjects|] == subjects;
    return Some(sum);
  }

  /** calculateBookScore: `score` accumulates over the authors, then the
      subjects, then the decade. */
  method CalculateBookScore(book: RecBook, prefs: Profile) returns (r: Option<real>)
    ensures r == BookScore(book, prefs)
  {
    ghost var a := AuthorPoints(book.authorNames, prefs.topAuthors);
    ghost var subjectPart := 0.0;
    var score := AddAuthorPoints(0.0, book.authorNames, prefs.topAuthors);
    if Truthy(book.subjects) {
      if !book.subjects.Arr? {
        return None;
      }
      var added := AddSubjectPoints(score, book.subjects.elems, prefs.topSubjects);
      if added.None? {
        assert !AllStrings(book.subjects.elems);
        return None;
      }
      score := added.value;
      subjectPart := SubjectPoints(book.subjects.elems, prefs.topSubjects);
    }
    BookScoreParts(book, prefs);
    assert score == a + subjectPart;
    score := AddDecadePoints(score, book.first_publish_date, prefs.topDecades);
    assert BookScore(book, prefs).Some? && BookScore(book, prefs).value == score;
    return Some(score);
  }

  /** The three parts of a score that does not throw. */
  lemma {:induction false} BookScoreParts(book: RecBook, prefs: Profile)
    ensures !Truthy(book.subjects) ==>
              && BookScore(book, prefs).Some?
              && BookScore(book, prefs).value == AuthorPoints(book.authorNames, prefs.topAuthors) + 0.0
                                                 + DecadePoints(book.first_publish_date, prefs.topDecades)
    ensures Truthy(book.subjects) && book.subjects.Arr? && AllStrings(book.subjects.elems) ==>
              && BookScore(book, prefs).Some?
              && BookScore(book, prefs).value == AuthorPoints(book.authorNames, prefs.topAuthors)
                                                 + SubjectPoints(book.subjects.elems, prefs.topSubjects)
                                                 + DecadePoints(book.first_publish_date, prefs.topDecades)
  {
  }

  /** The decade step of calculateBookScore, adding to `score`. */
  method AddDecadePoints(score: real, date: Js, top: seq<(int, nat)>) returns (o: real)
    ensures o == score + DecadePoints(date, top)
  {
    o := score;
    if Truthy(date) {
      var decade := ExtractDecade(date);
      if decade.Some? {
        var found := FindCount(top, decade.value);
        if found.Some? {
          o := o + found.value as real * DecadeWeight;
        }
      }
    }
  }

  /** calculateBookScore throws exactly when `subjects` is truthy and is not
      an array of strings. */
  lemma BookScoreThrows(book: RecBook, prefs: Profile)
    ensures BookScore(book, prefs).None? <==>
      Truthy(book.subjects) && (!book.subjects.Arr? ||
        exists j :: 0 <= j < |book.subjects.elems| && !book.subjects.elems[j].Str?)
  {
  }

  lemma {:induction false} AuthorPointsNonNegative(names: seq<Js>, top: seq<(Js, nat)>)
    ensures AuthorPoints(names, top) >= 0.0
  {
    if names != [] {
      AuthorPointsNonNegative(names[..|names| - 1], top);
    }
  }

  lemma {:induction false} SubjectPointsNonNegative(subjects: seq<Js>, top: seq<(string, nat)>)
    ensures SubjectPoints(subjects, top) >= 0.0
  {
    if subjects != [] {
      SubjectPointsNonNegative(subjects[..|subjects| - 1], top);
    }
  }

  /** Every score is non-negative. */
  lemma BookScoreNonNegative(book: RecBook, prefs: Profile)
    ensures BookScore(book, prefs).Some? ==> BookScore(book, prefs).value >= 0.0
  {
    AuthorPointsNonNegative(book.authorNames, prefs.topAuthors);
    if book.subjects.Arr? {
      SubjectPointsNonNegative(book.subjects.elems, prefs.topSubjects);
    }
  }

  /** The author part is a sum over the authors: splitting the list splits
      the points. */
  lemma {:induction false} AuthorPointsAppend(a: seq<Js>, b: seq<Js>, top: seq<(Js, nat)>)
    ensures AuthorPoints(a + b, top) == AuthorPoints(a, top) + AuthorPoints(b, top)
  {
    if b != [] {
      var pre := b[..|b| - 1];
      AuthorPointsAppend(a, pre, top);
      assert (a + b)[..|a + b| - 1] == a + pre;
      assert (a + b)[|a + b| - 1] == b[|b| - 1];
    } else {
      assert a + b == a;
    }
  }

  /** One author adds 0.3 times its count when it is a key of the top
      authors, and nothing otherwise. */
  lemma OneAuthorPoints(author: Js, top: seq<(Js, nat)>)
    ensures !author.Arr? && !author.Obj? && DistinctKeys(top) ==>
      forall c :: (author, c) in top ==> AuthorPoints([author], top) == c as real * AuthorWeight
    ensures (forall e :: e in top ==> e.0 != author) ==> AuthorPoints([author], top) == 0.0
  {
    assert [author][..0] == [];
    if !author.Arr? && !author.Obj? && DistinctKeys(top) {
      forall c | (author, c) in top ensures AuthorPoints([author], top) == c as real * AuthorWeight {
        DistinctFind(top, author, c);
      }
    }
  }

  /** With distinct keys, as in every map of a profile, `find` gives the
      count of the one entry for the key. */
  lemma DistinctFind<K>(t: seq<(K, nat)>, x: K, c: nat)
    requires DistinctKeys(t) && (x, c) in t
    ensures FindCount(t, x) == Some(c)
  {
    var i :| 0 <= i < |t| && t[i] == (x, c);
    FirstFound(t, x, i);
  }

  lemma {:induction false} FirstFound<K>(t: seq<(K, nat)>, x: K, i: nat)
    requires DistinctKeys(t) && i < |t| && t[i].0 == x
    ensures FindCount(t, x) == Some(t[i].1)
  {
    if i > 0 {
      assert t[0].0 != x;
      assert DistinctKeys(t[1..]) by {
        forall p, q | 0 <= p < q < |t[1..]| ensures t[1..][p].0 != t[1..][q].0 {
          assert t[1..][p] == t[p + 1] && t[1..][q] == t[q + 1];
        }
      }
      FirstFound(t[1..], x, i - 1);
    }
  }
}

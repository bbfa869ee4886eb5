/** The recommendation cache. `window._recEngine` holds the last
    personalised recommendations, the time they were stored and the
    preference profile they came from. generateRecommendations answers from
    it while it is younger than its time-to-live (2 minutes on the
    recommendation page and in the update wrapper). The engine script keeps
    the same three values apart, with a 1-hour lifetime: the profile and the
    recommendations in the `let` bindings `userPreferences` and
    `cachedRecommendations` that recommendations.js declares, and the time
    stamp in `lastUpdate`, a global declared nowhere that the engine's first
    store creates (it is read only after `cachedRecommendations` is truthy,
    so the read never fails). The favourite-change hooks clear the cache. Times are milliseconds given as
    parameters in place of `Date.now()`. */
module RecCache {
  import opened JsValues
  import opened Preferences

  /** CACHE_TTL of the recommendation page, also used by the update wrapper. */
  const CacheTtl := 120000
  /** The engine's lifetime: one hour. */
  const EngineCacheTtl := 3600000

  /** `cached && stamp && now - stamp < ttl`: an array is always truthy, a
      time stamp is truthy unless it is 0. */
  predicate IsHit<R>(cached: Option<seq<R>>, stamp: Option<int>, now: int, ttl: int) {
    cached.Some? && stamp.Some? && stamp.value != 0 && now - stamp.value < ttl
  }

  /** How the work behind a cache miss ended: no favourites (the general
      list is returned); an exception before the profile was stored (the
      general list, from the catch); an exception after it was stored, in
      findRecommendedBooks' `favorites.map` outside its own try; or
      personalised recommendations, finished at time `finishedAt`. */
  datatype Outcome<R> =
    | NoFavorites(general: seq<R>)
    | Failed(general: seq<R>)
    | FailedAfterAnalysis(prefs: Profile, general: seq<R>)
    | Personalised(prefs: Profile, recs: seq<R>, finishedAt: int)

  /** What a cache miss answers: the general list, or the personalised
      recommendations. */
  function Answer<R>(outcome: Outcome<R>): (r: seq<R>)
    ensures outcome.Personalised? ==> r == outcome.recs
    ensures !outcome.Personalised? ==> r == outcome.general
  {
    match outcome
    case NoFavorites(general) => general
    case Failed(general) => general
    case FailedAfterAnalysis(_, general) => general
    case Personalised(_, recs, _) => recs
  }

  /** The profile after a cache miss: the analysed one once the analysis
      finished, else the one held before. */
  function StoredProfile<R>(outcome: Outcome<R>, before: Option<Profile>): (p: Option<Profile>)
    ensures (outcome.FailedAfterAnalysis? || outcome.Personalised?) ==> p == Some(outcome.prefs)
    ensures (outcome.NoFavorites? || outcome.Failed?) ==> p == before
  {
    match outcome
    case FailedAfterAnalysis(prefs, _) => Some(prefs)
    case Personalised(prefs, _, _) => Some(prefs)
    case _ => before
  }

  /** The cache fields of `_recEngine` (or the engine script's
      `cachedRecommendations`, `lastUpdate` and `userPreferences`). */
  class RecEngine<R> {
    var cachedRecommendations: Option<seq<R>>
    var lastUpdateTimestamp: Option<int>
    var userPreferences: Option<Profile>

    /** `{ cachedRecommendations: null, lastUpdateTimestamp: null, userPreferences: null }` */
    constructor ()
      ensures cachedRecommendations.None? && lastUpdateTimestamp.None? && userPreferences.None?
    {
      cachedRecommendations := None;
      lastUpdateTimestamp := None;
      userPreferences := None;
    }

    predicate Hit(now: int, ttl: int)
      reads this
    {
      IsHit(cachedRecommendations, lastUpdateTimestamp, now, ttl)
    }

    /** generateRecommendations (the page's with `ttl` = CacheTtl, the
        engine's with EngineCacheTtl). A hit returns the first `limit`
        cached recommendations and changes nothing. On a miss only the
        personalised path writes the cache and its time stamp; the profile
        is stored as soon as it is computed. */
    method Generate(limit: int, now: int, ttl: int, outcome: Outcome<R>) returns (r: seq<R>)
      modifies this
      ensures old(Hit(now, ttl)) ==>
        r == Slice(old(cachedRecommendations).value, limit) && unchanged(this)
      ensures !old(Hit(now, ttl)) ==> match outcome
        case NoFavorites(general) => r == general && unchanged(this)
        case Failed(general) => r == general && unchanged(this)
        case FailedAfterAnalysis(prefs, general) =>
          && r == general
          && userPreferences == Some(prefs)
          && cachedRecommendations == old(cachedRecommendations)
          && lastUpdateTimestamp == old(lastUpdateTimestamp)
        case Personalised(prefs, recs, finishedAt) =>
          && r == recs
          && userPreferences == Some(prefs)
          && cachedRecommendations == Some(recs)
          && lastUpdateTimestamp == Some(finishedAt)
    {
      if cachedRecommendations.Some? && lastUpdateTimestamp.Some? && lastUpdateTimestamp.value != 0
        && now - lastUpdateTimestamp.value < ttl
      {
        return Slice(cachedRecommendations.value, limit);
      }
      match outcome {
        case NoFavorites(general) =>
          return general;
        case Failed(general) =>
          return general;
        case FailedAfterAnalysis(prefs, general) =>
          userPreferences := Some(prefs);
          return general;
        case Personalised(prefs, recs, finishedAt) =>
          userPreferences := Some(prefs);
          cachedRecommendations := Some(recs);
          lastUpdateTimestamp := Some(finishedAt);
          return recs;
      }
    }
  }

  /** The part of `window` the scripts use: `_recEngine`, which may be
      absent. */
  class Window<R> {
    var recEngine: RecEngine?<R>

    constructor (engine: RecEngine?<R>)
      ensures recEngine == engine
    {
      recEngine := engine;
    }

    /** forceRefreshRecommendations of the recommendation page: all three
        fields are cleared, so the next call recomputes. */
    method ForceRefresh()
      modifies recEngine
      ensures recEngine != null ==>
        && recEngine.cachedRecommendations.None?
        && recEngine.lastUpdateTimestamp.None?
        && recEngine.userPreferences.None?
        && forall now, ttl :: !recEngine.Hit(now, ttl)
    {
      if recEngine != null {
        recEngine.cachedRecommendations := None;
        recEngine.lastUpdateTimestamp := None;
        recEngine.userPreferences := None;
      }
    }

    /** The cache clearing of forceRefreshRecommendations in the enhanced
        script and of triggerFavoritesChange in the update script: the
        recommendations and their time stamp are cleared, the profile is
        kept, and the next call is a miss. */
    method ClearCache()
      modifies recEngine
      ensures recEngine != null ==>
        && recEngine.cachedRecommendations.None?
        && recEngine.lastUpdateTimestamp.None?
        && recEngine.userPreferences == old(recEngine.userPreferences)
        && forall now, ttl :: !recEngine.Hit(now, ttl)
    {
      if recEngine != null {
        recEngine.cachedRecommendations := None;
        recEngine.lastUpdateTimestamp := None;
      }
    }

    /** The toggleFavorite override of the update script, after the original
        toggle has run (whatever it did): `_recEngine` is created if absent
        and all three fields are cleared. */
    method OnToggleFavorite()
      modifies this, recEngine
      ensures old(recEngine) != null ==> recEngine == old(recEngine)
      ensures old(recEngine) == null ==> fresh(recEngine)
      ensures recEngine != null
      ensures recEngine.cachedRecommendations.None? && recEngine.lastUpdateTimestamp.None?
      ensures recEngine.userPreferences.None?
    {
      if recEngine == null {
        recEngine := new RecEngine();
      }
      recEngine.cachedRecommendations := None;
      recEngine.lastUpdateTimestamp := None;
      recEngine.userPreferences := None;
    }

    /** generateRecommendations of the recommendation page, which reads
        `window._recEngine`. Without it, the first read throws inside the
        function's own try and the catch answers with the general list:
        that run is the Failed outcome. Every exception is caught there, so
        the function always returns. */
    method PageGenerate(limit: int, now: int, outcome: Outcome<R>) returns (r: seq<R>)
      requires recEngine == null ==> outcome.Failed?
      modifies recEngine
      ensures recEngine == old(recEngine)
      ensures recEngine == null ==> r == outcome.general
      ensures recEngine != null && old(recEngine.Hit(now, CacheTtl)) ==>
        r == Slice(old(recEngine.cachedRecommendations).value, limit) && unchanged(recEngine)
      ensures recEngine != null && !old(recEngine.Hit(now, CacheTtl)) ==>
        && r == Answer(outcome)
        && recEngine.userPreferences == StoredProfile(outcome, old(recEngine.userPreferences))
        && (outcome.Personalised? ==>
              && recEngine.cachedRecommendations == Some(r)
              && recEngine.lastUpdateTimestamp == Some(outcome.finishedAt))
        && (!outcome.Personalised? ==>
              && recEngine.cachedRecommendations == old(recEngine.cachedRecommendations)
              && recEngine.lastUpdateTimestamp == old(recEngine.lastUpdateTimestamp))
    {
      if recEngine == null {
        return outcome.general;
      }
      r := recEngine.Generate(limit, now, CacheTtl, outcome);
    }

    /** The 2-minute generateRecommendations wrapper of the update script,
        installed over the page's function. A hit returns the first `limit`
        cached recommendations without calling the original. On a miss the
        original runs (its own cache check misses too: same fields, same
        lifetime) and whatever it returns, the general list included, is
        stored with the wrapper's time stamp `storedAt`, on top of what the
        original itself wrote; it is then served for two minutes. The
        wrapper's catch, which calls the original a second time, is never
        reached, since the original never throws. */
    method WrappedGenerate(limit: int, now: int, outcome: Outcome<R>, storedAt: int) returns (r: seq<R>)
      requires recEngine == null ==> outcome.Failed?
      modifies recEngine
      ensures recEngine == old(recEngine)
      ensures recEngine == null ==> r == outcome.general
      ensures recEngine != null && old(recEngine.Hit(now, CacheTtl)) ==>
        r == Slice(old(recEngine.cachedRecommendations).value, limit) && unchanged(recEngine)
      ensures recEngine != null && !old(recEngine.Hit(now, CacheTtl)) ==>
        && r == Answer(outcome)
        && recEngine.cachedRecommendations == Some(r)
        && recEngine.lastUpdateTimestamp == Some(storedAt)
        && recEngine.userPreferences == StoredProfile(outcome, old(recEngine.userPreferences))
        && (storedAt != 0 ==> forall t :: t - storedAt < CacheTtl ==> recEngine.Hit(t, CacheTtl))
    {
      var engine := recEngine;
      if engine != null && engine.cachedRecommendations.Some? && engine.lastUpdateTimestamp.Some?
        && engine.lastUpdateTimestamp.value != 0 && now - engine.lastUpdateTimestamp.value < CacheTtl
      {
        return Slice(engine.cachedRecommendations.value, limit);
      }
      r := PageGenerate(limit, now, outcome);
      if engine != null {
        engine.cachedRecommendations := Some(r);
        engine.lastUpdateTimestamp := Some(storedAt);
      }
    }
  }
}

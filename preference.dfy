/**
 * The priority chain shared by the language and theme resolvers: a value
 * stored for the user outranks the cookie, which outranks the fallback, and
 * the resolved value is persisted when the user has none stored.
 */
module Preference {
  import opened Wrappers

  /** The resolved value, and the value the resolver writes to the user's record, if any. */
  datatype Resolution<T> = Resolution(value: T, write: Option<T>)

  /** The first present value among `sources`, or `fallback` when all are absent. */
  function FirstPresent<T>(sources: seq<Option<T>>, fallback: T): (r: T)
    ensures (forall i :: 0 <= i < |sources| ==> sources[i].None?) ==> r == fallback
    ensures forall i :: 0 <= i < |sources| && sources[i].Some? && (forall j :: 0 <= j < i ==> sources[j].None?)
                        ==> r == sources[i].value
  {
    if sources == [] then fallback
    else if sources[0].Some? then sources[0].value
    else FirstPresent(sources[1..], fallback)
  }

  /**
   * The chain, stated declaratively: an identified user's sources are the
   * stored value and then the cookie, an anonymous request's the cookie only,
   * and the fallback closes the list. The resolved value is written back
   * exactly when the user is identified and has nothing (valid) stored.
   */
  function Resolve<T>(identified: bool, stored: Option<T>, cookie: Option<T>, fallback: T): (r: Resolution<T>)
    // Priority 1: a stored value, for an identified user.
    ensures identified && stored.Some? ==> r.value == stored.value
    // Priority 2 and 3: otherwise the cookie, else the fallback; the stored value of an anonymous request is never read.
    ensures !(identified && stored.Some?) ==> r.value == cookie.GetOr(fallback)
    // The write-back happens exactly for an identified user with nothing stored, and writes the returned value.
    ensures r.write.Some? <==> identified && stored.None?
    ensures r.write.Some? ==> r.write.value == r.value
  {
    var sources := if identified then [stored, cookie] else [cookie];
    var value := FirstPresent(sources, fallback);
    assert identified && stored.None? ==> value == FirstPresent(sources[1..], fallback) && sources[1..] == [cookie];
    Resolution(value, if identified && stored.None? then Some(value) else None)
  }

  /** Branch 1: a stored value wins over any cookie and fallback, and nothing is written. */
  lemma StoredValueWins<T>(v: T, cookie: Option<T>, fallback: T)
    ensures Resolve(true, Some(v), cookie, fallback) == Resolution(v, None)
  {
  }

  /** Branch 2: with nothing stored, a cookie value is returned and persisted. */
  lemma CookieIsPersisted<T>(c: T, fallback: T)
    ensures Resolve(true, None, Some(c), fallback) == Resolution(c, Some(c))
  {
    var sources: seq<Option<T>> := [None, Some(c)];
    assert sources[1..] == [Some(c)];
    assert FirstPresent(sources, fallback) == FirstPresent([Some(c)], fallback) == c;
  }

  /** Branch 3: with neither, the fallback is returned and persisted. */
  lemma FallbackIsPersisted<T>(fallback: T)
    ensures Resolve(true, None, None, fallback) == Resolution(fallback, Some(fallback))
  {
  }

  /** Branches 4 and 5: an anonymous request never writes and returns the cookie or the fallback. */
  lemma AnonymousNeverWrites<T>(stored: Option<T>, cookie: Option<T>, fallback: T)
    ensures Resolve(false, stored, cookie, fallback) == Resolution(cookie.GetOr(fallback), None)
  {
  }

  /** Once the resolved value is stored, resolving again returns it and writes nothing, whatever the other sources. */
  lemma ResolveIsStable<T>(stored: Option<T>, cookie: Option<T>, fallback: T, cookie': Option<T>, fallback': T)
    ensures var r := Resolve(true, stored, cookie, fallback);
            Resolve(true, Some(r.value), cookie', fallback') == Resolution(r.value, None)
  {
  }
}

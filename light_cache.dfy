/**
 * The cache of each light's original intensity and original shadow flag, filled the first time the culling
 * engine touches a light so that it can scale from, and restore, what the scene author set.
 */
module LightCaching {
  import opened Scene

  /** `m` with `v` stored under `key` unless `key` already has an entry: a dictionary filled first-write-wins. */
  function Remember<V>(m: map<int, V>, key: int, v: V): (r: map<int, V>)
    ensures key in r && r[key] == (if key in m then m[key] else v)
    ensures r.Keys == m.Keys + {key}
    ensures forall k :: k in m ==> r[k] == m[k]
  {
    if key in m then m else m[key := v]
  }

  /** Remembering again changes nothing, whatever value is offered the second time. */
  lemma RememberIdempotent<V>(m: map<int, V>, key: int, v: V, w: V)
    ensures Remember(Remember(m, key, v), key, w) == Remember(m, key, v)
  {
  }

  /** `GetOriginalIntensity(l)` on the cache's dictionary: 0 for a dead light, the cached value, else the current one. */
  function OriginalIntensity(originals: map<int, real>, l: int, live: seq<bool>, intensity: seq<real>): (r: real)
    ensures !(0 <= l < |live| && live[l]) ==> r == 0.0
    ensures 0 <= l < |live| && live[l] && l in originals ==> r == originals[l]
    ensures 0 <= l < |live| && live[l] && l !in originals && l < |intensity| ==> r == intensity[l]
  {
    if !(0 <= l < |live| && live[l]) then 0.0
    else if l in originals then originals[l]
    else if l < |intensity| then intensity[l]
    else 0.0
  }

  /** `HadOriginalShadow(l)` on the cache's dictionary: false for a dead light, the cached flag, else "shadows are on now". */
  function OriginalShadow(hadShadows: map<int, bool>, l: int, live: seq<bool>, shadows: seq<Shadows>): (r: bool)
    ensures !(0 <= l < |live| && live[l]) ==> !r
    ensures 0 <= l < |live| && live[l] && l in hadShadows ==> r == hadShadows[l]
    ensures 0 <= l < |live| && live[l] && l !in hadShadows && l < |shadows| ==> r == (shadows[l] != NoShadows)
  {
    if !(0 <= l < |live| && live[l]) then false
    else if l in hadShadows then hadShadows[l]
    else l < |shadows| && shadows[l] != NoShadows
  }

  /** Once a light is cached, what the getters return no longer depends on its current intensity or shadows. */
  lemma CachedIgnoresCurrent(originals: map<int, real>, hadShadows: map<int, bool>, l: int, live: seq<bool>,
                             intensity1: seq<real>, intensity2: seq<real>, shadows1: seq<Shadows>, shadows2: seq<Shadows>)
    requires l in originals && l in hadShadows
    ensures OriginalIntensity(originals, l, live, intensity1) == OriginalIntensity(originals, l, live, intensity2)
    ensures OriginalShadow(hadShadows, l, live, shadows1) == OriginalShadow(hadShadows, l, live, shadows2)
  {
  }

  /** Caching a live light does not change what the getters return for it: they fall back to the same values. */
  lemma CachingKeepsGetters(originals: map<int, real>, hadShadows: map<int, bool>, l: int, live: seq<bool>,
                            intensity: seq<real>, shadows: seq<Shadows>)
    requires 0 <= l < |live| && live[l] && l < |intensity| && l < |shadows|
    ensures OriginalIntensity(Remember(originals, l, intensity[l]), l, live, intensity) ==
            OriginalIntensity(originals, l, live, intensity)
    ensures OriginalShadow(Remember(hadShadows, l, shadows[l] != NoShadows), l, live, shadows) ==
            OriginalShadow(hadShadows, l, live, shadows)
  {
  }

  /** `LightCache`: the two dictionaries, keyed by light id. */
  class LightCache {
    var originalIntensities: map<int, real>
    var hadShadows: map<int, bool>

    /** Both dictionaries are filled together, so they hold the same lights. */
    ghost predicate Valid()
      reads this
    {
      originalIntensities.Keys == hadShadows.Keys
    }

    constructor ()
      ensures Valid() && originalIntensities == map[] && hadShadows == map[]
    {
      originalIntensities := map[];
      hadShadows := map[];
    }

    /**
     * `EnsureCached(l)`: nothing for a dead light; otherwise each dictionary that lacks the light records its
     * current intensity, or whether it casts shadows now. Entries already there are never replaced.
     */
    method EnsureCached(l: int, lights: LightTable)
      requires Valid() && lights.Valid()
      modifies this
      ensures Valid()
      ensures !lights.IsLive(l) ==> originalIntensities == old(originalIntensities) && hadShadows == old(hadShadows)
      ensures lights.IsLive(l) ==>
                originalIntensities == Remember(old(originalIntensities), l, lights.intensity[l]) &&
                hadShadows == Remember(old(hadShadows), l, lights.shadows[l] != NoShadows)
    {
      if !lights.IsLive(l) {
        return;
      }
      if l !in originalIntensities {
        originalIntensities := originalIntensities[l := lights.intensity[l]];
      }
      if l !in hadShadows {
        hadShadows := hadShadows[l := lights.shadows[l] != NoShadows];
      }
    }
  }
}

/**
 * The state every translation loader carries (`AbstractTranslationLoader`
 * together with the version and modification state its subclasses use):
 * the locale, the flat key-to-text message map, whether the last load
 * succeeded, the version stamp and whether there are unsaved changes.
 */
module AbstractTranslationLoader {
  import opened LocaleParser
  import opened Sinks

  /**
   * The merge rule: every key of `source` that `target` lacks is added with
   * `source`'s text; keys `target` already has keep their text.
   */
  function MergeMissing(target: map<string, string>, source: map<string, string>): (r: map<string, string>)
    ensures r.Keys == target.Keys + source.Keys
    ensures forall k :: k in target ==> r[k] == target[k]
    ensures forall k :: k in source && k !in target ==> r[k] == source[k]
  {
    map k | k in target.Keys + source.Keys :: if k in target then target[k] else source[k]
  }

  /** Merging the same source twice adds nothing the second time. */
  lemma MergeMissingIdempotent(target: map<string, string>, source: map<string, string>)
    ensures MergeMissing(MergeMissing(target, source), source) == MergeMissing(target, source)
  {
    var once := MergeMissing(target, source);
    var twice := MergeMissing(once, source);
    assert forall k :: k in twice <==> k in once;
    assert forall k :: k in twice ==> twice[k] == once[k];
  }

  /** A merge leaves the target as it was exactly when the source has no key the target lacks. */
  lemma MergeMissingUnchangedIff(target: map<string, string>, source: map<string, string>)
    ensures MergeMissing(target, source) == target <==> source.Keys <= target.Keys
  {
    var r := MergeMissing(target, source);
    if source.Keys <= target.Keys {
      assert r.Keys == target.Keys;
      assert forall k :: k in r ==> r[k] == target[k];
    } else {
      var k :| k in source.Keys && k !in target.Keys;
      assert k in r.Keys;
    }
  }

  class Bundle {
    const locale: Locale
    var messageMap: map<string, string>
    var loaded: bool
    var version: string
    var modified: bool

    /**
     * A new bundle holds no messages, is not loaded, has no version and is not
     * modified. The locale never changes afterwards; the null checks of the
     * Java constructor are the non-null types here.
     */
    constructor(locale: Locale)
      ensures this.locale == locale
      ensures messageMap == map[] && !loaded && version == "" && !modified
    {
      this.locale := locale;
      messageMap := map[];
      loaded := false;
      version := "";
      modified := false;
    }

    /** `setLoaded`. */
    method SetLoaded(isLoaded: bool)
      modifies this`loaded
      ensures loaded == isLoaded
    {
      loaded := isLoaded;
    }

    /** `setLoadedVersion`: the version read by a load, which is not a modification. */
    method SetLoadedVersion(v: string)
      modifies this`version
      ensures version == v
    {
      version := v;
    }

    /** `getMessageMap`: a read-only view whose contents are the message map. */
    method GetMessageMap() returns (messages: map<string, string>)
      ensures messages == messageMap
    {
      messages := messageMap;
    }

    /**
     * `register`: a bundle that is not loaded registers nothing and reports
     * false; a loaded one registers its whole message map under its locale
     * and reports true.
     */
    method Register(registry: Registry) returns (ok: bool)
      modifies registry
      ensures ok == loaded
      ensures registry.log == old(registry.log) + (if loaded then [Registration(locale, messageMap)] else [])
    {
      if !loaded {
        return false;
      }
      registry.log := registry.log + [Registration(locale, messageMap)];
      return true;
    }

    /**
     * `merge(other)`: fails (reports false, changes nothing) when `other` is not
     * loaded; otherwise adds each key of `other` this bundle lacks, with its
     * text, and becomes modified when it added any. `other` is only read.
     */
    method Merge(other: Bundle) returns (ok: bool)
      modifies this`messageMap, this`modified
      ensures ok == other.loaded
      ensures ok ==> messageMap == MergeMissing(old(messageMap), old(other.messageMap))
      ensures ok ==> modified == (old(modified) || !(old(other.messageMap).Keys <= old(messageMap).Keys))
      ensures !ok ==> messageMap == old(messageMap) && modified == old(modified)
      ensures other != this ==> unchanged(other)
    {
      if !other.loaded {
        return false;
      }
      var source := other.messageMap;
      ghost var target := messageMap;
      var remaining := source.Keys;
      while remaining != {}
        invariant remaining <= source.Keys
        invariant messageMap == MergeMissing(target, map k | k in source && k !in remaining :: source[k])
        invariant modified == (old(modified) || exists k :: k in source && k !in remaining && k !in target)
        decreases remaining
      {
        var key :| key in remaining;
        if key !in messageMap {
          messageMap := messageMap[key := source[key]];
          modified := true;
        }
        remaining := remaining - {key};
      }
      assert (map k | k in source && k !in remaining :: source[k]) == source;
      return true;
    }

    /** `setVersion`: a different version replaces the current one and marks the bundle modified; the same one changes nothing. */
    method SetVersion(v: string)
      modifies this`version, this`modified
      ensures version == v
      ensures modified == (old(modified) || v != old(version))
    {
      if v != version {
        version := v;
        modified := true;
      }
    }
  }
}

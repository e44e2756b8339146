/**
 * `ConfigurationLoader`: a bundle backed by a configuration object held in
 * memory. Its import differs from the file loader's in two ways: the
 * top-level `v` key is skipped (it is the version, read separately), and a
 * list is stored through `toString()` rather than joined.
 */
module ConfigurationLoader {
  import opened LocaleParser
  import opened Configurations
  import opened AbstractTranslationLoader

  /**
   * The message map after flattening the first `n` entries of `section` below
   * `prefix` into `m`: the entry `v` at the top level (empty prefix) is
   * skipped, a section recurses with `prefix + key + "."`, a null value adds
   * nothing and any other value is stored as its string.
   */
  function Flatten(m: map<string, string>, section: Node, n: nat, prefix: string): map<string, string>
    requires section.Section? && n <= |section.entries|
    decreases section, n
  {
    if n == 0 then m
    else
      var e := section.entries[n - 1];
      var before := Flatten(m, section, n - 1, prefix);
      if e.key == VersionKey && prefix == "" then before
      else
        match e.node
        case Section(_) => Flatten(before, e.node, |e.node.entries|, prefix + e.key + [PathSeparator])
        case Items(items) => before[prefix + e.key := ListText(items)]
        case Value(x) => before[prefix + e.key := Stringify(x)]
        case Null => before
  }

  /**
   * Every key flattening adds below a prefix that is empty or ends in `.`
   * starts with that prefix and is not the version key.
   */
  lemma {:induction false} FlattenAddsNoVersionKey(m: map<string, string>, section: Node, n: nat, prefix: string)
    requires section.Section? && n <= |section.entries|
    requires prefix == [] || prefix[|prefix| - 1] == PathSeparator
    ensures forall k :: k in Flatten(m, section, n, prefix) && k !in m ==> prefix <= k && k != VersionKey
    decreases section, n
  {
    if n > 0 {
      var e := section.entries[n - 1];
      var before := Flatten(m, section, n - 1, prefix);
      FlattenAddsNoVersionKey(m, section, n - 1, prefix);
      if !(e.key == VersionKey && prefix == "") {
        var sub := prefix + e.key + [PathSeparator];
        if e.node.Section? {
          FlattenAddsNoVersionKey(before, e.node, |e.node.entries|, sub);
          assert prefix <= sub;
        } else if prefix != [] {
          assert (prefix + e.key)[|prefix| - 1] == PathSeparator;
        }
      }
    }
  }

  /** The message map a load builds from a source: the whole tree flattened into an empty map. */
  function Messages(source: Config): map<string, string>
  {
    Flatten(map[], source, |source.entries|, "")
  }

  /** The flattened map never holds the version key, whatever the source holds at the top level. */
  lemma MessagesNeverHoldVersionKey(source: Config)
    ensures VersionKey !in Messages(source)
  {
    FlattenAddsNoVersionKey(map[], source, |source.entries|, "");
  }

  class ConfigurationLoader {
    const bundle: Bundle
    var source: Config

    /** `create(locale, source)`: a new, not loaded bundle over the given source. */
    constructor(locale: Locale, source: Config)
      ensures fresh(bundle) && this.source == source
      ensures bundle.locale == locale && bundle.messageMap == map[]
      ensures !bundle.loaded && bundle.version == "" && !bundle.modified
    {
      bundle := new Bundle(locale);
      this.source := source;
    }

    /**
     * `load`: marks the bundle not loaded and empties its map, flattens the
     * source, takes the version from the source's top-level `v`, and marks the
     * bundle loaded. The modified flag is not touched.
     */
    method Load()
      modifies bundle`loaded, bundle`messageMap, bundle`version
      ensures bundle.loaded
      ensures bundle.messageMap == Messages(source)
      ensures bundle.version == VersionOf(source)
    {
      bundle.SetLoaded(false);
      bundle.messageMap := map[];
      ImportMessages(source, "");
      bundle.SetLoadedVersion(VersionOf(source));
      bundle.SetLoaded(true);
    }

    /** `importMessagesFromConfiguration`: walks the keys of one section in order, recursing into sub-sections. */
    method ImportMessages(section: Config, prefix: string)
      modifies bundle`messageMap
      ensures bundle.messageMap == Flatten(old(bundle.messageMap), section, |section.entries|, prefix)
      decreases section
    {
      var i := 0;
      while i < |section.entries|
        invariant 0 <= i <= |section.entries|
        invariant bundle.messageMap == Flatten(old(bundle.messageMap), section, i, prefix)
      {
        var key := section.entries[i].key;
        var node := section.entries[i].node;
        if !(key == VersionKey && prefix == "") {
          var currentKey := prefix + key;
          match node {
            case Section(_) =>
              ImportMessages(node, prefix + key + [PathSeparator]);
            case Items(items) =>
              bundle.messageMap := bundle.messageMap[currentKey := ListText(items)];
            case Value(x) =>
              bundle.messageMap := bundle.messageMap[currentKey := Stringify(x)];
            case Null =>
          }
        }
        i := i + 1;
      }
    }

    /**
     * `save`: when the bundle is modified, writes every message and `v` =
     * version into the source and clears the flag; otherwise changes nothing,
     * so a second save right after the first is a no-op.
     */
    method Save()
      modifies this`source, bundle`modified
      ensures !old(bundle.modified) ==> source == old(source) && !bundle.modified
      ensures old(bundle.modified) ==> SavedInto(old(source), source, bundle.messageMap, bundle.version) && !bundle.modified
    {
      if bundle.modified {
        source := WriteBack(source, bundle.messageMap, bundle.version);
        bundle.modified := false;
      }
    }
  }
}

/**
 * `FileConfigurationLoader`: a bundle backed by a YAML or properties file.
 * Reading and parsing the file is the configuration library's business; its
 * outcome (the parsed tree, or an I/O failure) is an input of `Load`.
 */
module FileConfigurationLoader {
  import opened Wrappers
  import opened LocaleParser
  import opened Configurations
  import opened AbstractTranslationLoader

  /**
   * The message map after flattening the first `n` entries of `section` below
   * `prefix` into `m`, entry by entry: a section recurses with the prefix
   * `prefix + key + "."`, a list is stored as its joined elements, another
   * non-null value as its string, and a null value adds nothing. A later
   * entry with the same flattened key overwrites an earlier one.
   */
  function Flatten(m: map<string, string>, section: Node, n: nat, prefix: string): map<string, string>
    requires section.Section? && n <= |section.entries|
    decreases section, n
  {
    if n == 0 then m
    else
      var e := section.entries[n - 1];
      var before := Flatten(m, section, n - 1, prefix);
      match e.node
      case Section(_) => Flatten(before, e.node, |e.node.entries|, prefix + e.key + [PathSeparator])
      case Items(items) => before[prefix + e.key := JoinEscaped(items)]
      case Value(x) => before[prefix + e.key := Stringify(x)]
      case Null => before
  }

  /** The keys flattening adds are exactly the leaf paths: never a section's own key, never a null leaf. */
  lemma {:induction false} FlattenKeys(m: map<string, string>, section: Node, n: nat, prefix: string)
    requires section.Section? && n <= |section.entries|
    ensures Flatten(m, section, n, prefix).Keys == m.Keys + LeafKeys(section, n, prefix)
    decreases section, n
  {
    if n > 0 {
      var e := section.entries[n - 1];
      FlattenKeys(m, section, n - 1, prefix);
      if e.node.Section? {
        FlattenKeys(Flatten(m, section, n - 1, prefix), e.node, |e.node.entries|, prefix + e.key + [PathSeparator]);
      }
    }
  }

  /** The message map a load builds from a parsed file: the whole tree flattened into an empty map. */
  function Messages(config: Config): map<string, string>
  {
    Flatten(map[], config, |config.entries|, "")
  }

  class FileConfigurationLoader {
    const bundle: Bundle
    /** The configuration object's contents as last read or written. */
    var config: Config

    /** `create(locale, config)`: a new, not loaded bundle over a configuration that has not been read yet. */
    constructor(locale: Locale)
      ensures fresh(bundle)
      ensures bundle.locale == locale && bundle.messageMap == map[]
      ensures !bundle.loaded && bundle.version == "" && !bundle.modified
      ensures config == Section([])
    {
      bundle := new Bundle(locale);
      config := Section([]);
    }

    /**
     * `load`: first marks the bundle not loaded and empties its map, then reads
     * the file (`read`, with `None` for an I/O failure, which is reported by
     * returning false and leaves the bundle empty and not loaded), then
     * flattens what was read and marks the bundle loaded. The version and the
     * modified flag are not touched, and the top-level `v` key is flattened
     * like any other.
     */
    method Load(read: Option<Config>) returns (ok: bool)
      modifies this`config, bundle`loaded, bundle`messageMap
      ensures ok == read.Some?
      ensures ok ==> config == read.value && bundle.loaded && bundle.messageMap == Messages(read.value)
      ensures !ok ==> config == old(config) && !bundle.loaded && bundle.messageMap == map[]
    {
      bundle.SetLoaded(false);
      bundle.messageMap := map[];
      if read.None? {
        return false;
      }
      config := read.value;
      ImportMessages(config, "");
      bundle.SetLoaded(true);
      return true;
    }

    /** `importMessagesFromConfiguration`: walks the keys of one section in order, recursing into sub-sections. */
    method ImportMessages(section: Config, prefix: string)
      modifies bundle`messageMap
      ensures bundle.messageMap == Flatten(old(bundle.messageMap), section, |section.entries|, prefix)
      decreases section
    {
      var i := 0;
      while i < |section.entries|
        invariant 0 <= i <= |section.entries|
        invariant bundle.messageMap == Flatten(old(bundle.messageMap), section, i, prefix)
      {
        var key := section.entries[i].key;
        var node := section.entries[i].node;
        var currentKey := prefix + key;
        match node {
          case Section(_) =>
            ImportMessages(node, prefix + key + [PathSeparator]);
          case Items(items) =>
            bundle.messageMap := bundle.messageMap[currentKey := JoinEscaped(items)];
          case Value(x) =>
            bundle.messageMap := bundle.messageMap[currentKey := Stringify(x)];
          case Null =>
        }
        i := i + 1;
      }
    }

    /**
     * `save`: when the bundle is modified, writes every message and the version
     * into the configuration and clears the flag; otherwise does nothing, so a
     * second save right after the first is a no-op. Writing the file to disk is
     * left out.
     */
    method Save()
      modifies this`config, bundle`modified
      ensures !old(bundle.modified) ==> config == old(config) && !bundle.modified
      ensures old(bundle.modified) ==> SavedInto(old(config), config, bundle.messageMap, bundle.version) && !bundle.modified
    {
      if bundle.modified {
        config := WriteBack(config, bundle.messageMap, bundle.version);
        bundle.modified := false;
      }
    }
  }
}

/**
 * `TranslationDirectory`: loads one bundle per recognised file of a
 * directory, brings stale bundles up to date from a reference bundle, saves
 * them, and publishes them through a fresh registry.
 *
 * The file system is an input: whether the directory exists, whether creating
 * it or running the on-created callback fails, and the directory's entries
 * with the parsed contents of each file (or a read failure).
 */
module TranslationDirectory {
  import opened Wrappers
  import opened Paths
  import opened LocaleParser
  import opened ExtensionUtil
  import opened Configurations
  import opened Sinks
  import opened AbstractTranslationLoader
  import FileConfigurationLoader
  import ConfigurationLoader

  /**
   * What the message merger's `createLoader(locale)` gives: an I/O failure,
   * null, or a loader over a reference source that it has or has not loaded.
   */
  datatype Reference =
    | CreateFails
    | NoReference
    | Reference(source: Config, loaded: bool)

  /**
   * The directory's fixed configuration (what the builder collects): whether
   * an on-created callback is set, the expected version, and the merger.
   * The directory path and the registry supplier are always present.
   */
  datatype Settings = Settings(
    onDirectoryCreated: bool,
    version: Option<string>,
    messageMerger: Option<Locale -> Reference>)

  /** One directory entry; `contents` is `None` when reading or parsing it fails. */
  datatype FileEntry = FileEntry(path: Path, regular: bool, contents: Option<Config>)

  datatype Disk = Disk(isDirectory: bool, createFails: bool, callbackFails: bool, files: seq<FileEntry>)

  /** The exceptions that end a pass. */
  datatype PassError =
    | CreateDirectoryFailed
    | CallbackFailed
    | LoadFailed(locale: Locale)
    | MergerFailed(locale: Locale)

  /** What one `save` of a reconciled bundle wrote. */
  datatype Saved = Saved(locale: Locale, messages: map<string, string>, version: string)

  /** The extensions `loadFile` knows; any other is skipped. */
  predicate KnownExtension(extension: string)
  {
    extension == "yml" || extension == "yaml" || extension == "properties"
  }

  /** The locale of a file `loadFile` would load: its name parses and its extension is known. */
  function Recognise(path: Path): (r: Option<Locale>)
  {
    var locale := FileNameLocale(Some(path));
    if locale.None? || !KnownExtension(GetPathExtension(Some(path))) then None else locale
  }

  /** The staleness check: a merger is set, a non-empty version is set, and the bundle's version differs from it. */
  predicate Stale(settings: Settings, bundleVersion: string)
  {
    && settings.messageMerger.Some?
    && settings.version.Some?
    && settings.version.value != ""
    && bundleVersion != settings.version.value
  }

  /** The outcome of reconciling one loaded bundle: the pass ends, or the bundle is published (and maybe saved). */
  datatype Step = Abort(error: PassError) | Publish(messages: map<string, string>, saved: Option<Saved>)

  /**
   * `updateAndRegister` on values: a bundle that is not stale is published as
   * it is; a stale one asks the merger for a reference, ends the pass if that
   * fails, is published as it is when there is no loaded reference, and
   * otherwise gets the reference's missing keys and version and is saved
   * when that changed it (or it was modified already).
   */
  function Reconcile(settings: Settings, locale: Locale, messages: map<string, string>, version: string, modified: bool): (r: Step)
    ensures !Stale(settings, version) ==> r == Publish(messages, None)
    ensures r.Abort? <==> Stale(settings, version) && settings.messageMerger.value(locale).CreateFails?
    ensures r.Abort? ==> r.error == MergerFailed(locale)
    ensures r.Publish? ==> forall k :: k in messages ==> k in r.messages && r.messages[k] == messages[k]
    ensures r.Publish? && r.saved.Some? ==> r.saved.value.locale == locale && r.saved.value.messages == r.messages
  {
    if !Stale(settings, version) then Publish(messages, None)
    else
      match settings.messageMerger.value(locale)
      case CreateFails => Abort(MergerFailed(locale))
      case NoReference => Publish(messages, None)
      case Reference(source, loaded) =>
        if !loaded then Publish(messages, None)
        else
          var reference := ConfigurationLoader.Messages(source);
          var merged := MergeMissing(messages, reference);
          var referenceVersion := VersionOf(source);
          var nowModified := modified || !(reference.Keys <= messages.Keys) || referenceVersion != version;
          Publish(merged, if nowModified then Some(Saved(locale, merged, referenceVersion)) else None)
  }

  /**
   * The stale outcomes that do not end the pass. Without a loaded reference
   * (null, or one that did not load) the bundle is published unchanged and
   * not saved. With one it is published merged with the reference's
   * messages, and it is saved, under the reference's version, exactly when it
   * was modified already, the merge added a message, or the version changed.
   */
  lemma ReconcileStale(settings: Settings, locale: Locale, messages: map<string, string>, version: string, modified: bool)
    requires Stale(settings, version)
    ensures var reference := settings.messageMerger.value(locale);
            reference.NoReference? || (reference.Reference? && !reference.loaded) ==>
              Reconcile(settings, locale, messages, version, modified) == Publish(messages, None)
    ensures var reference := settings.messageMerger.value(locale);
            reference.Reference? && reference.loaded ==>
              var merged := MergeMissing(messages, ConfigurationLoader.Messages(reference.source));
              var r := Reconcile(settings, locale, messages, version, modified);
              && r.Publish? && r.messages == merged
              && (r.saved.Some? <==> modified || merged != messages || VersionOf(reference.source) != version)
              && (r.saved.Some? ==> r.saved.value == Saved(locale, merged, VersionOf(reference.source)))
  {
    var reference := settings.messageMerger.value(locale);
    if reference.Reference? && reference.loaded {
      MergeMissingUnchangedIff(messages, ConfigurationLoader.Messages(reference.source));
    }
  }

  /** What a pass has done so far: registrations in order, recorded locales, saves, and the error that ended it. */
  datatype PassState = PassState(log: seq<Registration>, locales: set<Locale>, saved: seq<Saved>, error: Option<PassError>)

  /**
   * One file of the loop of `load`: non-regular and unrecognised files are
   * skipped; a recognised file that cannot be read ends the pass; otherwise
   * its freshly loaded bundle (no version, not modified) is reconciled and
   * published. Nothing happens after an error.
   */
  function Visit(settings: Settings, before: PassState, f: FileEntry): (r: PassState)
    ensures before.error.Some? ==> r == before
    ensures r.error.None? ==> before.error.None?
    ensures r.error.None? ==>
              r.locales == before.locales + (if Counted(f) then {FileLocale(f).value} else {})
    ensures r.error.None? ==>
              |r.log| == |before.log| + (if Counted(f) then 1 else 0)
    ensures |r.log| <= |before.log| + 1
    ensures r.error.Some? ==> r.log == before.log && r.locales == before.locales && r.saved == before.saved
    ensures before.error.None? && !Counted(f) ==> r == before
  {
    if before.error.Some? || !Counted(f) then before
    else
      var locale := FileLocale(f).value;
      if f.contents.None? then before.(error := Some(LoadFailed(locale)))
      else
        match Reconcile(settings, locale, FileConfigurationLoader.Messages(f.contents.value), "", false)
        case Abort(e) => before.(error := Some(e))
        case Publish(messages, saved) =>
          PassState(
            before.log + [Registration(locale, messages)],
            before.locales + {locale},
            before.saved + (if saved.Some? then [saved.value] else []),
            None)
  }

  /**
   * A file that registers adds one registration, at the end of the log: its
   * locale, and its flattened messages as reconciled.
   */
  lemma VisitRegisters(settings: Settings, before: PassState, f: FileEntry)
    requires Counted(f) && Visit(settings, before, f).error.None?
    ensures f.contents.Some?
    ensures var locale := FileLocale(f).value;
            var step := Reconcile(settings, locale, FileConfigurationLoader.Messages(f.contents.value), "", false);
            Visit(settings, before, f).log == before.log + [Registration(locale, step.messages)]
  {
  }

  /** The file loop of `load` over a directory listing, in order. */
  function Pass(settings: Settings, files: seq<FileEntry>): PassState
    decreases |files|
  {
    if files == [] then PassState([], {}, [], None)
    else Visit(settings, Pass(settings, files[..|files| - 1]), files[|files| - 1])
  }

  /** Once a pass has failed, the remaining files change nothing. */
  lemma {:induction false} ErrorPersists(settings: Settings, files: seq<FileEntry>, n: nat)
    requires n <= |files|
    requires Pass(settings, files[..n]).error.Some?
    ensures Pass(settings, files) == Pass(settings, files[..n])
    decreases |files|
  {
    if n == |files| {
      assert files[..n] == files;
    } else {
      var init := files[..|files| - 1];
      assert init[..n] == files[..n];
      ErrorPersists(settings, init, n);
    }
  }

  /** A recognised regular file that cannot be read makes the whole pass fail. */
  lemma UnreadableFileAborts(settings: Settings, files: seq<FileEntry>, i: nat)
    requires i < |files|
    requires Counted(files[i]) && files[i].contents.None?
    ensures Pass(settings, files).error.Some?
  {
    var prefix := files[..i + 1];
    assert Pass(settings, prefix).error.Some? by {
      assert prefix[..|prefix| - 1] == files[..i] && prefix[|prefix| - 1] == files[i];
      UnreadableStep(settings, Pass(settings, files[..i]), files[i]);
    }
    ErrorPersists(settings, files, i + 1);
  }

  /** Visiting a recognised file that cannot be read fails the pass, if it has not failed already. */
  lemma UnreadableStep(settings: Settings, before: PassState, f: FileEntry)
    requires Counted(f) && f.contents.None?
    ensures Visit(settings, before, f).error.Some?
  {
  }

  /** The locale under which the loop loads a directory entry, if it loads it at all. */
  function FileLocale(f: FileEntry): Option<Locale>
  {
    if f.regular then Recognise(f.path) else None
  }

  /** A file the loop loads: a regular file whose name gives a locale and a known extension. */
  predicate Counted(f: FileEntry)
  {
    FileLocale(f).Some?
  }

  /** The locales some recogniser `g` finds among `files`. */
  ghost function Collect(files: seq<FileEntry>, g: FileEntry -> Option<Locale>): set<Locale>
  {
    set i | 0 <= i < |files| && g(files[i]).Some? :: g(files[i]).value
  }

  /** The locales of the recognised regular files. */
  ghost function RecognisedLocales(files: seq<FileEntry>): set<Locale>
  {
    Collect(files, FileLocale)
  }

  lemma CollectSnoc(files: seq<FileEntry>, g: FileEntry -> Option<Locale>)
    requires files != []
    ensures var f := files[|files| - 1];
            Collect(files, g) == Collect(files[..|files| - 1], g) + (if g(f).Some? then {g(f).value} else {})
  {
    var init := files[..|files| - 1];
    var f := files[|files| - 1];
    var extra: set<Locale> := if g(f).Some? then {g(f).value} else {};
    forall x | x in Collect(files, g)
      ensures x in Collect(init, g) + extra
    {
      var i :| 0 <= i < |files| && g(files[i]).Some? && g(files[i]).value == x;
      if i < |init| {
        assert init[i] == files[i];
      }
    }
    forall x | x in Collect(init, g) + extra
      ensures x in Collect(files, g)
    {
      if x in Collect(init, g) {
        var i :| 0 <= i < |init| && g(init[i]).Some? && g(init[i]).value == x;
        assert files[i] == init[i];
      }
    }
  }

  /** After a successful pass the recorded locales are exactly those of the recognised files. */
  lemma {:induction false} PassLocales(settings: Settings, files: seq<FileEntry>)
    requires Pass(settings, files).error.None?
    ensures Pass(settings, files).locales == RecognisedLocales(files)
    decreases |files|
  {
    if files != [] {
      PassLocales(settings, files[..|files| - 1]);
      CollectSnoc(files, FileLocale);
    }
  }

  /** The positions of `files` that `p` accepts. */
  ghost function Positions(files: seq<FileEntry>, p: FileEntry -> bool): set<nat>
  {
    set i: nat | i < |files| && p(files[i])
  }

  lemma PositionsSnoc(files: seq<FileEntry>, p: FileEntry -> bool)
    requires files != []
    ensures Positions(files, p) ==
              Positions(files[..|files| - 1], p) + (if p(files[|files| - 1]) then {|files| - 1} else {})
  {
    var init := files[..|files| - 1];
    assert forall i :: 0 <= i < |init| ==> init[i] == files[i];
  }

  /** The positions of the recognised regular files. */
  ghost function CountedPositions(files: seq<FileEntry>): set<nat>
  {
    Positions(files, Counted)
  }

  /** A pass never publishes more bundles than there are files, and a successful one publishes one per recognised file. */
  lemma {:induction false} PassLogLength(settings: Settings, files: seq<FileEntry>)
    ensures |Pass(settings, files).log| <= |files|
    ensures Pass(settings, files).error.None? ==> |Pass(settings, files).log| == |CountedPositions(files)|
    decreases |files|
  {
    if files != [] {
      var init := files[..|files| - 1];
      PassLogLength(settings, init);
      PositionsSnoc(files, Counted);
      if Counted(files[|files| - 1]) {
        assert |init| !in Positions(init, Counted);
      }
    }
  }

  /**
   * What a pass without a merger registers: for each recognised file that
   * can be read, in directory order, its locale and its flattened messages.
   */
  ghost function PlainRegistrations(files: seq<FileEntry>): seq<Registration>
    decreases |files|
  {
    if files == [] then []
    else
      var f := files[|files| - 1];
      PlainRegistrations(files[..|files| - 1])
      + (if Counted(f) && f.contents.Some?
         then [Registration(FileLocale(f).value, FileConfigurationLoader.Messages(f.contents.value))]
         else [])
  }

  /**
   * Without a merger nothing is reconciled: a successful pass registers each
   * recognised file's locale with exactly the messages flattened from it.
   */
  lemma {:induction false} PassLogWithoutMerger(settings: Settings, files: seq<FileEntry>)
    requires settings.messageMerger.None?
    ensures Pass(settings, files).error.None? ==> Pass(settings, files).log == PlainRegistrations(files)
    decreases |files|
  {
    if files != [] {
      var init := files[..|files| - 1];
      var f := files[|files| - 1];
      var before := Pass(settings, init);
      PassLogWithoutMerger(settings, init);
      assert Pass(settings, files) == Visit(settings, before, f);
      if Visit(settings, before, f).error.None? && Counted(f) {
        VisitRegisters(settings, before, f);
        assert !Stale(settings, "");
      }
    }
  }

  /**
   * A name made of a dot-free stem, a `.` and a dot-free extension is loaded
   * exactly when the extension is known, under the locale its stem parses to.
   */
  lemma RecogniseStemAndExtension(stem: string, extension: string)
    requires '.' !in stem && '.' !in extension
    ensures Recognise(Path(Some(stem + "." + extension))) ==
              if KnownExtension(extension) then Parse(Some(stem)) else None
  {
    BaseNameOfStem(stem, extension);
    ExtensionOfSplit(stem, extension);
  }

  lemma RecogniseEnglishYaml()
    ensures Recognise(Path(Some("en.yml"))) == Some(Locale("en", "", ""))
  {
    assert Parse(Some("en")) == Some(Locale("en", "", "")) by {
      assert Tag(Locale("en", "", "")) == "en";
      ParseTagRoundTrip(Locale("en", "", ""));
    }
    assert KnownExtension("yml");
    assert "en.yml" == "en" + "." + "yml";
    RecogniseStemAndExtension("en", "yml");
  }

  lemma RecogniseJapaneseProperties()
    ensures Recognise(Path(Some("ja.properties"))) == Some(Locale("ja", "", ""))
  {
    assert Parse(Some("ja")) == Some(Locale("ja", "", "")) by {
      assert Tag(Locale("ja", "", "")) == "ja";
      ParseTagRoundTrip(Locale("ja", "", ""));
    }
    assert KnownExtension("properties");
    assert "ja.properties" == "ja" + "." + "properties";
    RecogniseStemAndExtension("ja", "properties");
  }

  /** A text file is skipped even though its name gives a locale. */
  lemma RecogniseSkipsText()
    ensures Recognise(Path(Some("notes.txt"))) == None
  {
    assert "notes.txt" == "notes" + "." + "txt";
    RecogniseStemAndExtension("notes", "txt");
  }

  /** Without a merger no bundle is stale, so a file that can be read never fails the pass. */
  lemma VisitWithoutMerger(settings: Settings, before: PassState, f: FileEntry)
    requires settings.messageMerger.None? && before.error.None? && f.contents.Some?
    ensures Visit(settings, before, f).error.None?
  {
    if Counted(f) {
      assert !Stale(settings, "");
    }
  }

  /** A directory holding `en.yml`, `ja.properties` and `notes.txt`, without a merger, loads exactly English and Japanese. */
  lemma ThreeFileExample(settings: Settings, en: Config, ja: Config, notes: Config)
    requires settings.messageMerger.None?
    ensures var files := [
              FileEntry(Path(Some("en.yml")), true, Some(en)),
              FileEntry(Path(Some("ja.properties")), true, Some(ja)),
              FileEntry(Path(Some("notes.txt")), true, Some(notes))];
            && Pass(settings, files).error.None?
            && Pass(settings, files).locales == {Locale("en", "", ""), Locale("ja", "", "")}
  {
    var f0 := FileEntry(Path(Some("en.yml")), true, Some(en));
    var f1 := FileEntry(Path(Some("ja.properties")), true, Some(ja));
    var f2 := FileEntry(Path(Some("notes.txt")), true, Some(notes));
    RecogniseEnglishYaml();
    RecogniseJapaneseProperties();
    RecogniseSkipsText();
    var s0 := PassState([], {}, [], None);
    var s1 := Visit(settings, s0, f0);
    VisitWithoutMerger(settings, s0, f0);
    var s2 := Visit(settings, s1, f1);
    VisitWithoutMerger(settings, s1, f1);
    VisitWithoutMerger(settings, s2, f2);
    PassOfThree(settings, f0, f1, f2);
  }

  /** A pass over three files visits them in order, starting from the empty state. */
  lemma PassOfThree(settings: Settings, f0: FileEntry, f1: FileEntry, f2: FileEntry)
    ensures Pass(settings, [f0, f1, f2])
            == Visit(settings, Visit(settings, Visit(settings, PassState([], {}, [], None), f0), f1), f2)
  {
    var files := [f0, f1, f2];
    assert files[..|files| - 1] == [f0, f1] && [f0, f1][..1] == [f0] && [f0][..0] == [];
    assert Pass(settings, [f0]) == Visit(settings, Pass(settings, []), f0);
    assert Pass(settings, [f0, f1]) == Visit(settings, Pass(settings, [f0]), f1);
  }

  class TranslationDirectory {
    const settings: Settings
    const translator: Translator
    /** The registry of the last `load`, absent before the first and after `unload`. */
    var registry: Registry?
    var loadedLocales: set<Locale>

    /** Without a registry no locale is recorded as loaded. */
    ghost predicate Valid()
      reads this
    {
      registry == null ==> loadedLocales == {}
    }

    constructor(settings: Settings, translator: Translator)
      ensures this.settings == settings && this.translator == translator
      ensures registry == null && loadedLocales == {}
      ensures Valid()
    {
      this.settings := settings;
      this.translator := translator;
      registry := null;
      loadedLocales := {};
    }

    /** `unload`: withdraws the registry from the translator, forgets the loaded locales and drops the registry. */
    method Unload()
      modifies this`registry, this`loadedLocales, translator
      ensures registry == null && loadedLocales == {}
      ensures translator.sources == if old(registry) == null then old(translator.sources) else old(translator.sources) - {old(registry)}
      ensures Valid()
    {
      if registry != null {
        translator.sources := translator.sources - {registry};
      }
      loadedLocales := {};
      registry := null;
    }

    /** `getRegistry`: fails (here: `None`) while there is no registry. */
    method GetRegistry() returns (r: Option<Registry>)
      ensures r.None? <==> registry == null
      ensures r.Some? ==> r.value == registry
    {
      if registry == null {
        return None;
      }
      return Some(registry);
    }

    /** The failure, if any, of `createDirectoryIfNotExists`. */
    ghost function SetUpFailure(disk: Disk): Option<PassError>
      reads this
    {
      if disk.isDirectory then None
      else if disk.createFails then Some(CreateDirectoryFailed)
      else if settings.onDirectoryCreated && disk.callbackFails then Some(CallbackFailed)
      else None
    }

    /**
     * `load`: unloads first when a registry exists, creates a fresh registry,
     * creates the directory when it is missing (running the on-created
     * callback only then), runs the file loop, and on success adds the new
     * registry to the translator. On failure the partial registrations stay in
     * the new registry, which the translator never sees.
     */
    method Load(disk: Disk) returns (failure: Option<PassError>, callbackRan: bool, ghost saved: seq<Saved>)
      requires Valid()
      modifies this`registry, this`loadedLocales, translator
      ensures Valid()
      ensures registry != null && fresh(registry)
      ensures callbackRan <==> !disk.isDirectory && !disk.createFails && settings.onDirectoryCreated
      ensures SetUpFailure(disk).Some? ==>
                failure == SetUpFailure(disk) && registry.log == [] && loadedLocales == {} && saved == []
      ensures SetUpFailure(disk).None? ==>
                var pass := Pass(settings, disk.files);
                && failure == pass.error
                && registry.log == pass.log
                && loadedLocales == pass.locales
                && saved == pass.saved
      ensures var cleared := if old(registry) == null then old(translator.sources) else old(translator.sources) - {old(registry)};
              translator.sources == if failure.None? then cleared + {registry} else cleared
    {
      if registry != null {
        Unload();
      }
      var reg := new Registry();
      registry := reg;
      saved := [];

      var setUpFailure;
      setUpFailure, callbackRan := CreateDirectoryIfNotExists(disk);
      if setUpFailure.Some? {
        return setUpFailure, callbackRan, [];
      }

      ghost var cleared := translator.sources;
      var files := disk.files;
      var i := 0;
      while i < |files|
        invariant 0 <= i <= |files|
        invariant registry == reg && fresh(reg)
        invariant Pass(settings, files[..i]).error.None?
        invariant reg.log == Pass(settings, files[..i]).log
        invariant loadedLocales == Pass(settings, files[..i]).locales
        invariant saved == Pass(settings, files[..i]).saved
        invariant translator.sources == cleared
      {
        assert files[..i + 1][..i] == files[..i];
        assert Pass(settings, files[..i + 1]) == Visit(settings, Pass(settings, files[..i]), files[i]);
        var stepFailure, wrote := LoadEntry(files[i], Pass(settings, files[..i]));
        if stepFailure.Some? {
          ErrorPersists(settings, files, i + 1);
          assert Pass(settings, files) == Visit(settings, Pass(settings, files[..i]), files[i]);
          return stepFailure, callbackRan, saved;
        }
        if wrote.Some? {
          saved := saved + [wrote.value];
        }
        i := i + 1;
      }
      assert files[..i] == files;
      translator.sources := translator.sources + {reg};
      return None, callbackRan, saved;
    }

    /**
     * `createDirectoryIfNotExists`: nothing happens when the directory exists;
     * otherwise it is created and, when that succeeds, the on-created callback
     * (if set) runs. A failure of either ends `load`.
     */
    method CreateDirectoryIfNotExists(disk: Disk) returns (failure: Option<PassError>, callbackRan: bool)
      ensures failure == SetUpFailure(disk)
      ensures callbackRan <==> !disk.isDirectory && !disk.createFails && settings.onDirectoryCreated
      ensures disk.isDirectory ==> failure.None? && !callbackRan
    {
      if disk.isDirectory {
        return None, false;
      }
      if disk.createFails {
        return Some(CreateDirectoryFailed), false;
      }
      if settings.onDirectoryCreated {
        if disk.callbackFails {
          return Some(CallbackFailed), true;
        }
        return None, true;
      }
      return None, false;
    }

    /**
     * One element of the file stream of `load`: a regular file is handed to
     * `loadFile`; a loader that comes back loaded is reconciled and
     * registered. `wrote` is what its save wrote, if it saved.
     */
    method LoadEntry(file: FileEntry, ghost before: PassState) returns (failure: Option<PassError>, ghost wrote: Option<Saved>)
      requires registry != null && before.error.None?
      requires registry.log == before.log && loadedLocales == before.locales
      modifies registry, this`loadedLocales
      ensures var after := Visit(settings, before, file);
              && failure == after.error
              && registry.log == after.log
              && loadedLocales == after.locales
              && (failure.None? ==> after.saved == before.saved + (if wrote.Some? then [wrote.value] else []))
    {
      wrote := None;
      if !file.regular {
        return None, None;
      }
      var loader, loadFailure := LoadFile(file);
      if loadFailure.Some? {
        return loadFailure, None;
      }
      if loader == null || !loader.bundle.loaded {
        return None, None;
      }
      failure, wrote := UpdateAndRegister(loader);
    }

    /**
     * `loadFile`: no loader for a file whose locale does not parse or whose
     * extension is unknown; otherwise a new file loader, loaded, or a load
     * failure that ends the pass.
     */
    method LoadFile(file: FileEntry) returns (loader: FileConfigurationLoader.FileConfigurationLoader?, failure: Option<PassError>)
      ensures Recognise(file.path).None? ==> loader == null && failure.None?
      ensures Recognise(file.path).Some? && file.contents.None? ==>
                loader == null && failure == Some(LoadFailed(Recognise(file.path).value))
      ensures Recognise(file.path).Some? && file.contents.Some? ==>
                && failure.None? && loader != null
                && fresh(loader) && fresh(loader.bundle)
                && loader.bundle.locale == Recognise(file.path).value
                && loader.bundle.loaded
                && loader.bundle.messageMap == FileConfigurationLoader.Messages(file.contents.value)
                && loader.bundle.version == "" && !loader.bundle.modified
    {
      var locale := FromFileName(Some(file.path));
      if locale.None? {
        return null, None;
      }
      var extension := GetPathExtension(Some(file.path));
      if !KnownExtension(extension) {
        return null, None;
      }
      loader := new FileConfigurationLoader.FileConfigurationLoader(locale.value);
      var ok := loader.Load(file.contents);
      if !ok {
        return null, Some(LoadFailed(locale.value));
      }
      return loader, None;
    }

    /**
     * `updateAndRegister`: when the bundle is stale, asks the merger for a
     * reference (ending the pass if that fails) and, when one comes back
     * loaded, merges it in, takes over its version and saves; then registers
     * the bundle and records its locale whatever happened before.
     */
    method UpdateAndRegister(loader: FileConfigurationLoader.FileConfigurationLoader) returns (failure: Option<PassError>, ghost saved: Option<Saved>)
      requires registry != null
      modifies loader, loader.bundle, registry, this`loadedLocales
      ensures var bundle := loader.bundle;
              var step := Reconcile(settings, bundle.locale, old(bundle.messageMap), old(bundle.version), old(bundle.modified));
              && (step.Abort? ==>
                    failure == Some(step.error) && registry.log == old(registry.log) && loadedLocales == old(loadedLocales))
              && (step.Publish? ==>
                    && failure.None? && saved == step.saved
                    && bundle.messageMap == step.messages
                    && registry.log == old(registry.log) + (if bundle.loaded then [Registration(bundle.locale, step.messages)] else [])
                    && loadedLocales == old(loadedLocales) + {bundle.locale})
      ensures loader.bundle.loaded == old(loader.bundle.loaded)
      ensures var step := Reconcile(settings, loader.bundle.locale, old(loader.bundle.messageMap), old(loader.bundle.version), old(loader.bundle.modified));
              step.Publish? && step.saved.Some? ==>
                && SavedInto(old(loader.config), loader.config, step.messages, step.saved.value.version)
                && loader.bundle.version == step.saved.value.version && !loader.bundle.modified
      ensures var step := Reconcile(settings, loader.bundle.locale, old(loader.bundle.messageMap), old(loader.bundle.version), old(loader.bundle.modified));
              step.Publish? && step.saved.None? ==>
                && loader.config == old(loader.config)
                && loader.bundle.version == old(loader.bundle.version) && loader.bundle.modified == old(loader.bundle.modified)
    {
      saved := None;
      var bundle := loader.bundle;
      if settings.messageMerger.Some? && settings.version.Some? && settings.version.value != ""
         && bundle.version != settings.version.value {
        var reference := settings.messageMerger.value(bundle.locale);
        if reference.CreateFails? {
          return Some(MergerFailed(bundle.locale)), None;
        }
        if reference.Reference? {
          var other := new ConfigurationLoader.ConfigurationLoader(bundle.locale, reference.source);
          if reference.loaded {
            other.Load();
          }
          if other.bundle.loaded {
            var wrote := MergeAndSave(loader, other.bundle);
            MergeMissingUnchangedIff(old(bundle.messageMap), other.bundle.messageMap);
            if wrote {
              saved := Some(Saved(bundle.locale, bundle.messageMap, bundle.version));
            }
          }
        }
      }
      var registered := bundle.Register(registry);
      loadedLocales := loadedLocales + {bundle.locale};
      return None, saved;
    }
  }
  /**
   * The merge branch of `updateAndRegister`: merges a loaded reference into
   * the bundle, takes over the reference's version and saves. The save writes
   * (and `wrote` is true) exactly when the bundle was modified already, the
   * merge added a message, or the version changed; afterwards the bundle is
   * never modified.
   */
  method MergeAndSave(loader: FileConfigurationLoader.FileConfigurationLoader, other: Bundle) returns (wrote: bool)
    requires other.loaded && other != loader.bundle
    modifies loader`config, loader.bundle
    ensures loader.bundle.messageMap == MergeMissing(old(loader.bundle.messageMap), other.messageMap)
    ensures loader.bundle.version == other.version
    ensures wrote == (old(loader.bundle.modified)
                      || !(other.messageMap.Keys <= old(loader.bundle.messageMap).Keys)
                      || other.version != old(loader.bundle.version))
    ensures wrote ==> SavedInto(old(loader.config), loader.config, loader.bundle.messageMap, loader.bundle.version)
    ensures !wrote ==> loader.config == old(loader.config)
    ensures !loader.bundle.modified && loader.bundle.loaded == old(loader.bundle.loaded)
  {
    var merged := loader.bundle.Merge(other);
    loader.bundle.SetVersion(other.version);
    wrote := loader.bundle.modified;
    loader.Save();
  }
}

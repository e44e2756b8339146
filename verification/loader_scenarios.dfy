/**
 * Worked cases of the two loaders on small literal configurations: how lists
 * are stored, which `v` keys the in-memory loader skips, and a load, merge
 * and save of an English bundle from a reference.
 */
module LoaderScenarios {
  import opened Wrappers
  import opened LocaleParser
  import opened Configurations
  import opened AbstractTranslationLoader
  import FileConfigurationLoader
  import ConfigurationLoader

  /**
   * The English file of the scenario, as parsed. The file itself is not part
   * of this model: the tree is reconstructed from the messages and the version
   * the loader test expects of it.
   */
  function OriginalFile(): Config
  {
    Section([
      Entry("v", Value(Str("1.0.0"))),
      Entry("sample-key", Value(Int(1))),
      Entry("example", Section([
        Entry("text", Value(Str("abc"))),
        Entry("integer", Value(Int(100))),
        Entry("decimal", Value(Rendered("12.3"))),
        Entry("bool", Value(Bool(true)))]))])
  }

  /** The reference configuration: one missing top-level message and one missing nested one. */
  function OtherConfiguration(): Config
  {
    Section([
      Entry("missing-message", Value(Str("something"))),
      Entry("example", Section([Entry("missing", Value(Str("something")))]))])
  }

  /** A list becomes its elements joined by `\n` in a file bundle, and its `toString()` in an in-memory one. */
  lemma ListRendering()
    ensures FileConfigurationLoader.Messages(Section([Entry("l", Items([Str("a"), Int(2), Bool(false)]))]))
            == map["l" := "a\\n2\\nfalse"]
    ensures ConfigurationLoader.Messages(Section([Entry("l", Items([Str("a"), Int(2), Bool(false)]))]))
            == map["l" := "[a, 2, false]"]
  {
    var items := [Str("a"), Int(2), Bool(false)];
    JoinedText();
    CommaText();
    var section := Section([Entry("l", Items(items))]);
    assert "" + "l" == "l";
    assert FileConfigurationLoader.Flatten(map[], section, 1, "") == map[]["" + "l" := JoinEscaped(items)];
    assert ConfigurationLoader.Flatten(map[], section, 1, "") == map[]["" + "l" := ListText(items)];
  }

  /** The list `a`, `2`, `false` as a file bundle stores it. */
  lemma JoinedText()
    ensures JoinEscaped([Str("a"), Int(2), Bool(false)]) == "a\\n2\\nfalse"
  {
    var items := [Str("a"), Int(2), Bool(false)];
    assert Stringify(Int(2)) == "2" by {
      assert NatToString(2) == [DigitChar(2)] == "2";
    }
    assert items[1..] == [Int(2), Bool(false)] && items[1..][1..] == [Bool(false)];
    assert JoinEscaped(items[1..][1..]) == "false";
    assert JoinEscaped(items[1..]) == "2" + "\\n" + "false";
  }

  /** The list `a`, `2`, `false` as `toString()` writes it. */
  lemma CommaText()
    ensures ListText([Str("a"), Int(2), Bool(false)]) == "[a, 2, false]"
  {
    var items := [Str("a"), Int(2), Bool(false)];
    assert Stringify(Int(2)) == "2" by {
      assert NatToString(2) == [DigitChar(2)] == "2";
    }
    assert items[1..] == [Int(2), Bool(false)] && items[1..][1..] == [Bool(false)];
    assert JoinComma(items[1..][1..]) == "false";
    assert JoinComma(items[1..]) == "2" + ", " + "false";
    assert JoinComma(items) == "a, 2, false";
  }

  /** Only the top-level `v` is the version: a nested `v` is an ordinary message of an in-memory bundle. */
  lemma NestedVersionKeyIsAMessage()
    ensures ConfigurationLoader.Messages(
              Section([Entry("v", Value(Str("2"))), Entry("sub", Section([Entry("v", Value(Str("x")))]))]))
            == map["sub.v" := "x"]
  {
    var sub := Section([Entry("v", Value(Str("x")))]);
    var source := Section([Entry("v", Value(Str("2"))), Entry("sub", sub)]);
    assert ConfigurationLoader.Flatten(map[], source, 1, "") == map[];
    assert ConfigurationLoader.Flatten(map[], sub, 1, "sub.") == map["sub." + "v" := "x"];
    assert "sub.v" == "sub." + "v";
    assert "" + "sub" + [PathSeparator] == "sub.";
    assert ConfigurationLoader.Flatten(map[], source, 2, "") == ConfigurationLoader.Flatten(map[], sub, 1, "sub.");
    assert ConfigurationLoader.Messages(source) == ConfigurationLoader.Flatten(map[], source, 2, "");
  }

  /** The English file flattens to its six leaf paths, the top-level `v` among them. */
  lemma OriginalMessages()
    ensures FileConfigurationLoader.Messages(OriginalFile()) == map[
              "v" := "1.0.0", "sample-key" := "1",
              "example.text" := "abc", "example.integer" := "100",
              "example.decimal" := "12.3", "example.bool" := "true"]
  {
    var file := OriginalFile();
    var top := map["v" := "1.0.0", "sample-key" := "1"];
    OriginalTopLevel();
    assert "" + "example" + [PathSeparator] == "example.";
    assert FileConfigurationLoader.Messages(file)
           == FileConfigurationLoader.Flatten(top, file.entries[2].node, 4, "example.");
    OriginalExampleSection(top);
  }

  /** The first two entries of the English file: the version string and an integer. */
  lemma OriginalTopLevel()
    ensures FileConfigurationLoader.Flatten(map[], OriginalFile(), 2, "") == map["v" := "1.0.0", "sample-key" := "1"]
  {
    var file := OriginalFile();
    assert Stringify(Int(1)) == "1" by {
      assert NatToString(1) == [DigitChar(1)] == "1";
    }
    assert "" + "v" == "v" && "" + "sample-key" == "sample-key";
    assert FileConfigurationLoader.Flatten(map[], file, 1, "") == map["v" := "1.0.0"];
  }

  /** The `example` section of the English file adds its four leaves below `example.`. */
  lemma OriginalExampleSection(m: map<string, string>)
    ensures FileConfigurationLoader.Flatten(m, OriginalFile().entries[2].node, 4, "example.")
            == m["example.text" := "abc"]["example.integer" := "100"]["example.decimal" := "12.3"]["example.bool" := "true"]
  {
    var example := OriginalFile().entries[2].node;
    HundredText();
    var p := "example.";
    assert p + "text" == "example.text" && p + "integer" == "example.integer";
    assert p + "decimal" == "example.decimal" && p + "bool" == "example.bool";
    var m1 := m[p + "text" := "abc"];
    assert FileConfigurationLoader.Flatten(m, example, 1, p) == m1;
    var m2 := m1[p + "integer" := "100"];
    assert FileConfigurationLoader.Flatten(m, example, 2, p) == m2;
    var m3 := m2[p + "decimal" := "12.3"];
    assert FileConfigurationLoader.Flatten(m, example, 3, p) == m3;
  }

  /** The integer 100 is written as the three digits `100`. */
  lemma HundredText()
    ensures Stringify(Int(100)) == "100"
  {
    assert NatToString(1) == "1";
    assert NatToString(10) == NatToString(1) + [DigitChar(0)] == "10";
    assert NatToString(100) == NatToString(10) + [DigitChar(0)] == "100";
  }

  /** The reference flattens to the two messages the English file lacks. */
  lemma OtherMessages()
    ensures ConfigurationLoader.Messages(OtherConfiguration())
            == map["missing-message" := "something", "example.missing" := "something"]
  {
    var other := OtherConfiguration();
    var example := other.entries[1].node;
    assert "" + "missing-message" == "missing-message";
    assert ConfigurationLoader.Flatten(map[], other, 1, "") == map["missing-message" := "something"];
    assert "" + "example" + [PathSeparator] == "example.";
    assert ConfigurationLoader.Flatten(map["missing-message" := "something"], example, 1, "example.")
           == map["missing-message" := "something", "example." + "missing" := "something"];
    assert "example." + "missing" == "example.missing";
  }

  /** Merging the reference into the English bundle adds exactly its two messages. */
  lemma MergedMessages()
    ensures var original := FileConfigurationLoader.Messages(OriginalFile());
            var reference := ConfigurationLoader.Messages(OtherConfiguration());
            && !(reference.Keys <= original.Keys)
            && MergeMissing(original, reference) == original["missing-message" := "something"]["example.missing" := "something"]
  {
    OriginalMessages();
    OtherMessages();
    var original := FileConfigurationLoader.Messages(OriginalFile());
    var reference := ConfigurationLoader.Messages(OtherConfiguration());
    assert "missing-message" in reference && "missing-message" !in original;
    var expected := original["missing-message" := "something"]["example.missing" := "something"];
    var merged := MergeMissing(original, reference);
    assert merged.Keys == expected.Keys;
  }

  /**
   * Loads the English file, loads the reference, merges it in and saves. The
   * file loader keeps the top-level `v` as a message and does not read the
   * version. The bundle gains the two missing messages and becomes modified;
   * the reference is left unmodified; the save clears the flag.
   */
  method LoadMergeSave() returns (loader: FileConfigurationLoader.FileConfigurationLoader, other: ConfigurationLoader.ConfigurationLoader)
    ensures loader.bundle.loaded && other.bundle.loaded
    ensures loader.bundle.locale == Locale("en", "", "") && loader.bundle.version == ""
    ensures loader.bundle.messageMap == map[
              "v" := "1.0.0", "sample-key" := "1",
              "example.text" := "abc", "example.integer" := "100",
              "example.decimal" := "12.3", "example.bool" := "true",
              "missing-message" := "something", "example.missing" := "something"]
    ensures !loader.bundle.modified && !other.bundle.modified
  {
    var english := Locale("en", "", "");
    loader := new FileConfigurationLoader.FileConfigurationLoader(english);
    var ok := loader.Load(Some(OriginalFile()));
    OriginalMessages();

    other := new ConfigurationLoader.ConfigurationLoader(english, OtherConfiguration());
    other.Load();
    MergedMessages();

    var merged := loader.bundle.Merge(other.bundle);
    assert loader.bundle.modified && !other.bundle.modified;
    loader.Save();
  }
}

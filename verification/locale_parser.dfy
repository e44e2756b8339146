/**
 * Parsing of locale tags and of the locale a message file is named after
 * (`LocaleParser` in the api module).
 */
module LocaleParser {
  import opened Wrappers
  import opened Paths

  /**
   * `java.util.Locale` reduced to its three segments. The JDK's case
   * normalisation of the segments is not modelled, so equality is plain
   * equality of the three strings.
   */
  datatype Locale = Locale(language: string, country: string, variant: string)

  /** `s.indexOf(c)`: the first position of `c` in `s`, or -1. */
  function IndexOf(s: string, c: char): (i: int)
    ensures -1 <= i < |s|
    ensures i >= 0 ==> s[i] == c && c !in s[..i]
    ensures i == -1 ==> c !in s
  {
    if s == [] then -1
    else if s[0] == c then 0
    else
      var j := IndexOf(s[1..], c);
      if j < 0 then -1
      else
        assert s[..j + 1] == [s[0]] + s[1..][..j];
        j + 1
  }

  /** The pieces of a `split` result glued back together with `_`. */
  function JoinUnderscore(parts: seq<string>): string
  {
    if |parts| == 0 then ""
    else if |parts| == 1 then parts[0]
    else parts[0] + "_" + JoinUnderscore(parts[1..])
  }

  lemma JoinUnderscoreSmall(a: string, b: string, c: string)
    ensures JoinUnderscore([a]) == a
    ensures JoinUnderscore([a, b]) == a + "_" + b
    ensures JoinUnderscore([a, b, c]) == a + "_" + b + "_" + c
  {
    assert [a, b][1..] == [b];
    assert [a, b, c][1..] == [b, c];
    assert [b, c][1..] == [c];
    assert JoinUnderscore([b, c]) == b + "_" + c;
  }

  /** What a `split("_", 3)` may return: one to three pieces, only the last of which holds `_`. */
  ghost predicate SplitShape(parts: seq<string>)
  {
    && 1 <= |parts| <= 3
    && (forall k :: 0 <= k < |parts| - 1 ==> '_' !in parts[k])
    && (|parts| < 3 ==> '_' !in parts[|parts| - 1])
  }

  /** A string is the part before position `i`, the character there, and the part after. */
  lemma CutAt(s: string, i: nat)
    requires i < |s|
    ensures s == s[..i] + [s[i]] + s[i + 1..]
  {
  }

  lemma ShapeOfTwo(a: string, b: string)
    requires '_' !in a && '_' !in b
    ensures SplitShape([a, b])
  {
  }

  lemma ShapeOfThree(a: string, b: string, c: string)
    requires '_' !in a && '_' !in b
    ensures SplitShape([a, b, c])
  {
  }

  /** The pieces of `split("_", 3)` once the first `_` is found: `first`, then `rest` cut at its own first `_`. */
  function SplitAfterFirst(first: string, rest: string): (parts: seq<string>)
    requires '_' !in first
    ensures SplitShape(parts)
    ensures JoinUnderscore(parts) == first + "_" + rest
  {
    var j := IndexOf(rest, '_');
    if j < 0 then
      JoinUnderscoreSmall(first, rest, "");
      ShapeOfTwo(first, rest);
      [first, rest]
    else
      CutAt(rest, j);
      JoinUnderscoreSmall(first, rest[..j], rest[j + 1..]);
      ShapeOfThree(first, rest[..j], rest[j + 1..]);
      assert first + "_" + rest == first + "_" + rest[..j] + "_" + rest[j + 1..];
      [first, rest[..j], rest[j + 1..]]
  }

  /**
   * `s.split("_", 3)`: the string is cut at its first two `_` at most; empty
   * pieces are kept and everything after the second `_` stays in the last piece.
   */
  function Split3(s: string): (parts: seq<string>)
    ensures SplitShape(parts)
    ensures JoinUnderscore(parts) == s
  {
    var i := IndexOf(s, '_');
    if i < 0 then
      JoinUnderscoreSmall(s, "", "");
      [s]
    else
      CutAt(s, i);
      SplitAfterFirst(s[..i], s[i + 1..])
  }

  /** `LocaleParser.parse`: none for a null or empty string, otherwise one locale per split shape. */
  function Parse(str: Option<string>): (r: Option<Locale>)
    ensures r.None? <==> str.None? || str.value == ""
  {
    if str.None? || str.value == "" then None
    else
      var segments := Split3(str.value);
      if |segments| == 1 then Some(Locale(segments[0], "", ""))
      else if |segments| == 2 then Some(Locale(segments[0], segments[1], ""))
      else if |segments| == 3 then Some(Locale(segments[0], segments[1], segments[2]))
      else None
  }

  /**
   * `Locale.toString()` for a locale without script or extensions: the country
   * is written when present or when a language and a variant need separating,
   * and the variant only when a language or a country precedes it.
   */
  function Tag(l: Locale): string
  {
    var hasLanguage, hasCountry, hasVariant := l.language != "", l.country != "", l.variant != "";
    l.language
    + (if hasCountry || (hasLanguage && hasVariant) then "_" + l.country else "")
    + (if hasVariant && (hasLanguage || hasCountry) then "_" + l.variant else "")
  }

  /** The first `c` of `a + [c] + b` is the one after `a` when `a` holds none. */
  lemma IndexOfAfter(a: string, c: char, b: string)
    requires c !in a
    ensures IndexOf(a + [c] + b, c) == |a|
  {
    var s := a + [c] + b;
    var i := IndexOf(s, c);
    assert s[|a|] == c;
  }

  /**
   * Splitting undoes joining, for every sequence of pieces a split can return.
   * The proof is by cases on the number of pieces, so automatic induction is
   * switched off.
   */
  lemma {:induction false} SplitJoin(parts: seq<string>)
    requires SplitShape(parts)
    ensures Split3(JoinUnderscore(parts)) == parts
  {
    var s := JoinUnderscore(parts);
    if |parts| >= 2 {
      var tail := JoinUnderscore(parts[1..]);
      assert s == parts[0] + "_" + tail;
      IndexOfAfter(parts[0], '_', tail);
      assert s[|parts[0]| + 1..] == tail;
      if |parts| == 3 {
        assert parts[1..] == [parts[1], parts[2]];
        JoinUnderscoreSmall(parts[1], parts[2], "");
        IndexOfAfter(parts[1], '_', parts[2]);
        assert tail[..|parts[1]|] == parts[1];
        assert tail[|parts[1]| + 1..] == parts[2];
      } else {
        assert parts[1..] == [parts[1]];
      }
      assert s[..|parts[0]|] == parts[0];
    }
  }

  /**
   * The test's round trip `parse(locale.toString()) == locale`: it holds for every
   * locale whose language and country hold no `_` and that has a language or a
   * country (without both, `toString()` is empty).
   */
  lemma ParseTagRoundTrip(l: Locale)
    requires '_' !in l.language && '_' !in l.country
    requires l.language != "" || l.country != ""
    ensures Parse(Some(Tag(l))) == Some(l)
  {
    var t := Tag(l);
    JoinUnderscoreSmall(l.language, l.country, l.variant);
    if l.country == "" && l.variant == "" {
      assert t == l.language;
      SplitJoin([l.language]);
    } else if l.variant == "" {
      assert t == l.language + "_" + l.country;
      SplitJoin([l.language, l.country]);
    } else {
      assert t == l.language + "_" + l.country + "_" + l.variant;
      SplitJoin([l.language, l.country, l.variant]);
    }
  }

  /**
   * A tag is cut at its first two `_` only: whatever follows the second one,
   * further `_` included, is the variant. So no non-empty string fails to parse.
   */
  lemma ParseKeepsRestInVariant(language: string, country: string, rest: string)
    requires '_' !in language && '_' !in country
    ensures Parse(Some(language + "_" + country + "_" + rest)) == Some(Locale(language, country, rest))
  {
    JoinUnderscoreSmall(language, country, rest);
    SplitJoin([language, country, rest]);
  }

  /** The characters of a file name before its first `.`. */
  function BaseName(name: string): (r: string)
    ensures r <= name
    ensures '.' !in r
    ensures |r| == |name| || name[|r|] == '.'
  {
    if name == [] || name[0] == '.' then []
    else [name[0]] + BaseName(name[1..])
  }

  /** Any dot-free prefix that ends the name or stops at a `.` is the base name. */
  lemma BaseNameUnique(name: string, p: string)
    requires p <= name && '.' !in p
    requires |p| == |name| || name[|p|] == '.'
    ensures p == BaseName(name)
  {
  }

  /** A dot-free stem followed by `.` and anything is its own base name. */
  lemma BaseNameOfStem(stem: string, suffix: string)
    requires '.' !in stem
    ensures BaseName(stem + "." + suffix) == stem
  {
    var name := stem + "." + suffix;
    assert name[..|stem|] == stem && name[|stem|] == '.';
    BaseNameUnique(name, stem);
  }

  /** The locale `fromFileName` returns: none without a path or a file name, else the parse of the base name. */
  function FileNameLocale(path: Option<Path>): Option<Locale>
  {
    if path.None? || path.value.fileName.None? then None
    else Parse(Some(BaseName(path.value.fileName.value)))
  }

  /** `LocaleParser.fromFileName`: copies the file name up to its first `.` and parses that. */
  method FromFileName(path: Option<Path>) returns (r: Option<Locale>)
    ensures r == FileNameLocale(path)
    ensures path.None? || path.value.fileName.None? ==> r.None?
    ensures path.Some? && path.value.fileName.Some? ==>
              var name := path.value.fileName.value;
              (r.None? <==> name == [] || name[0] == '.')
  {
    if path.None? {
      return None;
    }
    var filePath := path.value.fileName;
    if filePath.None? {
      return None;
    }
    var fileName := filePath.value;
    var builder := "";
    var i := 0;
    while i < |fileName|
      invariant 0 <= i <= |fileName|
      invariant builder == fileName[..i]
      invariant '.' !in builder
    {
      var c := fileName[i];
      if c != '.' {
        builder := builder + [c];
      } else {
        break;
      }
      i := i + 1;
    }
    BaseNameUnique(fileName, builder);
    r := Parse(Some(builder));
  }

  /** `en.yml` and `en.example.yml` both name the English locale. */
  lemma EnglishFileNames()
    ensures FileNameLocale(Some(Path(Some("en.yml")))) == Some(Locale("en", "", ""))
    ensures FileNameLocale(Some(Path(Some("en.example.yml")))) == Some(Locale("en", "", ""))
  {
    assert "en.yml" == "en" + "." + "yml";
    assert "en.example.yml" == "en" + "." + "example.yml";
    BaseNameOfStem("en", "yml");
    BaseNameOfStem("en", "example.yml");
    assert Tag(Locale("en", "", "")) == "en";
    ParseTagRoundTrip(Locale("en", "", ""));
  }

  /** `ja_JP.yml` names Japanese as spoken in Japan. */
  lemma JapanFileName()
    ensures FileNameLocale(Some(Path(Some("ja_JP.yml")))) == Some(Locale("ja", "JP", ""))
  {
    assert "ja_JP.yml" == "ja_JP" + "." + "yml";
    BaseNameOfStem("ja_JP", "yml");
    assert Tag(Locale("ja", "JP", "")) == "ja_JP";
    ParseTagRoundTrip(Locale("ja", "JP", ""));
  }

  /** A name that starts with `.` has an empty base name and so no locale. */
  lemma DotFileName()
    ensures FileNameLocale(Some(Path(Some(".")))) == None
  {
    BaseNameOfStem("", "");
    assert "" + "." + "" == ".";
  }
}

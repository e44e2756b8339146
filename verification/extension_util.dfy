/** The extension of a file name (`ExtensionUtil` in the api module). */
module ExtensionUtil {
  import opened Wrappers
  import opened Paths

  /** `s.lastIndexOf(c)`: the last position of `c` in `s`, or -1. */
  function LastIndexOf(s: string, c: char): (i: int)
    ensures -1 <= i < |s|
    ensures i >= 0 ==> s[i] == c
    ensures forall j :: i < j < |s| ==> s[j] != c
  {
    if s == [] then -1
    else if s[|s| - 1] == c then |s| - 1
    else LastIndexOf(s[..|s| - 1], c)
  }

  /** Cutting a name at its last `.` leaves a dot-free remainder. */
  lemma CutAtLastDot(name: string, i: nat)
    requires i < |name| && name[i] == '.'
    requires forall j :: i < j < |name| ==> name[j] != '.'
    ensures '.' !in name[i + 1..]
    ensures name == name[..|name| - |name[i + 1..]| - 1] + "." + name[i + 1..]
  {
    var extension := name[i + 1..];
    forall k | 0 <= k < |extension|
      ensures extension[k] != '.'
    {
      assert extension[k] == name[i + 1 + k];
    }
    assert |name| - |extension| - 1 == i;
    assert name == name[..i] + [name[i]] + extension;
  }

  /**
   * `getExtension(String)`: empty for a null or empty name and for a name
   * without `.`; otherwise everything after the last `.`, so the name is
   * some prefix, a `.`, and the result, and the result holds no `.`.
   */
  function GetExtension(fileName: Option<string>): (r: string)
    ensures '.' !in r
    ensures fileName.None? || '.' !in fileName.value ==> r == ""
    ensures fileName.Some? && '.' in fileName.value ==>
              |r| < |fileName.value|
              && fileName.value == fileName.value[..|fileName.value| - |r| - 1] + "." + r
  {
    if fileName.None? || fileName.value == "" then ""
    else
      var name := fileName.value;
      var lastDot := LastIndexOf(name, '.');
      if lastDot != -1 then
        CutAtLastDot(name, lastDot);
        name[lastDot + 1..]
      else
        assert '.' !in name by {
          assert forall k :: 0 <= k < |name| ==> name[k] != '.';
        }
        ""
  }

  /** `getExtension(Path)`: empty for a null path or one without a file name, else the extension of the file name. */
  function GetPathExtension(path: Option<Path>): (r: string)
    ensures path.None? || path.value.fileName.None? ==> r == ""
    ensures path.Some? && path.value.fileName.Some? ==> r == GetExtension(path.value.fileName)
  {
    if path.None? then ""
    else if path.value.fileName.None? then ""
    else GetExtension(Some(path.value.fileName.value))
  }

  /**
   * The extension is determined by the split it describes: whenever a name is
   * a prefix, a `.` and a dot-free suffix, the suffix is the extension. A
   * trailing `.` gives the empty extension.
   */
  lemma ExtensionOfSplit(prefix: string, suffix: string)
    requires '.' !in suffix
    ensures GetExtension(Some(prefix + "." + suffix)) == suffix
  {
    var name := prefix + "." + suffix;
    var i := LastIndexOf(name, '.');
    assert name[|prefix|] == '.';
    assert forall k :: |prefix| < k < |name| ==> name[k] == suffix[k - |prefix| - 1];
    assert i == |prefix|;
    assert name[i + 1..] == suffix;
  }

  /** The test's `test.txt` and `test` for both overloads. */
  lemma ExtensionExamples()
    ensures GetExtension(Some("test.txt")) == "txt"
    ensures GetPathExtension(Some(Path(Some("test.txt")))) == "txt"
    ensures GetExtension(Some("test")) == ""
    ensures GetPathExtension(Some(Path(Some("test")))) == ""
    ensures GetExtension(None) == "" && GetPathExtension(None) == ""
  {
    assert "test.txt" == "test" + "." + "txt";
    ExtensionOfSplit("test", "txt");
  }
}

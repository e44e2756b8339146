/**
 * The nested key/value configuration the loaders read and write. Parsing and
 * printing YAML or properties text belong to the configuration library and
 * are not modelled: a configuration is the tree that library hands over.
 */
module Configurations {
  import opened Wrappers

  /**
   * A non-null leaf object. `Rendered` stands for any other object (a decimal,
   * a date, ...) through the text its `toString()` returns.
   */
  datatype Scalar = Str(s: string) | Int(i: int) | Bool(b: bool) | Rendered(text: string)

  /** What `get(key)` may find under a key: a section, a list, a scalar or null. */
  datatype Node = Section(entries: seq<Entry>) | Items(items: seq<Scalar>) | Value(scalar: Scalar) | Null

  /** One key of a section, in `getKeyList()` order. */
  datatype Entry = Entry(key: string, node: Node)

  /** A configuration (or a section of one) is a section node. */
  type Config = n: Node | n.Section? witness Section([])

  /** `Configuration.PATH_SEPARATOR`. */
  const PathSeparator: char := '.'

  /** The top-level key that stores a bundle's version. */
  const VersionKey: string := "v"

  function DigitChar(d: nat): char
    requires d < 10
  {
    "0123456789"[d]
  }

  /** The number a string of decimal digits denotes. */
  function DecimalValue(s: string): nat
    requires forall k :: 0 <= k < |s| ==> '0' <= s[k] <= '9'
  {
    if s == [] then 0
    else DecimalValue(s[..|s| - 1]) * 10 + (s[|s| - 1] as int - '0' as int)
  }

  /** Decimal digits of `n` without leading zeros, as `Integer.toString` writes them. */
  function NatToString(n: nat): (r: string)
    ensures |r| >= 1
    ensures forall k :: 0 <= k < |r| ==> '0' <= r[k] <= '9'
    ensures DecimalValue(r) == n
    ensures |r| > 1 ==> r[0] != '0'
  {
    if n < 10 then [DigitChar(n)]
    else
      var r := NatToString(n / 10) + [DigitChar(n % 10)];
      assert r[..|r| - 1] == NatToString(n / 10);
      r
  }

  /** `Integer.toString` (also `Long.toString`): a minus sign before the digits of a negative number. */
  function IntToString(i: int): string
  {
    if i < 0 then "-" + NatToString(-i) else NatToString(i)
  }

  /** `object instanceof String ? (String) object : object.toString()`. */
  function Stringify(x: Scalar): string
  {
    match x
    case Str(s) => s
    case Int(i) => IntToString(i)
    case Bool(b) => if b then "true" else "false"
    case Rendered(text) => text
  }

  /** The list's elements as strings joined by the two characters `\` and `n` (`Collectors.joining("\\n")`). */
  function JoinEscaped(items: seq<Scalar>): string
  {
    if |items| == 0 then ""
    else if |items| == 1 then Stringify(items[0])
    else Stringify(items[0]) + "\\n" + JoinEscaped(items[1..])
  }

  /** The elements of a list separated by `, ` without the brackets, as `AbstractCollection.toString` writes them. */
  function JoinComma(items: seq<Scalar>): string
  {
    if |items| == 0 then ""
    else if |items| == 1 then Stringify(items[0])
    else Stringify(items[0]) + ", " + JoinComma(items[1..])
  }

  /** `List.toString()`: the elements in brackets, separated by `, `. */
  function ListText(items: seq<Scalar>): string
  {
    "[" + JoinComma(items) + "]"
  }

  /**
   * The keys under which a section's first `n` entries put a message when
   * flattened below `prefix`: every list or scalar leaf, at its dotted path;
   * sections only lend their key to the paths below them, and null leaves give
   * nothing.
   */
  ghost function LeafKeys(section: Node, n: nat, prefix: string): set<string>
    requires section.Section? && n <= |section.entries|
    decreases section, n
  {
    if n == 0 then {}
    else
      var e := section.entries[n - 1];
      var earlier := LeafKeys(section, n - 1, prefix);
      match e.node
      case Section(_) => earlier + LeafKeys(e.node, |e.node.entries|, prefix + e.key + [PathSeparator])
      case Items(_) => earlier + {prefix + e.key}
      case Value(_) => earlier + {prefix + e.key}
      case Null => earlier
  }

  /** What `get(key)` returns for a top-level key: the node of the last entry with that key. */
  function Lookup(entries: seq<Entry>, key: string): Option<Node>
  {
    if entries == [] then None
    else if entries[|entries| - 1].key == key then Some(entries[|entries| - 1].node)
    else Lookup(entries[..|entries| - 1], key)
  }

  /** Every entry with the key gets the node; the others keep their place and value. */
  function Replace(entries: seq<Entry>, key: string, node: Node): (r: seq<Entry>)
    ensures |r| == |entries|
  {
    seq(|entries|, i requires 0 <= i < |entries| =>
          if entries[i].key == key then Entry(key, node) else entries[i])
  }

  /**
   * `Configuration.set(key, value)` taken literally on the top level: the entry
   * with the key gets the new value in place, or a new entry is appended. The
   * library's own reading of dots in keys is not modelled.
   */
  function Put(entries: seq<Entry>, key: string, node: Node): (r: seq<Entry>)
    ensures Lookup(r, key) == Some(node)
    ensures forall other :: other != key ==> Lookup(r, other) == Lookup(entries, other)
  {
    if Lookup(entries, key).None? then
      var r := entries + [Entry(key, node)];
      assert r[..|r| - 1] == entries;
      r
    else
      ReplaceLookup(entries, key, node);
      Replace(entries, key, node)
  }

  lemma {:induction false} ReplaceLookup(entries: seq<Entry>, key: string, node: Node)
    ensures Lookup(Replace(entries, key, node), key) == if Lookup(entries, key).Some? then Some(node) else None
    ensures forall other :: other != key ==> Lookup(Replace(entries, key, node), other) == Lookup(entries, other)
  {
    if entries != [] {
      var init := entries[..|entries| - 1];
      ReplaceLookup(init, key, node);
      assert Replace(entries, key, node)[..|entries| - 1] == Replace(init, key, node);
    }
  }

  /** `source.getString("v")`: the text of a scalar under the top-level version key, or empty. */
  function VersionOf(source: Config): string
  {
    match Lookup(source.entries, VersionKey)
    case Some(Value(x)) => Stringify(x)
    case _ => ""
  }

  /**
   * What `save` leaves in a configuration: the version under its key, every
   * other message at its key, and every key neither names as it was.
   */
  ghost predicate SavedInto(before: Config, after: Config, messages: map<string, string>, version: string)
  {
    && Lookup(after.entries, VersionKey) == Some(Value(Str(version)))
    && (forall k :: k in messages && k != VersionKey ==> Lookup(after.entries, k) == Some(Value(Str(messages[k]))))
    && (forall k :: k !in messages && k != VersionKey ==> Lookup(after.entries, k) == Lookup(before.entries, k))
  }

  /**
   * `messages.forEach(source::set)` followed by `source.set("v", version)`.
   * The map's iteration order is unspecified, so each key is picked
   * arbitrarily; the contract holds for every order.
   */
  method WriteBack(source: Config, messages: map<string, string>, version: string) returns (written: Config)
    ensures SavedInto(source, written, messages, version)
  {
    written := source;
    var remaining := messages.Keys;
    while remaining != {}
      invariant remaining <= messages.Keys
      invariant forall k :: k in messages && k !in remaining ==> Lookup(written.entries, k) == Some(Value(Str(messages[k])))
      invariant forall k :: k !in messages || k in remaining ==> Lookup(written.entries, k) == Lookup(source.entries, k)
      decreases remaining
    {
      var k :| k in remaining;
      written := Section(Put(written.entries, k, Value(Str(messages[k]))));
      remaining := remaining - {k};
    }
    written := Section(Put(written.entries, VersionKey, Value(Str(version))));
  }

  /**
   * Saving then reading the version back the way `load` does (`getString("v")`)
   * gives the saved version: the stored `v` is a string scalar, which reads as
   * itself.
   */
  lemma SavedVersionReadsBack(before: Config, after: Config, messages: map<string, string>, version: string)
    requires SavedInto(before, after, messages, version)
    ensures VersionOf(after) == version
  {
  }
}

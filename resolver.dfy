/**
 * `check_command` (srcs/Check_Command.py): resolves one line of input against
 * the command table by trying the phrases longest first and taking the first
 * one the line starts with; the rest of the line, stripped, is the argument
 * text.
 *
 * The table is a parameter (the YAML loading is not modelled). A Python dict
 * iterates in insertion order, so that order is the parameter `order`; the
 * lemma ResolutionIndependentOfOrder shows the result does not depend on it.
 */
module Resolver {
  import opened Wrappers
  import opened Text

  /** The entry bound to a command phrase. The optional `args` field of the
      YAML entry is read by neither module and is not modelled. */
  datatype CommandSpec = CommandSpec(script: string)

  /** The command table: phrase -> entry. */
  type Table = map<string, CommandSpec>

  /** `(key, args, commands)` on a match, `(None, None, None)` otherwise. */
  datatype Resolution = Unresolved | Resolved(key: string, args: string, commands: Table)

  /** `order` lists every key of `table` exactly once: the dict's iteration order. */
  predicate IsKeyOrder(order: seq<string>, table: Table) {
    (forall i, j :: 0 <= i < j < |order| ==> order[i] != order[j])
    && (forall k :: k in order ==> k in table)
    && (forall k :: k in table ==> k in order)
  }

  /** No key is longer than one before it. */
  predicate LongestFirst(keys: seq<string>) {
    forall i, j :: 0 <= i < j < |keys| ==> |keys[j]| <= |keys[i]|
  }

  /** Puts `k` in front of the first key that is not longer than it, so that
      `k` precedes the keys of its own length that were already sorted. */
  function InsertByLength(k: string, keys: seq<string>): (r: seq<string>)
    requires LongestFirst(keys)
    ensures LongestFirst(r)
    ensures multiset(r) == multiset(keys) + multiset{k}
    ensures r[0] == k || (keys != [] && r[0] == keys[0])
  {
    if keys == [] || |keys[0]| <= |k| then [k] + keys
    else
      var rest := InsertByLength(k, keys[1..]);
      assert keys == [keys[0]] + keys[1..];
      assert multiset([keys[0]] + rest) == multiset{keys[0]} + multiset(rest);
      LongestFirstCons(keys[0], rest);
      [keys[0]] + rest
  }

  /** A key no shorter than the head of a longest-first list can go in front. */
  lemma LongestFirstCons(x: string, rest: seq<string>)
    requires LongestFirst(rest)
    requires rest == [] || |rest[0]| <= |x|
    ensures LongestFirst([x] + rest)
  {
    var r := [x] + rest;
    forall i, j | 0 <= i < j < |r| ensures |r[j]| <= |r[i]| {
      assert r[j] == rest[j - 1];
      if i > 0 {
        assert r[i] == rest[i - 1];
      } else if j > 1 {
        assert |rest[j - 1]| <= |rest[0]|;
      }
    }
  }

  /** `sorted(keys, key=len, reverse=True)`: the same keys, longest first; keys
      of equal length keep their relative order. */
  function SortByLength(keys: seq<string>): (r: seq<string>)
    ensures LongestFirst(r)
    ensures multiset(r) == multiset(keys)
  {
    if keys == [] then []
    else
      assert keys == [keys[0]] + keys[1..];
      InsertByLength(keys[0], SortByLength(keys[1..]))
  }

  /** The early-return loop: the index of the first key `text` starts with. */
  function FirstPrefix(keys: seq<string>, text: string): (r: Option<nat>)
    ensures r.Some? ==> r.value < |keys| && StartsWith(text, keys[r.value])
    ensures r.Some? ==> forall j :: 0 <= j < r.value ==> !StartsWith(text, keys[j])
    ensures r.None? ==> forall j :: 0 <= j < |keys| ==> !StartsWith(text, keys[j])
  {
    if keys == [] then None
    else if StartsWith(text, keys[0]) then Some(0)
    else match FirstPrefix(keys[1..], text)
      case None => None
      case Some(i) => Some(i + 1)
  }

  /** `k` is a phrase of the table that `text` starts with, and no such phrase
      is longer. */
  ghost predicate IsLongestPrefixKey(table: Table, text: string, k: string) {
    && k in table
    && StartsWith(text, k)
    && forall k' :: k' in table && StartsWith(text, k') ==> |k'| <= |k|
  }

  /** Sorting keeps exactly the table's phrases. */
  lemma SortedKeysAreTableKeys(order: seq<string>, table: Table)
    requires IsKeyOrder(order, table)
    ensures forall k :: k in SortByLength(order) <==> k in table
  {
    var sorted := SortByLength(order);
    forall k ensures k in sorted <==> k in order {
      assert k in sorted <==> k in multiset(sorted);
      assert k in order <==> k in multiset(order);
    }
  }

  /** In a longest-first list, the first key that begins `text` is at least
      as long as every other key that does. */
  lemma FirstPrefixIsLongest(sorted: seq<string>, text: string, i: nat)
    requires LongestFirst(sorted)
    requires FirstPrefix(sorted, text) == Some(i)
    ensures forall k :: k in sorted && StartsWith(text, k) ==> |k| <= |sorted[i]|
  {
    forall k | k in sorted && StartsWith(text, k) ensures |k| <= |sorted[i]| {
      var j :| 0 <= j < |sorted| && sorted[j] == k;
      assert i <= j;
    }
  }

  /** `check_command(text)` over the table `table` iterated in order `order`. */
  function CheckCommand(table: Table, order: seq<string>, text: string): (r: Resolution)
    requires IsKeyOrder(order, table)
    ensures r.Unresolved? <==> forall k :: k in table ==> !StartsWith(text, k)
    ensures r.Resolved? ==> r.commands == table && IsLongestPrefixKey(table, text, r.key)
    ensures r.Resolved? ==> r.args == Strip(text[|r.key|..])
    ensures r.Resolved? ==> r.args == [] || (!IsSpace(r.args[0]) && !IsSpace(r.args[|r.args| - 1]))
  {
    var sorted := SortByLength(order);
    SortedKeysAreTableKeys(order, table);
    match FirstPrefix(sorted, text)
    case None => Unresolved
    case Some(i) =>
      var key := sorted[i];
      FirstPrefixIsLongest(sorted, text, i);
      Resolved(key, Strip(text[|key|..]), table)
  }

  /** Two phrases of the same length that both begin `text` are the same phrase. */
  lemma LongestPrefixKeyUnique(table: Table, text: string, k1: string, k2: string)
    requires IsLongestPrefixKey(table, text, k1) && IsLongestPrefixKey(table, text, k2)
    ensures k1 == k2
  {
    assert |k1| == |k2|;
    assert k1 == text[..|k1|] == k2;
  }

  /** The result does not depend on the dict's iteration order: two phrases of
      equal length are never both prefixes of the same text. */
  lemma ResolutionIndependentOfOrder(table: Table, order1: seq<string>, order2: seq<string>, text: string)
    requires IsKeyOrder(order1, table) && IsKeyOrder(order2, table)
    ensures CheckCommand(table, order1, text) == CheckCommand(table, order2, text)
  {
    var r1 := CheckCommand(table, order1, text);
    var r2 := CheckCommand(table, order2, text);
    if r1.Resolved? {
      LongestPrefixKeyUnique(table, text, r1.key, r2.key);
    }
  }

  /** The resolution is determined by the longest phrase the text starts with. */
  lemma ResolvesToLongestPrefix(table: Table, order: seq<string>, text: string, k: string)
    requires IsKeyOrder(order, table)
    requires IsLongestPrefixKey(table, text, k)
    ensures CheckCommand(table, order, text) == Resolved(k, Strip(text[|k|..]), table)
  {
    var r := CheckCommand(table, order, text);
    LongestPrefixKeyUnique(table, text, r.key, k);
  }

  /** Input that is exactly a phrase resolves to that phrase with no arguments. */
  lemma ExactPhraseResolves(table: Table, order: seq<string>, text: string)
    requires IsKeyOrder(order, table)
    requires text in table
    ensures CheckCommand(table, order, text) == Resolved(text, "", table)
  {
    assert text[..|text|] == text;
    ResolvesToLongestPrefix(table, order, text, text);
    assert text[|text|..] == [];
  }

  /** Of two phrases where one extends the other, input starting with the
      longer phrase never resolves to the shorter one. */
  lemma LongerPhraseWins(table: Table, order: seq<string>, short: string, long: string, text: string)
    requires IsKeyOrder(order, table)
    requires short in table && long in table
    requires StartsWith(long, short) && |short| < |long|
    requires StartsWith(text, long)
    ensures CheckCommand(table, order, text).Resolved?
    ensures CheckCommand(table, order, text).key != short
    ensures |CheckCommand(table, order, text).key| >= |long|
  {
  }

  /** When no phrase is empty, empty input resolves to nothing. */
  lemma EmptyInputUnresolved(table: Table, order: seq<string>)
    requires IsKeyOrder(order, table)
    requires forall k :: k in table ==> k != ""
    ensures CheckCommand(table, order, "") == Unresolved
  {
  }

  /** There is no word-boundary test: with the phrases "ref" and "ref list",
      "ref" directly followed by any word, as in "reflist", resolves to "ref"
      with that word as argument text. */
  lemma NoWordBoundary(table: Table, order: seq<string>, word: string)
    requires IsKeyOrder(order, table)
    requires table.Keys == {"ref", "ref list"}
    requires IsToken(word)
    ensures CheckCommand(table, order, "ref" + word) == Resolved("ref", word, table)
  {
    var text := "ref" + word;
    assert text[..3] == "ref";
    assert text[3] != ' ';
    assert IsLongestPrefixKey(table, text, "ref");
    ResolvesToLongestPrefix(table, order, text, "ref");
    assert text[3..] == [] + word + [];
    StripUnique([], word, []);
  }
}

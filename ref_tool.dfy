/**
 * The decision logic of the reference viewer (scripts/python/ref.py): the
 * colour helper, the sub-command chosen from `sys.argv`, the style given to
 * each line of a reference, and the case-insensitive search.
 *
 * The reference directory is not walked: a lookup result or a list of files
 * is a parameter, and what is printed is a returned sequence of lines, one
 * per `print` call.
 */
module RefTool {
  import opened Wrappers
  import opened Text

  // ---------------------------------------------------------------------------
  // colorize

  /** `colorize(text, color_code)`: the text between the colour sequence and
      the reset sequence. */
  function Colorize(text: string, code: string): (r: string)
    ensures |r| == |text| + |code| + 7
    ensures StartsWith(r, Esc + "[") && EndsWith(r, Reset)
  {
    Esc + "[" + code + "m" + text + Reset
  }

  /** A coloured string contains every part of its text. */
  lemma ColorizeContains(pre: string, t: string, post: string, code: string)
    ensures Contains(Colorize(pre + t + post, code), t)
  {
    var head := Esc + "[" + code + "m" + pre;
    assert Colorize(pre + t + post, code) == head + t + (post + Reset);
    ContainsMiddle(head, t, post + Reset);
  }

  /** The index of the first occurrence of `c` in `s`. */
  function IndexOf(s: string, c: char): (r: Option<nat>)
    ensures r.Some? ==> r.value < |s| && s[r.value] == c && c !in s[..r.value]
    ensures r.None? ==> c !in s
  {
    if s == [] then None
    else if s[0] == c then Some(0)
    else match IndexOf(s[1..], c)
      case None => None
      case Some(k) =>
        assert s[..k + 1] == [s[0]] + s[1..][..k];
        Some(k + 1)
  }

  /** Reads a coloured string back: the colour code up to the first 'm' and
      the text up to the reset sequence. */
  function ParseColorized(s: string): Option<(string, string)> {
    if |s| >= 7 && s[..2] == Esc + "[" && s[|s| - 4..] == Reset then
      var inner := s[2..|s| - 4];
      match IndexOf(inner, 'm')
      case None => None
      case Some(k) => Some((inner[..k], inner[k + 1..]))
    else None
  }

  /** Round trip: a colour code without an 'm' (every code used here) and the
      text can both be read back from the coloured string. */
  lemma ColorizeRoundTrip(text: string, code: string)
    requires 'm' !in code
    ensures ParseColorized(Colorize(text, code)) == Some((code, text))
  {
    var s := Colorize(text, code);
    assert s[..2] == Esc + "[";
    assert s[|s| - 4..] == Reset;
    var inner := s[2..|s| - 4];
    assert inner == code + "m" + text;
    assert inner[|code|] == 'm';
    assert inner[..|code|] == code;
    var k := IndexOf(inner, 'm');
    assert k == Some(|code|);
    assert inner[|code| + 1..] == text;
  }

  // ---------------------------------------------------------------------------
  // The sub-command read from sys.argv (lines 139-160)

  /** What the script does for a given `sys.argv`. */
  datatype Action =
    | Usage                  // no argument: usage, exit status 1
    | ListAll                // "list"
    | SearchUsage            // "search" without a query: usage, exit status 1
    | Search(query: string)  // "search" and a query
    | Show(topic: string)    // anything else names a topic

  /** The script's top level; `argv[0]` is the script's own path. */
  function ParseArgv(argv: seq<string>): (a: Action)
    requires |argv| >= 1
    ensures a == Usage <==> |argv| == 1
    ensures a == ListAll <==> |argv| >= 2 && argv[1] == "list"
    ensures a == SearchUsage <==> |argv| == 2 && argv[1] == "search"
    ensures a.Search? <==> |argv| >= 3 && argv[1] == "search"
    ensures a.Show? <==> |argv| >= 2 && argv[1] != "list" && argv[1] != "search"
    ensures a.Show? ==> a.topic == argv[1]
    ensures a.Search? ==> a.query == Join(" ", argv[2..])
  {
    if |argv| == 1 then Usage
    else if argv[1] == "list" then ListAll
    else if argv[1] == "search" then
      if |argv| < 3 then SearchUsage else Search(Join(" ", argv[2..]))
    else Show(argv[1])
  }

  /** The exit status of the script when it finishes normally: `sys.exit(1)`
      after a usage message, 0 otherwise (also when a topic is not found). An
      uncaught exception in a file-system walk is not modelled. */
  function ExitStatus(a: Action): (code: int)
    ensures code == 0 || code == 1
    ensures code == 1 <==> a == Usage || a == SearchUsage
  {
    if a == Usage || a == SearchUsage then 1 else 0
  }

  /** The lines printed for a call without arguments: the red "Usage:"
      title and one line for each of the three forms of call. */
  function UsageLines(): (r: seq<string>)
    ensures |r| == 4 && Contains(r[0], "Usage:")
    ensures forall i :: 1 <= i < |r| ==> StartsWith(r[i], "  ref ")
  {
    ColorizeContains("\U{274C} ", "Usage:", "", "1;31");
    [ Colorize("\U{274C} " + "Usage:" + "", "1;31"),
      "  ref " + "<topic>         - Show reference for topic",
      "  ref " + "list            - List all available references",
      "  ref " + "search <query>  - Search references by keyword" ]
  }

  /** The line printed for "search" without a query. */
  function SearchUsageLine(): (r: string)
    ensures Contains(r, "Usage:")
  {
    ColorizeContains("\U{274C} ", "Usage:", " ref search <query>", "1;31");
    Colorize("\U{274C} " + "Usage:" + " ref search <query>", "1;31")
  }

  /** What the script prints before `sys.exit(1)`: a usage message exactly
      for the two actions that exit with status 1, and nothing before the
      other actions, which go on to list, search or show. */
  function UsageText(a: Action): (r: seq<string>)
    ensures r != [] <==> ExitStatus(a) == 1
    ensures r != [] ==> Contains(r[0], "Usage:")
  {
    match a
    case Usage => UsageLines()
    case SearchUsage => [SearchUsageLine()]
    case _ => []
  }

  /** Only the first argument decides, except after "search": arguments
      after "list" or after a topic are ignored. */
  lemma ExtraArgumentsIgnored(argv: seq<string>, argv': seq<string>)
    requires |argv| >= 2 && |argv'| >= 2 && argv[1] == argv'[1] && argv[1] != "search"
    ensures ParseArgv(argv) == ParseArgv(argv')
  {
  }

  /** What the script does with the words after its own name: none prints
      the usage, "list" lists, "search" searches for the rest (or prints its
      usage when nothing follows), and any other first word is a topic. */
  lemma ParseWords(script: string, words: seq<string>)
    ensures ParseArgv([script] + words)
            == if words == [] then Usage
               else if words[0] == "list" then ListAll
               else if words[0] == "search" then
                 (if |words| == 1 then SearchUsage else Search(Join(" ", words[1..])))
               else Show(words[0])
  {
    var argv := [script] + words;
    if words != [] {
      assert argv[1] == words[0];
      assert argv[2..] == words[1..];
    }
  }

  /** The query is the remaining arguments joined by single spaces: when they
      are whitespace-free words, as the dispatcher passes them, splitting the
      query gives them back. */
  lemma SearchQueryRoundTrip(argv: seq<string>)
    requires |argv| >= 3 && argv[1] == "search"
    requires forall i :: 2 <= i < |argv| ==> IsToken(argv[i])
    ensures ParseArgv(argv).Search?
    ensures Split(ParseArgv(argv).query) == argv[2..]
  {
    SplitJoin(argv[2..]);
  }

  // ---------------------------------------------------------------------------
  // Line styles in show_reference (lines 79-90)

  datatype LineStyle = Banner | Heading | Section | Comment | Plain

  /** The first rule that matches: "===" banners, "HEADER:"/"PROTOTYPE:"
      headings, upper-case lines ending in ':' as sections, lines whose
      stripped text starts with "//" or "#" as comments, anything else plain. */
  function StyleOf(line: string): (st: LineStyle)
    ensures st == Banner <==> StartsWith(line, "===")
    ensures st == Heading <==> !StartsWith(line, "===")
                               && (StartsWith(line, "HEADER:") || StartsWith(line, "PROTOTYPE:"))
    ensures st == Section <==> !StartsWith(line, "===")
                               && !(StartsWith(line, "HEADER:") || StartsWith(line, "PROTOTYPE:"))
                               && EndsWith(line, ":") && IsUpper(line)
    ensures st == Comment <==> !StartsWith(line, "===")
                               && !(StartsWith(line, "HEADER:") || StartsWith(line, "PROTOTYPE:"))
                               && !(EndsWith(line, ":") && IsUpper(line))
                               && (StartsWith(Strip(line), "//") || StartsWith(Strip(line), "#"))
    ensures st == Plain <==> !StartsWith(line, "===")
                             && !(StartsWith(line, "HEADER:") || StartsWith(line, "PROTOTYPE:"))
                             && !(EndsWith(line, ":") && IsUpper(line))
                             && !(StartsWith(Strip(line), "//") || StartsWith(Strip(line), "#"))
  {
    if StartsWith(line, "===") then Banner
    else if StartsWith(line, "HEADER:") || StartsWith(line, "PROTOTYPE:") then Heading
    else if EndsWith(line, ":") && IsUpper(line) then Section
    else if StartsWith(Strip(line), "//") || StartsWith(Strip(line), "#") then Comment
    else Plain
  }

  /** The colour code of each style; plain lines are printed as they are. */
  function StyleCode(st: LineStyle): string
    requires st != Plain
  {
    match st
    case Banner => "1;36"
    case Heading => "1;33"
    case Section => "1;32"
    case Comment => "0;90"
  }

  /** The line printed for one line of a reference. */
  function RenderLine(line: string): (r: string)
    ensures StyleOf(line) == Plain ==> r == line
    ensures StyleOf(line) != Plain ==>
              var open := Esc + "[" + StyleCode(StyleOf(line)) + "m";
              Framed(r, open, Reset) && r[|open|..|r| - |Reset|] == line
  {
    var st := StyleOf(line);
    if st == Plain then line
    else
      FramedParts(Esc + "[" + StyleCode(st) + "m", line, Reset);
      Colorize(line, StyleCode(st))
  }

  /** Each styled line can be read back, with its colour code, from what is
      printed; a plain line is printed unchanged. */
  lemma RenderLineRecoversLine(line: string)
    ensures StyleOf(line) == Plain ==> RenderLine(line) == line
    ensures StyleOf(line) != Plain ==>
              ParseColorized(RenderLine(line)) == Some((StyleCode(StyleOf(line)), line))
  {
    if StyleOf(line) != Plain {
      var code := StyleCode(StyleOf(line));
      assert 'm' !in code;
      ColorizeRoundTrip(line, code);
    }
  }

  /** A comment line that is upper case and ends with ':' is shown as a
      section, not a comment: the section rule comes first. */
  lemma UpperCaseCommentIsSection(line: string)
    requires StartsWith(line, "#") && EndsWith(line, ":") && IsUpper(line)
    ensures StyleOf(line) == Section
  {
    assert line[0] == '#';
  }

  /** A "//" line, indented or not, is a comment unless it ends with ':': the
      test is made on the stripped line. */
  lemma IndentedCommentIsComment(indent: string, rest: string)
    requires AllSpace(indent)
    requires StartsWith(rest, "//")
    requires !EndsWith(rest, ":")
    ensures StyleOf(indent + rest) == Comment
  {
    var line := indent + rest;
    var c := line[0];
    assert IsSpace(c) || c == '/' by {
      if indent == [] {
        assert line == rest;
        assert rest[..2] == "//";
      } else {
        assert c == indent[0];
      }
    }
    assert !EndsWith(line, ":") by {
      assert line[|line| - 1] == rest[|rest| - 1];
    }
    StartExcluded(line, "===");
    StartExcluded(line, "HEADER:");
    StartExcluded(line, "PROTOTYPE:");
    StripKeepsStart(indent, rest, "//");
  }

  /** A string does not start with a prefix whose first character differs
      from its own. */
  lemma StartExcluded(s: string, p: string)
    requires s != [] && p != [] && s[0] != p[0]
    ensures !StartsWith(s, p)
  {
    if |p| <= |s| {
      assert s[..|p|][0] == s[0];
    }
  }

  /** Stripping leading whitespace followed by `rest` keeps any whitespace-free
      start `p` of `rest`. */
  lemma StripKeepsStart(indent: string, rest: string, p: string)
    requires AllSpace(indent)
    requires StartsWith(rest, p) && p != [] && NoSpace(p)
    ensures StartsWith(Strip(indent + rest), p)
  {
    LStripSpaces(indent, rest);
    var r := RStrip(rest);
    RStripKeeps(rest);
    AllSpaceAt(rest[|r|..], |p| - 1 - |r|);
    assert |p| <= |r| by {
      assert rest[..|p|][|p| - 1] == p[|p| - 1];
    }
    assert r[..|p|] == rest[..|p|];
  }

  // ---------------------------------------------------------------------------
  // show_reference

  /** What looking up and reading a topic's file gives. */
  datatype Lookup = NotFound | Unreadable(error: string) | Content(text: string)

  /** `show_reference(topic)`: every line of the content split on '\n', in
      order, each in its style, then an empty line; or the not-found or the
      read-error message. */
  method ShowReference(topic: string, lookup: Lookup) returns (out: seq<string>)
    ensures lookup == NotFound ==>
              out == [ Colorize("\U{274C} Reference '" + topic + "' not found!", "1;31"),
                       Colorize("\n\U{1F4A1} Try: ref list (to see all available references)", "0;33") ]
    ensures lookup.Unreadable? ==>
              out == [Colorize("\U{274C} Error reading reference: " + lookup.error, "1;31")]
    ensures lookup.Content? ==> ShowsText(lookup.text, out)
    ensures lookup.Content? ==> |out| == CountChar('\n', lookup.text) + 2
    ensures lookup.Content? && lookup.text != [] && lookup.text[|lookup.text| - 1] == '\n' ==>
              out[|out| - 2] == ""
  {
    match lookup
    case NotFound =>
      out := [ Colorize("\U{274C} Reference '" + topic + "' not found!", "1;31"),
               Colorize("\n\U{1F4A1} Try: ref list (to see all available references)", "0;33") ];
    case Unreadable(error) =>
      out := [Colorize("\U{274C} Error reading reference: " + error, "1;31")];
    case Content(text) =>
      out := ShowText(text);
  }

  /** `out` is what ref.py prints for a reference with contents `text`: every
      piece of `split('\n')` once, in order, in its style, then an empty line. */
  ghost predicate ShowsText(text: string, out: seq<string>) {
    var lines := SplitLines(text);
    && |out| == |lines| + 1
    && out[|lines|] == ""
    && forall i :: 0 <= i < |lines| ==> out[i] == RenderLine(lines[i])
  }

  /** The display of a readable reference: n line feeds give n + 1 lines and
      the closing empty line; after a trailing line feed the line before the
      closing one is empty as well. */
  method ShowText(text: string) returns (out: seq<string>)
    ensures ShowsText(text, out)
    ensures |out| == CountChar('\n', text) + 2
    ensures text != [] && text[|text| - 1] == '\n' ==> out[|out| - 2] == ""
  {
    var lines := SplitLines(text);
    var rendered := RenderLines(lines);
    out := rendered + [""];
    RenderedLineCount(text);
    if text != [] && text[|text| - 1] == '\n' {
      assert out[|out| - 2] == rendered[|lines| - 1];
    }
  }

  /** The `for line in lines` loop: each line printed in its style, in order. */
  method RenderLines(lines: seq<string>) returns (out: seq<string>)
    ensures |out| == |lines|
    ensures forall i :: 0 <= i < |lines| ==> out[i] == RenderLine(lines[i])
  {
    out := [];
    for i := 0 to |lines|
      invariant |out| == i
      invariant forall k :: 0 <= k < i ==> out[k] == RenderLine(lines[k])
    {
      out := out + [RenderLine(lines[i])];
    }
  }

  /** The pieces `split('\n')` gives: one more than the line feeds, the
      last one empty (and so printed empty) after a trailing line feed. */
  lemma RenderedLineCount(text: string)
    ensures |SplitLines(text)| == CountChar('\n', text) + 1
    ensures text != [] && text[|text| - 1] == '\n' ==>
              RenderLine(SplitLines(text)[|SplitLines(text)| - 1]) == ""
  {
    SplitLinesJoin(text);
    if text != [] && text[|text| - 1] == '\n' {
      SplitLinesTrailingFeed(text);
      assert StyleOf("") == Plain;
    }
  }

  // ---------------------------------------------------------------------------
  // search_references

  /** `query_lower in content`, both lower-cased. */
  predicate Matches(query: string, content: string)
    ensures query == [] ==> Matches(query, content)
    ensures Matches(query, content) ==> |query| <= |content|
  {
    assert OccursAt(Lower(content), Lower(query), 0) <== query == [];
    Contains(Lower(content), Lower(query))
  }

  /** The search ignores case: a file matches exactly when the query occurs in
      it with every letter compared without regard to case. */
  lemma MatchesIgnoresCase(query: string, content: string)
    ensures Matches(query, content) <==>
              exists i :: 0 <= i <= |content| - |query| && SameLettersAt(content, query, i)
  {
    var lc, lq := Lower(content), Lower(query);
    forall i | 0 <= i <= |content| - |query|
      ensures OccursAt(lc, lq, i) <==> SameLettersAt(content, query, i)
    {
      if SameLettersAt(content, query, i) {
        assert lc[i..i + |lq|] == lq;
      }
      if OccursAt(lc, lq, i) {
        forall j | 0 <= j < |query| ensures LowerChar(content[i + j]) == LowerChar(query[j]) {
          assert lc[i..i + |lq|][j] == lq[j];
        }
      }
    }
  }

  /** `query` occurs at position `i` of `content` up to the case of letters. */
  predicate SameLettersAt(content: string, query: string, i: nat)
    requires i + |query| <= |content|
  {
    forall j :: 0 <= j < |query| ==> LowerChar(content[i + j]) == LowerChar(query[j])
  }

  /** A reference file as the directory walk yields it; `content` is None
      when reading it raised an exception. */
  datatype RefFile = RefFile(topic: string, category: string, content: Option<string>)

  predicate FileMatches(query: string, f: RefFile) {
    f.content.Some? && Matches(query, f.content.value)
  }

  /** The `found` list after the walk over `files`. */
  function Found(query: string, files: seq<RefFile>): (r: seq<(string, string)>)
    ensures |r| <= |files|
  {
    if files == [] then []
    else
      var f := files[|files| - 1];
      Found(query, files[..|files| - 1]) + (if FileMatches(query, f) then [(f.topic, f.category)] else [])
  }

  /** A (topic, category) pair is found exactly when some readable file with
      that topic and category matches the query. */
  lemma {:induction false} FoundIffMatches(query: string, files: seq<RefFile>, topic: string, category: string)
    ensures (topic, category) in Found(query, files) <==>
              exists i :: 0 <= i < |files| && FileMatches(query, files[i])
                          && files[i].topic == topic && files[i].category == category
  {
    if files != [] {
      var init := files[..|files| - 1];
      FoundIffMatches(query, init, topic, category);
      assert forall i :: 0 <= i < |init| ==> init[i] == files[i];
    }
  }

  /** `print_header(text)`. */
  function Header(text: string): (r: seq<string>)
    ensures |r| == 3 && Contains(r[1], text)
    ensures StartsWith(r[0], "\n") && EndsWith(r[2], "\n")
  {
    var rule := seq(60, _ => '=');
    ColorizeContains("  ", text, "", "1;36");
    assert "  " + text + "" == "  " + text;
    ["\n" + Colorize(rule, "1;36"), Colorize("  " + text, "1;36"), Colorize(rule, "1;36") + "\n"]
  }

  /** The line printed for one file found: its topic in green, then its
      category in parentheses. */
  function FoundLine(topic: string, category: string): (r: string)
    ensures Contains(r, topic) && EndsWith(r, " (" + category + ")")
  {
    var head := "  \U{2022} " + Esc + "[" + "1;32" + "m";
    var tail := " (" + category + ")";
    var r := "  \U{2022} " + Colorize(topic, "1;32") + " (" + category + ")";
    assert r == head + topic + (Reset + tail);
    ContainsMiddle(head, topic, Reset + tail);
    assert r == ("  \U{2022} " + Colorize(topic, "1;32")) + tail;
    r
  }

  /** The lines printed for the files found: one line per file, in order,
      and the hint; or one line quoting the query when nothing was found. */
  function FoundLines(query: string, found: seq<(string, string)>): (r: seq<string>)
    ensures found == [] ==> |r| == 1 && Contains(r[0], "'" + query + "'")
    ensures found != [] ==> |r| == |found| + 1
    ensures found != [] ==> forall i :: 0 <= i < |found| ==>
              Contains(r[i], found[i].0) && EndsWith(r[i], " (" + found[i].1 + ")")
  {
    if found == [] then
      ColorizeContains("No references found containing ", "'" + query + "'", "", "0;31");
      assert "No references found containing " + ("'" + query + "'") + ""
             == "No references found containing '" + query + "'";
      [Colorize("No references found containing '" + query + "'", "0;31")]
    else
      seq(|found|, i requires 0 <= i < |found| => FoundLine(found[i].0, found[i].1))
      + [Colorize("\n\U{1F4A1} Use: ref <topic> to view", "0;33")]
  }

  /** `search_references(query)`; `tree` is None when the reference directory
      does not exist, and otherwise the reference files in walk order. */
  method SearchReferences(query: string, tree: Option<seq<RefFile>>) returns (out: seq<string>)
    ensures tree == None ==>
              out == Header("\U{1F50D} Search Results for: '" + query + "'")
                     + [Colorize("\U{274C} No references directory found!", "1;31")]
    ensures tree.Some? ==>
              out == Header("\U{1F50D} Search Results for: '" + query + "'")
                     + FoundLines(query, Found(query, tree.value)) + [""]
  {
    out := Header("\U{1F50D} Search Results for: '" + query + "'");
    if tree == None {
      out := out + [Colorize("\U{274C} No references directory found!", "1;31")];
      return;
    }
    var files := tree.value;
    var found: seq<(string, string)> := [];
    var i := 0;
    while i < |files|
      invariant 0 <= i <= |files|
      invariant found == Found(query, files[..i])
    {
      var f := files[i];
      assert files[..i + 1][..i] == files[..i];
      if f.content.Some? && Matches(query, f.content.value) {
        found := found + [(f.topic, f.category)];
      }
      i := i + 1;
    }
    assert files[..|files|] == files;
    out := out + FoundLines(query, found) + [""];
  }
}

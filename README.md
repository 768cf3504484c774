# Jarvis command dispatcher, modelled in Dafny

Jarvis is an interactive command dispatcher. The user types a line at the
`Jarvis > ` prompt. The line is resolved against a table of command phrases.
The phrase's script is then launched, with the rest of the line as its
arguments, and its exit status is reported. The reference viewer `ref.py` is
one such script. It prints colourised reference files, lists them, or searches
them.

This project models the decision logic of that system and proves what it
guarantees:

- `Text` models the Python string operations the code relies on: `strip()`,
  `split()`, `split('\n')`, `" ".join`, `startswith`, `endswith`, substring `in`,
  `lower()`, `isupper()` and `str(int)`. Each comes with its characterising
  lemmas (strip removes whitespace at the ends only, split/join round trips,
  the decimal numeral determines the number).
- `Resolver` models `check_command`: the phrases are sorted longest first and the
  first one the line starts with is taken. The remaining text, stripped, becomes
  the argument text. The dict's iteration order is a parameter, and the result
  is proved not to depend on it.
- `Dispatcher` models `run_command`. It covers the argument vector (the phrase's
  sub-command, then the user's tokens), the choice of interpreter by suffix and
  of captured or inherited I/O, and the rejection of other script types. It also
  covers which lines are printed for a given stdout, stderr and exit code.
- `RefTool` models `ref.py`: `colorize`, the sub-command chosen from `sys.argv`,
  the style of each reference line, `show_reference` (a loop over the lines)
  and `search_references` (a loop over the files with a case-insensitive match).
- `Jarvis` models one turn of the prompt loop. It also holds end-to-end lemmas
  from the typed line to the launched vector and to the action `ref.py` then
  takes. The lemmas are stated for any phrase word `cmd`; the configured phrases
  "ref" and "ref list" are instances.

The code does a plain `startswith` with no word-boundary check, so "reflist"
resolves to "ref" with argument "list" (`Resolver.NoWordBoundary`). Launcher
failures are not caught by the code, so the model has no outcome for them.

Environment inputs are parameters:

- the command table (`Table`) and its iteration order;
- the typed line;
- what the child process returns (`Outcome`);
- whether a reference file was found and read (`Lookup`);
- the reference files the directory walk yields (`RefFile`).

What is printed is returned as a sequence of messages or lines, one per `print`
call.

## Model

| member | source | states |
|---|---|---|
| Text.StartsWith | srcs/Check_Command.py:7 | `s.startswith(p)`: p is no longer than s and s begins with p |
| Text.EndsWith | srcs/run_command.py:16 | `s.endswith(p)`: p is no longer than s and s ends with p |
| Text.Contains | srcs/run_command.py:18 | `t in s`: t occurs in s as a contiguous run of characters at some position |
| Text.Join | srcs/run_command.py:13 | `sep.join(parts)`: the parts in order with sep between neighbours; "" for no parts |
| Text.IsUpper | scripts/python/ref.py:85 | `s.isupper()`: some character is an upper-case letter and none is a lower-case letter |
| Text.Strip | srcs/Check_Command.py:8 | the stripped string neither starts nor ends with whitespace |
| Text.StripIsSlice | srcs/Check_Command.py:8 | the stripped string is a slice of the input with only whitespace before and after it |
| Text.StripUnique | srcs/Check_Command.py:8 | whitespace + t + whitespace strips to t whenever t has no whitespace at its ends |
| Text.StripIdempotent | jarvis.py:8 | stripping the already stripped line again changes nothing |
| Text.Split | srcs/run_command.py:8 | every token is non-empty and whitespace-free; a string starting with a non-space starts its first token with it; "" has no tokens |
| Text.SplitConcat | srcs/run_command.py:8 | any non-empty run of whitespace separates tokens: split(a + ws + b) == split(a) + split(b) |
| Text.SplitOfStrip | srcs/run_command.py:8 | splitting the stripped argument text gives the same tokens as splitting the unstripped text |
| Text.SplitJoin | srcs/run_command.py:12-13 | joining whitespace-free words with single spaces and splitting gives the words back |
| Text.SplitLines | scripts/python/ref.py:79 | split('\n') yields at least one piece and no piece holds a line feed |
| Text.SplitLinesJoin | scripts/python/ref.py:79 | there is one piece more than there are line feeds, and joining the pieces with '\n' rebuilds the text |
| Text.SplitLinesTrailingFeed | scripts/python/ref.py:79 | a text ending in '\n' splits into at least two pieces, the last one empty |
| Text.ContainsMiddle | srcs/run_command.py:18 | `t in a + t + b` always holds |
| Text.IntToString | srcs/run_command.py:23 | the numeral is non-empty, starts with '-' exactly for a negative code, and is digits after that |
| Text.Lower | scripts/python/ref.py:106 | lower() keeps the length and lowers each letter in place |
| Text.NatToString | srcs/run_command.py:23 | the numeral is non-empty, all digits, and has no leading zero |
| Text.IntToStringRoundTrip | srcs/run_command.py:23 | the printed exit code parses back to the code |
| Text.IntToStringInjective | srcs/run_command.py:23 | two different codes never print the same numeral |
| Resolver.InsertByLength | srcs/Check_Command.py:6 | inserting into a longest-first list keeps it longest first and adds exactly the key |
| Resolver.SortByLength | srcs/Check_Command.py:6 | sorted(key=len, reverse=True) is longest first and a permutation of the keys |
| Resolver.SortedKeysAreTableKeys | srcs/Check_Command.py:6 | the sorted list holds exactly the table's phrases |
| Resolver.FirstPrefix | srcs/Check_Command.py:6-10 | the loop returns the first key that is a prefix, none before it is, and None only when no key is |
| Resolver.FirstPrefixIsLongest | srcs/Check_Command.py:6-7 | in a longest-first list the first prefix found is at least as long as every other prefix |
| Resolver.CheckCommand | srcs/Check_Command.py:3-10 | unresolved exactly when no phrase is a prefix; otherwise the longest prefix phrase of the table, the table itself, and args == strip(text[len(key):]), which has no whitespace at its ends |
| Resolver.LongestPrefixKeyUnique | srcs/Check_Command.py:6-7 | two longest prefix phrases of one text are the same phrase |
| Resolver.ResolutionIndependentOfOrder | srcs/Check_Command.py:6 | the result is the same for every iteration order of the table |
| Resolver.ResolvesToLongestPrefix | srcs/Check_Command.py:6-9 | the line resolves to its longest prefix phrase with the stripped remainder |
| Resolver.ExactPhraseResolves | srcs/Check_Command.py:7-8 | a line equal to a phrase resolves to it with args "" |
| Resolver.LongerPhraseWins | srcs/Check_Command.py:6-7 | of two nested phrases a line starting with the longer never resolves to the shorter |
| Resolver.EmptyInputUnresolved | srcs/Check_Command.py:7-10 | with no empty phrase, the empty line resolves to nothing |
| Resolver.NoWordBoundary | srcs/Check_Command.py:7-8 | with phrases "ref" and "ref list", "ref" followed directly by a word resolves to "ref" with that word as argument text |
| Dispatcher.UserTokens | srcs/run_command.py:8 | None and "" give no tokens; every token is non-empty and whitespace-free |
| Dispatcher.Subcommand | srcs/run_command.py:11-13 | a sub-command exists exactly when the phrase has a space; it is the phrase's words after the first, joined by single spaces |
| Dispatcher.Rest | srcs/run_command.py:13 | `parts[1:]`: every part but the first, and the empty list for no parts |
| Dispatcher.ArgsList | srcs/run_command.py:8-14 | a phrase without a space passes exactly the user tokens; one with a space passes its sub-command, then the user tokens |
| Dispatcher.UserTokensRoundTrip | srcs/run_command.py:8 | words typed with single spaces come back as exactly those tokens |
| Dispatcher.UserTokensIgnoreSpacing | srcs/run_command.py:8 | the amount of whitespace between pieces of argument text does not change the tokens |
| Dispatcher.SubcommandIsTrailingWords | srcs/run_command.py:11-14 | for a phrase of two or more words the argument list is the words after the first, joined by single spaces, then the user tokens |
| Dispatcher.TrailingSpacePrependsEmpty | srcs/run_command.py:11-14 | a one-word phrase followed by a space prepends the empty argument before the user tokens |
| Dispatcher.TwoWordPhraseArguments | srcs/run_command.py:10-14 | a phrase "first sub" passes [sub] + the user tokens |
| Dispatcher.PlanCommand | srcs/run_command.py:16-45 | unsupported exactly when the path ends in neither .py nor .sh; otherwise argv == [python3 or bash, script] + args, captured exactly for a .py path not containing "ref.py" |
| Dispatcher.ShellScriptsInherit | srcs/run_command.py:38-40 | a .sh script is launched with inherited I/O |
| Dispatcher.Render | srcs/run_command.py:23-44 | stdout is printed as it is; stderr follows the red "Error:" label and a space; the exit code and the quoted phrase sit between their coloured text and the reset sequence |
| Dispatcher.ExitLines | srcs/run_command.py:35-36 | a warning line is printed only for a non-zero code and carries that code |
| Dispatcher.OutLines | srcs/run_command.py:31-32 | the stdout line is printed only in captured mode, stripped and non-blank |
| Dispatcher.ErrLines | srcs/run_command.py:33-34 | the "Error:" line is printed only in captured mode, with stderr stripped and non-blank |
| Dispatcher.Report | srcs/run_command.py:31-36 | lines come in the order stdout, "Error:", warning, each at most once; each carries the child's stripped stream or non-zero code |
| Dispatcher.RunCommand | srcs/run_command.py:3-45 | an unsupported script prints exactly the unsupported-type line; a launched one prints the report for its I/O mode |
| Dispatcher.ExitWarningIffNonZero | srcs/run_command.py:16-42 | in every mode there is a warning exactly when the code is non-zero; it is the last line and its text contains the code |
| Dispatcher.ExitWarningDeterminesCode | srcs/run_command.py:23 | equal warning lines mean equal exit codes |
| Dispatcher.ErrorLineIffStderr | srcs/run_command.py:33-34 | the "Error:" line appears exactly in captured mode with non-blank stderr |
| Dispatcher.OutputLineFirst | srcs/run_command.py:31-36 | the stdout line appears exactly in captured mode with non-blank stdout, and then it is first |
| Dispatcher.InheritedPrintsOnlyWarning | srcs/run_command.py:18-23 | with inherited I/O at most the warning is printed |
| Dispatcher.UnsupportedNamesPhrase | srcs/run_command.py:43-45 | an unsupported script launches nothing and prints one line, no warning, naming the phrase in quotes |
| Dispatcher.UnsupportedLineQuotesPhrase | srcs/run_command.py:44 | the unsupported-type line contains the phrase in single quotes |
| RefTool.Colorize | scripts/python/ref.py:9-11 | the result starts with the colour sequence, ends with the reset sequence and is 7 characters longer than text and code |
| RefTool.ColorizeRoundTrip | scripts/python/ref.py:9-11 | the colour code and the text can be read back from the coloured string |
| RefTool.ParseArgv | scripts/python/ref.py:139-160 | usage exactly without arguments; list exactly for "list"; search usage exactly for a lone "search"; a search exactly for "search" with more, its query the remaining arguments joined by single spaces; a topic exactly for any other first argument |
| RefTool.ExitStatus | scripts/python/ref.py:145-154 | when ref.py finishes normally, the status is 0 or 1, and 1 exactly after a usage message |
| RefTool.UsageLines | scripts/python/ref.py:141-144 | four lines: the "Usage:" title, then one "  ref …" line per form of call |
| RefTool.SearchUsageLine | scripts/python/ref.py:153 | the line contains "Usage:" |
| RefTool.UsageText | scripts/python/ref.py:139-154 | a usage message is printed exactly for the actions that exit with status 1 |
| RefTool.ExtraArgumentsIgnored | scripts/python/ref.py:147-160 | apart from "search", arguments after the first change nothing |
| RefTool.ParseWords | scripts/python/ref.py:139-160 | the action for the words after the script name, case by case, with the query joined by single spaces |
| RefTool.SearchQueryRoundTrip | scripts/python/ref.py:151-156 | the query splits back into the search words |
| RefTool.StyleOf | scripts/python/ref.py:81-90 | the first matching rule decides: banner, heading, section, comment and plain each hold exactly when their test holds and no earlier test does |
| RefTool.StyleCode | scripts/python/ref.py:81-88 | the colour codes: banner 1;36, heading 1;33, section 1;32, comment 0;90 |
| RefTool.RenderLine | scripts/python/ref.py:81-90 | a plain line is printed as it is; a styled line is the line between its style's colour sequence and the reset sequence |
| RefTool.RenderLineRecoversLine | scripts/python/ref.py:81-90 | a plain line is printed unchanged; a styled line can be read back with its style's colour code |
| RefTool.UpperCaseCommentIsSection | scripts/python/ref.py:85-88 | an upper-case "#" line ending in ':' is shown as a section, not a comment |
| RefTool.IndentedCommentIsComment | scripts/python/ref.py:87-88 | a "//" line is a comment however it is indented, unless it ends in ':' |
| RefTool.ShowReference | scripts/python/ref.py:64-95 | not found and read errors print their messages; otherwise every line of split('\n') is printed once, in order, in its style, then an empty line; n line feeds give n + 1 lines and the closing empty line, and after a trailing line feed the last line before it is empty |
| RefTool.ShowText | scripts/python/ref.py:79-92 | every piece of split('\n') printed once, in order, in its style, then an empty line: n line feeds give n + 2 printed lines, and after a trailing line feed the line before the closing one is empty too |
| RefTool.RenderLines | scripts/python/ref.py:80-90 | every line is printed once, in order, in its style |
| RefTool.Matches | scripts/python/ref.py:106-113 | the empty query matches every file, and a match needs the query to be no longer than the content |
| RefTool.MatchesIgnoresCase | scripts/python/ref.py:106-113 | a file matches exactly when the query occurs in it comparing letters without regard to case |
| RefTool.Found | scripts/python/ref.py:105-120 | at most one entry per file walked |
| RefTool.FoundIffMatches | scripts/python/ref.py:109-120 | a (topic, category) pair is found exactly when a readable file with that topic and category matches |
| RefTool.Header | scripts/python/ref.py:13-17 | three lines: one starting with a line feed, the text, one ending with a line feed |
| RefTool.FoundLine | scripts/python/ref.py:124 | the line contains the topic and ends with the category in parentheses |
| RefTool.FoundLines | scripts/python/ref.py:122-127 | one line per file found, in order, then the hint; or one line quoting the query when nothing was found |
| RefTool.SearchReferences | scripts/python/ref.py:97-129 | the header, then the no-directory line, or the found lines (or the not-found line) and an empty line |
| Jarvis.HandleLine | jarvis.py:8-13 | the loop stops exactly on "exit" or "quit"; a line runs a command only when it resolves to a non-empty phrase, and then runs it with the resolved argument text |
| Jarvis.NonZeroExitDoesNotStop | jarvis.py:7-13 | a launched script with a non-zero code leaves the warning with that code as the last line, and the loop goes on |
| Jarvis.EmptyPhraseNeverDispatched | jarvis.py:11-13 | an empty phrase that is the only match is ignored |
| Jarvis.LaunchVector | jarvis.py:8-13 | a typed line is launched as [interpreter, script] + the arguments built from the rest of the stripped line, with the mode chosen by the path |
| Jarvis.ArgsOfStrippedRest | srcs/Check_Command.py:8 | stripping the argument text does not change the argument list |
| Jarvis.TwoWordPhraseReachesScript | srcs/run_command.py:10-27 | "first sub words…", however padded, launches [python3, script, sub] + words, inherited exactly when the path contains "ref.py" |
| Jarvis.ListPhraseReachesList | scripts/python/ref.py:132-150 | "cmd list words…" bound to ref.py launches [python3, script, "list"] + words with inherited I/O, and ref.py lists |
| Jarvis.WordPhraseReachesRefPy | scripts/python/ref.py:134-160 | "cmd words…" bound to ref.py launches [python3, script] + words with inherited I/O, and ref.py takes the action its first word selects |
| Jarvis.ScriptAloneIsUsage | scripts/python/ref.py:139-145 | ref.py with no argument prints the usage lines and exits with status 1 |
| Jarvis.InheritedExitOne | srcs/run_command.py:18-23 | with inherited I/O exit code 1 is reported as the single warning line |
| Jarvis.BarePhraseWarnsOfUsage | scripts/python/ref.py:139-145 | the ref.py phrase alone selects usage, and its exit status 1 becomes the one warning line |

## Left out

- YAML loading (`open_yaml`): the table is a parameter. Each entry keeps only its `script`, because no modelled code reads the optional `args` field.
- `subprocess.run` and the child processes: their result is the `Outcome` parameter. Launcher or permission failures raise in the code and are not caught, so the model has no outcome for them.
- The `prompt_toolkit` prompt, the welcome line and the unbounded loop in jarvis.py: one turn is `Jarvis.HandleLine`. An end-of-input or interrupt at the prompt is not modelled.
- `list_references` and `find_reference` walk the file system. The list action is only chosen (`RefTool.ListAll`), not carried out. The lookup result and the walked file list are parameters, and the walk order is not modelled.
- scripts/python/makepdf.py is not part of this model.
- Text.IsSpace: whitespace is modelled over ASCII (tab to carriage return, 0x1C-0x1F, space). The Unicode spaces Python's `strip()` and `split()` also remove are not modelled.
- Text.Lower: only the letters A-Z are lowered; Unicode case mapping is not modelled.
- Text.IsUpper: only A-Z and a-z are cased characters; other cased Unicode letters are not modelled.
- RefTool.ExitStatus: only a normal finish is modelled. An uncaught exception in the file-system walks ends ref.py with status 1, and the model does not represent it. Examples are `rglob` rejecting an absolute or malformed topic such as "/tmp/notes" or "a**" in `find_reference`, and `iterdir` failing in `list_references`.
- RefTool.Found: its own contract only bounds the length; which entries are found is stated by RefTool.FoundIffMatches.
- Exceptions raised while printing or reading a file other than the read error of `show_reference` (reading in `search_references` is modelled as a file whose content is absent).

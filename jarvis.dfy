/**
 * One turn of the prompt loop in jarvis.py, and what the user's line leads
 * to from end to end: the phrase it resolves to, the vector the script is
 * launched with, and the sub-command ref.py then runs.
 *
 * The prompt itself is not modelled: the typed line is the parameter `raw`,
 * and what the launched script returns is the parameter `child`.
 */
module Jarvis {
  import opened Wrappers
  import opened Text
  import opened Resolver
  import opened Dispatcher
  import RefTool

  /** What one line typed at the prompt does. */
  datatype Step = Quit | Ignored | Ran(dispatch: Dispatch)

  /** The body of `run_jarvis`'s loop: strip the line, stop on "exit" or
      "quit", resolve it, and dispatch only when a non-empty phrase matched. */
  function HandleLine(raw: string, table: Table, order: seq<string>, child: Outcome): (s: Step)
    requires IsKeyOrder(order, table)
    ensures s == Quit <==> Strip(raw) == "exit" || Strip(raw) == "quit"
    ensures s.Ran? ==> var r := CheckCommand(table, order, Strip(raw));
                       && r.Resolved? && r.key != ""
                       && s.dispatch == RunCommand(table, r.key, Some(r.args), child)
    ensures s == Ignored ==> var r := CheckCommand(table, order, Strip(raw));
                             r.Unresolved? || r.key == ""
  {
    var text := Strip(raw);
    if text == "exit" || text == "quit" then Quit
    else
      match CheckCommand(table, order, text)
      case Unresolved => Ignored
      case Resolved(key, args, commands) =>
        if key != "" then Ran(RunCommand(commands, key, Some(args), child)) else Ignored
  }

  /** A failing script never ends the session: the loop stops only on "exit"
      or "quit", and a launched script that exits with a non-zero code leaves
      exactly one warning carrying that code. */
  lemma NonZeroExitDoesNotStop(raw: string, table: Table, order: seq<string>, child: Outcome)
    requires IsKeyOrder(order, table)
    requires child.returncode != 0
    requires HandleLine(raw, table, order, child).Ran?
    requires HandleLine(raw, table, order, child).dispatch.plan.Launch?
    ensures var d := HandleLine(raw, table, order, child).dispatch;
            && Strip(raw) != "exit" && Strip(raw) != "quit"
            && d.messages[|d.messages| - 1] == ExitWarning(child.returncode)
            && Contains(Printed(d.messages)[|d.messages| - 1], IntToString(child.returncode))
  {
    var d := HandleLine(raw, table, order, child).dispatch;
    ExitWarningIffNonZero(d.plan.mode, child);
  }

  /** An empty phrase in the table matches every line but is never
      dispatched: `if cmd_key:` treats it as no match. */
  lemma EmptyPhraseNeverDispatched(raw: string, table: Table, order: seq<string>, child: Outcome)
    requires IsKeyOrder(order, table)
    requires "" in table
    requires forall k :: k in table && k != "" ==> !StartsWith(Strip(raw), k)
    requires Strip(raw) != "exit" && Strip(raw) != "quit"
    ensures HandleLine(raw, table, order, child) == Ignored
  {
    var text := Strip(raw);
    assert StartsWith(text, "");
    var r := CheckCommand(table, order, text);
    assert r.Resolved? && |r.key| == 0;
  }

  /** From the typed line to the launched vector: after the interpreter and
      the script come the arguments built from the phrase and from the rest
      of the line, and it makes no difference that the rest was stripped. */
  lemma LaunchVector(raw: string, table: Table, order: seq<string>, child: Outcome, key: string, args: seq<string>)
    requires IsKeyOrder(order, table)
    requires IsLongestPrefixKey(table, Strip(raw), key) && key != ""
    requires Strip(raw) != "exit" && Strip(raw) != "quit"
    requires EndsWith(table[key].script, ".py") || EndsWith(table[key].script, ".sh")
    requires args == ArgsList(key, Some(Strip(raw)[|key|..]))
    ensures var s := HandleLine(raw, table, order, child);
            var script := table[key].script;
            && s.Ran? && s.dispatch.plan.Launch?
            && s.dispatch.plan.argv == [if EndsWith(script, ".py") then "python3" else "bash", script] + args
            && (s.dispatch.plan.mode == Captured <==> EndsWith(script, ".py") && !Contains(script, "ref.py"))
  {
    var text := Strip(raw);
    ResolvesToLongestPrefix(table, order, text, key);
    var args := Strip(text[|key|..]);
    var d := RunCommand(table, key, Some(args), child);
    assert HandleLine(raw, table, order, child) == Ran(d);
    ArgsOfStrippedRest(key, text[|key|..]);
  }

  /** Stripping the argument text does not change the argument list. */
  lemma ArgsOfStrippedRest(key: string, rest: string)
    ensures ArgsList(key, Some(Strip(rest))) == ArgsList(key, Some(rest))
  {
    SplitOfStrip(rest);
    assert UserTokens(Some(Strip(rest))) == UserTokens(Some(rest));
  }

  /** A line holding a character that neither "exit" nor "quit" holds is
      not a request to quit. */
  lemma NotAQuitWord(line: string, c: char)
    requires c in line && c !in "exit" && c !in "quit"
    ensures line != "exit" && line != "quit"
  {
  }

  /** The text typed after a phrase: nothing, or a space and the words. */
  function Tail(words: seq<string>): string {
    if words == [] then "" else " " + Join(" ", words)
  }

  /** What follows `head` in `head + Tail(words)` gives back the words as
      argument tokens. */
  lemma TailTokens(head: string, words: seq<string>)
    requires forall i :: 0 <= i < |words| ==> IsToken(words[i])
    ensures (head + Tail(words))[..|head|] == head
    ensures UserTokens(Some((head + Tail(words))[|head|..])) == words
  {
    var tail := Tail(words);
    assert (head + tail)[..|head|] == head;
    assert (head + tail)[|head|..] == tail;
    if words != [] {
      var j := Join(" ", words);
      assert AllSpace(" ");
      SplitLeadingSpace(" ", j);
      SplitJoin(words);
    }
  }

  /** A two-word phrase followed by words is not a request to quit, and what
      follows the phrase gives the phrase's second word and then the words
      as arguments. */
  lemma TwoWordLine(first: string, sub: string, words: seq<string>)
    requires IsToken(first) && IsToken(sub)
    requires forall i :: 0 <= i < |words| ==> IsToken(words[i])
    ensures var line := first + " " + sub + Tail(words);
            && line != "exit" && line != "quit"
            && ArgsList(first + " " + sub, Some(line[|first + " " + sub|..])) == [sub] + words
  {
    var key := first + " " + sub;
    var line := key + Tail(words);
    assert line[|first|] == ' ';
    NotAQuitWord(line, ' ');
    TailTokens(key, words);
    TwoWordPhraseArguments(first, sub, Some(line[|key|..]));
  }

  /** A one-word phrase followed by words is not a request to quit when the
      word is not, and what follows the phrase is exactly the words. */
  lemma OneWordLine(cmd: string, words: seq<string>)
    requires IsToken(cmd) && cmd != "exit" && cmd != "quit"
    requires forall i :: 0 <= i < |words| ==> IsToken(words[i])
    ensures var line := cmd + Tail(words);
            && line != "exit" && line != "quit"
            && ArgsList(cmd, Some(line[|cmd|..])) == words
  {
    var line := cmd + Tail(words);
    if words == [] {
      assert line == cmd;
    } else {
      assert line[|cmd|] == ' ';
      NotAQuitWord(line, ' ');
    }
    assert ' ' !in cmd;
    TailTokens(cmd, words);
  }

  lemma PrependTwo(a: string, b: string, c: string, words: seq<string>)
    ensures [a, b] + ([c] + words) == [a, b, c] + words
  {
    assert ([a, b] + ([c] + words))[..3] == [a, b, c];
  }

  /** A typed two-word phrase followed by words reaches its script with the
      phrase's second word first and then exactly the typed words, however
      the line was padded with whitespace. */
  lemma TwoWordPhraseReachesScript(raw: string, table: Table, order: seq<string>, child: Outcome,
                                   first: string, sub: string, words: seq<string>)
    requires IsKeyOrder(order, table)
    requires IsToken(first) && IsToken(sub)
    requires forall i :: 0 <= i < |words| ==> IsToken(words[i])
    requires Strip(raw) == first + " " + sub + Tail(words)
    requires IsLongestPrefixKey(table, Strip(raw), first + " " + sub)
    requires EndsWith(table[first + " " + sub].script, ".py")
    ensures var s := HandleLine(raw, table, order, child);
            && s.Ran?
            && s.dispatch.plan.argv == ["python3", table[first + " " + sub].script, sub] + words
            && (s.dispatch.plan.mode == Inherited <==> Contains(table[first + " " + sub].script, "ref.py"))
  {
    var key := first + " " + sub;
    var script := table[key].script;
    assert Strip(raw) != "exit" && Strip(raw) != "quit"
           && ArgsList(key, Some(Strip(raw)[|key|..])) == [sub] + words by {
      TwoWordLine(first, sub, words);
    }
    PrependTwo("python3", script, sub, words);
    LaunchVector(raw, table, order, child, key, [sub] + words);
  }

  /** ref.py run as `[script, "list"]` followed by anything lists its
      references. */
  lemma ListArgv(script: string, words: seq<string>)
    ensures RefTool.ParseArgv((["python3", script, "list"] + words)[1..]) == RefTool.ListAll
  {
    assert (["python3", script, "list"] + words)[1..] == [script] + (["list"] + words);
    RefTool.ParseWords(script, ["list"] + words);
  }

  lemma ListIsToken()
    ensures IsToken("list")
  {
  }

  /** A phrase `cmd + " list"` bound to ref.py ("ref list" in the command
      table) reaches it as `sys.argv == [script, "list"]` followed by the
      words typed after it, with the terminal handed to it, and ref.py then
      lists its references. */
  lemma ListPhraseReachesList(raw: string, table: Table, order: seq<string>, child: Outcome,
                              cmd: string, words: seq<string>)
    requires IsKeyOrder(order, table)
    requires IsToken(cmd)
    requires forall i :: 0 <= i < |words| ==> IsToken(words[i])
    requires Strip(raw) == cmd + " " + "list" + Tail(words)
    requires IsLongestPrefixKey(table, Strip(raw), cmd + " " + "list")
    requires EndsWith(table[cmd + " " + "list"].script, ".py") && Contains(table[cmd + " " + "list"].script, "ref.py")
    ensures var s := HandleLine(raw, table, order, child);
            && s.Ran?
            && s.dispatch.plan == Launch(["python3", table[cmd + " " + "list"].script, "list"] + words, Inherited)
            && RefTool.ParseArgv(s.dispatch.plan.argv[1..]) == RefTool.ListAll
  {
    ListIsToken();
    TwoWordPhraseReachesScript(raw, table, order, child, cmd, "list", words);
    ListArgv(table[cmd + " " + "list"].script, words);
  }

  /** A one-word phrase `cmd` bound to ref.py ("ref" in the command table)
      passes ref.py exactly the words typed after it: "ref search iterator"
      searches for "iterator", "ref vector" shows the topic "vector", and
      "ref" alone prints the usage and exits with status 1, which the
      dispatcher reports as a warning. */
  lemma WordPhraseReachesRefPy(raw: string, table: Table, order: seq<string>, child: Outcome,
                               cmd: string, words: seq<string>)
    requires IsKeyOrder(order, table)
    requires IsToken(cmd) && cmd != "exit" && cmd != "quit"
    requires forall i :: 0 <= i < |words| ==> IsToken(words[i])
    requires Strip(raw) == cmd + Tail(words)
    requires IsLongestPrefixKey(table, Strip(raw), cmd)
    requires EndsWith(table[cmd].script, ".py") && Contains(table[cmd].script, "ref.py")
    ensures var s := HandleLine(raw, table, order, child);
            && s.Ran?
            && s.dispatch.plan == Launch(["python3", table[cmd].script] + words, Inherited)
            && RefTool.ParseArgv([table[cmd].script] + words)
               == if words == [] then RefTool.Usage
                  else if words[0] == "list" then RefTool.ListAll
                  else if words[0] == "search" then
                    (if |words| == 1 then RefTool.SearchUsage else RefTool.Search(Join(" ", words[1..])))
                  else RefTool.Show(words[0])
  {
    OneWordLine(cmd, words);
    LaunchVector(raw, table, order, child, cmd, words);
    RefTool.ParseWords(table[cmd].script, words);
  }

  /** ref.py run with no argument after the script prints its usage. */
  lemma ScriptAloneIsUsage(script: string)
    ensures RefTool.ParseArgv([script]) == RefTool.Usage
    ensures RefTool.UsageText(RefTool.ParseArgv([script])) == RefTool.UsageLines()
    ensures RefTool.ExitStatus(RefTool.ParseArgv([script])) == 1
  {
    assert [script] + [] == [script];
    RefTool.ParseWords(script, []);
  }

  /** With the terminal handed to the child, an exit code of 1 is reported
      as the single warning line. */
  lemma InheritedExitOne(child: Outcome)
    requires child.returncode == 1
    ensures Report(Inherited, child) == [ExitWarning(1)]
  {
    InheritedPrintsOnlyWarning(child);
    ExitWarningIffNonZero(Inherited, child);
  }

  /** The phrase bound to ref.py typed alone makes it print its usage and
      exit with status 1; the session reports that exit code as its only
      line and goes on. */
  lemma BarePhraseWarnsOfUsage(raw: string, table: Table, order: seq<string>, child: Outcome, cmd: string)
    requires IsKeyOrder(order, table)
    requires IsToken(cmd) && cmd != "exit" && cmd != "quit"
    requires Strip(raw) == cmd
    requires IsLongestPrefixKey(table, Strip(raw), cmd)
    requires EndsWith(table[cmd].script, ".py") && Contains(table[cmd].script, "ref.py")
    requires child.returncode == RefTool.ExitStatus(RefTool.Usage)
    ensures RefTool.ParseArgv([table[cmd].script]) == RefTool.Usage
    ensures var s := HandleLine(raw, table, order, child);
            s.Ran? && s.dispatch.messages == [ExitWarning(1)]
  {
    ScriptAloneIsUsage(table[cmd].script);
    LaunchVector(raw, table, order, child, cmd, ArgsList(cmd, Some(Strip(raw)[|cmd|..])));
    InheritedExitOne(child);
  }
}

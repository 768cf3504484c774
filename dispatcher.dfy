/**
 * `run_command` (srcs/run_command.py): builds the argument vector of the
 * script bound to a resolved phrase, picks the interpreter and the I/O mode
 * from the script path, and decides which lines to print once the child has
 * exited.
 *
 * The child process itself is not modelled: what `subprocess.run` returns is
 * the parameter `child` (an Outcome), and what is printed is a sequence of
 * Messages, one per `print` call, with Render giving the exact line.
 */
module Dispatcher {
  import opened Wrappers
  import opened Text
  import opened Resolver

  /** Captured: `capture_output=True`, the output is printed after the child
      exits. Inherited: the child writes to the terminal itself. */
  datatype IoMode = Captured | Inherited

  /** What `run_command` decides before it calls `subprocess.run`. */
  datatype Plan = Unsupported | Launch(argv: seq<string>, mode: IoMode)

  /** What `subprocess.run` hands back. In inherited mode the two streams are
      not read. */
  datatype Outcome = Outcome(stdout: string, stderr: string, returncode: int)

  /** One `print` call of `run_command`. */
  datatype Message =
    | Output(text: string)
    | ErrorOutput(text: string)
    | ExitWarning(code: int)
    | UnsupportedType(key: string)

  /** The decision of one call together with the lines it prints. */
  datatype Dispatch = Dispatch(plan: Plan, messages: seq<Message>)

  // ---------------------------------------------------------------------------
  // The argument vector

  /** `args_text.split() if args_text else []`; `None` is the absent argument text. */
  function UserTokens(argsText: Option<string>): (r: seq<string>)
    ensures forall i :: 0 <= i < |r| ==> IsToken(r[i])
    ensures argsText == None || argsText == Some("") ==> r == []
  {
    match argsText
    case None => []
    case Some(t) => if |t| == 0 then [] else Split(t)
  }

  /** For a phrase containing a space: its words after the first, joined by
      single spaces. */
  function Subcommand(key: string): (r: Option<string>)
    ensures r.Some? <==> ' ' in key
    ensures r.Some? ==> Split(r.value) == Rest(Split(key))
    ensures r.Some? ==> r.value == Join(" ", Split(r.value))
  {
    if ' ' in key then
      var words := Rest(Split(key));
      assert forall i :: 0 <= i < |words| ==> IsToken(words[i]) by {
        forall i | 0 <= i < |words| ensures IsToken(words[i]) {
          assert words[i] == Split(key)[i + 1];
        }
      }
      SplitJoin(words);
      Some(Join(" ", words))
    else None
  }

  /** Python's `parts[1:]`, which is empty for an empty list. */
  function Rest(parts: seq<string>): seq<string> {
    if parts == [] then [] else parts[1..]
  }

  /** `args_list` after lines 8-14: the sub-command of a multi-word phrase, if
      any, then the user's tokens. */
  function ArgsList(key: string, argsText: Option<string>): (r: seq<string>)
    ensures ' ' !in key ==> r == UserTokens(argsText)
    ensures ' ' in key ==> |r| == |UserTokens(argsText)| + 1 && r[1..] == UserTokens(argsText)
    ensures ' ' in key ==> r == [Subcommand(key).value] + UserTokens(argsText)
  {
    match Subcommand(key)
    case None => UserTokens(argsText)
    case Some(sub) => [sub] + UserTokens(argsText)
  }

  /** Tokens are what the user typed between runs of whitespace: the text
      rebuilt from them with single spaces splits back to the same tokens. */
  lemma UserTokensRoundTrip(tokens: seq<string>)
    requires forall i :: 0 <= i < |tokens| ==> IsToken(tokens[i])
    ensures UserTokens(Some(Join(" ", tokens))) == tokens
  {
    SplitJoin(tokens);
  }

  /** However much whitespace separates two pieces of argument text, the tokens
      are those of the first piece followed by those of the second. */
  lemma UserTokensIgnoreSpacing(a: string, sp: string, b: string)
    requires sp != [] && AllSpace(sp)
    ensures UserTokens(Some(a + sp + b)) == UserTokens(Some(a)) + UserTokens(Some(b))
  {
    SplitConcat(a, sp, b);
    assert Split("") == [];
  }

  /** The prepended argument of a multi-word phrase is exactly the phrase's
      words after the first: splitting it gives those words back. */
  lemma SubcommandIsTrailingWords(words: seq<string>, argsText: Option<string>)
    requires |words| >= 2
    requires forall i :: 0 <= i < |words| ==> IsToken(words[i])
    ensures var key := Join(" ", words);
            && ' ' in key
            && |ArgsList(key, argsText)| == 1 + |UserTokens(argsText)|
            && Split(ArgsList(key, argsText)[0]) == words[1..]
            && ArgsList(key, argsText) == [Join(" ", words[1..])] + UserTokens(argsText)
  {
    var key := Join(" ", words);
    assert key[|words[0]|] == ' ';
    SplitJoin(words);
    SplitJoin(words[1..]);
    assert Rest(Split(key)) == words[1..];
  }

  /** A one-word phrase ending in a space still counts as multi-word: it
      prepends the empty argument, since it has no words after the first. */
  lemma TrailingSpacePrependsEmpty(word: string, argsText: Option<string>)
    requires IsToken(word)
    ensures ArgsList(word + " ", argsText) == [""] + UserTokens(argsText)
  {
    assert (word + " ")[|word|] == ' ';
    SplitTrailingSpace(word, " ");
    SplitWord(word);
  }

  /** A two-word phrase such as "ref list" contributes its second word as
      the first argument, ahead of whatever the user typed after it. */
  lemma TwoWordPhraseArguments(first: string, sub: string, argsText: Option<string>)
    requires IsToken(first) && IsToken(sub)
    ensures ArgsList(first + " " + sub, argsText) == [sub] + UserTokens(argsText)
  {
    var key := first + " " + sub;
    assert key[|first|] == ' ';
    SplitWord(first);
    SplitWord(sub);
    SplitConcat(first, " ", sub);
    assert Split(key) == [first, sub];
  }

  // ---------------------------------------------------------------------------
  // Interpreter and I/O mode

  /** `run_command` up to `subprocess.run`: a `.py` script runs under `python3`,
      with inherited I/O when its path contains "ref.py" and captured I/O
      otherwise; a `.sh` script runs under `bash` with inherited I/O; any
      other script is rejected. */
  function PlanCommand(table: Table, key: string, argsText: Option<string>): (p: Plan)
    requires key in table
    ensures var script := table[key].script;
            && (p.Unsupported? <==> !EndsWith(script, ".py") && !EndsWith(script, ".sh"))
            && (p.Launch? ==> p.argv == [if EndsWith(script, ".py") then "python3" else "bash", script]
                                          + ArgsList(key, argsText))
            && (p.Launch? ==> (p.mode == Captured <==> EndsWith(script, ".py") && !Contains(script, "ref.py")))
  {
    var script := table[key].script;
    var args := ArgsList(key, argsText);
    if EndsWith(script, ".py") then
      if Contains(script, "ref.py") then Launch(["python3", script] + args, Inherited)
      else Launch(["python3", script] + args, Captured)
    else if EndsWith(script, ".sh") then Launch(["bash", script] + args, Inherited)
    else Unsupported
  }

  /** A `.sh` script never has its output captured. */
  lemma ShellScriptsInherit(table: Table, key: string, argsText: Option<string>)
    requires key in table && EndsWith(table[key].script, ".sh")
    ensures PlanCommand(table, key, argsText).Launch?
    ensures PlanCommand(table, key, argsText).mode == Inherited
  {
  }

  // ---------------------------------------------------------------------------
  // Reporting

  /** The start of the exit-code warning, up to the code. */
  const WarningPrefix: string := Esc + "[93m\U{26A0}\U{FE0F}  Script exited with code "

  /** The red "Error:" label and the space `print` puts before stderr. */
  const ErrorPrefix: string := Esc + "[91mError:" + Reset + " "

  /** The start of the unsupported-type line, up to the quoted phrase. */
  const UnsupportedPrefix: string := Esc + "[91mUnsupported script type for command "

  /** The exact line each `print` call writes: stdout as it is, stderr after
      the red label, and the exit code and the quoted phrase each framed by
      their coloured text and the reset sequence. */
  function Render(m: Message): (r: string)
    ensures m.Output? ==> r == m.text
    ensures m.ErrorOutput? ==> StartsWith(r, ErrorPrefix) && r[|ErrorPrefix|..] == m.text
    ensures m.ExitWarning? ==>
              Framed(r, WarningPrefix, Reset) && r[|WarningPrefix|..|r| - |Reset|] == IntToString(m.code)
    ensures m.UnsupportedType? ==>
              Framed(r, UnsupportedPrefix, Reset) && r[|UnsupportedPrefix|..|r| - |Reset|] == "'" + m.key + "'"
  {
    match m
    case Output(t) => t
    case ErrorOutput(t) =>
      FramedParts(ErrorPrefix, t, "");
      assert ErrorPrefix + t + "" == ErrorPrefix + t;
      ErrorPrefix + t
    case ExitWarning(c) =>
      FramedParts(WarningPrefix, IntToString(c), Reset);
      WarningPrefix + IntToString(c) + Reset
    case UnsupportedType(k) =>
      FramedParts(UnsupportedPrefix, "'" + k + "'", Reset);
      UnsupportedPrefix + ("'" + k + "'") + Reset
  }

  /** Where each kind of line comes in the report. */
  function Rank(m: Message): nat {
    match m
    case Output(_) => 0
    case ErrorOutput(_) => 1
    case ExitWarning(_) => 2
    case UnsupportedType(_) => 3
  }

  function ExitLines(code: int): (r: seq<Message>)
    ensures forall m :: m in r ==> m == ExitWarning(code) && code != 0
  {
    if code != 0 then [ExitWarning(code)] else []
  }

  /** The stripped stdout, printed in captured mode when it is not blank. */
  function OutLines(mode: IoMode, stdout: string): (r: seq<Message>)
    ensures forall m :: m in r ==> m == Output(Strip(stdout)) && mode == Captured && Strip(stdout) != ""
  {
    if mode == Captured && Strip(stdout) != "" then [Output(Strip(stdout))] else []
  }

  /** The stripped stderr behind "Error:", printed in captured mode when it is
      not blank. */
  function ErrLines(mode: IoMode, stderr: string): (r: seq<Message>)
    ensures forall m :: m in r ==> m == ErrorOutput(Strip(stderr)) && mode == Captured && Strip(stderr) != ""
  {
    if mode == Captured && Strip(stderr) != "" then [ErrorOutput(Strip(stderr))] else []
  }

  /** The lines printed once the child has exited: in captured mode its
      stripped stdout, then its stripped stderr behind "Error:", each only if
      not blank; in every mode a warning when the exit code is not zero. Each
      kind of line comes at most once, in that order. */
  function Report(mode: IoMode, child: Outcome): (r: seq<Message>)
    ensures forall i, j :: 0 <= i < j < |r| ==> Rank(r[i]) < Rank(r[j])
    ensures forall m :: m in r ==> Rank(m) < 3
    ensures forall m :: m in r && m.Output? ==> mode == Captured && m.text == Strip(child.stdout) != ""
    ensures forall m :: m in r && m.ErrorOutput? ==> mode == Captured && m.text == Strip(child.stderr) != ""
    ensures forall m :: m in r && m.ExitWarning? ==> m.code == child.returncode != 0
  {
    var o := OutLines(mode, child.stdout);
    var e := ErrLines(mode, child.stderr);
    var x := ExitLines(child.returncode);
    ReportParts(o, e, x);
    o + e + x
  }

  /** One optional line of each of the first three ranks, concatenated, come
      in increasing rank and each line comes from its own part. */
  lemma ReportParts(o: seq<Message>, e: seq<Message>, x: seq<Message>)
    requires |o| <= 1 && |e| <= 1 && |x| <= 1
    requires forall m :: m in o ==> m.Output?
    requires forall m :: m in e ==> m.ErrorOutput?
    requires forall m :: m in x ==> m.ExitWarning?
    ensures var r := o + e + x;
            && (forall i, j :: 0 <= i < j < |r| ==> Rank(r[i]) < Rank(r[j]))
            && (forall m :: m in r && m.Output? ==> m in o)
            && (forall m :: m in r && m.ErrorOutput? ==> m in e)
            && (forall m :: m in r && m.ExitWarning? ==> m in x)
            && (forall m :: m in r ==> !m.UnsupportedType?)
  {
    var r := o + e + x;
    forall i, j | 0 <= i < j < |r| ensures Rank(r[i]) < Rank(r[j]) {
      if i < |o| {
        assert r[i] == o[i] && o[i] in o;
        if j < |o| + |e| {
          assert r[j] == e[j - |o|] && e[j - |o|] in e;
        } else {
          assert r[j] == x[j - |o| - |e|] && x[j - |o| - |e|] in x;
        }
      } else {
        assert r[i] == e[i - |o|] && e[i - |o|] in e;
        assert r[j] == x[j - |o| - |e|] && x[j - |o| - |e|] in x;
      }
    }
  }

  /** `run_command`: an unsupported script prints one line naming the phrase
      and launches nothing; otherwise the script is launched and reported. */
  function RunCommand(table: Table, key: string, argsText: Option<string>, child: Outcome): (d: Dispatch)
    requires key in table
    ensures d.plan == PlanCommand(table, key, argsText)
    ensures d.plan.Unsupported? ==> d.messages == [UnsupportedType(key)]
    ensures d.plan.Launch? ==> d.messages == Report(d.plan.mode, child)
  {
    match PlanCommand(table, key, argsText)
    case Unsupported => Dispatch(Unsupported, [UnsupportedType(key)])
    case Launch(argv, mode) => Dispatch(Launch(argv, mode), Report(mode, child))
  }

  /** The printed lines, one per `print` call. */
  function Printed(ms: seq<Message>): (r: seq<string>)
    ensures |r| == |ms| && forall i :: 0 <= i < |ms| ==> r[i] == Render(ms[i])
  {
    seq(|ms|, i requires 0 <= i < |ms| => Render(ms[i]))
  }

  predicate HasWarning(ms: seq<Message>) {
    exists i :: 0 <= i < |ms| && ms[i].ExitWarning?
  }

  predicate HasErrorOutput(ms: seq<Message>) {
    exists i :: 0 <= i < |ms| && ms[i].ErrorOutput?
  }

  /** In every mode, a non-zero exit code gives exactly one warning, as the
      last line, whose text carries the code in decimal; a zero code gives
      none. */
  lemma ExitWarningIffNonZero(mode: IoMode, child: Outcome)
    ensures var r := Report(mode, child);
            && (HasWarning(r) <==> child.returncode != 0)
            && (forall i :: 0 <= i < |r| && r[i].ExitWarning? ==> i == |r| - 1)
            && (child.returncode != 0 ==> r[|r| - 1] == ExitWarning(child.returncode))
            && (child.returncode != 0 ==> Contains(Printed(r)[|r| - 1], IntToString(child.returncode)))
  {
    var r := Report(mode, child);
    var c := child.returncode;
    forall i | 0 <= i < |r| && r[i].ExitWarning? ensures i == |r| - 1 {
      assert r[i] in r;
    }
    if c != 0 {
      assert r[|r| - 1] == ExitWarning(c);
      assert Printed(r)[|r| - 1] == WarningPrefix + IntToString(c) + Reset;
      ContainsMiddle(WarningPrefix, IntToString(c), Reset);
    } else {
      assert !HasWarning(r) by {
        forall i | 0 <= i < |r| ensures !r[i].ExitWarning? {
          assert r[i] in r;
        }
      }
    }
  }

  /** The decimal code in a warning determines the exit code: two different
      codes never print the same warning. */
  lemma ExitWarningDeterminesCode(c1: int, c2: int)
    requires Render(ExitWarning(c1)) == Render(ExitWarning(c2))
    ensures c1 == c2
  {
    IntToStringInjective(c1, c2);
  }

  /** The "Error:" line appears exactly when output is captured and stderr is
      not blank: a script that writes only to stdout never produces it. */
  lemma ErrorLineIffStderr(mode: IoMode, child: Outcome)
    ensures HasErrorOutput(Report(mode, child)) <==> mode == Captured && Strip(child.stderr) != ""
  {
    var r := Report(mode, child);
    if mode == Captured && Strip(child.stderr) != "" {
      var k := if Strip(child.stdout) != "" then 1 else 0;
      assert r[k] == ErrorOutput(Strip(child.stderr));
    }
  }

  /** The stdout line appears exactly when output is captured and stdout is
      not blank, and it comes before every other line. */
  lemma OutputLineFirst(mode: IoMode, child: Outcome)
    ensures var r := Report(mode, child);
            (exists i :: 0 <= i < |r| && r[i].Output?) <==> mode == Captured && Strip(child.stdout) != ""
    ensures var r := Report(mode, child);
            mode == Captured && Strip(child.stdout) != "" ==> r[0] == Output(Strip(child.stdout))
  {
  }

  /** With inherited I/O nothing of the child's streams is printed: only the
      warning, if any. */
  lemma InheritedPrintsOnlyWarning(child: Outcome)
    ensures forall m :: m in Report(Inherited, child) ==> m == ExitWarning(child.returncode)
    ensures |Report(Inherited, child)| <= 1
  {
  }

  /** An unsupported script prints one line that names the phrase in quotes,
      launches nothing and so warns about no exit code. */
  lemma UnsupportedNamesPhrase(table: Table, key: string, argsText: Option<string>, child: Outcome)
    requires key in table
    requires !EndsWith(table[key].script, ".py") && !EndsWith(table[key].script, ".sh")
    ensures var d := RunCommand(table, key, argsText, child);
            && d.plan == Unsupported
            && |d.messages| == 1
            && !HasWarning(d.messages)
            && Contains(Printed(d.messages)[0], "'" + key + "'")
  {
    var d := RunCommand(table, key, argsText, child);
    assert d.messages == [UnsupportedType(key)];
    UnsupportedLineQuotesPhrase(key);
  }

  lemma UnsupportedLineQuotesPhrase(key: string)
    ensures Contains(Render(UnsupportedType(key)), "'" + key + "'")
  {
    ContainsMiddle(UnsupportedPrefix, "'" + key + "'", Reset);
  }
}

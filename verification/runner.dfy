/**
 The command runner's decision: what `run` does with the process argument
 list, returned as a value instead of being carried out. The first token,
 downcased, is looked up among the command names; a known command is
 stripped from the list, the rest goes through the option scan, and the
 command class is constructed with the options and run with the remaining
 arguments. An empty list shows the help screen; anything else aborts with
 an invalid-command message.
 */
module CommandRunner {
  import opened Text
  import opened Commands
  import opened OptionTable

  /** The three ways the first token can be read. */
  datatype Selection =
    | Known(name: string, tail: seq<string>)
    | NoArguments
    | UnknownCommand(token: string)

  /** What `run` ends up doing. */
  datatype Outcome =
    | Dispatch(command: Command, options: Options, args: seq<string>)
    | ShowHelp
    | Invalid(token: string)
    | OptionFailure(error: OptionError)

  /** The dispatch decision on the first token, before any option is looked at. */
  function Classify(registry: seq<Command>, argv: seq<string>): (s: Selection)
    ensures s.Known? <==> |argv| > 0 && Downcase(argv[0]) in Names(registry)
    ensures s.NoArguments? <==> argv == []
    ensures s.UnknownCommand? <==> |argv| > 0 && Downcase(argv[0]) !in Names(registry)
    ensures s.Known? ==> s.name == Downcase(argv[0]) && [argv[0]] + s.tail == argv
    ensures s.UnknownCommand? ==> s.token == argv[0]
  {
    if |argv| > 0 && Downcase(argv[0]) in Names(registry) then
      assert argv == [argv[0]] + argv[1..];
      Known(Downcase(argv[0]), argv[1..])
    else if argv == [] then NoArguments
    else UnknownCommand(argv[0])
  }

  /** `CommandRunner.run` on the argument list `argv`. */
  function Run(registry: seq<Command>, argv: seq<string>): (o: Outcome)
    ensures argv == [] ==> o == ShowHelp
    ensures o.Invalid? <==> |argv| > 0 && Downcase(argv[0]) !in Names(registry)
    ensures o.Invalid? ==> o.token == argv[0]
    ensures o.Dispatch? ==>
      && |argv| > 0
      && o.command in registry
      && o.command.name == Downcase(argv[0])
      && o.options.Keys <= AllowedKeys(o.command.name)
      && ValuesTyped(o.options)
      && multiset(o.args) <= multiset(argv[1..])
    ensures o.ShowHelp? && argv != [] ==>
      && Downcase(argv[0]) in Names(registry)
      && exists i :: 1 <= i < |argv| && IsHelpFlag(argv[i])
    ensures o.OptionFailure? ==> Downcase(argv[0]) in Names(registry) && o.error.flag in argv[1..]
  {
    match Classify(registry, argv)
    case Known(name, tail) =>
      (match ParseOptions(name, tail)
       case Parsed(options, args) => Dispatch(Lookup(registry, name), options, args)
       case HelpRequested =>
         assert forall i :: 0 <= i < |tail| ==> tail[i] == argv[i + 1];
         ShowHelp
       case Rejected(e) => OptionFailure(e))
    case NoArguments => ShowHelp
    case UnknownCommand(token) => Invalid(token)
  }

  /** The message `run` aborts with for an unknown first token. */
  function InvalidCommandMessage(token: string): (m: string)
    ensures |m| == |token| + 17
    ensures m[..16] == "Invalid command " && m[16..|m| - 1] == token && m[|m| - 1] == '.'
  {
    "Invalid command " + token + "."
  }

  /**
   An unknown first token aborts with the invalid-command message, which
   quotes that token as it was typed.
   */
  lemma InvalidRunMessage(registry: seq<Command>, argv: seq<string>)
    requires |argv| > 0 && Downcase(argv[0]) !in Names(registry)
    ensures Run(registry, argv).Invalid?
    ensures InvalidCommandMessage(Run(registry, argv).token) == "Invalid command " + argv[0] + "."
  {
  }

  /** Case does not matter: two spellings of the same command name lead to the same outcome. */
  lemma CaseInsensitiveDispatch(registry: seq<Command>, a: string, b: string, rest: seq<string>)
    requires Downcase(a) == Downcase(b)
    requires Downcase(a) in Names(registry)
    ensures Run(registry, [a] + rest) == Run(registry, [b] + rest)
    ensures !Run(registry, [a] + rest).Invalid?
  {
    assert ([a] + rest)[1..] == rest && ([b] + rest)[1..] == rest;
  }

  /** `START` selects the `start` command, and the command name never reaches the option scan. */
  lemma UpperCaseCommand(registry: seq<Command>, rest: seq<string>)
    requires "start" in Names(registry)
    ensures Run(registry, ["START"] + rest) == Run(registry, ["start"] + rest)
    ensures Run(registry, ["start"] + rest).Dispatch? ==> Run(registry, ["start"] + rest).command.name == "start"
  {
    assert Downcase("START") == "start";
    LiteralNamesLowerCase();
    CaseInsensitiveDispatch(registry, "START", "start", rest);
  }

  /**
   A help flag as the FIRST token is not an option at all: no command name
   (a downcased Ruby constant name) starts with `-`, so the runner reports it
   as an invalid command.
   */
  lemma HelpFlagFirstIsInvalid(registry: seq<Command>, h: string, rest: seq<string>)
    requires forall c :: c in registry ==> c.name == "" || c.name[0] != '-'
    requires IsHelpFlag(h)
    ensures Run(registry, [h] + rest) == Invalid(h)
  {
    assert Downcase(h)[0] == '-';
    assert ([h] + rest)[0] == h;
  }

  /**
   A help flag after a known command shows help and never runs the command,
   whatever follows it, as long as the tokens before it are positional
   arguments or switches of that command.
   */
  lemma HelpAfterCommandShowsHelp(registry: seq<Command>, c: string, pre: seq<string>, h: string, post: seq<string>)
    requires Downcase(c) in Names(registry)
    requires AllSimple(Downcase(c), pre)
    requires IsHelpFlag(h)
    ensures Run(registry, [c] + pre + [h] + post) == ShowHelp
  {
    var argv := [c] + pre + [h] + post;
    assert argv[0] == c;
    assert argv[1..] == pre + [h] + post;
    HelpStopsScan(Downcase(c), pre, h, post);
  }

  /**
   A known command followed by simple tokens is dispatched to the first class
   with that name, with exactly the switches given and the positional
   arguments in order; the command name itself is not among them.
   */
  lemma SimpleCommandLineDispatches(registry: seq<Command>, c: string, toks: seq<string>)
    requires Downcase(c) in Names(registry)
    requires AllSimple(Downcase(c), toks)
    ensures Run(registry, [c] + toks)
         == Dispatch(Lookup(registry, Downcase(c)), AllOn(Switches(Downcase(c), toks)), Positionals(toks))
  {
    assert ([c] + toks)[0] == c && ([c] + toks)[1..] == toks;
    SimpleArgumentsParse(Downcase(c), toks);
  }

  /** The story switch reaches the command as the raw string it was given. */
  lemma StoryIdPassedRaw(registry: seq<Command>, c: string, f: string, id: string, post: seq<string>)
    requires Downcase(c) in Names(registry)
    requires IsStoryFlag(f)
    requires AllSimple(Downcase(c), post)
    ensures var o := Run(registry, [c, f, id] + post);
      o.Dispatch? && StoryId in o.options && o.options[StoryId] == Id(id)
  {
    assert ([c, f, id] + post)[0] == c && ([c, f, id] + post)[1..] == [f, id] + post;
    StoryTakesRawValue(Downcase(c), f, id, post, map[], []);
  }

  /** An attached story id (`-S42`, `--story=42`) reaches the command raw as well. */
  lemma AttachedStoryIdPassedRaw(registry: seq<Command>, c: string, t: string, v: string, post: seq<string>)
    requires Downcase(c) in Names(registry)
    requires (t == "-S" + v && v != "") || t == "--story=" + v
    requires AllSimple(Downcase(c), post)
    ensures var o := Run(registry, [c, t] + post);
      o.Dispatch? && StoryId in o.options && o.options[StoryId] == Id(v)
  {
    assert ([c, t] + post)[0] == c && ([c, t] + post)[1..] == [t] + post;
    AttachedStoryTakesRawValue(Downcase(c), t, v, post, map[], []);
  }

  /** A known command whose options parse is dispatched with exactly the parsed options and arguments. */
  lemma DispatchWhenParsed(registry: seq<Command>, c: string, toks: seq<string>, options: Options, args: seq<string>)
    requires Downcase(c) in Names(registry)
    requires ParseOptions(Downcase(c), toks) == Parsed(options, args)
    ensures Run(registry, [c] + toks) == Dispatch(Lookup(registry, Downcase(c)), options, args)
  {
    assert ([c] + toks)[0] == c && ([c] + toks)[1..] == toks;
  }

  /** The literal command names used below are already lower-case. */
  lemma LiteralNamesLowerCase()
    ensures Downcase("start") == "start" && Downcase("finish") == "finish"
  {
    assert IsCommandName("start") && IsCommandName("finish");
    CommandNameIsLowerCase("start");
    CommandNameIsLowerCase("finish");
  }

  /** `start --use-current` runs start with only the use-current switch set. */
  lemma StartUseCurrent(registry: seq<Command>)
    requires "start" in Names(registry)
    ensures Run(registry, ["start", "--use-current"]) == Dispatch(Lookup(registry, "start"), map[UseCurrent := On], [])
  {
    LiteralNamesLowerCase();
    SwitchTable("start", UseCurrent);
    DispatchWhenParsed(registry, "start", ["--use-current"], map[UseCurrent := On], []);
    assert ["start"] + ["--use-current"] == ["start", "--use-current"];
  }

  /** `finish --no-merge --no-delete` runs finish with exactly those two switches set. */
  lemma FinishNoMergeNoDelete(registry: seq<Command>)
    requires "finish" in Names(registry)
    ensures Run(registry, ["finish", "--no-merge", "--no-delete"])
         == Dispatch(Lookup(registry, "finish"), map[NoMerge := On, NoDelete := On], [])
  {
    LiteralNamesLowerCase();
    FinishSkipsMergeAndDelete();
    DispatchWhenParsed(registry, "finish", ["--no-merge", "--no-delete"], map[NoMerge := On, NoDelete := On], []);
    assert ["finish"] + ["--no-merge", "--no-delete"] == ["finish", "--no-merge", "--no-delete"];
  }

  /** A switch registered for another command is refused: finish has no `--use-current`. */
  lemma FinishRefusesUseCurrent(registry: seq<Command>)
    requires "finish" in Names(registry)
    ensures Run(registry, ["finish", "--use-current"]) == OptionFailure(InvalidOption("--use-current"))
  {
    LiteralNamesLowerCase();
    SwitchTable("finish", UseCurrent);
    assert ["finish", "--use-current"][1..] == [Spelling(UseCurrent)];
  }
}

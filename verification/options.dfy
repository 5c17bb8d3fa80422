/**
 The per-command flag table and the option scan that fills the options hash
 before a command is constructed.

 The scan is an abstraction of `OptionParser#parse!` in its default (permuting)
 mode, restricted to what the runner registers: tokens are read left to
 right; `--` ends option processing; any other token of two or more
 characters starting with `-` is an option; every other token is a positional
 argument and is kept, in order, for the command's `run`. A switch that takes
 an argument (`-S`/`--story`) consumes the following token whatever it looks
 like, or takes the value attached to it (`-SID`, `--story=ID`).
 */
module OptionTable {
  import opened Text
  import opened Wrappers

  /** The keys the runner can store in the options hash. */
  datatype OptionKey = StoryId | UseCurrent | PullRequest | NoComplete | NoDelete | NoMerge

  /** A stored value: the raw story id string, or `true` for a switch. */
  datatype OptionValue = Id(raw: string) | On

  type Options = map<OptionKey, OptionValue>

  /** The errors `OptionParser` raises out of the runner. */
  datatype OptionError = MissingArgument(flag: string) | InvalidOption(flag: string)

  datatype ParseResult =
    | Parsed(options: Options, args: seq<string>)
    | HelpRequested
    | Rejected(error: OptionError)

  predicate IsHelpFlag(t: string) {
    t == "-h" || t == "--help"
  }

  predicate IsStoryFlag(t: string) {
    t == "-S" || t == "--story"
  }

  /** A token the parser treats as an option rather than a positional argument. */
  predicate IsOptionToken(t: string) {
    |t| >= 2 && t[0] == '-' && t != "--"
  }

  /** A story id written in the same token as its switch: `-SID` or `--story=ID`. */
  function AttachedStory(t: string): (v: Option<string>)
    ensures v.Some? ==> IsOptionToken(t) && !IsHelpFlag(t) && !IsStoryFlag(t)
    ensures v.Some? ==> (t == "-S" + v.value || t == "--story=" + v.value)
    ensures |t| > 2 && t[0] == '-' && t[1] == 'S' ==> v == Some(t[2..])
    ensures |t| >= 8 && t[..8] == "--story=" ==> v == Some(t[8..])
  {
    if |t| > 2 && t[0] == '-' && t[1] == 'S' then
      assert t == "-S" + t[2..];
      Some(t[2..])
    else if |t| >= 8 && t[..8] == "--story=" then
      assert t == "--story=" + t[8..];
      Some(t[8..])
    else None
  }

  /** The keys a command's options hash may hold: the shared story id plus that command's own switches. */
  function AllowedKeys(command: string): set<OptionKey> {
    {StoryId}
    + (if command == "start" then {UseCurrent} else {})
    + (if command == "finish" then {PullRequest, NoComplete, NoDelete, NoMerge} else {})
  }

  /** The argument-less switches registered for `command`, and the key each one sets. */
  function SwitchKey(command: string, t: string): (k: Option<OptionKey>)
    ensures k.Some? ==> k.value in AllowedKeys(command) && k.value != StoryId
    ensures k.Some? ==> IsOptionToken(t) && !IsHelpFlag(t) && !IsStoryFlag(t)
  {
    if command == "start" && t == "--use-current" then Some(UseCurrent)
    else if command == "finish" && t == "--pull-request" then Some(PullRequest)
    else if command == "finish" && t == "--no-complete" then Some(NoComplete)
    else if command == "finish" && t == "--no-delete" then Some(NoDelete)
    else if command == "finish" && t == "--no-merge" then Some(NoMerge)
    else None
  }

  /** The long spelling that sets `k`. */
  function Spelling(k: OptionKey): string {
    match k
    case StoryId => "--story"
    case UseCurrent => "--use-current"
    case PullRequest => "--pull-request"
    case NoComplete => "--no-complete"
    case NoDelete => "--no-delete"
    case NoMerge => "--no-merge"
  }

  /** Stored values are typed by key: the story id is a string, every other key is `true`. */
  predicate ValuesTyped(m: Options) {
    forall k :: k in m ==> (m[k].Id? <==> k == StoryId)
  }

  /** How the scan reads one token. */
  datatype Token =
    | EndOfOptions
    | Positional(arg: string)
    | Help
    | StoryNext(flag: string)
    | StoryAttached(id: string)
    | Switch(key: OptionKey)
    | Unknown(flag: string)

  function ReadToken(command: string, t: string): (k: Token)
    ensures k.Positional? <==> !IsOptionToken(t) && t != "--"
    ensures k.Positional? ==> k.arg == t
    ensures k.Help? <==> IsHelpFlag(t)
    ensures k.Switch? ==> k.key in AllowedKeys(command) && k.key != StoryId
    ensures k.Unknown? ==> k.flag == t
    ensures k.StoryNext? ==> k.flag == t
  {
    if t == "--" then EndOfOptions
    else if !IsOptionToken(t) then Positional(t)
    else if IsHelpFlag(t) then Help
    else if IsStoryFlag(t) then StoryNext(t)
    else if AttachedStory(t).Some? then StoryAttached(AttachedStory(t).value)
    else if SwitchKey(command, t).Some? then Switch(SwitchKey(command, t).value)
    else Unknown(t)
  }

  /**
   The scan itself, with the options stored so far in `acc` and the positional
   arguments kept so far in `args`.
   */
  function Scan(command: string, toks: seq<string>, acc: Options, args: seq<string>): ParseResult
    decreases |toks|
  {
    if toks == [] then Parsed(acc, args)
    else
      assert toks == [toks[0]] + toks[1..];
      match ReadToken(command, toks[0])
      case EndOfOptions => Parsed(acc, args + toks[1..])
      case Positional(a) => Scan(command, toks[1..], acc, args + [a])
      case Help => HelpRequested
      case StoryNext(f) =>
        if |toks| == 1 then Rejected(MissingArgument(f))
        else
          assert toks[1..] == [toks[1]] + toks[2..];
          Scan(command, toks[2..], acc[StoryId := Id(toks[1])], args)
      case StoryAttached(v) => Scan(command, toks[1..], acc[StoryId := Id(v)], args)
      case Switch(k) => Scan(command, toks[1..], acc[k := On], args)
      case Unknown(f) => Rejected(InvalidOption(f))
  }

  /** The scan only stores keys the command allows, each with a value of the right kind. */
  lemma {:induction false} ScanStoresAllowedKeys(command: string, toks: seq<string>, acc: Options, args: seq<string>)
    requires acc.Keys <= AllowedKeys(command) && ValuesTyped(acc)
    ensures var r := Scan(command, toks, acc, args);
      r.Parsed? ==> r.options.Keys <= AllowedKeys(command) && ValuesTyped(r.options)
    decreases |toks|
  {
    if toks != [] {
      match ReadToken(command, toks[0])
      case Positional(a) => ScanStoresAllowedKeys(command, toks[1..], acc, args + [a]);
      case StoryNext(f) =>
        if |toks| > 1 {
          ScanStoresAllowedKeys(command, toks[2..], acc[StoryId := Id(toks[1])], args);
        }
      case StoryAttached(v) => ScanStoresAllowedKeys(command, toks[1..], acc[StoryId := Id(v)], args);
      case Switch(k) => ScanStoresAllowedKeys(command, toks[1..], acc[k := On], args);
      case _ =>
    }
  }

  /** The arguments handed to the command are tokens of the input; nothing is invented. */
  lemma {:induction false} ScanKeepsInputArgs(command: string, toks: seq<string>, acc: Options, args: seq<string>)
    ensures var r := Scan(command, toks, acc, args);
      r.Parsed? ==> multiset(r.args) <= multiset(args) + multiset(toks)
    decreases |toks|
  {
    if toks != [] {
      assert toks == [toks[0]] + toks[1..];
      match ReadToken(command, toks[0])
      case Positional(a) => ScanKeepsInputArgs(command, toks[1..], acc, args + [a]);
      case StoryNext(f) =>
        if |toks| > 1 {
          assert toks[1..] == [toks[1]] + toks[2..];
          ScanKeepsInputArgs(command, toks[2..], acc[StoryId := Id(toks[1])], args);
        }
      case StoryAttached(v) => ScanKeepsInputArgs(command, toks[1..], acc[StoryId := Id(v)], args);
      case Switch(k) => ScanKeepsInputArgs(command, toks[1..], acc[k := On], args);
      case _ =>
    }
  }

  /** A help request and a refused option are both caused by a token of the input. */
  lemma {:induction false} ScanStopsOnInputToken(command: string, toks: seq<string>, acc: Options, args: seq<string>)
    ensures var r := Scan(command, toks, acc, args);
      && (r.HelpRequested? ==> exists i :: 0 <= i < |toks| && IsHelpFlag(toks[i]))
      && (r.Rejected? ==> r.error.flag in toks)
    decreases |toks|
  {
    if toks != [] {
      match ReadToken(command, toks[0])
      case Positional(a) => ScanStopsOnInputToken(command, toks[1..], acc, args + [a]);
      case StoryNext(f) =>
        if |toks| > 1 {
          ScanStopsOnInputToken(command, toks[2..], acc[StoryId := Id(toks[1])], args);
          assert forall i :: 0 <= i < |toks[2..]| ==> toks[2..][i] == toks[i + 2];
        }
      case StoryAttached(v) => ScanStopsOnInputToken(command, toks[1..], acc[StoryId := Id(v)], args);
      case Switch(k) => ScanStopsOnInputToken(command, toks[1..], acc[k := On], args);
      case Help =>
      case _ =>
    }
  }

  /** `optparse.parse!` on the arguments that follow the command name. */
  function ParseOptions(command: string, toks: seq<string>): (r: ParseResult)
    ensures r.Parsed? ==> r.options.Keys <= AllowedKeys(command)
    ensures r.Parsed? ==> ValuesTyped(r.options)
    ensures r.Parsed? ==> multiset(r.args) <= multiset(toks)
    ensures r.HelpRequested? ==> exists i :: 0 <= i < |toks| && IsHelpFlag(toks[i])
    ensures r.Rejected? ==> r.error.flag in toks
  {
    ScanStoresAllowedKeys(command, toks, map[], []);
    ScanKeepsInputArgs(command, toks, map[], []);
    ScanStopsOnInputToken(command, toks, map[], []);
    Scan(command, toks, map[], [])
  }

  // ----- a reference description of simple argument lists -----

  /** A token the scan handles on its own: a positional argument or an argument-less switch of `command`. */
  predicate Simple(command: string, t: string) {
    ReadToken(command, t).Positional? || ReadToken(command, t).Switch?
  }

  predicate AllSimple(command: string, toks: seq<string>) {
    forall i :: 0 <= i < |toks| ==> Simple(command, toks[i])
  }

  /** The keys the switches among `toks` set. */
  function Switches(command: string, toks: seq<string>): (keys: set<OptionKey>)
    ensures StoryId !in keys && keys <= AllowedKeys(command)
  {
    if toks == [] then {}
    else
      (match ReadToken(command, toks[0]) case Switch(k) => {k} case _ => {})
      + Switches(command, toks[1..])
  }

  /** The positional arguments among `toks`, in order. */
  function Positionals(toks: seq<string>): seq<string> {
    if toks == [] then []
    else (if IsOptionToken(toks[0]) || toks[0] == "--" then [] else [toks[0]]) + Positionals(toks[1..])
  }

  /** Every key in `keys` mapped to `true`. */
  function AllOn(keys: set<OptionKey>): (m: Options)
    ensures m.Keys == keys
    ensures forall k :: k in m ==> m[k] == On
  {
    map k | k in keys :: On
  }

  /** One simple token at the head of the list: a positional argument is kept, a switch is stored. */
  lemma ScanSimpleStep(command: string, toks: seq<string>, acc: Options, args: seq<string>)
    requires toks != [] && Simple(command, toks[0])
    ensures ReadToken(command, toks[0]).Positional? ==>
      Scan(command, toks, acc, args) == Scan(command, toks[1..], acc, args + [toks[0]])
    ensures ReadToken(command, toks[0]).Switch? ==>
      Scan(command, toks, acc, args) == Scan(command, toks[1..], acc[ReadToken(command, toks[0]).key := On], args)
  {
  }

  /** A story switch at the head of the list stores the token after it. */
  lemma ScanStoryStep(command: string, toks: seq<string>, acc: Options, args: seq<string>)
    requires |toks| >= 2 && IsStoryFlag(toks[0])
    ensures Scan(command, toks, acc, args) == Scan(command, toks[2..], acc[StoryId := Id(toks[1])], args)
  {
    assert ReadToken(command, toks[0]) == StoryNext(toks[0]);
  }

  lemma AddSwitch(acc: Options, k: OptionKey, keys: set<OptionKey>)
    ensures acc[k := On] + AllOn(keys) == acc + AllOn({k} + keys)
  {
  }

  /**
   A prefix of simple tokens is consumed one token at a time: its switches
   land in the options, its positional arguments are kept in order, and the
   scan carries on with whatever follows.
   */
  lemma {:induction false} ScanSimplePrefix(command: string, pre: seq<string>, post: seq<string>, acc: Options, args: seq<string>)
    requires AllSimple(command, pre)
    ensures Scan(command, pre + post, acc, args)
         == Scan(command, post, acc + AllOn(Switches(command, pre)), args + Positionals(pre))
    decreases |pre|
  {
    if pre == [] {
      assert pre + post == post;
      assert acc + AllOn({}) == acc;
      assert args + [] == args;
    } else {
      var t := pre[0];
      assert Simple(command, t);
      assert (pre + post)[0] == t;
      assert (pre + post)[1..] == pre[1..] + post;
      ScanSimpleStep(command, pre + post, acc, args);
      assert AllSimple(command, pre[1..]) by {
        forall i | 0 <= i < |pre[1..]| ensures Simple(command, pre[1..][i]) {
          assert pre[1..][i] == pre[i + 1];
        }
      }
      if ReadToken(command, t).Switch? {
        var k := ReadToken(command, t).key;
        ScanSimplePrefix(command, pre[1..], post, acc[k := On], args);
        assert Switches(command, pre) == {k} + Switches(command, pre[1..]);
        AddSwitch(acc, k, Switches(command, pre[1..]));
        assert Positionals(pre) == Positionals(pre[1..]);
      } else {
        ScanSimplePrefix(command, pre[1..], post, acc, args + [t]);
        assert Switches(command, pre) == Switches(command, pre[1..]);
        assert Positionals(pre) == [t] + Positionals(pre[1..]);
        assert args + [t] + Positionals(pre[1..]) == args + Positionals(pre);
      }
    }
  }

  /** A list of simple tokens parses to exactly its switches (all `true`) and its positional arguments. */
  lemma SimpleArgumentsParse(command: string, toks: seq<string>)
    requires AllSimple(command, toks)
    ensures ParseOptions(command, toks) == Parsed(AllOn(Switches(command, toks)), Positionals(toks))
  {
    ScanSimplePrefix(command, toks, [], map[], []);
    assert toks + [] == toks;
    assert map[] + AllOn(Switches(command, toks)) == AllOn(Switches(command, toks));
  }

  /**
   The help switch, reached after any run of simple tokens, stops the scan with
   a help request, whatever follows it.
   */
  lemma HelpStopsScan(command: string, pre: seq<string>, h: string, post: seq<string>)
    requires AllSimple(command, pre)
    requires IsHelpFlag(h)
    ensures ParseOptions(command, pre + [h] + post) == HelpRequested
  {
    ScanSimplePrefix(command, pre, [h] + post, map[], []);
    assert pre + [h] + post == pre + ([h] + post);
  }

  /**
   The story switch stores the raw token that follows it, overwriting any
   earlier value; simple tokens after it leave the value alone.
   */
  lemma StoryTakesRawValue(command: string, f: string, v: string, post: seq<string>, acc: Options, args: seq<string>)
    requires IsStoryFlag(f)
    requires AllSimple(command, post)
    ensures Scan(command, [f, v] + post, acc, args).Parsed?
    ensures var r := Scan(command, [f, v] + post, acc, args); StoryId in r.options && r.options[StoryId] == Id(v)
  {
    var toks := [f, v] + post;
    assert toks[0] == f && toks[1] == v && toks[2..] == post;
    ScanStoryStep(command, toks, acc, args);
    ScanSimplePrefix(command, post, [], acc[StoryId := Id(v)], args);
    assert post + [] == post;
  }

  /**
   A story id attached to its switch, as in `-S42` or `--story=42`, is stored
   raw in the same way; simple tokens after it leave the value alone.
   */
  lemma AttachedStoryTakesRawValue(command: string, t: string, v: string, post: seq<string>, acc: Options, args: seq<string>)
    requires (t == "-S" + v && v != "") || t == "--story=" + v
    requires AllSimple(command, post)
    ensures Scan(command, [t] + post, acc, args).Parsed?
    ensures var r := Scan(command, [t] + post, acc, args); StoryId in r.options && r.options[StoryId] == Id(v)
  {
    if t == "-S" + v {
      assert t[0] == '-' && t[1] == 'S' && t[2..] == v;
    } else {
      assert t[..8] == "--story=" && t[8..] == v;
    }
    assert !IsHelpFlag(t) && !IsStoryFlag(t) && IsOptionToken(t);
    assert ReadToken(command, t) == StoryAttached(v);
    var toks := [t] + post;
    assert toks[0] == t && toks[1..] == post;
    ScanSimplePrefix(command, post, [], acc[StoryId := Id(v)], args);
    assert post + [] == post;
  }

  /** Of two story switches the later one wins. */
  lemma LaterStoryWins(command: string, f1: string, v1: string, f2: string, v2: string, post: seq<string>)
    requires IsStoryFlag(f1) && IsStoryFlag(f2)
    requires AllSimple(command, post)
    ensures ParseOptions(command, [f1, v1, f2, v2] + post).Parsed?
    ensures var r := ParseOptions(command, [f1, v1, f2, v2] + post); StoryId in r.options && r.options[StoryId] == Id(v2)
  {
    var toks := [f1, v1, f2, v2] + post;
    assert toks[0] == f1 && toks[1] == v1 && toks[2..] == [f2, v2] + post;
    ScanStoryStep(command, toks, map[], []);
    StoryTakesRawValue(command, f2, v2, post, map[][StoryId := Id(v1)], []);
  }

  /** A long option whose name does not start with `s` carries no attached story id. */
  lemma NotAttachedStory(t: string)
    requires |t| >= 3 && t[0] == '-' && t[1] == '-' && t[2] != 's'
    ensures AttachedStory(t).None?
  {
    if |t| >= 8 {
      assert t[..8][2] != "--story="[2];
    }
  }

  /**
   The flag table in both directions: the long spelling of a switch is
   accepted by a command exactly when its key is allowed for that command,
   and is refused as an invalid option otherwise.
   */
  lemma SwitchTable(command: string, k: OptionKey)
    requires k != StoryId
    ensures k in AllowedKeys(command) ==> ParseOptions(command, [Spelling(k)]) == Parsed(map[k := On], [])
    ensures k !in AllowedKeys(command) ==> ParseOptions(command, [Spelling(k)]) == Rejected(InvalidOption(Spelling(k)))
  {
    var t := Spelling(k);
    assert IsOptionToken(t) && !IsHelpFlag(t) && !IsStoryFlag(t);
    NotAttachedStory(t);
    var empty: seq<string> := [];
    assert [t][1..] == empty;
    if k in AllowedKeys(command) {
      assert SwitchKey(command, t) == Some(k);
      assert ReadToken(command, t) == Switch(k);
      assert Scan(command, [t], map[], []) == Scan(command, [t][1..], map[][k := On], []);
      assert Scan(command, empty, map[k := On], []) == Parsed(map[k := On], []);
    } else {
      assert SwitchKey(command, t) == None;
      assert ReadToken(command, t) == Unknown(t);
    }
  }

  /** Two finish switches in a row are both stored, and nothing else is. */
  lemma FinishSkipsMergeAndDelete()
    ensures ParseOptions("finish", ["--no-merge", "--no-delete"]) == Parsed(map[NoMerge := On, NoDelete := On], [])
  {
    var toks := ["--no-merge", "--no-delete"];
    NotAttachedStory(toks[0]);
    NotAttachedStory(toks[1]);
    assert ReadToken("finish", toks[0]) == Switch(NoMerge);
    assert ReadToken("finish", toks[1]) == Switch(NoDelete);
    var m1: Options := map[][NoMerge := On];
    ScanSimpleStep("finish", toks, map[], []);
    ScanSimpleStep("finish", toks[1..], m1, []);
    var empty: seq<string> := [];
    assert toks[1..][1..] == empty;
    assert m1[NoDelete := On] == map[NoMerge := On, NoDelete := On];
  }
}

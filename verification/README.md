# Command runner of pivotal-integration, in Dafny

`pivotal` is a command-line helper that connects a git repository with a
Pivotal Tracker project. Its entry point, `PivotalIntegration::CommandRunner`,
decides what one invocation does. It collects every command class and derives
each command name (the class name without its namespace, downcased). It then
reads the argument list. A known first token is stripped off. The options
after it are parsed against that command's flag table. The command class is
then built with the options and run with the remaining arguments. With no
arguments the runner prints the help screen. Any other first token aborts
with `Invalid command <token>.`

This project models that decision and the help screen as pure functions over
a given command registry:

- `text.dfy` (`Text`): ASCII lower-casing, `%-Ns` padding, and the
  lexicographic string order that `sort_by(&:name)` uses.
- `commands.dfy` (`Commands`): the registry of `Command(className, name,
  description)`, the known names, name-to-class lookup, and `MAX_COMMAND_LEN`.
- `options.dfy` (`OptionTable`): the per-command flag table and a
  left-to-right option scan. The scan is an abstraction of `OptionParser#parse!`
  restricted to the switches the runner registers.
- `runner.dfy` (`CommandRunner`): the first-token classification and the
  outcome of `run`: `Dispatch(command, options, args)`, `ShowHelp`,
  `Invalid(token)`, or `OptionFailure(error)` when the option parser raises.
- `help.dfy` (`HelpScreen`): grouping into main and secondary commands, their
  order, and the column layout of the printed lines.
- `wrappers.dfy` (`Wrappers`) and `sequences.dfy` (`Sequences`): an option
  type, and generic facts about sequence multisets and element-wise maps.

The usage line the help screen prints,
`Usage: pivotal [--help] <command> [<args>]`
(lib/pivotal-integration/command/runner.rb:33), puts `--help` before the
command. But `run` looks the first token up as a command name (runner.rb:49). The help switch is only
registered in the option parser built after a valid command name
(runner.rb:54-57). So `pivotal --help` aborts with `Invalid command --help.`
(runner.rb:95-96). The model follows the code
(`CommandRunner.HelpFlagFirstIsInvalid`).

## Model

| member | source | states |
|---|---|---|
| `Commands.MaxNameLen` | lib/pivotal-integration/command/runner.rb:23 | no command name is longer than the result, and in a non-empty registry some name has exactly that length |
| `Commands.FirstIndex` | lib/pivotal-integration/command/runner.rb:89 | a known name resolves to a registry position holding that name, with no earlier entry of the same name |
| `Commands.Lookup` | lib/pivotal-integration/command/runner.rb:89 | the class a known command name resolves to is a registered class carrying that name |
| `Commands.CommandNameIsLowerCase` | lib/pivotal-integration/command/runner.rb:22 | a name derived from a Ruby constant by downcasing is unchanged by a further downcase |
| `Text.DowncaseNormalizes` | lib/pivotal-integration/command/runner.rb:49-50 | downcasing leaves no capital letter, is idempotent, and fixes exactly the strings without capitals |
| `Text.PadRight` | lib/pivotal-integration/command/runner.rb:28 | the `%-Ns` field starts with the name, is filled with blanks up to the width, and never truncates a longer name |
| `Text.LexLeTotal` | lib/pivotal-integration/command/runner.rb:44 | any two class names are comparable in the order the secondary list is sorted by |
| `Text.LexLeTransitive` | lib/pivotal-integration/command/runner.rb:44 | the class-name order is transitive |
| `Text.LexLeAntisymmetric` | lib/pivotal-integration/command/runner.rb:44 | two class names that each sort no later than the other are equal |
| `OptionTable.AttachedStory` | lib/pivotal-integration/command/runner.rb:59 | a story id attached to its switch (`-SID`, `--story=ID`) is found exactly in a token that is the switch followed by that id, and that id is returned |
| `OptionTable.SwitchKey` | lib/pivotal-integration/command/runner.rb:63-85 | every argument-less switch a command accepts sets a key allowed for that command, and never the story id |
| `OptionTable.ReadToken` | lib/pivotal-integration/command/runner.rb:53-85 | a token is positional exactly when it is not an option; it is a help request exactly when it is `-h` or `--help`; a recognised switch sets an allowed key |
| `OptionTable.ScanStoresAllowedKeys` | lib/pivotal-integration/command/runner.rb:59-85 | whatever the arguments, the options hash only gets keys the command registers, with a string for the story id and `true` for every switch |
| `OptionTable.ScanKeepsInputArgs` | lib/pivotal-integration/command/runner.rb:87-90 | the arguments left for the command are drawn from the input tokens; nothing is invented |
| `OptionTable.ScanStopsOnInputToken` | lib/pivotal-integration/command/runner.rb:54-57 | a help request happens only if a help flag is among the tokens, and a refused option is one of the tokens |
| `OptionTable.ParseOptions` | lib/pivotal-integration/command/runner.rb:52-87 | a successful parse yields only allowed, correctly typed keys and arguments taken from the input; help and refusal are caused by input tokens |
| `OptionTable.ScanSimplePrefix` | lib/pivotal-integration/command/runner.rb:53-87 | positional arguments and accepted switches are consumed one by one: switches land in the options, positional arguments are kept in order, and the scan continues with the rest |
| `OptionTable.SimpleArgumentsParse` | lib/pivotal-integration/command/runner.rb:63-87 | a list of positional arguments and accepted switches parses to exactly those switches set to `true` and those positional arguments in their original order |
| `OptionTable.HelpStopsScan` | lib/pivotal-integration/command/runner.rb:54-57 | a help flag after positional arguments and accepted switches stops parsing with a help request, whatever follows it |
| `OptionTable.StoryTakesRawValue` | lib/pivotal-integration/command/runner.rb:59-61 | `-S`/`--story` stores the following token verbatim as the story id, overwriting any earlier value |
| `OptionTable.AttachedStoryTakesRawValue` | lib/pivotal-integration/command/runner.rb:59-61 | a story id attached to its switch (`-S42`, `--story=42`) is stored verbatim as the story id |
| `OptionTable.LaterStoryWins` | lib/pivotal-integration/command/runner.rb:59-61 | of two story switches the later one's value is kept |
| `OptionTable.SwitchTable` | lib/pivotal-integration/command/runner.rb:63-85 | a switch's spelling is accepted by a command exactly when its key is allowed for that command, and otherwise refused as an invalid option |
| `OptionTable.FinishSkipsMergeAndDelete` | lib/pivotal-integration/command/runner.rb:69-85 | `--no-merge --no-delete` after finish stores exactly those two switches and leaves no arguments |
| `CommandRunner.Classify` | lib/pivotal-integration/command/runner.rb:49-96 | exactly one of three readings applies: known command (downcased first token is a command name, rest split off), no arguments, or unknown first token |
| `CommandRunner.Run` | lib/pivotal-integration/command/runner.rb:47-97 | no arguments shows help; invalid exactly when the downcased first token is not a command name, reporting the token as typed; a dispatch goes to a registered class of that name with allowed options and arguments from the rest; help or option failure only after a known command and caused by a later token |
| `CommandRunner.InvalidCommandMessage` | lib/pivotal-integration/command/runner.rb:96 | the abort message carries the offending token verbatim between the fixed prefix and the final period |
| `CommandRunner.InvalidRunMessage` | lib/pivotal-integration/command/runner.rb:49-96 | an unknown first token leads to the abort message `Invalid command <token>.` with the token as typed |
| `CommandRunner.CaseInsensitiveDispatch` | lib/pivotal-integration/command/runner.rb:49-50 | two first tokens that downcase to the same command name give the same outcome, which is never an invalid command |
| `CommandRunner.UpperCaseCommand` | lib/pivotal-integration/command/runner.rb:49-50 | `START` and `start` select the same command |
| `CommandRunner.HelpFlagFirstIsInvalid` | lib/pivotal-integration/command/runner.rb:49-96 | `-h` or `--help` as the first token is reported as an invalid command, never as a help request, whenever no command name starts with `-`, as no downcased constant name does |
| `CommandRunner.HelpAfterCommandShowsHelp` | lib/pivotal-integration/command/runner.rb:54-57 | a help flag after a known command, preceded only by positional arguments and accepted switches, shows help and never runs the command |
| `CommandRunner.SimpleCommandLineDispatches` | lib/pivotal-integration/command/runner.rb:49-90 | a known command followed by positional arguments and accepted switches runs the first class of that name with exactly those switches and positional arguments; the command name is not among them |
| `CommandRunner.StoryIdPassedRaw` | lib/pivotal-integration/command/runner.rb:59-61 | the story id reaches the command as the raw string given, without conversion |
| `CommandRunner.AttachedStoryIdPassedRaw` | lib/pivotal-integration/command/runner.rb:49-90 | an attached story id reaches the dispatched command as the raw string after the switch |
| `CommandRunner.DispatchWhenParsed` | lib/pivotal-integration/command/runner.rb:49-90 | a known command whose options parse is run with exactly the parsed options and remaining arguments |
| `CommandRunner.StartUseCurrent` | lib/pivotal-integration/command/runner.rb:63-67 | `start --use-current` runs start with only the use-current switch set and no arguments |
| `CommandRunner.FinishNoMergeNoDelete` | lib/pivotal-integration/command/runner.rb:69-85 | `finish --no-merge --no-delete` runs finish with exactly those two switches set |
| `CommandRunner.FinishRefusesUseCurrent` | lib/pivotal-integration/command/runner.rb:63-85 | a switch registered only for start is refused by finish |
| `HelpScreen.Select` | lib/pivotal-integration/command/runner.rb:36-37 | each group holds only registered commands of the requested kind |
| `HelpScreen.GroupsPartition` | lib/pivotal-integration/command/runner.rb:36-37 | main and secondary commands are disjoint and together are the registry, multiplicities included |
| `HelpScreen.MainBuckets` | lib/pivotal-integration/command/runner.rb:40 | main commands are exactly the new, start and finish commands together |
| `HelpScreen.OrderMain` | lib/pivotal-integration/command/runner.rb:40 | the main list is a permutation of the main commands ordered new, start, finish |
| `HelpScreen.Insert` | lib/pivotal-integration/command/runner.rb:44 | inserting into a class-name-sorted list keeps it sorted and adds exactly that command |
| `HelpScreen.SortByClassName` | lib/pivotal-integration/command/runner.rb:44 | the secondary list is a permutation of its input sorted by class name |
| `HelpScreen.SortedByNameUnique` | lib/pivotal-integration/command/runner.rb:44 | with unique class names there is only one class-name-sorted arrangement of a set of commands |
| `HelpScreen.SortedByRankUnique` | lib/pivotal-integration/command/runner.rb:40 | when no two commands share a rank, there is only one rank-sorted arrangement |
| `HelpScreen.CommandLine` | lib/pivotal-integration/command/runner.rb:28 | a help line is two blanks, the name, blanks up to the width, three blanks, then the description |
| `HelpScreen.CommandLines` | lib/pivotal-integration/command/runner.rb:26-29 | one line per command, in the given order, all with the same width |
| `HelpScreen.Arrange` | lib/pivotal-integration/command/runner.rb:23-44 | the main list is the main commands ordered new, start, finish; the secondary list is the other commands sorted by class name; together they are the registry; the width is the longest name |
| `HelpScreen.Render` | lib/pivotal-integration/command/runner.rb:32-45 | the screen is the usage line, a blank line, the main heading and its lines, a blank line, the secondary heading and its lines |
| `HelpScreen.LayoutListsCommand` | lib/pivotal-integration/command/runner.rb:36-45 | a command in either group of a layout gets a formatted line on the screen |
| `HelpScreen.EveryCommandListedOnce` | lib/pivotal-integration/command/runner.rb:32-45 | the screen has one line per registered command plus five fixed lines; its command lines, counted with multiplicity, are exactly one formatted line per registered command, and every registered command has its line |
| `HelpScreen.LayoutLines` | lib/pivotal-integration/command/runner.rb:36-45 | the two groups of a layout that splits the registry print exactly the registry's command lines, each as often as it is registered |
| `HelpScreen.CommandLinesPermute` | lib/pivotal-integration/command/runner.rb:26-30 | reordering the commands reorders the printed lines and changes nothing else |
| `HelpScreen.LineAligned` | lib/pivotal-integration/command/runner.rb:28 | a line whose name fits the width puts the description at column width plus five |
| `HelpScreen.RenderAligned` | lib/pivotal-integration/command/runner.rb:26-29 | every command line of a screen whose names fit its width has its name at column 2 and its description at column width plus five |
| `HelpScreen.DescriptionsAligned` | lib/pivotal-integration/command/runner.rb:23-44 | on the printed screen every description of both groups starts at column `MAX_COMMAND_LEN + 5` |
| `HelpScreen.SecondaryOrderDetermined` | lib/pivotal-integration/command/runner.rb:44 | when no two registered classes share a class name, any class-name-sorted arrangement of the secondary commands is the one shown, so the unstable sort cannot vary |
| `HelpScreen.MainOrderDetermined` | lib/pivotal-integration/command/runner.rb:40 | when command names are unique, any new-start-finish ordering of the main commands is the one shown (the main group `Arrange` uses) |

## Left out

- Command discovery through `ObjectSpace` (runner.rb:21) is not modelled. The registry is an input sequence in discovery order, and each entry carries its command name.
- `demodulize`, `classify` and `try` are ActiveSupport code. The name of an entry is taken as given. Resolving a name to a class is modelled as the first registry entry with that name. This assumes `classify` turns the name back into the class's own name. That holds when the class name is one word and `singularize` leaves the downcased name unchanged, as for start, finish, new, mark and release. It fails for names that `singularize` alters (`focus` becomes `Focu`, `quota` becomes `Quotum`).
- Discovery collects subclasses of `Base` from any namespace (runner.rb:21), but `const_get` (runner.rb:89) searches only `PivotalIntegration::Command` and `Object`. The model assumes every command class is defined directly in `PivotalIntegration::Command`, and that no two command classes share a command name. A class `Plugins::Deploy` makes Ruby raise `NameError` on `pivotal deploy`, while `CommandRunner.Run` dispatches to it. With two classes named `Start` in different namespaces, Ruby picks the one in the command namespace, while `Commands.Lookup` picks the first in discovery order.
- For a command whose name `singularize` alters, `const_get` (runner.rb:89) raises `NameError` and `run` fails. The model has no such outcome: `CommandRunner.Run` dispatches to the registered class of that name instead.
- `Text.Downcase` lower-cases ASCII letters only. Ruby's `String#downcase` also maps non-ASCII letters. Ruby constant names may hold non-ASCII letters, so the gap covers more than exotic tokens. For a command whose name holds a non-ASCII letter, a capitalised spelling of that letter is not matched: for a class `Übersicht` (name `übersicht`), Ruby dispatches `pivotal Übersicht`, while `CommandRunner.Run` returns `Invalid("Übersicht")`.
- The option scan is an abstraction of `OptionParser`. Not modelled: abbreviated long options (`--use` for `--use-current`), case-insensitive completion of long names (`--HELP`, `--Use-Current`), the fallback from an unknown short option to long-name completion (`-u` for `--use-current`, `-s ID` for `--story ID`), bundled short options (`-hS`), the parser's built-in `--version` and completion switches, the `POSIXLY_CORRECT` ordering mode, and the rewriting of `_` to `-` in long option names (`--use_current`, `--no_merge` are accepted by Ruby and refused by `OptionTable.Scan`). Every refusal is reduced to an invalid option or a missing argument. So `OptionTable.ReadToken`'s "help exactly for `-h` and `--help`" and `OptionTable.SwitchTable`'s "refused otherwise" hold for the exact spellings only.
- `CommandRunner.HelpAfterCommandShowsHelp`: stated only for a help flag preceded by positional arguments and accepted switches. An earlier `-S` takes the next token as its value, so in `start -S --help` the `--help` is a story id. An earlier unknown option is refused before the help flag is reached.
- `puts`, `abort` and `exit` are process effects. `run` returns an outcome value instead. `HelpScreen.HelpLines` gives the printed lines as a sequence of strings.
- The `Interrupt` rescue that prints `Operation cancelled.` (runner.rb:99-102) depends on signals and is not modelled.
- `command_class.new(options).run(*ARGV)` (runner.rb:90) is not modelled, and neither is anything behind it: the Start, Finish, Mark and Release workflows, the git wrapper, the tracker client, configuration storage and prompts. The model stops at the `Dispatch` outcome.
- The Mark and Release specs test command workflows whose source is not part of this model.
- For an empty registry `MAX_COMMAND_LEN` is `nil` in Ruby, and `Commands.MaxNameLen` returns 0. The screen then lists no command lines, so the two agree on what is printed.
- `sort_by` in Ruby is not stable. The model uses one fixed sort. `HelpScreen.SecondaryOrderDetermined` and `HelpScreen.MainOrderDetermined` show that this choice makes no difference when names are unique.

/**
 The help screen `show_help` prints: a usage line, the main commands (new,
 start, finish, in that order, those that exist), then every other command
 sorted by class name. Each command line is two blanks, the command name
 left-justified to the width of the longest command name, three blanks and
 the description, so all descriptions start in the same column.
 */
module HelpScreen {
  import opened Text
  import opened Commands
  import opened Sequences

  const Usage := "Usage: pivotal [--help] <command> [<args>]"
  const MainHeading := "Main Commands"
  const SecondaryHeading := "Secondary Commands:"

  /** The commands listed first. */
  predicate IsMain(c: Command) {
    c.name == "start" || c.name == "finish" || c.name == "new"
  }

  /** Position of a main command in the display order new, start, finish. */
  function Rank(c: Command): nat {
    if c.name == "new" then 0 else if c.name == "start" then 1 else 2
  }

  // ----- grouping -----

  /** The commands whose main-ness is `main`, in registry order. */
  function Select(registry: seq<Command>, main: bool): (r: seq<Command>)
    ensures forall c :: c in r ==> c in registry && IsMain(c) == main
  {
    if registry == [] then []
    else (if IsMain(registry[0]) == main then [registry[0]] else []) + Select(registry[1..], main)
  }

  /** `COMMANDS.select { main }`. */
  function MainCommands(registry: seq<Command>): seq<Command> {
    Select(registry, true)
  }

  /** `COMMANDS - main_commands`. */
  function SecondaryCommands(registry: seq<Command>): seq<Command> {
    Select(registry, false)
  }

  /** The two groups split the registry: together they hold every command exactly as often as it is registered. */
  lemma {:induction false} GroupsPartition(registry: seq<Command>)
    ensures multiset(MainCommands(registry)) + multiset(SecondaryCommands(registry)) == multiset(registry)
    ensures forall c :: c in MainCommands(registry) ==> IsMain(c)
    ensures forall c :: c in SecondaryCommands(registry) ==> !IsMain(c)
    decreases |registry|
  {
    if registry != [] {
      GroupsPartition(registry[1..]);
      assert registry == [registry[0]] + registry[1..];
    }
  }

  // ----- main group order -----

  /** The commands of `s` called `name`, in order. */
  function Named(s: seq<Command>, name: string): (r: seq<Command>)
    ensures forall c :: c in r ==> c in s && c.name == name
  {
    if s == [] then []
    else (if s[0].name == name then [s[0]] else []) + Named(s[1..], name)
  }

  predicate SortedByRank(s: seq<Command>) {
    forall i, j :: 0 <= i < j < |s| ==> Rank(s[i]) <= Rank(s[j])
  }

  lemma NamedCons(x: Command, t: seq<Command>, name: string)
    ensures multiset(Named([x] + t, name))
         == (if x.name == name then multiset{x} else multiset{}) + multiset(Named(t, name))
  {
    assert ([x] + t)[1..] == t;
  }

  /** A sequence of main commands is the new commands, then the start commands, then the finish commands, up to order. */
  lemma {:induction false} MainBuckets(s: seq<Command>)
    requires forall c :: c in s ==> IsMain(c)
    ensures multiset(s) == multiset(Named(s, "new")) + multiset(Named(s, "start")) + multiset(Named(s, "finish"))
    decreases |s|
  {
    if s != [] {
      var t := s[1..];
      var x := s[0];
      assert s == [x] + t;
      assert multiset(s) == multiset{x} + multiset(t);
      forall c | c in t
        ensures IsMain(c)
      {
        assert c in s;
      }
      MainBuckets(t);
      NamedCons(x, t, "new");
      NamedCons(x, t, "start");
      NamedCons(x, t, "finish");
      assert x in s;
      if x.name == "new" {
        assert x.name != "start" && x.name != "finish";
      } else if x.name == "start" {
        assert x.name != "finish";
      } else {
        assert x.name == "finish";
      }
    }
  }

  /** Three runs of ranks 0, 1 and 2, one after the other, are in rank order. */
  lemma RunsSortedByRank(n: seq<Command>, s: seq<Command>, f: seq<Command>)
    requires forall c :: c in n ==> Rank(c) == 0
    requires forall c :: c in s ==> Rank(c) == 1
    requires forall c :: c in f ==> Rank(c) == 2
    ensures SortedByRank(n + s + f)
  {
    var r := n + s + f;
    forall i | 0 <= i < |r|
      ensures Rank(r[i]) == if i < |n| then 0 else if i < |n| + |s| then 1 else 2
    {
      if i < |n| {
        assert r[i] == n[i];
      } else if i < |n| + |s| {
        assert r[i] == s[i - |n|];
      } else {
        assert r[i] == f[i - |n| - |s|];
      }
    }
  }

  /** `main_commands.sort_by { index in %w(new start finish) }`. */
  function OrderMain(main: seq<Command>): (r: seq<Command>)
    requires forall c :: c in main ==> IsMain(c)
    ensures SortedByRank(r)
    ensures multiset(r) == multiset(main)
  {
    var n, s, f := Named(main, "new"), Named(main, "start"), Named(main, "finish");
    MainBuckets(main);
    RunsSortedByRank(n, s, f);
    n + s + f
  }

  // ----- secondary group order -----

  predicate SortedByName(s: seq<Command>) {
    forall i, j :: 0 <= i < j < |s| ==> LexLe(s[i].className, s[j].className)
  }

  /** A command no later than every member of a sorted list can go in front of it. */
  lemma ConsSorted(c: Command, s: seq<Command>)
    requires SortedByName(s)
    requires forall x :: x in s ==> LexLe(c.className, x.className)
    ensures SortedByName([c] + s)
  {
    var r := [c] + s;
    forall i, j | 0 <= i < j < |r|
      ensures LexLe(r[i].className, r[j].className)
    {
      assert r[j] == s[j - 1];
      if i > 0 {
        assert r[i] == s[i - 1];
      } else {
        assert s[j - 1] in s;
      }
    }
  }

  /** A command no later than the head of a sorted list is no later than any of its members. */
  lemma BelowHead(c: Command, s: seq<Command>)
    requires SortedByName(s) && s != []
    requires LexLe(c.className, s[0].className)
    ensures forall x :: x in s ==> LexLe(c.className, x.className)
  {
    forall x | x in s
      ensures LexLe(c.className, x.className)
    {
      SortedHeadIsLeast(s, x);
      LexLeTransitive(c.className, s[0].className, x.className);
    }
  }

  /** `c` placed in front of the first command of `s` whose class name it does not exceed. */
  function Insert(c: Command, s: seq<Command>): (r: seq<Command>)
    requires SortedByName(s)
    ensures SortedByName(r)
    ensures multiset(r) == multiset(s) + multiset{c}
  {
    if s == [] then [c]
    else if LexLe(c.className, s[0].className) then
      BelowHead(c, s);
      ConsSorted(c, s);
      [c] + s
    else
      SortedTail(s);
      var tail := Insert(c, s[1..]);
      assert s == [s[0]] + s[1..];
      LexLeTotal(c.className, s[0].className);
      forall x | x in tail
        ensures LexLe(s[0].className, x.className)
      {
        assert x in multiset(s[1..]) + multiset{c};
        if x != c {
          assert x in s;
          SortedHeadIsLeast(s, x);
        }
      }
      ConsSorted(s[0], tail);
      [s[0]] + tail
  }

  /** `secondary_commands.sort_by(&:name)`, as an insertion sort on class names. */
  function SortByClassName(s: seq<Command>): (r: seq<Command>)
    ensures SortedByName(r)
    ensures multiset(r) == multiset(s)
  {
    if s == [] then []
    else
      assert s == [s[0]] + s[1..];
      Insert(s[0], SortByClassName(s[1..]))
  }

  /** The first command of a name-sorted sequence has the least class name. */
  lemma SortedHeadIsLeast(s: seq<Command>, x: Command)
    requires SortedByName(s) && x in s
    ensures LexLe(s[0].className, x.className)
  {
    var k :| 0 <= k < |s| && s[k] == x;
    if k == 0 {
      LexLeTotal(x.className, x.className);
    }
  }

  lemma SortedTail(s: seq<Command>)
    requires SortedByName(s) && s != []
    ensures SortedByName(s[1..])
  {
    assert forall i :: 0 <= i < |s[1..]| ==> s[1..][i] == s[i + 1];
  }

  /**
   With class names unique, the sorted order is the only one: any two
   class-name-sorted arrangements of the same commands are equal, so the
   unstable `sort_by` cannot produce anything else.
   */
  lemma {:induction false} SortedByNameUnique(a: seq<Command>, b: seq<Command>)
    requires SortedByName(a) && SortedByName(b)
    requires multiset(a) == multiset(b)
    requires UniqueClassNames(a)
    ensures a == b
    decreases |a|
  {
    if a == [] {
      assert |b| == |multiset(b)| == 0;
    } else {
      assert |b| == |multiset(b)| == |a| > 0;
      assert a[0] in multiset(b) && b[0] in multiset(a);
      SortedHeadIsLeast(a, b[0]);
      SortedHeadIsLeast(b, a[0]);
      LexLeAntisymmetric(a[0].className, b[0].className);
      assert a[0] == b[0];
      SameTails(a, b);
      SortedTail(a);
      SortedTail(b);
      assert forall x :: x in a[1..] ==> x in a;
      SortedByNameUnique(a[1..], b[1..]);
    }
  }

  /** Equal arrangements that start alike hold the same commands after the first. */
  lemma SameTails(a: seq<Command>, b: seq<Command>)
    requires a != [] && b != [] && a[0] == b[0]
    requires multiset(a) == multiset(b)
    ensures multiset(a[1..]) == multiset(b[1..])
  {
    DropFirst(a);
    DropFirst(b);
    Cancel(multiset(a[1..]), multiset(b[1..]), a[0]);
  }

  /** The first command of a rank-sorted sequence has the least rank. */
  lemma RankedHeadIsLeast(s: seq<Command>, x: Command)
    requires SortedByRank(s) && x in s
    ensures Rank(s[0]) <= Rank(x)
  {
    var k :| 0 <= k < |s| && s[k] == x;
  }

  lemma RankDeterminesName(x: Command, y: Command)
    requires IsMain(x) && IsMain(y) && Rank(x) == Rank(y)
    ensures x.name == y.name
  {
  }

  /** No two distinct commands in `s` share a command name. */
  predicate UniqueNames(s: seq<Command>) {
    forall x, y :: x in s && y in s && x.name == y.name ==> x == y
  }

  /**
   When no two commands share a rank, as among main commands with distinct
   names, a rank-sorted arrangement is the only one.
   */
  lemma {:induction false} SortedByRankUnique(a: seq<Command>, b: seq<Command>)
    requires SortedByRank(a) && SortedByRank(b)
    requires multiset(a) == multiset(b)
    requires forall x, y :: x in a && y in a && Rank(x) == Rank(y) ==> x == y
    ensures a == b
    decreases |a|
  {
    if a == [] {
      assert |b| == |multiset(b)| == 0;
    } else {
      assert |b| == |multiset(b)| == |a| > 0;
      assert a[0] in multiset(b) && b[0] in multiset(a);
      assert b[0] in a;
      RankedHeadIsLeast(a, b[0]);
      RankedHeadIsLeast(b, a[0]);
      assert a[0] == b[0];
      SameTails(a, b);
      RankSortedTail(a);
      RankSortedTail(b);
      assert forall x :: x in a[1..] ==> x in a;
      SortedByRankUnique(a[1..], b[1..]);
    }
  }

  lemma RankSortedTail(s: seq<Command>)
    requires SortedByRank(s) && s != []
    ensures SortedByRank(s[1..])
  {
    assert forall i :: 0 <= i < |s[1..]| ==> s[1..][i] == s[i + 1];
  }

  // ----- rendering -----

  /** `"  %-#{MAX_COMMAND_LEN}s   %s" % [name, description]`. */
  function CommandLine(c: Command, width: nat): (line: string)
    ensures var w := if |c.name| < width then width else |c.name|;
      && |line| == w + 5 + |c.description|
      && line[..2] == "  "
      && line[2..2 + |c.name|] == c.name
      && (forall i :: 2 + |c.name| <= i < w + 5 ==> line[i] == ' ')
      && line[w + 5..] == c.description
  {
    var padded := PadRight(c.name, width);
    var line := "  " + padded + "   " + c.description;
    assert line[2..2 + |padded|] == padded;
    assert line[2..2 + |c.name|] == padded[..|c.name|];
    assert forall i :: 2 + |c.name| <= i < 2 + |padded| ==> line[i] == padded[i - 2];
    line
  }

  /** `print_command_help`: one line per command, all padded to `width`. */
  function CommandLines(cmds: seq<Command>, width: nat): (lines: seq<string>)
    ensures |lines| == |cmds|
    ensures forall i :: 0 <= i < |cmds| ==> lines[i] == CommandLine(cmds[i], width)
  {
    seq(|cmds|, i requires 0 <= i < |cmds| => CommandLine(cmds[i], width))
  }

  /** The two ordered groups and the name column width the screen is drawn from. */
  datatype Layout = Layout(main: seq<Command>, secondary: seq<Command>, width: nat)

  /** The grouping, ordering and width `show_help` uses. */
  function Arrange(registry: seq<Command>): (h: Layout)
    ensures multiset(h.main) == multiset(MainCommands(registry))
    ensures multiset(h.secondary) == multiset(SecondaryCommands(registry))
    ensures multiset(h.main) + multiset(h.secondary) == multiset(registry)
    ensures forall c :: c in h.main ==> IsMain(c) && c in registry
    ensures forall c :: c in h.secondary ==> !IsMain(c) && c in registry
    ensures SortedByRank(h.main)
    ensures SortedByName(h.secondary)
    ensures forall c :: c in registry ==> |c.name| <= h.width
    ensures registry != [] ==> exists c :: c in registry && |c.name| == h.width
  {
    GroupsPartition(registry);
    var main := OrderMain(MainCommands(registry));
    var secondary := SortByClassName(SecondaryCommands(registry));
    assert forall c :: c in main ==> c in multiset(MainCommands(registry));
    assert forall c :: c in secondary ==> c in multiset(SecondaryCommands(registry));
    Layout(main, secondary, MaxNameLen(registry))
  }

  /** The printed help screen, one string per line. */
  function Render(h: Layout): (lines: seq<string>)
    ensures |lines| == |h.main| + |h.secondary| + 5
    ensures lines[0] == Usage && lines[1] == "" && lines[2] == MainHeading
    ensures forall i :: 0 <= i < |h.main| ==> lines[3 + i] == CommandLine(h.main[i], h.width)
    ensures lines[3 + |h.main|] == "" && lines[4 + |h.main|] == SecondaryHeading
    ensures forall i :: 0 <= i < |h.secondary| ==> lines[5 + |h.main| + i] == CommandLine(h.secondary[i], h.width)
  {
    [Usage, "", MainHeading] + CommandLines(h.main, h.width)
    + ["", SecondaryHeading] + CommandLines(h.secondary, h.width)
  }

  /** `show_help`. */
  function HelpLines(registry: seq<Command>): seq<string> {
    Render(Arrange(registry))
  }

  /**
   Every registered command is listed exactly once: the screen has one line
   per registered command besides the five fixed lines, the command lines of
   both groups together are the registry's lines counted with multiplicity,
   and each registered command has a line.
   */
  lemma EveryCommandListedOnce(registry: seq<Command>)
    ensures |HelpLines(registry)| == |registry| + 5
    ensures var lines := HelpLines(registry); var h := Arrange(registry);
      multiset(lines[3..3 + |h.main|]) + multiset(lines[5 + |h.main|..])
        == multiset(CommandLines(registry, h.width))
    ensures forall c :: c in registry ==>
      exists i :: 3 <= i < |HelpLines(registry)| && HelpLines(registry)[i] == CommandLine(c, Arrange(registry).width)
  {
    var h := Arrange(registry);
    LayoutLines(h, registry);
    LayoutListsRegistry(h, registry);
  }

  /** A layout holding the commands of `registry` has a line for each of them, and five more. */
  lemma LayoutListsRegistry(h: Layout, registry: seq<Command>)
    requires multiset(h.main) + multiset(h.secondary) == multiset(registry)
    ensures |Render(h)| == |registry| + 5
    ensures forall c :: c in registry ==>
      exists i :: 3 <= i < |Render(h)| && Render(h)[i] == CommandLine(c, h.width)
  {
    assert |multiset(h.main)| + |multiset(h.secondary)| == |multiset(registry)|;
    forall c | c in registry
      ensures exists i :: 3 <= i < |Render(h)| && Render(h)[i] == CommandLine(c, h.width)
    {
      assert c in multiset(h.main) + multiset(h.secondary);
      LayoutListsCommand(h, c);
    }
  }

  /** A layout holding the commands of `registry` prints exactly the registry's command lines, in some order. */
  lemma LayoutLines(h: Layout, registry: seq<Command>)
    requires multiset(h.main) + multiset(h.secondary) == multiset(registry)
    ensures var lines := Render(h);
      multiset(lines[3..3 + |h.main|]) + multiset(lines[5 + |h.main|..])
        == multiset(CommandLines(registry, h.width))
  {
    RenderGroups(h);
    CommandLinesAppend(h.main, h.secondary, h.width);
    assert multiset(h.main + h.secondary) == multiset(registry);
    CommandLinesPermute(h.main + h.secondary, registry, h.width);
  }

  /** The command lines of a rendered layout are the lines of its main group, then of its secondary group. */
  lemma RenderGroups(h: Layout)
    ensures Render(h)[3..3 + |h.main|] == CommandLines(h.main, h.width)
    ensures Render(h)[5 + |h.main|..] == CommandLines(h.secondary, h.width)
  {
  }

  lemma CommandLinesAppend(a: seq<Command>, b: seq<Command>, width: nat)
    ensures CommandLines(a + b, width) == CommandLines(a, width) + CommandLines(b, width)
  {
  }

  /** Two arrangements of the same commands print the same lines, up to order. */
  lemma CommandLinesPermute(a: seq<Command>, b: seq<Command>, width: nat)
    requires multiset(a) == multiset(b)
    ensures multiset(CommandLines(a, width)) == multiset(CommandLines(b, width))
  {
    var f := c => CommandLine(c, width);
    MapPermute(f, a, b);
    assert CommandLines(a, width) == Map(f, a);
    assert CommandLines(b, width) == Map(f, b);
  }

  /** A command of either group has a line of its own on the rendered screen. */
  lemma LayoutListsCommand(h: Layout, c: Command)
    requires c in h.main || c in h.secondary
    ensures exists i :: 3 <= i < |Render(h)| && Render(h)[i] == CommandLine(c, h.width)
  {
    if c in h.main {
      var j :| 0 <= j < |h.main| && h.main[j] == c;
      MainLineAt(h, j);
    } else {
      var j :| 0 <= j < |h.secondary| && h.secondary[j] == c;
      SecondaryLineAt(h, j);
    }
  }

  lemma MainLineAt(h: Layout, j: nat)
    requires j < |h.main|
    ensures exists i :: 3 <= i < |Render(h)| && Render(h)[i] == CommandLine(h.main[j], h.width)
  {
    var lines := Render(h);
    assert lines[3 + j] == CommandLine(h.main[j], h.width);
  }

  lemma SecondaryLineAt(h: Layout, j: nat)
    requires j < |h.secondary|
    ensures exists i :: 3 <= i < |Render(h)| && Render(h)[i] == CommandLine(h.secondary[j], h.width)
  {
    var lines := Render(h);
    assert lines[5 + |h.main| + j] == CommandLine(h.secondary[j], h.width);
  }

  /** A line for a command whose name fits the width puts the description in column `width + 5`. */
  predicate AlignedLine(line: string, c: Command, width: nat) {
    && |c.name| <= width
    && |line| == width + 5 + |c.description|
    && line[..2] == "  "
    && line[2..2 + |c.name|] == c.name
    && (forall k :: 2 + |c.name| <= k < width + 5 ==> line[k] == ' ')
    && line[width + 5..] == c.description
  }

  /** A line for a command whose name fits the width keeps its description in column `width + 5`. */
  lemma LineAligned(c: Command, width: nat)
    requires |c.name| <= width
    ensures AlignedLine(CommandLine(c, width), c, width)
  {
  }

  lemma MainLineAligned(h: Layout, i: nat)
    requires i < |h.main| && |h.main[i].name| <= h.width
    ensures AlignedLine(Render(h)[3 + i], h.main[i], h.width)
  {
    assert Render(h)[3 + i] == CommandLine(h.main[i], h.width);
    LineAligned(h.main[i], h.width);
  }

  lemma SecondaryLineAligned(h: Layout, i: nat)
    requires i < |h.secondary| && |h.secondary[i].name| <= h.width
    ensures AlignedLine(Render(h)[5 + |h.main| + i], h.secondary[i], h.width)
  {
    assert Render(h)[5 + |h.main| + i] == CommandLine(h.secondary[i], h.width);
    LineAligned(h.secondary[i], h.width);
  }

  /** Rendering keeps every description of a layout whose names fit its width in column `width + 5`. */
  lemma RenderAligned(h: Layout)
    requires forall c :: c in h.main || c in h.secondary ==> |c.name| <= h.width
    ensures forall i :: 0 <= i < |h.main| ==> AlignedLine(Render(h)[3 + i], h.main[i], h.width)
    ensures forall i :: 0 <= i < |h.secondary| ==> AlignedLine(Render(h)[5 + |h.main| + i], h.secondary[i], h.width)
  {
    forall i | 0 <= i < |h.main|
      ensures AlignedLine(Render(h)[3 + i], h.main[i], h.width)
    {
      assert h.main[i] in h.main;
      MainLineAligned(h, i);
    }
    forall i | 0 <= i < |h.secondary|
      ensures AlignedLine(Render(h)[5 + |h.main| + i], h.secondary[i], h.width)
    {
      assert h.secondary[i] in h.secondary;
      SecondaryLineAligned(h, i);
    }
  }

  /**
   Column alignment of the printed screen: every main and every secondary
   command is printed with its name in column 2 and its description in column
   `w + 5`, where `w` is the length of the longest command name.
   */
  lemma DescriptionsAligned(registry: seq<Command>)
    ensures var h := Arrange(registry); var lines := HelpLines(registry);
      && (forall i :: 0 <= i < |h.main| ==> AlignedLine(lines[3 + i], h.main[i], h.width))
      && (forall i :: 0 <= i < |h.secondary| ==> AlignedLine(lines[5 + |h.main| + i], h.secondary[i], h.width))
  {
    RenderAligned(Arrange(registry));
  }

  /**
   When no two registered classes share a class name, the secondary list is
   determined: any class-name-sorted arrangement of the secondary commands is
   the one shown.
   */
  lemma SecondaryOrderDetermined(registry: seq<Command>, s: seq<Command>)
    requires UniqueClassNames(registry)
    requires SortedByName(s) && multiset(s) == multiset(SecondaryCommands(registry))
    ensures s == Arrange(registry).secondary
  {
    var sec := SecondaryCommands(registry);
    forall x | x in s
      ensures x in registry
    {
      assert x in multiset(sec);
      assert x in sec;
    }
    assert UniqueClassNames(s);
    SortedByNameUnique(s, Arrange(registry).secondary);
  }

  /**
   When no two commands share a name, the main list is determined too: any
   rank-sorted arrangement of the main commands is the one shown (the main
   group of `Arrange`).
   */
  lemma MainOrderDetermined(registry: seq<Command>, s: seq<Command>)
    requires UniqueNames(registry)
    requires SortedByRank(s) && multiset(s) == multiset(MainCommands(registry))
    ensures s == OrderMain(MainCommands(registry))
  {
    var main := MainCommands(registry);
    forall x | x in s
      ensures x in registry && IsMain(x)
    {
      assert x in multiset(main);
      assert x in main;
    }
    forall x, y | x in s && y in s && Rank(x) == Rank(y)
      ensures x == y
    {
      RankDeterminesName(x, y);
    }
    SortedByRankUnique(s, OrderMain(main));
  }
}

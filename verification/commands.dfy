/**
 The command registry: every subclass of the command base class, found at
 load time, with the derived command names (the demodulized, downcased class
 names) and the width of the widest one. Discovery itself is not modelled;
 the registry is an input sequence in discovery order.
 */
module Commands {
  import opened Text

  /**
   One command class. `className` is the full class name (what the secondary
   help list is sorted by), `name` is its command name (the demodulized class
   name, downcased) and `description` is the class's help text.
   */
  datatype Command = Command(className: string, name: string, description: string)

  /** The set of command names a first argument is looked up in. */
  function Names(registry: seq<Command>): set<string> {
    set c | c in registry :: c.name
  }

  predicate IsNameChar(c: char) {
    'a' <= c <= 'z' || '0' <= c <= '9' || c == '_'
  }

  /** A downcased Ruby constant name: a lower-case letter, then letters, digits or underscores. */
  predicate IsCommandName(n: string) {
    && |n| > 0
    && 'a' <= n[0] <= 'z'
    && forall i :: 0 <= i < |n| ==> IsNameChar(n[i])
  }

  /** No two distinct registered classes share a class name. */
  predicate UniqueClassNames(s: seq<Command>) {
    forall x, y :: x in s && y in s && x.className == y.className ==> x == y
  }

  /** A command name is already lower-case, so downcasing a token that matches it is harmless. */
  lemma CommandNameIsLowerCase(n: string)
    requires IsCommandName(n)
    ensures Downcase(n) == n
  {
    assert NoUpper(n) by {
      forall i | 0 <= i < |n| ensures !IsUpper(n[i]) {
        assert IsNameChar(n[i]);
      }
    }
    DowncaseNormalizes(n);
  }

  /** Position of the first registered command called `name`. */
  function FirstIndex(registry: seq<Command>, name: string): (i: nat)
    requires name in Names(registry)
    ensures i < |registry| && registry[i].name == name
    ensures forall j :: 0 <= j < i ==> registry[j].name != name
  {
    if registry[0].name == name then 0
    else
      assert name in Names(registry[1..]) by {
        var c :| c in registry && c.name == name;
        assert c != registry[0];
        assert c in registry[1..];
      }
      1 + FirstIndex(registry[1..], name)
  }

  /**
   The registered class a command name stands for: the first registered class
   with that command name. This coincides with the runner's constant lookup
   only when every command class is defined directly in the command
   namespace and no two classes share a command name.
   */
  function Lookup(registry: seq<Command>, name: string): (c: Command)
    requires name in Names(registry)
    ensures c in registry && c.name == name
  {
    registry[FirstIndex(registry, name)]
  }

  /** `MAX_COMMAND_LEN`: the length of the longest command name (0 for an empty registry). */
  function MaxNameLen(registry: seq<Command>): (w: nat)
    ensures forall c :: c in registry ==> |c.name| <= w
    ensures registry != [] ==> exists c :: c in registry && |c.name| == w
    ensures registry == [] ==> w == 0
  {
    if registry == [] then 0
    else
      var rest := MaxNameLen(registry[1..]);
      assert forall c :: c in registry ==> c == registry[0] || c in registry[1..];
      if |registry[0].name| >= rest then |registry[0].name|
      else
        assert registry[1..] != [];
        rest
  }
}

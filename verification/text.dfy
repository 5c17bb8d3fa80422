/**
 Character and string helpers the command runner relies on: ASCII
 lower-casing (Ruby's `String#downcase` on command tokens), left-justified
 padding (the `%-Ns` directive of the help table) and the lexicographic
 order Ruby's `String#<=>` uses when `sort_by(&:name)` orders classes.
 */
module Text {

  predicate IsUpper(c: char) {
    'A' <= c <= 'Z'
  }

  /** Lower-cases an ASCII capital letter and leaves every other character alone. */
  function DowncaseChar(c: char): (d: char)
    ensures !IsUpper(d)
    ensures IsUpper(c) ==> d as int == c as int + 32
    ensures !IsUpper(c) ==> d == c
  {
    if IsUpper(c) then (c as int + 32) as char else c
  }

  /** `String#downcase`, restricted to the ASCII letters a command token can hold. */
  function Downcase(s: string): (r: string)
    ensures |r| == |s|
    ensures forall i :: 0 <= i < |s| ==> r[i] == DowncaseChar(s[i])
  {
    seq(|s|, i requires 0 <= i < |s| => DowncaseChar(s[i]))
  }

  predicate NoUpper(s: string) {
    forall i :: 0 <= i < |s| ==> !IsUpper(s[i])
  }

  /** Downcasing leaves no capital behind, and a string without capitals is its own downcase. */
  lemma DowncaseNormalizes(s: string)
    ensures NoUpper(Downcase(s))
    ensures Downcase(Downcase(s)) == Downcase(s)
    ensures NoUpper(s) <==> Downcase(s) == s
  {
    if NoUpper(s) {
      assert forall i :: 0 <= i < |s| ==> Downcase(s)[i] == s[i];
    }
    if Downcase(s) == s {
      assert forall i :: 0 <= i < |s| ==> !IsUpper(s[i]) by {
        forall i | 0 <= i < |s| ensures !IsUpper(s[i]) {
          assert s[i] == Downcase(s)[i];
        }
      }
    }
  }

  /** `n` blanks. */
  function Spaces(n: nat): (r: string)
    ensures |r| == n
    ensures forall i :: 0 <= i < n ==> r[i] == ' '
  {
    seq(n, i => ' ')
  }

  /** The `%-Ns` directive: `s` left-justified in a field of `width` characters, never truncated. */
  function PadRight(s: string, width: nat): (r: string)
    ensures |r| == if |s| < width then width else |s|
    ensures r[..|s|] == s
    ensures forall i :: |s| <= i < |r| ==> r[i] == ' '
  {
    if |s| < width then s + Spaces(width - |s|) else s
  }

  /**
   Lexicographic order on code points: a proper prefix comes first, otherwise
   the first differing character decides. On UTF-8 text this is the same order
   as Ruby's byte-wise `String#<=>`.
   */
  predicate LexLe(a: string, b: string)
    decreases |a|
  {
    |a| == 0 || (|b| > 0 && (a[0] < b[0] || (a[0] == b[0] && LexLe(a[1..], b[1..]))))
  }

  lemma {:induction false} LexLeTotal(a: string, b: string)
    ensures LexLe(a, b) || LexLe(b, a)
    decreases |a|
  {
    if |a| > 0 && |b| > 0 && a[0] == b[0] {
      LexLeTotal(a[1..], b[1..]);
    }
  }

  lemma {:induction false} LexLeTransitive(a: string, b: string, c: string)
    requires LexLe(a, b) && LexLe(b, c)
    ensures LexLe(a, c)
    decreases |a|
  {
    if |a| > 0 && a[0] == b[0] && b[0] == c[0] {
      LexLeTransitive(a[1..], b[1..], c[1..]);
    }
  }

  lemma {:induction false} LexLeAntisymmetric(a: string, b: string)
    requires LexLe(a, b) && LexLe(b, a)
    ensures a == b
    decreases |a|
  {
    if |a| > 0 {
      LexLeAntisymmetric(a[1..], b[1..]);
      assert a == [a[0]] + a[1..] && b == [b[0]] + b[1..];
    }
  }
}

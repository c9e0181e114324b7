/**
 * Shell-style glob matching, the model of Python's `fnmatch.fnmatch(name, pattern)` and of
 * `grouper.util.matches_glob(pattern, name)`: `*` matches any run of characters, `?` matches
 * one character, every other character matches itself.
 */
module Glob {

  predicate Matches(pattern: string, name: string)
    decreases |pattern| + |name|
  {
    if pattern == [] then name == []
    else if pattern[0] == '*' then
      Matches(pattern[1..], name) || (name != [] && Matches(pattern, name[1..]))
    else
      name != [] && (pattern[0] == '?' || pattern[0] == name[0]) && Matches(pattern[1..], name[1..])
  }

  /** A pattern with no wildcard characters. */
  predicate Literal(pattern: string)
  {
    '*' !in pattern && '?' !in pattern
  }

  /** The argument `*` of a grant covers every requested argument. */
  lemma {:induction false} StarMatchesAnything(name: string)
    ensures Matches("*", name)
  {
    if name != [] {
      StarMatchesAnything(name[1..]);
    }
  }

  /** Every pattern matches its own text, wildcards included. */
  lemma {:induction false} MatchesItself(s: string)
    ensures Matches(s, s)
  {
    if s != [] {
      MatchesItself(s[1..]);
      if s[0] == '*' {
        assert Matches(s[1..], s[1..]);
        assert Matches(s, s[1..]) by {
          StarPrefixMatches(s[1..], s[1..]);
        }
      }
    }
  }

  /** A pattern that starts with `*` matches whatever its tail matches. */
  lemma {:induction false} StarPrefixMatches(rest: string, name: string)
    requires Matches(rest, name)
    ensures Matches(['*'] + rest, name)
  {
    assert (['*'] + rest)[1..] == rest;
  }

  /** A literal pattern matches exactly one name: itself. */
  lemma {:induction false} LiteralMatchesOnlyItself(pattern: string, name: string)
    requires Literal(pattern)
    ensures Matches(pattern, name) <==> pattern == name
  {
    if pattern != [] && name != [] {
      assert '*' !in pattern[1..] && '?' !in pattern[1..];
      LiteralMatchesOnlyItself(pattern[1..], name[1..]);
      assert pattern == [pattern[0]] + pattern[1..] && name == [name[0]] + name[1..];
    }
  }
}

/**
  The glob matching behind the settings filter: `*` matches any run of characters, including none, `?`
  matches exactly one character, and every other character matches itself.
*/
module WildMatch {
  import opened Text

  predicate IsLiteral(p: string) {
    forall i :: 0 <= i < |p| ==> p[i] != '*' && p[i] != '?'
  }

  predicate GlobMatch(p: string, s: string)
    decreases |p| + |s|
  {
    if p == [] then s == []
    else if p[0] == '*' then GlobMatch(p[1..], s) || (s != [] && GlobMatch(p, s[1..]))
    else s != [] && (p[0] == '?' || p[0] == s[0]) && GlobMatch(p[1..], s[1..])
  }

  /** A pattern without wildcards matches exactly itself. */
  lemma {:induction false} LiteralMatchesItself(p: string, s: string)
    requires IsLiteral(p)
    ensures GlobMatch(p, s) <==> s == p
    decreases |p|
  {
    if p != [] {
      assert IsLiteral(p[1..]) by {
        forall i | 0 <= i < |p[1..]| ensures p[1..][i] != '*' && p[1..][i] != '?' {
          assert p[1..][i] == p[i + 1];
        }
      }
      if s != [] {
        LiteralMatchesItself(p[1..], s[1..]);
        if s[0] == p[0] && s[1..] == p[1..] {
          assert s == [s[0]] + s[1..] && p == [p[0]] + p[1..];
        }
      }
    }
  }

  /** A lone `*` matches every string. */
  lemma {:induction false} StarMatchesAll(s: string)
    ensures GlobMatch("*", s)
    decreases |s|
  {
    if s != [] {
      StarMatchesAll(s[1..]);
    }
  }

  /** `?` repeated n times matches exactly the strings of length n. */
  lemma {:induction false} QuestionMarksMatchLength(n: nat, s: string)
    ensures GlobMatch(seq(n, _ => '?'), s) <==> |s| == n
    decreases n
  {
    var p := seq(n, _ => '?');
    if n > 0 {
      assert p[1..] == seq(n - 1, _ => '?');
      if s != [] {
        QuestionMarksMatchLength(n - 1, s[1..]);
      }
    }
  }

  /** A literal followed by `*` matches exactly the strings that start with that literal. */
  lemma {:induction false} LiteralStarIsPrefix(p: string, s: string)
    requires IsLiteral(p)
    ensures GlobMatch(p + "*", s) <==> StartsWith(s, p)
    decreases |p|
  {
    if p == [] {
      StarMatchesAll(s);
      assert p + "*" == "*";
    } else {
      assert (p + "*")[1..] == p[1..] + "*";
      assert IsLiteral(p[1..]) by {
        forall i | 0 <= i < |p[1..]| ensures p[1..][i] != '*' && p[1..][i] != '?' {
          assert p[1..][i] == p[i + 1];
        }
      }
      if s != [] {
        LiteralStarIsPrefix(p[1..], s[1..]);
        if s[0] == p[0] && StartsWith(s[1..], p[1..]) {
          assert s[..|p|] == [s[0]] + s[1..][..|p| - 1];
          assert p == [p[0]] + p[1..];
        }
        if StartsWith(s, p) {
          assert s[0] == s[..|p|][0];
          assert s[1..][..|p| - 1] == s[..|p|][1..];
        }
      }
    }
  }
}

/** LIKE with ESCAPE '\', and the escaping that makes a user's text match literally. */
module LikePattern {

  /** Does s match the pattern p? */
  predicate Like(p: string, s: string)
    decreases |p| + |s|
  {
    if p == "" then s == ""
    else if p[0] == '\\' then |p| >= 2 && s != "" && s[0] == p[1] && Like(p[2..], s[1..])
    else if p[0] == '%' then Like(p[1..], s) || (s != "" && Like(p, s[1..]))
    else if p[0] == '_' then s != "" && Like(p[1..], s[1..])
    else s != "" && s[0] == p[0] && Like(p[1..], s[1..])
  }

  predicate Special(c: char) { c == '\\' || c == '%' || c == '_' }

  function EscapeChar(c: char): string { if Special(c) then ['\\', c] else [c] }

  function Escape(q: string): string {
    if q == "" then "" else EscapeChar(q[0]) + Escape(q[1..])
  }

  function Prefix(q: string): string { Escape(q) + "%" }
  function Contains(q: string): string { "%" + Escape(q) + "%" }

  lemma {:induction false} EscapeSnoc(q: string, c: char)
    ensures Escape(q + [c]) == Escape(q) + EscapeChar(c)
  {
    if q == "" {
      assert q + [c] == [c];
      assert Escape([c][1..]) == "";
    } else {
      assert (q + [c])[1..] == q[1..] + [c];
      EscapeSnoc(q[1..], c);
    }
  }

  /** One replacement pass over the text. */
  method Replace(q: string) returns (out: string)
    ensures out == Escape(q)
  {
    out := "";
    for i := 0 to |q|
      invariant out == Escape(q[..i])
    {
      EscapeSnoc(q[..i], q[i]);
      assert q[..i+1] == q[..i] + [q[i]];
      if Special(q[i]) { out := out + ['\\', q[i]]; } else { out := out + [q[i]]; }
    }
    assert q[..|q|] == q;
  }

  lemma {:induction false} AnythingMatches(s: string)
    ensures Like("%", s)
    decreases |s|
  {
    if s != "" { AnythingMatches(s[1..]); } else { assert Like("", ""); }
  }

  lemma EscapedFirst(c: char, rest: string, s: string)
    ensures Like(EscapeChar(c) + rest, s) <==> s != "" && s[0] == c && Like(rest, s[1..])
  {
    var p := EscapeChar(c) + rest;
    if Special(c) {
      assert p[0] == '\\' && p[1] == c && p[2..] == rest;
    } else {
      assert p[0] == c && p[1..] == rest;
    }
  }

  lemma PrefixStep(q: string, s: string)
    requires q != "" && s != ""
    ensures q <= s <==> q[0] == s[0] && q[1..] <= s[1..]
    ensures q <= s ==> s[1..][|q[1..]|..] == s[|q|..]
  {
    assert q == [q[0]] + q[1..] && s == [s[0]] + s[1..];
  }

  /** An escaped text consumes exactly itself. */
  lemma {:induction false} EscapedConsumes(q: string, tail: string, s: string)
    ensures Like(Escape(q) + tail, s) <==> q <= s && Like(tail, s[|q|..])
    decreases |q|
  {
    if q == "" {
      assert Escape(q) + tail == tail && s[0..] == s;
    } else {
      assert Escape(q) + tail == EscapeChar(q[0]) + (Escape(q[1..]) + tail);
      EscapedFirst(q[0], Escape(q[1..]) + tail, s);
      if s != "" {
        EscapedConsumes(q[1..], tail, s[1..]);
        PrefixStep(q, s);
      }
    }
  }

  /** The prefix pattern matches exactly the texts that literally start with q. */
  lemma PrefixMatches(q: string, s: string)
    ensures Like(Prefix(q), s) <==> q <= s
  {
    EscapedConsumes(q, "%", s);
    if q <= s { AnythingMatches(s[|q|..]); }
  }

  ghost predicate OccursIn(q: string, s: string) { exists i :: 0 <= i <= |s| && q <= s[i..] }

  lemma {:induction false} FloatingMatch(p: string, s: string)
    ensures Like("%" + p, s) <==> exists i :: 0 <= i <= |s| && Like(p, s[i..])
    decreases |s|
  {
    assert ("%" + p)[0] == '%' && ("%" + p)[1..] == p;
    assert s[0..] == s;
    if s != "" {
      FloatingMatch(p, s[1..]);
      if exists i :: 0 <= i <= |s| && Like(p, s[i..]) {
        var i :| 0 <= i <= |s| && Like(p, s[i..]);
        if i > 0 { assert s[1..][i-1..] == s[i..]; }
      }
      if exists i :: 0 <= i <= |s|-1 && Like(p, s[1..][i..]) {
        var i :| 0 <= i <= |s|-1 && Like(p, s[1..][i..]);
        assert s[i+1..] == s[1..][i..];
      }
    }
  }

  /** The contains pattern matches exactly the texts that literally contain q. */
  lemma ContainsMatches(q: string, s: string)
    ensures Like(Contains(q), s) <==> OccursIn(q, s)
  {
    assert Contains(q) == "%" + Prefix(q);
    FloatingMatch(Prefix(q), s);
    forall i | 0 <= i <= |s| ensures Like(Prefix(q), s[i..]) <==> q <= s[i..] { PrefixMatches(q, s[i..]); }
  }

  /** Unescaped, an underscore stands for any one character and a percent sign for any text. */
  lemma UnescapedWildcards(s: string)
    ensures Like("_", s) <==> |s| == 1
    ensures Like("%", s)
  {
    AnythingMatches(s);
    if s != "" { assert Like("", s[1..]) <==> s[1..] == ""; }
  }
}

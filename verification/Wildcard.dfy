/** Patterns with '*' for any text and '?' for any one character. */
module Wildcard {
  import opened Seqs

  // ----- what a pattern means

  /** The texts one character of a pattern stands for. */
  predicate Piece(c: char, w: string) {
    if c == '*' then true else if c == '?' then |w| == 1 else w == [c]
  }

  predicate Fits(p: string, ws: seq<string>) {
    |ws| == |p| && forall k | 0 <= k < |p| :: Piece(p[k], ws[k])
  }

  /** The text is cut into one piece for every character of the pattern. */
  ghost predicate Matches(p: string, s: string) {
    exists ws :: Fits(p, ws) && Flatten(ws) == s
  }

  // ----- patterns and concatenation

  lemma Join(p: string, q: string, s: string, t: string)
    requires Matches(p, s) && Matches(q, t)
    ensures Matches(p + q, s + t)
  {
    var ws :| Fits(p, ws) && Flatten(ws) == s;
    var xs :| Fits(q, xs) && Flatten(xs) == t;
    FlattenConcat(ws, xs);
    assert Fits(p + q, ws + xs);
  }

  lemma Split(p: string, q: string, s: string) returns (i: nat)
    requires Matches(p + q, s)
    ensures i <= |s| && Matches(p, s[..i]) && Matches(q, s[i..])
  {
    var ws :| Fits(p + q, ws) && Flatten(ws) == s;
    var xs, ys := ws[..|p|], ws[|p|..];
    assert ws == xs + ys;
    FlattenConcat(xs, ys);
    i := |Flatten(xs)|;
    assert forall k | 0 <= k < |p| :: (p + q)[k] == p[k];
    assert forall k | 0 <= k < |q| :: (p + q)[|p| + k] == q[k] && ys[k] == ws[|p| + k];
    assert Fits(p, xs) && Fits(q, ys);
    assert s[..i] == Flatten(xs) && s[i..] == Flatten(ys);
  }

  /** A text matches two patterns one behind the other exactly when it can be cut in two to match each. */
  lemma Concatenation(p: string, q: string, s: string)
    ensures Matches(p + q, s) <==> exists i | 0 <= i <= |s| :: Matches(p, s[..i]) && Matches(q, s[i..])
  {
    if Matches(p + q, s) {
      var i := Split(p, q, s);
    }
    if i :| 0 <= i <= |s| && Matches(p, s[..i]) && Matches(q, s[i..]) {
      Join(p, q, s[..i], s[i..]);
      assert s[..i] + s[i..] == s;
    }
  }

  lemma Single(c: char, s: string)
    ensures Matches([c], s) <==> Piece(c, s)
  {
    if Matches([c], s) {
      var ws :| Fits([c], ws) && Flatten(ws) == s;
      assert ws[1..] == [] && ws[0] == Flatten(ws);
    }
    if Piece(c, s) {
      assert [s][1..] == [] && Flatten([s]) == s + Flatten([]) == s;
      assert Fits([c], [s]);
    }
  }

  lemma Nothing(s: string)
    ensures Matches("", s) <==> s == ""
  {
    assert Fits("", []) && Flatten<char>([]) == "";
  }

  /** The first character of a pattern, read as the matching code reads it. */
  lemma First(p: string, s: string)
    requires p != ""
    ensures p[0] == '*' ==> (Matches(p, s) <==> Matches(p[1..], s) || (s != "" && Matches(p, s[1..])))
    ensures p[0] == '?' ==> (Matches(p, s) <==> s != "" && Matches(p[1..], s[1..]))
    ensures p[0] != '*' && p[0] != '?' ==> (Matches(p, s) <==> s != "" && s[0] == p[0] && Matches(p[1..], s[1..]))
  {
    var head, q := [p[0]], p[1..];
    assert p == head + q;
    if p[0] == '*' {
      FirstStar(q, s);
    } else {
      if Matches(p, s) {
        var i := Split(head, q, s);
        Single(p[0], s[..i]);
        assert i == 1 && s[..1] == [s[0]];
      }
      if s != "" && Matches(q, s[1..]) && (p[0] == '?' || s[0] == p[0]) {
        Single(p[0], [s[0]]);
        Join(head, q, [s[0]], s[1..]);
        assert [s[0]] + s[1..] == s;
      }
    }
  }

  lemma FirstStar(q: string, s: string)
    ensures Matches("*" + q, s) <==> Matches(q, s) || (s != "" && Matches("*" + q, s[1..]))
  {
    if Matches("*" + q, s) {
      var i := Split("*", q, s);
      if i == 0 {
        assert s[0..] == s;
      } else {
        Single('*', s[1..][..i - 1]);
        assert s[1..][i - 1..] == s[i..] && s[1..] == s[1..][..i - 1] + s[i..];
        Join("*", q, s[1..][..i - 1], s[i..]);
      }
    }
    if Matches(q, s) {
      Single('*', "");
      Join("*", q, "", s);
      assert "" + s == s;
    }
    if s != "" && Matches("*" + q, s[1..]) {
      var i := Split("*", q, s[1..]);
      Single('*', s[..i + 1]);
      assert s[1..][i..] == s[i + 1..] && s == s[..i + 1] + s[i + 1..];
      Join("*", q, s[..i + 1], s[i + 1..]);
    }
  }

  /** One star is as good as two, anywhere in a pattern. */
  lemma TwoStars(p: string, q: string, s: string)
    ensures Matches(p + ("**" + q), s) <==> Matches(p + ("*" + q), s)
  {
    if Matches(p + ("**" + q), s) {
      var i := Split(p, "**" + q, s);
      var t := s[i..];
      var j := Split("**", q, t);
      Single('*', t[..j]);
      assert t[..j] + t[j..] == t && s[..i] + t == s;
      Join("*", q, t[..j], t[j..]);
      Join(p, "*" + q, s[..i], t);
    }
    if Matches(p + ("*" + q), s) {
      var i := Split(p, "*" + q, s);
      var t := s[i..];
      Single('*', "");
      Join("*", "*" + q, "", t);
      assert "*" + ("*" + q) == "**" + q && "" + t == t && s[..i] + t == s;
      Join(p, "**" + q, s[..i], t);
    }
  }

  // ----- the matching code

  /** wildCardMatch decides exactly the texts the pattern stands for. */
  method WildCardMatch(str: string, pattern: string) returns (matched: bool)
    ensures matched <==> Matches(pattern, str)
    decreases |str| + |pattern|
  {
    var s, p := str, pattern;
    while p != ""
      invariant Matches(pattern, str) <==> Matches(p, s)
      invariant |s| <= |str| && |p| <= |pattern|
      decreases |p|
    {
      First(p, s);
      if p[0] == '?' {
        if s == "" { return false; }
        s, p := s[1..], p[1..];
      } else if p[0] == '*' {
        matched := WildCardMatch(s, p[1..]);
        if !matched && s != "" {
          matched := WildCardMatch(s[1..], p);
        }
        return;
      } else {
        if s == "" || s[0] != p[0] { return false; }
        s, p := s[1..], p[1..];
      }
    }
    Nothing(s);
    return s == "";
  }
}

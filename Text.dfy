/**
  String primitives the web part relies on, as ECMAScript defines them:
  the whitespace class shared by the regular-expression escape `\s` and
  `String.prototype.trim`, `trim` itself, and `String.prototype.split` with
  a one-character separator.
 */
module Text {

  /** ECMAScript WhiteSpace and LineTerminator code points: the set `\s` matches and `trim` removes (all in the BMP). */
  function IsSpace(c: char): (b: bool)
    ensures b ==> c <= '\U{FEFF}' && c != '@' && c != '.' && c != ','
  {
    || c == '\t' || c == '\n' || c == '\U{B}' || c == '\U{C}' || c == '\r' || c == ' '
    || c == '\U{A0}' || c == '\U{1680}' || ('\U{2000}' <= c <= '\U{200A}')
    || c == '\U{2028}' || c == '\U{2029}' || c == '\U{202F}' || c == '\U{205F}'
    || c == '\U{3000}' || c == '\U{FEFF}'
  }

  predicate AllSpace(s: string) {
    forall i {:trigger IsSpace(s[i])} :: 0 <= i < |s| ==> IsSpace(s[i])
  }

  /** Drops the leading whitespace. */
  function TrimStart(s: string): (r: string)
    ensures |r| <= |s|
  {
    if |s| > 0 && IsSpace(s[0]) then TrimStart(s[1..]) else s
  }

  /** What `TrimStart` keeps is a suffix of `s` that does not start with a space, and all it drops is whitespace. */
  lemma {:induction false} TrimStartDropsSpace(s: string)
    ensures var r := TrimStart(s);
      && r == s[|s| - |r|..] && AllSpace(s[..|s| - |r|]) && (r != [] ==> !IsSpace(r[0]))
    decreases |s|
  {
    if |s| > 0 && IsSpace(s[0]) {
      TrimStartDropsSpace(s[1..]);
      var r := TrimStart(s);
      var n := |s| - |r|;
      assert s[1..][|s| - 1 - |r|..] == s[n..];
      forall i | 0 <= i < n ensures IsSpace(s[..n][i]) {
        if i > 0 { assert s[..n][i] == s[1..][..n - 1][i - 1]; }
      }
    }
  }

  /** Drops the trailing whitespace. */
  function TrimEnd(s: string): (r: string)
    ensures |r| <= |s|
  {
    if |s| > 0 && IsSpace(s[|s| - 1]) then TrimEnd(s[..|s| - 1]) else s
  }

  /** What `TrimEnd` keeps is a prefix of `s` that does not end with a space, and all it drops is whitespace. */
  lemma {:induction false} TrimEndDropsSpace(s: string)
    ensures var r := TrimEnd(s);
      && r == s[..|r|] && AllSpace(s[|r|..]) && (r != [] ==> !IsSpace(r[|r| - 1]))
    decreases |s|
  {
    if |s| > 0 && IsSpace(s[|s| - 1]) {
      var u := s[..|s| - 1];
      TrimEndDropsSpace(u);
      var r := TrimEnd(s);
      assert u[..|r|] == s[..|r|];
      forall i | 0 <= i < |s| - |r| ensures IsSpace(s[|r|..][i]) {
        if i < |u| - |r| { assert s[|r|..][i] == u[|r|..][i]; }
      }
    }
  }

  /** `String.prototype.trim`: blank exactly for an all-whitespace string, otherwise bounded by non-space characters. */
  function Trim(s: string): (r: string)
    ensures |r| <= |s|
    ensures r == [] <==> AllSpace(s)
    ensures r != [] ==> !IsSpace(r[0]) && !IsSpace(r[|r| - 1])
  {
    var t := TrimStart(s);
    var r := TrimEnd(t);
    TrimStartDropsSpace(s);
    TrimEndDropsSpace(t);
    assert r == [] ==> AllSpace(s) by {
      if r == [] {
        assert t == [];
        assert s[..|s| - |t|] == s;
      }
    }
    assert r != [] ==> !IsSpace(r[0]) by {
      if r != [] { assert r[0] == t[0]; }
    }
    r
  }

  /**
    `trim` keeps a slice of its input, starting where the leading
    whitespace ends, and drops only whitespace around it.
   */
  lemma TrimIsSlice(s: string)
    ensures var r := Trim(s); var i := |s| - |TrimStart(s)|;
      && 0 <= i <= |s| - |r| && r == s[i..i + |r|] && AllSpace(s[..i]) && AllSpace(s[i + |r|..])
  {
    var t := TrimStart(s);
    var r := TrimEnd(t);
    TrimStartDropsSpace(s);
    TrimEndDropsSpace(t);
    var i := |s| - |t|;
    assert r == Trim(s);
    assert r == s[i..i + |r|];
    assert t[|r|..] == s[i + |r|..];
  }

  lemma {:induction false} TrimStartSkips(p: string, t: string)
    requires AllSpace(p)
    requires t == [] || !IsSpace(t[0])
    ensures TrimStart(p + t) == t
    decreases |p|
  {
    if p != [] {
      assert (p + t)[1..] == p[1..] + t;
      TrimStartSkips(p[1..], t);
    } else {
      assert p + t == t;
    }
  }

  lemma {:induction false} TrimEndSkips(m: string, q: string)
    requires AllSpace(q)
    requires m == [] || !IsSpace(m[|m| - 1])
    ensures TrimEnd(m + q) == m
    decreases |q|
  {
    if q != [] {
      assert (m + q)[..|m + q| - 1] == m + q[..|q| - 1];
      TrimEndSkips(m, q[..|q| - 1]);
    } else {
      assert m + q == m;
    }
  }

  /**
    `trim` removes exactly the surrounding whitespace: whenever `s` is some
    whitespace, a core that neither starts nor ends with whitespace, and more
    whitespace, the result is that core.
   */
  lemma TrimExact(p: string, m: string, q: string)
    requires AllSpace(p) && AllSpace(q)
    requires m == [] || (!IsSpace(m[0]) && !IsSpace(m[|m| - 1]))
    ensures Trim(p + m + q) == m
  {
    if m == [] {
      assert AllSpace(p + m + q) by {
        forall i | 0 <= i < |p + m + q| ensures IsSpace((p + m + q)[i]) {
          if i < |p| { assert (p + m + q)[i] == p[i]; } else { assert (p + m + q)[i] == q[i - |p|]; }
        }
      }
    } else {
      assert p + m + q == p + (m + q);
      TrimStartSkips(p, m + q);
      TrimEndSkips(m, q);
    }
  }

  lemma TrimIdempotent(s: string)
    ensures Trim(Trim(s)) == Trim(s)
  {
    var r := Trim(s);
    assert [] + r + [] == r;
    TrimExact([], r, []);
  }

  /** The pieces of `sep`-separated `parts`, glued back together with `sep`. */
  function Join(parts: seq<string>, sep: char): string
    requires |parts| >= 1
    decreases |parts|
  {
    if |parts| == 1 then parts[0] else parts[0] + [sep] + Join(parts[1..], sep)
  }

  /**
    `String.prototype.split` with a one-character separator: at least one
    piece, no piece holds the separator, and joining the pieces with the
    separator gives back the input.
   */
  function Split(s: string, sep: char): (parts: seq<string>)
    ensures |parts| >= 1
    ensures forall k :: 0 <= k < |parts| ==> sep !in parts[k]
    ensures Join(parts, sep) == s
    decreases |s|
  {
    if s == [] then [[]]
    else
      var rest := Split(s[1..], sep);
      if s[0] == sep then
        assert [sep] + Join(rest, sep) == s;
        [[]] + rest
      else
        var parts := [[s[0]] + rest[0]] + rest[1..];
        assert parts[1..] == rest[1..];
        assert Join(parts, sep) == s by {
          if |rest| > 1 {
            assert Join(rest, sep) == rest[0] + [sep] + Join(rest[1..], sep);
          }
        }
        parts
  }

  /** Splitting at the first separator: a separator-free head becomes the first piece. */
  lemma {:induction false} SplitAfterHead(h: string, sep: char, t: string)
    requires sep !in h
    ensures Split(h + [sep] + t, sep) == [h] + Split(t, sep)
    decreases |h|
  {
    if h == [] {
      assert h + [sep] + t == [sep] + t;
      assert ([sep] + t)[1..] == t;
    } else {
      var s := h + [sep] + t;
      assert s[0] == h[0] && s[1..] == h[1..] + [sep] + t;
      SplitAfterHead(h[1..], sep, t);
      assert [h[0]] + h[1..] == h;
    }
  }

  lemma {:induction false} SplitWithoutSeparator(s: string, sep: char)
    requires sep !in s
    ensures Split(s, sep) == [s]
    decreases |s|
  {
    if s != [] {
      SplitWithoutSeparator(s[1..], sep);
      assert [s[0]] + s[1..] == s;
    }
  }

  /** The other half of the round trip: separator-free pieces are recovered from their join. */
  lemma {:induction false} SplitJoin(parts: seq<string>, sep: char)
    requires |parts| >= 1
    requires forall k :: 0 <= k < |parts| ==> sep !in parts[k]
    ensures Split(Join(parts, sep), sep) == parts
    decreases |parts|
  {
    if |parts| == 1 {
      SplitWithoutSeparator(parts[0], sep);
    } else {
      SplitJoin(parts[1..], sep);
      SplitAfterHead(parts[0], sep, Join(parts[1..], sep));
      assert [parts[0]] + parts[1..] == parts;
    }
  }
}

/** The component splitter of the URI type: a hand-written scanner with the
    meaning of the regular expression of Appendix B of RFC 3986 as the source
    writes it,
      ^(([^:/?#]+?):)?(\/\/([^/?#]*))?([^?#]*)(\?([^#]*))?(#(.*))?
    Every group is either optional or can match the empty string and the
    expression is not anchored at the end, so the match never fails and never
    backtracks: each group takes what its character class allows, left to
    right. */
module UriSplit {
  import opened Wrappers
  import opened Strings

  /** The five components of a URI (`UriComponents`). */
  datatype UriComponents = UriComponents(
    scheme: string, authority: string, path: string, query: string, fragment: string)

  /** The groups the URI type reads: match[2] (scheme), match[4] (authority),
      match[5] (path), match[7] (query) and match[9] (fragment); None is a
      group that did not take part in the match. */
  datatype RegexMatch = RegexMatch(
    scheme: Option<string>, authority: Option<string>, path: string,
    query: Option<string>, fragment: Option<string>)

  /** The character classes of the expression, named by the group they end. */
  datatype Stop = SchemeStop | AuthorityStop | PathStop | QueryStop | FragmentStop

  /** The characters each class excludes: `[^:/?#]`, `[^/?#]`, `[^?#]`,
      `[^#]`, and `.` (which excludes the line terminators). */
  predicate StopsAt(k: Stop, c: char)
  {
    match k
    case SchemeStop => c == ':' || c == '/' || c == '?' || c == '#'
    case AuthorityStop => c == '/' || c == '?' || c == '#'
    case PathStop => c == '?' || c == '#'
    case QueryStop => c == '#'
    case FragmentStop => IsLineTerminator(c)
  }

  predicate Free(k: Stop, s: string)
  {
    forall i :: 0 <= i < |s| ==> !StopsAt(k, s[i])
  }

  /** The length of the longest prefix that the class of `k` matches. */
  function Span(s: string, k: Stop): (n: nat)
    ensures n <= |s|
    ensures forall i :: 0 <= i < n ==> !StopsAt(k, s[i])
    ensures n < |s| ==> StopsAt(k, s[n])
  {
    if s == [] || StopsAt(k, s[0]) then 0 else 1 + Span(s[1..], k)
  }

  /** `(([^:/?#]+?):)?`: a non-empty run free of `:/?#` directly followed by
      `:`; the rest of the input follows the colon. */
  function MatchScheme(s: string): (r: (Option<string>, string))
    ensures r.0.Some? ==> |r.0.value| > 0 && Free(SchemeStop, r.0.value)
    ensures s == SchemeText(r.0) + r.1
  {
    var n := Span(s, SchemeStop);
    if 0 < n < |s| && s[n] == ':' then (Some(s[..n]), s[n + 1..]) else (None, s)
  }

  /** Whenever a non-empty run free of `:/?#` is followed by `:`, that run
      is the scheme and the rest follows the colon. */
  lemma MatchSchemeAt(s: string, n: nat)
    requires 0 < n < |s| && s[n] == ':' && Free(SchemeStop, s[..n])
    ensures MatchScheme(s) == (Some(s[..n]), s[n + 1..])
  {
    assert Span(s, SchemeStop) == n;
  }

  /** `(\/\/([^/?#]*))?` */
  function MatchAuthority(s: string): (r: (Option<string>, string))
    ensures r.0.Some? <==> StartsWith(s, "//")
    ensures r.0.Some? ==> Free(AuthorityStop, r.0.value)
    ensures r.0.Some? ==> r.1 == [] || StopsAt(AuthorityStop, r.1[0])
    ensures s == AuthorityText(r.0) + r.1
  {
    if |s| >= 2 && s[0] == '/' && s[1] == '/' then
      var n := Span(s[2..], AuthorityStop);
      (Some(s[2..2 + n]), s[2 + n..])
    else (None, s)
  }

  /** `([^?#]*)` */
  function MatchPath(s: string): (r: (string, string))
    ensures Free(PathStop, r.0)
    ensures s == r.0 + r.1
    ensures r.1 == [] || r.1[0] == '?' || r.1[0] == '#'
  {
    var n := Span(s, PathStop);
    (s[..n], s[n..])
  }

  /** `(\?([^#]*))?` */
  function MatchQuery(s: string): (r: (Option<string>, string))
    ensures r.0.Some? ==> Free(QueryStop, r.0.value)
    ensures s == QueryText(r.0) + r.1
    ensures (s == [] || s[0] == '?' || s[0] == '#') ==> (r.1 == [] || r.1[0] == '#')
  {
    if |s| > 0 && s[0] == '?' then
      var n := Span(s[1..], QueryStop);
      (Some(s[1..1 + n]), s[1 + n..])
    else (None, s)
  }

  /** `(#(.*))?`; what follows the match is returned too. */
  function MatchFragment(s: string): (r: (Option<string>, string))
    ensures r.0.Some? ==> Free(FragmentStop, r.0.value)
    ensures (s == [] || s[0] == '#') ==> s == FragmentText(r.0) + r.1
    ensures (s == [] || s[0] == '#') ==> (r.1 == [] || IsLineTerminator(r.1[0]))
  {
    if |s| > 0 && s[0] == '#' then
      var n := Span(s[1..], FragmentStop);
      (Some(s[1..1 + n]), s[1 + n..])
    else (None, s)
  }

  /** The match of the whole expression against `value`. */
  function Split(value: string): (m: RegexMatch)
    ensures m.scheme.Some? ==> |m.scheme.value| > 0 && Free(SchemeStop, m.scheme.value)
    ensures m.authority.Some? ==> Free(AuthorityStop, m.authority.value)
    ensures Free(PathStop, m.path)
    ensures m.query.Some? ==> Free(QueryStop, m.query.value)
    ensures m.fragment.Some? ==> Free(FragmentStop, m.fragment.value)
  {
    var (scheme, r1) := MatchScheme(value);
    var (authority, r2) := MatchAuthority(r1);
    var (path, r3) := MatchPath(r2);
    var (query, r4) := MatchQuery(r3);
    var (fragment, _) := MatchFragment(r4);
    RegexMatch(scheme, authority, path, query, fragment)
  }

  /** `match[k] || ""` */
  function OrEmpty(g: Option<string>): string
  {
    if g.Some? then g.value else ""
  }

  /** `_parseComponents(value)`: the groups, an absent one read as "". No
      component contains the delimiter that ends it. */
  function ParseComponents(value: string): (c: UriComponents)
    ensures forall i :: 0 <= i < |c.scheme| ==> c.scheme[i] !in {':', '/', '?', '#'}
    ensures forall i :: 0 <= i < |c.authority| ==> c.authority[i] !in {'/', '?', '#'}
    ensures forall i :: 0 <= i < |c.path| ==> c.path[i] != '?' && c.path[i] != '#'
    ensures forall i :: 0 <= i < |c.query| ==> c.query[i] != '#'
    ensures NoLineTerminator(c.fragment)
  {
    var m := Split(value);
    UriComponents(OrEmpty(m.scheme), OrEmpty(m.authority), m.path, OrEmpty(m.query), OrEmpty(m.fragment))
  }

  // ---- putting the groups back together ---------------------------------

  function SchemeText(g: Option<string>): string
  {
    if g.Some? then g.value + ":" else ""
  }

  function AuthorityText(g: Option<string>): string
  {
    if g.Some? then "//" + g.value else ""
  }

  function QueryText(g: Option<string>): string
  {
    if g.Some? then "?" + g.value else ""
  }

  function FragmentText(g: Option<string>): string
  {
    if g.Some? then "#" + g.value else ""
  }

  /** The matched text: every group that took part with its delimiter. */
  function Join(m: RegexMatch): string
  {
    SchemeText(m.scheme) + (AuthorityText(m.authority) + (m.path
      + (QueryText(m.query) + FragmentText(m.fragment))))
  }

  /** The input is the join of the groups followed by what the expression
      leaves unmatched, which is empty or starts at a line terminator. */
  lemma SplitRemainder(s: string) returns (rest: string)
    ensures s == Join(Split(s)) + rest
    ensures rest == [] || IsLineTerminator(rest[0])
  {
    var (scheme, r1) := MatchScheme(s);
    var (authority, r2) := MatchAuthority(r1);
    var (path, r3) := MatchPath(r2);
    var (query, r4) := MatchQuery(r3);
    var fragment;
    fragment, rest := MatchFragment(r4).0, MatchFragment(r4).1;
    assert Split(s) == RegexMatch(scheme, authority, path, query, fragment);
    Chain(s, SchemeText(scheme), r1, AuthorityText(authority), r2, path, r3,
          QueryText(query), r4, FragmentText(fragment), rest);
  }

  lemma Chain(s: string, a: string, r1: string, b: string, r2: string, c: string, r3: string,
              d: string, r4: string, e: string, rest: string)
    requires s == a + r1 && r1 == b + r2 && r2 == c + r3 && r3 == d + r4 && r4 == e + rest
    ensures s == a + (b + (c + (d + e))) + rest
  {
    assert r3 == (d + e) + rest;
    assert r2 == (c + (d + e)) + rest;
    assert r1 == (b + (c + (d + e))) + rest;
  }

  /** The splitter loses nothing: its groups, joined with their delimiters,
      are a prefix of the input, and the rest of the input (if any) starts at
      a line terminator inside the fragment. So on input without a line
      terminator the join is the input itself. */
  lemma JoinSplit(s: string)
    ensures StartsWith(s, Join(Split(s)))
    ensures |Join(Split(s))| < |s| ==> IsLineTerminator(s[|Join(Split(s))|])
    ensures NoLineTerminator(s) ==> Join(Split(s)) == s
  {
    var rest := SplitRemainder(s);
    var j := Join(Split(s));
    assert s[..|j|] == j;
    if rest != [] {
      assert s[|j|] == rest[0];
    }
  }

  // ---- splitting a joined match -------------------------------------------

  /** The matches the splitter can give back unchanged: each group free of the
      characters that end it, a path that begins with `/` (or is empty) after
      an authority, no path that begins with `//` without one, and, when
      neither scheme nor authority is present, no path that itself starts
      with something the scheme group would take. */
  predicate WellFormed(m: RegexMatch)
  {
    && (m.scheme.Some? ==> |m.scheme.value| > 0 && Free(SchemeStop, m.scheme.value))
    && (m.authority.Some? ==> Free(AuthorityStop, m.authority.value))
    && (m.authority.Some? ==> m.path == [] || m.path[0] == '/')
    && Free(PathStop, m.path)
    && (m.query.Some? ==> Free(QueryStop, m.query.value))
    && (m.fragment.Some? ==> Free(FragmentStop, m.fragment.value))
    && (m.authority.None? ==> !StartsWith(m.path, "//"))
    && (m.scheme.None? && m.authority.None? ==> MatchScheme(m.path).0.None?)
  }

  lemma {:induction false} SpanAppend(x: string, y: string, k: Stop)
    ensures Span(x + y, k) == if Span(x, k) < |x| then Span(x, k) else |x| + Span(y, k)
    decreases |x|
  {
    if x == [] {
      assert x + y == y;
    } else {
      assert (x + y)[0] == x[0] && (x + y)[1..] == x[1..] + y;
      SpanAppend(x[1..], y, k);
    }
  }

  lemma SpanWhole(x: string, y: string, k: Stop)
    requires Free(k, x) && (y == [] || StopsAt(k, y[0]))
    ensures Span(x + y, k) == |x|
  {
    SpanAppend(x, y, k);
    if y != [] {
      assert Span(y, k) == 0;
    }
  }

  lemma FragmentStep(f: Option<string>)
    requires f.Some? ==> Free(FragmentStop, f.value)
    ensures MatchFragment(FragmentText(f)) == (f, [])
  {
    if f.Some? {
      var s := FragmentText(f);
      assert s[1..] == f.value + [];
      SpanWhole(f.value, [], FragmentStop);
      assert s[1..1 + |f.value|] == f.value;
    }
  }

  lemma QueryStep(q: Option<string>, t: string)
    requires q.Some? ==> Free(QueryStop, q.value)
    requires t == [] || t[0] == '#'
    ensures MatchQuery(QueryText(q) + t) == (q, t)
  {
    var s := QueryText(q) + t;
    if q.Some? {
      assert s[1..] == q.value + t;
      SpanWhole(q.value, t, QueryStop);
      assert s[1..1 + |q.value|] == q.value;
      assert s[1 + |q.value|..] == t;
    } else {
      assert s == t;
    }
  }

  lemma PathStep(p: string, t: string)
    requires Free(PathStop, p)
    requires t == [] || t[0] == '?' || t[0] == '#'
    ensures MatchPath(p + t) == (p, t)
  {
    SpanWhole(p, t, PathStop);
    assert (p + t)[..|p|] == p && (p + t)[|p|..] == t;
  }

  lemma AuthorityStep(a: Option<string>, t: string)
    requires a.Some? ==> Free(AuthorityStop, a.value) && (t == [] || StopsAt(AuthorityStop, t[0]))
    requires a.None? ==> !StartsWith(t, "//")
    ensures MatchAuthority(AuthorityText(a) + t) == (a, t)
  {
    var s := AuthorityText(a) + t;
    if a.Some? {
      assert s[2..] == a.value + t;
      SpanWhole(a.value, t, AuthorityStop);
      assert s[2..2 + |a.value|] == a.value;
      assert s[2 + |a.value|..] == t;
    } else {
      assert s == t;
    }
  }

  lemma SchemeStep(sc: Option<string>, t: string)
    requires sc.Some? ==> |sc.value| > 0 && Free(SchemeStop, sc.value)
    requires sc.None? ==> MatchScheme(t).0.None?
    ensures MatchScheme(SchemeText(sc) + t) == (sc, t)
  {
    if sc.Some? {
      var s := SchemeText(sc) + t;
      assert s == sc.value + ([':'] + t);
      SpanWhole(sc.value, [':'] + t, SchemeStop);
      assert s[..|sc.value|] == sc.value;
      assert s[|sc.value| + 1..] == t;
    } else {
      assert SchemeText(sc) + t == t;
    }
  }

  /** Without scheme and authority, a path the scheme group would not take
      does not become one when a query or fragment follows it. */
  lemma NoSchemeInPathAndTail(p: string, t: string)
    requires MatchScheme(p).0.None?
    requires t == [] || t[0] == '?' || t[0] == '#'
    ensures MatchScheme(p + t).0.None?
  {
    SpanAppend(p, t, SchemeStop);
    var n := Span(p, SchemeStop);
    if n == |p| && t != [] {
      assert Span(t, SchemeStop) == 0;
      assert (p + t)[n] == t[0];
    } else if n < |p| {
      assert (p + t)[n] == p[n];
    }
    NoSchemeBySpan(p + t);
  }

  /** The scheme group is absent when the run free of `:/?#` is empty, takes
      the whole input or is not followed by `:`. */
  lemma NoSchemeBySpan(s: string)
    requires var n := Span(s, SchemeStop); !(0 < n < |s| && s[n] == ':')
    ensures MatchScheme(s).0.None?
  {
  }

  lemma NoDoubleSlashAppend(p: string, t: string)
    requires !StartsWith(p, "//")
    requires t == [] || t[0] != '/'
    ensures !StartsWith(p + t, "//")
  {
    if |p| >= 2 {
      assert (p + t)[..2] == p[..2];
    } else if |p| == 1 && t != [] {
      assert (p + t)[1] == t[0];
    } else if p == [] {
      assert p + t == t;
    }
  }

  lemma SplitOfSteps(s: string, m: RegexMatch, r1: string, r2: string, r3: string, r4: string)
    requires MatchScheme(s) == (m.scheme, r1)
    requires MatchAuthority(r1) == (m.authority, r2)
    requires MatchPath(r2) == (m.path, r3)
    requires MatchQuery(r3) == (m.query, r4)
    requires MatchFragment(r4).0 == m.fragment
    ensures Split(s) == m
  {
  }

  /** Splitting the join of a well-formed match gives that match back. */
  lemma SplitJoin(m: RegexMatch)
    requires WellFormed(m)
    ensures Split(Join(m)) == m
  {
    var t4 := FragmentText(m.fragment);
    var t3 := QueryText(m.query) + t4;
    var t2 := m.path + t3;
    var t1 := AuthorityText(m.authority) + t2;
    FragmentStep(m.fragment);
    QueryStep(m.query, t4);
    assert t3 == [] || t3[0] == '?' || t3[0] == '#';
    PathStep(m.path, t3);
    assert MatchAuthority(t1) == (m.authority, t2) by {
      if m.authority.Some? {
        assert t2 == [] || StopsAt(AuthorityStop, t2[0]);
      } else {
        NoDoubleSlashAppend(m.path, t3);
      }
      AuthorityStep(m.authority, t2);
    }
    assert MatchScheme(SchemeText(m.scheme) + t1) == (m.scheme, t1) by {
      if m.scheme.None? {
        if m.authority.Some? {
          assert t1[0] == '/';
          assert Span(t1, SchemeStop) == 0;
        } else {
          NoSchemeInPathAndTail(m.path, t3);
          assert t1 == t2;
        }
      }
      SchemeStep(m.scheme, t1);
    }
    assert Join(m) == SchemeText(m.scheme) + t1;
    SplitOfSteps(Join(m), m, t1, t2, t3, t4);
  }
}

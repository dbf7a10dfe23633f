/** What the URI type promises across its operations: the formatter and the
    parser undo each other, `with` replaces exactly the components it is
    given, a file URI gives back the path it was made from, and the places
    where the formatter's output does not read back the same. */
module UriProperties {
  import opened Wrappers
  import opened Strings
  import opened PercentCoding
  import opened UriSplit
  import opened Uri

  // ---- with ---------------------------------------------------------------------

  /** `with` given nothing, or only empty strings, yields the same components. */
  lemma WithNothingIsIdentity(c: UriComponents)
    requires PathRuleHolds(c)
    ensures WithComponents(c, None, None, None, None, None) == Ok(c)
    ensures WithComponents(c, Some(""), Some(""), Some(""), Some(""), Some("")) == Ok(c)
  {
  }

  /** Applying the same `with` twice is the same as applying it once. */
  lemma WithIdempotent(c: UriComponents, scheme: Option<string>, authority: Option<string>,
                       path: Option<string>, query: Option<string>, fragment: Option<string>)
    requires WithComponents(c, scheme, authority, path, query, fragment).Ok?
    ensures var once := WithComponents(c, scheme, authority, path, query, fragment);
      WithComponents(once.value, scheme, authority, path, query, fragment) == once
  {
  }

  /** Each shorthand changes its own component and no other. The scheme,
      query and fragment shorthands never fail on a valid URI; the authority
      and path ones fail exactly when the new pair breaks the path rule. */
  lemma WithOneComponent(c: UriComponents, v: string)
    requires PathRuleHolds(c)
    ensures WithComponents(c, Some(v), None, None, None, None) == Ok(c.(scheme := if v == "" then c.scheme else v))
    ensures WithComponents(c, None, None, None, Some(v), None) == Ok(c.(query := if v == "" then c.query else v))
    ensures WithComponents(c, None, None, None, None, Some(v)) == Ok(c.(fragment := if v == "" then c.fragment else v))
    ensures var n := c.(authority := if v == "" then c.authority else v);
      WithComponents(c, None, Some(v), None, None, None) == (if PathRuleHolds(n) then Ok(n) else Err(Validate(n).value))
    ensures var n := c.(path := if v == "" then c.path else v);
      WithComponents(c, None, None, Some(v), None, None) == (if PathRuleHolds(n) then Ok(n) else Err(Validate(n).value))
  {
  }

  /** `create` with every component given and the path rule met yields
      exactly those components. */
  lemma CreateGivesComponents(c: UriComponents)
    requires PathRuleHolds(c)
    ensures WithComponents(Empty, Some(c.scheme), Some(c.authority), Some(c.path), Some(c.query), Some(c.fragment)) == Ok(c)
  {
  }

  // ---- file and fsPath ----------------------------------------------------------

  lemma BackslashFree(p: string)
    requires NoBackslash(p)
    ensures ReplaceAll(p, '\\', '/') == p
  {
  }

  /** A POSIX absolute path comes back from `fsPath` as it went into `file`. */
  lemma FilePosixRoundTrip(p: string)
    requires NoBackslash(p) && p != "" && p[0] == '/'
    requires !StartsWith(p, "//") && !IsDriveLetterPath(p)
    ensures FileUri(p).Ok? && FsPathOf(FileUri(p).value, false) == p
  {
    BackslashFree(p);
    assert FileAuthorityAndPath(p) == ("", p);
    assert !StartsWith(p, "////");
    assert FileUri(p) == Ok(UriComponents("file", "", p, "", ""));
  }

  /** A UNC path `//server/share...` comes back from `fsPath` as it went
      into `file`: the server becomes the authority. */
  lemma FileUncRoundTrip(p: string)
    requires NoBackslash(p) && StartsWith(p, "//") && IndexOf(p, '/', 2) > 2
    ensures FileUri(p).Ok? && FileUri(p).value.authority != ""
    ensures FsPathOf(FileUri(p).value, false) == p
  {
    var idx := IndexOf(p, '/', 2);
    FileOfUncPath(p);
    UncRejoin(p, idx);
  }

  lemma UncRejoin(p: string, idx: nat)
    requires StartsWith(p, "//") && 2 <= idx <= |p|
    ensures "//" + p[2..idx] + p[idx..] == p
  {
    assert p[..2] == "//";
    assert p[..2] + p[2..idx] + p[idx..] == p;
  }

  lemma FileOfUncPath(p: string)
    requires NoBackslash(p) && StartsWith(p, "//") && IndexOf(p, '/', 2) > 2
    ensures FileUri(p) == Ok(UriComponents("file", p[2..IndexOf(p, '/', 2)], p[IndexOf(p, '/', 2)..], "", ""))
  {
    BackslashFree(p);
    var idx := IndexOf(p, '/', 2);
    assert FileAuthorityAndPath(p) == (p[2..idx], p[idx..]);
    assert !StartsWith(p, "////") by { assert p[2] != '/'; }
  }

  /** A Windows path with a lower-case drive letter and only backslashes
      comes back from `fsPath` on Windows as it went into `file`. */
  lemma FileWindowsDriveRoundTrip(p: string)
    requires |p| >= 2 && IsAsciiLower(p[0]) && p[1] == ':'
    requires forall i :: 0 <= i < |p| ==> p[i] != '/'
    ensures FileUri(p).Ok? && FsPathOf(FileUri(p).value, true) == p
  {
    var q := ReplaceAll(p, '\\', '/');
    FileOfDrivePath(p);
    DriveFsPath(q);
    assert ReplaceAll(q, '/', '\\') == p;
  }

  lemma FileOfDrivePath(p: string)
    requires |p| >= 2 && IsAsciiLower(p[0]) && p[1] == ':'
    ensures FileUri(p) == Ok(UriComponents("file", "", "/" + ReplaceAll(p, '\\', '/'), "", ""))
  {
    var q := ReplaceAll(p, '\\', '/');
    assert q[0] == p[0];
    assert FileAuthorityAndPath(q) == ("", "/" + q);
    assert !StartsWith("/" + q, "//") by { assert ("/" + q)[1] == q[0]; }
  }

  lemma DriveFsPath(q: string)
    requires |q| >= 2 && IsAsciiLower(q[0]) && q[1] == ':'
    ensures FsPathOf(UriComponents("file", "", "/" + q, "", ""), false) == q
  {
    var path := "/" + q;
    assert IsDriveLetterPath(path);
    assert [LowerChar(path[1])] + path[2..] == q;
  }

  /** The class `[a-zA-z]` of the drive-letter test also admits the six
      characters between `Z` and `a`, so `/_:x` is read as a drive path. */
  lemma DriveLetterRangeAdmitsPunctuation()
    ensures IsDriveLetterPath("/_:x")
    ensures FsPathOf(UriComponents("file", "", "/_:x", "", ""), false) == "_:x"
  {
  }

  // ---- the formatter's groups ----------------------------------------------------

  /** The groups the formatter writes are read back as the same groups when
      each stays free of the delimiter that ends it, the path is empty or
      absolute after `//`, does not begin with `//` without it, and does
      not look like a scheme when it comes first. */
  lemma FormatGroupsWellFormed(c: UriComponents, p: string, skipEncoding: bool)
    requires Free(SchemeStop, c.scheme)
    requires c.authority != "" ==> Free(AuthorityStop, FormatAuthority(c.authority, skipEncoding))
    requires Free(PathStop, p)
    requires Free(QueryStop, Encoder(c.query, skipEncoding))
    requires Free(FragmentStop, Encoder(c.fragment, skipEncoding))
    requires c.authority != "" || c.scheme == "file" ==> p == [] || p[0] == '/'
    requires c.authority == "" && c.scheme != "file" ==> !StartsWith(p, "//")
    requires c.scheme == "" && c.authority == "" ==> MatchScheme(p).0.None?
    ensures WellFormed(FormatGroups(c, p, skipEncoding))
    ensures ParseComponents(Join(FormatGroups(c, p, skipEncoding))) ==
      UriComponents(c.scheme,
                    if c.authority != "" then FormatAuthority(c.authority, skipEncoding) else "",
                    p,
                    if c.query != "" then Encoder(c.query, skipEncoding) else "",
                    if c.fragment != "" then Encoder(c.fragment, skipEncoding) else "")
  {
    var m := FormatGroups(c, p, skipEncoding);
    assert m.scheme.Some? ==> |m.scheme.value| > 0 && Free(SchemeStop, m.scheme.value);
    assert m.authority.Some? ==> Free(AuthorityStop, m.authority.value);
    assert m.query.Some? ==> Free(QueryStop, m.query.value);
    assert m.fragment.Some? ==> Free(FragmentStop, m.fragment.value);
    SplitJoin(m);
  }

  // ---- the formatter without encoding -----------------------------------------

  /** A segment without `?` or `#` is written as it is when encoding is skipped. */
  lemma EncodeSegmentUnencoded(segment: string)
    requires Free(PathStop, segment)
    ensures EncodeSegment(segment, true) == segment
  {
    assert forall k :: 0 <= k < |segment| ==> !StopsAt(PathStop, segment[k]);
  }

  /** A slice of text that ends no group ends none either. */
  lemma FreeSlice(k: Stop, s: string, i: nat, j: nat)
    requires i <= j <= |s| && Free(k, s)
    ensures Free(k, s[i..j])
  {
    forall n | 0 <= n < j - i ensures !StopsAt(k, s[i..j][n]) {
      assert s[i..j][n] == s[i + n];
    }
  }

  /** With encoding skipped, a path without `?` or `#` is written as it is. */
  lemma {:induction false} EncodePathUnencoded(p: string, from: nat)
    requires from <= |p|
    requires Free(PathStop, p)
    ensures EncodePathFrom(p, from, true) == p[from..]
    decreases |p| - from
  {
    var idx := IndexOf(p, '/', from);
    if idx == -1 {
      LastSegmentUnencoded(p, from);
    } else {
      EncodePathUnencoded(p, idx + 1);
      SegmentUnencoded(p, from, idx);
    }
  }

  lemma SegmentUnencoded(p: string, from: nat, idx: nat)
    requires from <= idx < |p| && IndexOf(p, '/', from) == idx
    requires Free(PathStop, p)
    requires EncodePathFrom(p, idx + 1, true) == p[idx + 1..]
    ensures EncodePathFrom(p, from, true) == p[from..]
  {
    EncodePathUnfold(p, from, idx, true);
    FreeSlice(PathStop, p, from, idx);
    EncodeSegmentUnencoded(p[from..idx]);
    SliceAtSlash(p, from, idx);
  }


  lemma LastSegmentUnencoded(p: string, from: nat)
    requires from <= |p| && IndexOf(p, '/', from) == -1
    requires Free(PathStop, p)
    ensures EncodePathFrom(p, from, true) == p[from..]
  {
    EncodePathLast(p, from, true);
    FreeSlice(PathStop, p, from, |p|);
    assert p[from..|p|] == p[from..];
    EncodeSegmentUnencoded(p[from..]);
  }

  /** The components that `toString(true)` writes out and the splitter reads
      back unchanged: a scheme, authority, path and query free of the
      delimiters that end them, a fragment without line terminators, an
      authority without upper case, a path that is empty or absolute and
      has no upper-case drive letter. */
  predicate SplitsBackUnencoded(c: UriComponents)
  {
    && PathRuleHolds(c)
    && Free(SchemeStop, c.scheme)
    && NoAsciiUpper(c.authority) && Free(AuthorityStop, c.authority)
    && (c.path == "" || c.path[0] == '/') && Free(PathStop, c.path) && !HasUpperCaseDrive(c.path)
    && Free(QueryStop, c.query)
    && Free(FragmentStop, c.fragment)
  }

  /** `toString(true)` followed by the splitter gives the components back. */
  lemma UnencodedRoundTrip(c: UriComponents)
    requires SplitsBackUnencoded(c)
    ensures Format(c, true).Ok?
    ensures ParseComponents(Format(c, true).value) == c
  {
    if c.path != "" {
      EncodePathUnencoded(c.path, 0);
      assert c.path[0..] == c.path;
      assert Span(c.path, SchemeStop) == 0;
    }
    assert FormatPath(c.path, true) == Ok(c.path);
    ToLowerOfLower(c.authority);
    FormatGroupsWellFormed(c, c.path, true);
  }

  /** Without the `g` flag only the first `?` of a segment is escaped: with
      encoding skipped, a path holding two `?` is written so that the second
      one starts a query when the string is read back. */
  lemma SkipEncodingEscapesOnlyFirstQuestionMark()
    ensures Format(UriComponents("", "", "/a?b?c", "", ""), true) == Ok("/a%3Fb?c")
    ensures ParseComponents("/a%3Fb?c") == UriComponents("", "", "/a%3Fb", "c", "")
  {
    var p := "/a?b?c";
    QuestionMarkEscape();
    EscapeFirstOfTwo();
    assert IndexOf(p, '/', 1) == -1;
    assert p[1..] == "a?b?c";
    assert EncodePathFrom(p, 1, true) == "a%3Fb?c";
    assert IndexOf(p, '/', 0) == 0 && p[0..0] == "";
    assert EncodePathFrom(p, 0, true) == "/a%3Fb?c";
    assert FormatPath(p, true) == Ok("/a%3Fb?c");
    FormatOfPathOnly(UriComponents("", "", p, "", ""), true, "/a%3Fb?c");
    SplitOfTwoQuestionMarks();
  }

  lemma SplitOfTwoQuestionMarks()
    ensures ParseComponents("/a%3Fb?c") == UriComponents("", "", "/a%3Fb", "c", "")
  {
    var m := RegexMatch(None, None, "/a%3Fb", Some("c"), None);
    TwoQuestionMarksGroups();
    SplitJoin(m);
  }

  lemma TwoQuestionMarksGroups()
    ensures WellFormed(RegexMatch(None, None, "/a%3Fb", Some("c"), None))
    ensures Join(RegexMatch(None, None, "/a%3Fb", Some("c"), None)) == "/a%3Fb?c"
  {
    EscapedPathGroup();
    assert Free(QueryStop, "c");
    assert "" + ("" + ("/a%3Fb" + ("?" + "c" + ""))) == "/a%3Fb?c";
  }

  lemma EscapedPathGroup()
    ensures Free(PathStop, "/a%3Fb")
    ensures !StartsWith("/a%3Fb", "//")
    ensures MatchScheme("/a%3Fb").0.None?
  {
    var path := "/a%3Fb";
    assert !StartsWith(path, "//") by { assert path[1] == 'a'; }
    assert Span(path, SchemeStop) == 0;
    forall i | 0 <= i < |path| ensures !StopsAt(PathStop, path[i]) {
      assert path[i] in {'/', 'a', '%', '3', 'F', 'b'};
    }
  }

  lemma FormatOfPathOnly(c: UriComponents, skipEncoding: bool, formattedPath: string)
    requires c.scheme == "" && c.authority == "" && c.query == "" && c.fragment == ""
    requires FormatPath(c.path, skipEncoding) == Ok(formattedPath)
    ensures Format(c, skipEncoding) == Ok(formattedPath)
  {
    var m := FormatGroups(c, formattedPath, skipEncoding);
    assert m == RegexMatch(None, None, formattedPath, None, None);
    assert Join(m) == "" + ("" + (formattedPath + ("" + "")));
    assert "" + ("" + (formattedPath + ("" + ""))) == formattedPath;
  }

  lemma QuestionMarkEscape()
    ensures EncodeChar('?') == "%3F"
  {
    EncodeCharTwoDigits('?');
  }

  lemma EscapeFirstOfTwo()
    requires EncodeChar('?') == "%3F"
    ensures EscapeFirstHashOrQuestion("a?b?c") == "a%3Fb?c"
  {
    assert "a?b?c"[1..] == "?b?c";
    assert "?b?c"[1..] == "b?c";
    assert EscapeFirstHashOrQuestion("?b?c") == "%3Fb?c";
  }

  // ---- the formatter with encoding ----------------------------------------------

  /** An encoded segment is `encodeURIComponent2` of the segment: its
      characters are never `#` or `?`, so the first-match escape leaves it. */
  lemma EncodeSegmentEncoded(segment: string)
    ensures EncodeSegment(segment, false) == EncodeURIComponent2(segment)
    ensures AllEncoded(EncodeSegment(segment, false))
    ensures EncodeSegment(segment, false) == [] <==> segment == []
  {
    EncodeURIComponent2Safe(segment);
    DecodeEncode(segment);
  }

  /** The characters of an encoded path: separators and encoded characters. */
  predicate PathEncoded(s: string)
  {
    forall i :: 0 <= i < |s| ==> s[i] == '/' || IsEncodedChar(s[i])
  }

  lemma PathEncodedSlashJoin(x: string, y: string)
    requires AllEncoded(x) && PathEncoded(y)
    ensures PathEncoded(x + ("/" + y))
  {
    var s := x + ("/" + y);
    forall i | 0 <= i < |s| ensures s[i] == '/' || IsEncodedChar(s[i]) {
      if i < |x| {
        assert s[i] == x[i];
      } else if i > |x| {
        assert s[i] == y[i - |x| - 1];
      }
    }
  }

  /** An encoded path holds only separators and encoded characters. */
  lemma EncodePathChars(p: string, from: nat)
    requires from <= |p|
    ensures PathEncoded(EncodePathFrom(p, from, false))
  {
    JoinEncodedChars(PathSegments(p, from));
  }

  lemma {:induction false} JoinEncodedChars(segments: seq<string>)
    requires |segments| >= 1
    ensures PathEncoded(JoinEncoded(segments, false))
  {
    EncodeSegmentEncoded(segments[0]);
    if |segments| > 1 {
      JoinEncodedChars(segments[1..]);
      PathEncodedSlashJoin(EncodeSegment(segments[0], false), JoinEncoded(segments[1..], false));
    }
  }

  /** An encoded path decodes to the path. */
  lemma {:induction false} EncodePathDecodes(p: string, from: nat)
    requires from <= |p|
    ensures DecodeURIComponent(EncodePathFrom(p, from, false)) == Some(p[from..])
    decreases |p| - from
  {
    var idx := IndexOf(p, '/', from);
    if idx == -1 {
      LastSegmentDecodes(p, from);
    } else {
      EncodePathDecodes(p, idx + 1);
      SegmentDecodes(p, from, idx);
    }
  }

  lemma LastSegmentDecodes(p: string, from: nat)
    requires from <= |p| && IndexOf(p, '/', from) == -1
    ensures DecodeURIComponent(EncodePathFrom(p, from, false)) == Some(p[from..])
  {
    EncodePathLast(p, from, false);
    EncodeSegmentEncoded(p[from..]);
    DecodeEncode(p[from..]);
  }

  lemma SegmentDecodes(p: string, from: nat, idx: nat)
    requires from <= idx < |p| && IndexOf(p, '/', from) == idx
    requires DecodeURIComponent(EncodePathFrom(p, idx + 1, false)) == Some(p[idx + 1..])
    ensures DecodeURIComponent(EncodePathFrom(p, from, false)) == Some(p[from..])
  {
    EncodePathStep(p, from, idx);
    DecodeSegmentThenRest(p[from..idx], EncodePathFrom(p, idx + 1, false), p[idx + 1..]);
    SliceAtSlash(p, from, idx);
  }


  /** One step of the encoded path: the encoded segment before the slash at
      `idx`, the slash, and the rest. */
  lemma EncodePathStep(p: string, from: nat, idx: nat)
    requires from <= idx < |p| && IndexOf(p, '/', from) == idx
    ensures EncodePathFrom(p, from, false)
            == EncodeURIComponent2(p[from..idx]) + ("/" + EncodePathFrom(p, idx + 1, false))
  {
    EncodePathUnfold(p, from, idx, false);
    EncodeSegmentEncoded(p[from..idx]);
  }

  lemma SliceAtSlash(p: string, from: nat, idx: nat)
    requires from <= idx < |p| && p[idx] == '/'
    ensures p[from..] == p[from..idx] + ("/" + p[idx + 1..])
  {
  }

  lemma DecodeSegmentThenRest(segment: string, rest: string, decoded: string)
    requires DecodeURIComponent(rest) == Some(decoded)
    ensures DecodeURIComponent(EncodeURIComponent2(segment) + ("/" + rest)) == Some(segment + ("/" + decoded))
  {
    DecodeEncode(segment);
    DecodeWithoutPercent("/");
    DecodeAppend("/", rest);
    DecodeAppend(EncodeURIComponent2(segment), "/" + rest);
  }

  /** An encoded path begins with `/` exactly where the path does. */
  lemma EncodedPathHead(p: string, from: nat)
    requires from <= |p|
    ensures var e := EncodePathFrom(p, from, false);
      (from < |p| && p[from] == '/') <==> (e != [] && e[0] == '/')
    ensures from < |p| && p[from] == '/' ==>
      EncodePathFrom(p, from, false) == "/" + EncodePathFrom(p, from + 1, false)
  {
    var idx := IndexOf(p, '/', from);
    if idx == -1 {
      HeadOfLastSegment(p, from);
    } else if idx == from {
      HeadAtSlash(p, from);
    } else {
      HeadOfSegment(p, from, idx);
    }
  }

  lemma HeadOfLastSegment(p: string, from: nat)
    requires from <= |p| && IndexOf(p, '/', from) == -1
    ensures var e := EncodePathFrom(p, from, false); e == [] || e[0] != '/'
  {
    EncodePathLast(p, from, false);
    EncodeSegmentEncoded(p[from..]);
    EncodedHead(EncodeSegment(p[from..], false), []);
  }

  lemma HeadAtSlash(p: string, from: nat)
    requires from < |p| && IndexOf(p, '/', from) == from
    ensures EncodePathFrom(p, from, false) == "/" + EncodePathFrom(p, from + 1, false)
  {
    EncodePathUnfold(p, from, from, false);
    EmptySegment(p, from);
    EncodeSegmentEncoded(p[from..from]);
    EmptyPrefix(EncodeSegment(p[from..from], false), "/" + EncodePathFrom(p, from + 1, false));
  }

  lemma HeadOfSegment(p: string, from: nat, idx: nat)
    requires from < idx < |p| && IndexOf(p, '/', from) == idx
    ensures var e := EncodePathFrom(p, from, false); e != [] && e[0] != '/'
  {
    EncodePathUnfold(p, from, idx, false);
    EncodeSegmentEncoded(p[from..idx]);
    EncodedHead(EncodeSegment(p[from..idx], false), "/" + EncodePathFrom(p, idx + 1, false));
  }

  /** Encoded text followed by anything does not begin with `/`. */
  lemma EncodedHead(x: string, rest: string)
    requires AllEncoded(x)
    ensures x != [] ==> x + rest != [] && (x + rest)[0] != '/'
    ensures x == [] ==> x + rest == rest
  {
    if x != [] {
      assert (x + rest)[0] == x[0];
      assert IsEncodedChar(x[0]);
    }
  }

  lemma EmptySegment(p: string, from: nat)
    requires from <= |p|
    ensures p[from..from] == []
  {
  }

  lemma EmptyPrefix(x: string, y: string)
    requires x == []
    ensures x + y == y
  {
  }


  /** An encoded path begins with `//` exactly when the path does. */
  lemma EncodedPathDoubleSlash(p: string)
    ensures StartsWith(EncodePathFrom(p, 0, false), "//") <==> StartsWith(p, "//")
  {
    var e := EncodePathFrom(p, 0, false);
    EncodedPathHead(p, 0);
    if p != [] && p[0] == '/' {
      EncodedPathHead(p, 1);
      var e1 := EncodePathFrom(p, 1, false);
      assert StartsWith(e, "//") <==> e1 != [] && e1[0] == '/' by {
        if e1 != [] { assert e[..2] == ['/', e1[0]]; }
      }
      assert StartsWith(p, "//") <==> |p| > 1 && p[1] == '/' by {
        if |p| > 1 { assert p[..2] == ['/', p[1]]; }
      }
    } else {
      assert !StartsWith(e, "//") by { if |e| >= 2 { assert e[..2][0] == e[0]; } }
      assert !StartsWith(p, "//") by { if |p| >= 2 { assert p[..2][0] == p[0]; } }
    }
  }

  /** A string without `:` is never taken as a scheme. */
  lemma NoColonNoScheme(s: string)
    requires forall i :: 0 <= i < |s| ==> s[i] != ':'
    ensures MatchScheme(s).0.None?
  {
  }

  /** The part of the authority from its first `:` on (the port), which the
      formatter writes as it is: no `/`, `?` or `#` that would end the
      authority, no `%` that would be decoded. */
  predicate PortIsPlain(a: string)
  {
    var idx := IndexOf(a, ':', 0);
    forall k :: 0 <= idx <= k < |a| ==> a[k] != '/' && a[k] != '?' && a[k] != '#' && a[k] != '%'
  }

  /** Encoded text ends no group. */
  lemma EncodedIsFree(s: string, k: Stop)
    requires AllEncoded(s)
    ensures Free(k, s)
  {
    forall i | 0 <= i < |s| ensures !StopsAt(k, s[i]) {
      assert IsEncodedChar(s[i]);
    }
  }

  lemma FreeAppend(k: Stop, x: string, y: string)
    requires Free(k, x) && Free(k, y)
    ensures Free(k, x + y)
  {
    forall i | 0 <= i < |x + y| ensures !StopsAt(k, (x + y)[i]) {
      if i < |x| { assert (x + y)[i] == x[i]; } else { assert (x + y)[i] == y[i - |x|]; }
    }
  }

  /** The encoded authority stays within the authority group and decodes
      back. */
  lemma FormatAuthorityEncoded(a: string)
    requires NoAsciiUpper(a) && PortIsPlain(a)
    ensures Free(AuthorityStop, FormatAuthority(a, false))
    ensures DecodeURIComponent(FormatAuthority(a, false)) == Some(a)
  {
    ToLowerOfLower(a);
    var idx := IndexOf(a, ':', 0);
    if idx == -1 {
      assert FormatAuthority(a, false) == EncodeURIComponent2(a);
      EncodeURIComponent2Safe(a);
      EncodedIsFree(EncodeURIComponent2(a), AuthorityStop);
      DecodeEncode(a);
    } else {
      var e := EncodeURIComponent2(a[..idx]);
      assert FormatAuthority(a, false) == e + a[idx..];
      PortParts(a, idx);
      EncodeURIComponent2Safe(a[..idx]);
      EncodedIsFree(e, AuthorityStop);
      FreeAppend(AuthorityStop, e, a[idx..]);
      DecodeEncode(a[..idx]);
      DecodeHostThenPort(a, idx, e);
    }
  }

  lemma DecodeHostThenPort(a: string, idx: nat, e: string)
    requires idx <= |a|
    requires DecodeURIComponent(e) == Some(a[..idx])
    requires DecodeURIComponent(a[idx..]) == Some(a[idx..])
    ensures DecodeURIComponent(e + a[idx..]) == Some(a)
  {
    DecodeAppend(e, a[idx..]);
    assert a[..idx] + a[idx..] == a;
  }

  /** The port is free of the authority's delimiters and holds no `%`, so
      it decodes to itself. */
  lemma PortParts(a: string, idx: nat)
    requires PortIsPlain(a) && IndexOf(a, ':', 0) == idx && idx <= |a|
    ensures Free(AuthorityStop, a[idx..])
    ensures DecodeURIComponent(a[idx..]) == Some(a[idx..])
  {
    var port := a[idx..];
    PortChars(a, idx, port);
    DecodeWithoutPercent(port);
  }

  lemma PortChars(a: string, idx: nat, port: string)
    requires PortIsPlain(a) && IndexOf(a, ':', 0) == idx && idx <= |a| && port == a[idx..]
    ensures forall k :: 0 <= k < |port| ==> !StopsAt(AuthorityStop, port[k]) && port[k] != '%'
  {
    forall k | 0 <= k < |port| ensures !StopsAt(AuthorityStop, port[k]) && port[k] != '%' {
      assert port[k] == a[idx + k];
    }
  }


  /** An encoded query or fragment stays within its group and decodes back. */
  lemma EncodedComponent(s: string)
    ensures Free(QueryStop, EncodeURIComponent2(s)) && Free(FragmentStop, EncodeURIComponent2(s))
    ensures DecodeURIComponent(EncodeURIComponent2(s)) == Some(s)
  {
    EncodeURIComponent2Safe(s);
    DecodeEncode(s);
  }

  /** The components `toString()` writes so that `parse` reads them back: a
      valid URI whose scheme has none of `:/?#`, whose authority has no upper
      case and a plain port, whose path has no upper-case drive letter, and
      whose path is empty or absolute when the scheme is `file`. */
  predicate ParsesBack(c: UriComponents)
  {
    && PathRuleHolds(c)
    && Free(SchemeStop, c.scheme)
    && NoAsciiUpper(c.authority) && PortIsPlain(c.authority)
    && (c.scheme == "file" ==> c.path == "" || c.path[0] == '/')
    && !HasUpperCaseDrive(c.path)
  }

  /** `URI.parse(uri.toString())` gives the same components. */
  lemma EncodedRoundTrip(c: UriComponents)
    requires ParsesBack(c)
    ensures Format(c, false).Ok?
    ensures ParseUri(Format(c, false).value) == Ok(c)
  {
    var p := EncodedPathFacts(c.path);
    EncodedAuthority(c.authority);
    EncodedComponent(c.query);
    EncodedComponent(c.fragment);
    OptionalComponent(c.query);
    OptionalComponent(c.fragment);
    FormatGroupsWellFormed(c, p, false);
    var value := Join(FormatGroups(c, p, false));
    assert Format(c, false) == Ok(value);
    ParseOfDecodable(value, c);
  }

  /** The authority group `toString()` writes stays within its group and
      decodes back. */
  lemma EncodedAuthority(a: string)
    requires NoAsciiUpper(a) && PortIsPlain(a)
    ensures a != "" ==> Free(AuthorityStop, FormatAuthority(a, false))
    ensures DecodeURIComponent(if a != "" then FormatAuthority(a, false) else "") == Some(a)
  {
    if a != "" {
      FormatAuthorityEncoded(a);
    }
  }

  /** A query or fragment that is left out when empty decodes back. */
  lemma OptionalComponent(s: string)
    requires DecodeURIComponent(Encoder(s, false)) == Some(s)
    ensures DecodeURIComponent(if s != "" then Encoder(s, false) else "") == Some(s)
  {
  }

  /** What the formatter makes of a path without an upper-case drive letter:
      separators and encoded characters only (so no `:`, `?` or `#`), the
      path again once decoded, a leading `/` and a leading `//` exactly
      where the path has them. */
  lemma EncodedPathFacts(path: string) returns (p: string)
    requires !HasUpperCaseDrive(path)
    ensures FormatPath(path, false) == Ok(p)
    ensures Free(PathStop, p) && MatchScheme(p).0.None?
    ensures DecodeURIComponent(p) == Some(path)
    ensures (path == [] || path[0] == '/') ==> (p == [] || p[0] == '/')
    ensures StartsWith(p, "//") <==> StartsWith(path, "//")
  {
    p := if path == "" then "" else EncodePathFrom(path, 0, false);
    EncodedPathFormatted(path, p);
    EncodedPathFree(path, p);
    EncodedPathDecoded(path, p);
    EncodedPathLeading(path, p);
  }

  /** Without an upper-case drive letter the path is encoded as it is. */
  lemma EncodedPathFormatted(path: string, p: string)
    requires !HasUpperCaseDrive(path)
    requires p == if path == "" then "" else EncodePathFrom(path, 0, false)
    ensures FormatPath(path, false) == Ok(p)
  {
  }

  lemma EncodedPathFree(path: string, p: string)
    requires p == if path == "" then "" else EncodePathFrom(path, 0, false)
    ensures Free(PathStop, p) && MatchScheme(p).0.None?
  {
    if path != "" {
      EncodePathChars(path, 0);
      PathEncodedIsFree(p);
    }
  }

  /** Separators and encoded characters hold no `?`, `#` or `:`. */
  lemma PathEncodedIsFree(p: string)
    requires PathEncoded(p)
    ensures Free(PathStop, p) && MatchScheme(p).0.None?
  {
    NoColonNoScheme(p);
  }

  lemma EncodedPathDecoded(path: string, p: string)
    requires p == if path == "" then "" else EncodePathFrom(path, 0, false)
    ensures DecodeURIComponent(p) == Some(path)
  {
    if path != "" {
      EncodePathDecodes(path, 0);
      DropNone(path);
    }
  }

  lemma EncodedPathLeading(path: string, p: string)
    requires p == if path == "" then "" else EncodePathFrom(path, 0, false)
    ensures (path == [] || path[0] == '/') ==> (p == [] || p[0] == '/')
    ensures StartsWith(p, "//") <==> StartsWith(path, "//")
  {
    if path != "" {
      EncodedPathHead(path, 0);
      EncodedPathDoubleSlash(path);
    }
  }

  /** `parse` gives the components when each of the split ones decodes to
      them and they meet the path rule. */
  lemma ParseOfDecodable(value: string, c: UriComponents)
    requires ParseComponents(value).scheme == c.scheme
    requires DecodeURIComponent(ParseComponents(value).authority) == Some(c.authority)
    requires DecodeURIComponent(ParseComponents(value).path) == Some(c.path)
    requires DecodeURIComponent(ParseComponents(value).query) == Some(c.query)
    requires DecodeURIComponent(ParseComponents(value).fragment) == Some(c.fragment)
    requires PathRuleHolds(c)
    ensures ParseUri(value) == Ok(c)
  {
  }
}

/** The URI value type: validation of the path rule of section 3.3 of
    RFC 3986, the builders (`parse`, `file`, `create`, `with` and the
    `withX` shorthands), the file-system path, and the formatter with its
    write-once caches. Components are `UriComponents` values; the `URI` class
    holds them together with the caches the source fills on first use. */
module Uri {
  import opened Wrappers
  import opened Strings
  import opened PercentCoding
  import opened UriSplit

  /** What the operations throw: the two `[UriError]`s of `_validate`, the
      `URIError` of `decodeURIComponent`, and the `TypeError` of reading
      `m[1].length` when the drive pattern matched without its leading slash. */
  datatype UriError =
    | AuthorityPathNotAbsolute
    | PathStartsWithDoubleSlash
    | MalformedEscape
    | DriveWithoutSlash

  const Empty := UriComponents("", "", "", "", "")

  // ---- _validate ------------------------------------------------------------

  /** The path rule of section 3.3 of RFC 3986: with an authority the path is
      empty or begins with `/`; without one it does not begin with `//`. */
  predicate PathRuleHolds(c: UriComponents)
  {
    && (c.authority != "" ==> c.path == "" || c.path[0] == '/')
    && (c.authority == "" ==> !StartsWith(c.path, "//"))
  }

  /** `_validate`: None when it returns, the error when it throws. */
  function Validate(c: UriComponents): (r: Option<UriError>)
    ensures r.None? <==> PathRuleHolds(c)
    ensures r == Some(AuthorityPathNotAbsolute) <==> c.authority != "" && !(c.path == "" || c.path[0] == '/')
    ensures r == Some(PathStartsWithDoubleSlash) <==> c.authority == "" && StartsWith(c.path, "//")
  {
    if c.authority != "" && c.path != "" && c.path[0] != '/' then Some(AuthorityPathNotAbsolute)
    else if c.authority == "" && StartsWith(c.path, "//") then Some(PathStartsWithDoubleSlash)
    else None
  }

  // ---- parse ------------------------------------------------------------------

  /** The components of the splitter with all but the scheme
      percent-decoded; None when one of them holds a malformed escape. */
  function DecodeComponents(d: UriComponents): (r: Option<UriComponents>)
    ensures r.None? <==>
      || DecodeURIComponent(d.authority).None? || DecodeURIComponent(d.path).None?
      || DecodeURIComponent(d.query).None? || DecodeURIComponent(d.fragment).None?
    ensures r.Some? ==>
      && r.value.scheme == d.scheme
      && DecodeURIComponent(d.authority) == Some(r.value.authority)
      && DecodeURIComponent(d.path) == Some(r.value.path)
      && DecodeURIComponent(d.query) == Some(r.value.query)
      && DecodeURIComponent(d.fragment) == Some(r.value.fragment)
  {
    var authority := DecodeURIComponent(d.authority);
    var path := DecodeURIComponent(d.path);
    var query := DecodeURIComponent(d.query);
    var fragment := DecodeURIComponent(d.fragment);
    if authority.None? || path.None? || query.None? || fragment.None? then None
    else Some(UriComponents(d.scheme, authority.value, path.value, query.value, fragment.value))
  }

  /** `URI.parse(value)`: the decoded components, validated. */
  function ParseUri(value: string): (r: Result<UriComponents, UriError>)
    ensures r.Ok? ==> PathRuleHolds(r.value)
    ensures r.Ok? ==> r.value.scheme == ParseComponents(value).scheme
    ensures r == Err(MalformedEscape) <==> DecodeComponents(ParseComponents(value)).None?
    ensures var c := DecodeComponents(ParseComponents(value));
      c.Some? ==> r == (if PathRuleHolds(c.value) then Ok(c.value) else Err(Validate(c.value).value))
  {
    match DecodeComponents(ParseComponents(value))
    case None => Err(MalformedEscape)
    case Some(c) =>
      match Validate(c)
      case Some(e) => Err(e)
      case None => Ok(c)
  }

  // ---- file -------------------------------------------------------------------


  predicate NoBackslash(s: string)
  {
    forall i :: 0 <= i < |s| ==> s[i] != '\\'
  }

  /** The authority and the path `URI.file` takes from a normalised path: a
      leading `//` introduces an authority that runs to the next `/` (or to
      the end), and the path is given a leading `/` when it lacks one. */
  function FileAuthorityAndPath(p: string): (r: (string, string))
    requires NoBackslash(p)
    ensures NoBackslash(r.0) && NoBackslash(r.1)
    ensures |r.1| > 0 && r.1[0] == '/'
    ensures !StartsWith(p, "//") ==> r.0 == "" && r.1 == (if p != "" && p[0] == '/' then p else "/" + p)
    ensures StartsWith(p, "//") ==>
      var idx := IndexOf(p, '/', 2);
      && r.0 == (if idx == -1 then p[2..] else p[2..idx])
      && r.1 == (if idx == -1 then "/" else p[idx..])
    ensures r.0 == "" && StartsWith(r.1, "//") <==> StartsWith(p, "////")
  {
    if |p| >= 2 && p[0] == '/' && p[1] == '/' then
      var idx := IndexOf(p, '/', 2);
      if idx == -1 then
        assert !StartsWith(p, "////") by { assert |p| >= 4 ==> p[2] != '/'; }
        (p[2..], "/")
      else
        assert StartsWith(p[idx..], "//") <==> idx + 1 < |p| && p[idx + 1] == '/' by {
          if idx + 1 < |p| { assert p[idx..][..2] == [p[idx], p[idx + 1]]; }
        }
        assert StartsWith(p, "////") <==> idx == 2 && |p| > 3 && p[3] == '/' by {
          if |p| >= 4 && p[2] == '/' { assert idx == 2; }
        }
        (p[2..idx], p[idx..])
    else
      assert !StartsWith(p, "////");
      var path := if p == "" || p[0] != '/' then "/" + p else p;
      assert !StartsWith(path, "//") by { if p != [] && p[0] != '/' { assert path[1] == p[0]; } }
      ("", path)
  }

  /** `URI.file(path)`: scheme `file`, backslashes turned into slashes, the
      authority and path of `FileAuthorityAndPath`, then validated.
      Validation fails exactly for input that begins with four slashes (an
      empty authority in front of a path starting `//`). */
  function FileUri(path: string): (r: Result<UriComponents, UriError>)
    ensures r.Ok? ==> PathRuleHolds(r.value)
    ensures r.Ok? ==> r.value.scheme == "file" && r.value.query == "" && r.value.fragment == ""
    ensures r.Ok? ==> |r.value.path| > 0 && r.value.path[0] == '/'
    ensures r.Ok? ==> NoBackslash(r.value.authority) && NoBackslash(r.value.path)
    ensures r.Ok? ==> (r.value.authority, r.value.path) == FileAuthorityAndPath(ReplaceAll(path, '\\', '/'))
    ensures r.Err? <==> StartsWith(ReplaceAll(path, '\\', '/'), "////")
    ensures r.Err? ==> r.error == PathStartsWithDoubleSlash
  {
    var p := ReplaceAll(path, '\\', '/');
    var (authority, rest) := FileAuthorityAndPath(p);
    var c := UriComponents("file", authority, rest, "", "");
    match Validate(c)
    case Some(e) => Err(e)
    case None => Ok(c)
  }

  // ---- with / create ----------------------------------------------------------

  /** `argument || current`: an undefined or empty argument keeps the current value. */
  function Pick(argument: Option<string>, current: string): (r: string)
    ensures argument.Some? && argument.value != "" ==> r == argument.value
    ensures argument.None? || argument.value == "" ==> r == current
  {
    if argument.Some? && argument.value != "" then argument.value else current
  }

  /** `uri.with(scheme, authority, path, query, fragment)` on a URI whose
      components are `c`: a fresh value in which each non-empty argument
      replaces its component and each undefined or empty one keeps it, then
      validated. */
  function WithComponents(c: UriComponents, scheme: Option<string>, authority: Option<string>,
                          path: Option<string>, query: Option<string>, fragment: Option<string>)
    : (r: Result<UriComponents, UriError>)
    ensures r.Ok? ==> PathRuleHolds(r.value)
    ensures r.Ok? && scheme.Some? && scheme.value != "" ==> r.value.scheme == scheme.value
    ensures r.Ok? && (scheme.None? || scheme.value == "") ==> r.value.scheme == c.scheme
    ensures r.Ok? && authority.Some? && authority.value != "" ==> r.value.authority == authority.value
    ensures r.Ok? && (authority.None? || authority.value == "") ==> r.value.authority == c.authority
    ensures r.Ok? && path.Some? && path.value != "" ==> r.value.path == path.value
    ensures r.Ok? && (path.None? || path.value == "") ==> r.value.path == c.path
    ensures r.Ok? && query.Some? && query.value != "" ==> r.value.query == query.value
    ensures r.Ok? && (query.None? || query.value == "") ==> r.value.query == c.query
    ensures r.Ok? && fragment.Some? && fragment.value != "" ==> r.value.fragment == fragment.value
    ensures r.Ok? && (fragment.None? || fragment.value == "") ==> r.value.fragment == c.fragment
    ensures var n := UriComponents(Pick(scheme, c.scheme), Pick(authority, c.authority), Pick(path, c.path),
                                   Pick(query, c.query), Pick(fragment, c.fragment));
      && (r.Ok? <==> PathRuleHolds(n))
      && (r.Err? ==> Validate(n) == Some(r.error))
  {
    var n := UriComponents(Pick(scheme, c.scheme), Pick(authority, c.authority), Pick(path, c.path),
                           Pick(query, c.query), Pick(fragment, c.fragment));
    match Validate(n)
    case Some(e) => Err(e)
    case None => Ok(n)
  }

  // ---- fsPath -----------------------------------------------------------------

  /** `/^\/[a-zA-z]:/`: the range `A-z` also admits `[ \ ] ^ _` and the backtick. */
  function IsDriveLetterPath(p: string): (r: bool)
    ensures r <==> |p| >= 3 && p[0] == '/' && 'A' <= p[1] <= 'z' && p[2] == ':'
  {
    |p| >= 3 && p[0] == '/' && ('a' <= p[1] <= 'z' || 'A' <= p[1] <= 'z') && p[2] == ':'
  }


  /** The `fsPath` getter: a UNC path `//authority/path` for a `file` URI with
      an authority; else a drive path without its leading slash and with the
      drive character lower-cased; else the path. On Windows every `/` then
      becomes `\`. */
  function FsPathOf(c: UriComponents, win32: bool): (r: string)
    ensures !win32 && c.authority != "" && c.scheme == "file" ==> r == "//" + c.authority + c.path
    ensures !win32 && !(c.authority != "" && c.scheme == "file") && IsDriveLetterPath(c.path) ==>
      |r| == |c.path| - 1 && r[0] == LowerChar(c.path[1]) && r[1..] == c.path[2..]
    ensures !win32 && !(c.authority != "" && c.scheme == "file") && !IsDriveLetterPath(c.path) ==> r == c.path
    ensures win32 ==> r == ReplaceAll(FsPathOf(c, false), '/', '\\')
  {
    var value :=
      if c.authority != "" && c.scheme == "file" then "//" + c.authority + c.path
      else if IsDriveLetterPath(c.path) then [LowerChar(c.path[1])] + c.path[2..]
      else c.path;
    if win32 then ReplaceAll(value, '/', '\\') else value
  }

  // ---- _asFormatted -----------------------------------------------------------

  /** `encoder`: `encodeURIComponent2`, or the identity when encoding is skipped. */
  function Encoder(s: string, skipEncoding: bool): string
  {
    if skipEncoding then s else EncodeURIComponent2(s)
  }

  /** `.replace(/[#?]/, _encode)`: without the `g` flag only the first `#`
      or `?` is escaped. */
  function EscapeFirstHashOrQuestion(s: string): (r: string)
    ensures (forall i :: 0 <= i < |s| ==> s[i] != '#' && s[i] != '?') ==> r == s
  {
    if s == [] then []
    else if s[0] == '#' || s[0] == '?' then EncodeChar(s[0]) + s[1..]
    else [s[0]] + EscapeFirstHashOrQuestion(s[1..])
  }

  /** `s[i]` is the first `#` or `?` of `s`. */
  predicate FirstHashOrQuestion(s: string, i: nat)
    requires i < |s|
  {
    && (s[i] == '#' || s[i] == '?')
    && forall j :: 0 <= j < i ==> s[j] != '#' && s[j] != '?'
  }

  /** Only the first `#` or `?` is escaped; what follows it is kept as it is. */
  lemma {:induction false} EscapeAtFirst(s: string, i: nat)
    requires i < |s| && FirstHashOrQuestion(s, i)
    ensures EscapeFirstHashOrQuestion(s) == s[..i] + EncodeChar(s[i]) + s[i + 1..]
  {
    if i == 0 {
      assert s[..0] == [];
    } else {
      var t := s[1..];
      assert FirstHashOrQuestion(t, i - 1) by {
        forall j | 0 <= j < i - 1 ensures t[j] != '#' && t[j] != '?' {
          assert t[j] == s[j + 1];
        }
      }
      EscapeAtFirst(t, i - 1);
      ConsSplice(s, i, EncodeChar(s[i]));
    }
  }

  /** The first character in front of a splice into the rest of `s`. */
  lemma ConsSplice(s: string, i: nat, e: string)
    requires 0 < i < |s|
    ensures [s[0]] + (s[1..][..i - 1] + e + s[1..][i..]) == s[..i] + e + s[i + 1..]
  {
    var t := s[1..];
    assert t[i..] == s[i + 1..];
    assert [s[0]] + t[..i - 1] == s[..i];
    Associate4([s[0]], t[..i - 1], e, s[i + 1..]);
    Associate3(t[..i - 1], e, s[i + 1..]);
  }

  function EncodeSegment(segment: string, skipEncoding: bool): string
  {
    EscapeFirstHashOrQuestion(Encoder(segment, skipEncoding))
  }

  /** The `/`-separated segments of the path from position `from` on, as
      the loop over `indexOf('/')` visits them; there is always at least
      one, possibly empty. */
  function PathSegments(path: string, from: nat): (r: seq<string>)
    requires from <= |path|
    ensures |r| >= 1
    decreases |path| - from
  {
    var idx := IndexOf(path, '/', from);
    if idx == -1 then [path[from..]] else [path[from..idx]] + PathSegments(path, idx + 1)
  }

  /** The segments, each encoded, with a `/` between two of them. */
  function JoinEncoded(segments: seq<string>, skipEncoding: bool): string
    requires |segments| >= 1
  {
    if |segments| == 1 then EncodeSegment(segments[0], skipEncoding)
    else EncodeSegment(segments[0], skipEncoding) + ("/" + JoinEncoded(segments[1..], skipEncoding))
  }

  /** The path from position `from` on, each `/`-separated segment encoded and
      the slashes kept. */
  function EncodePathFrom(path: string, from: nat, skipEncoding: bool): string
    requires from <= |path|
  {
    JoinEncoded(PathSegments(path, from), skipEncoding)
  }

  lemma PathSegmentsStep(p: string, from: nat, idx: nat)
    requires from <= idx < |p| && IndexOf(p, '/', from) == idx
    ensures PathSegments(p, from) == [p[from..idx]] + PathSegments(p, idx + 1)
  {
  }

  lemma JoinEncodedStep(segment: string, rest: seq<string>, skipEncoding: bool)
    requires |rest| >= 1
    ensures JoinEncoded([segment] + rest, skipEncoding)
            == EncodeSegment(segment, skipEncoding) + ("/" + JoinEncoded(rest, skipEncoding))
  {
    assert ([segment] + rest)[0] == segment;
    assert ([segment] + rest)[1..] == rest;
  }

  /** One step of `EncodePathFrom` at the next slash `idx`: the segment
      before it, the slash and the rest. */
  lemma EncodePathUnfold(p: string, from: nat, idx: nat, skipEncoding: bool)
    requires from <= idx < |p| && IndexOf(p, '/', from) == idx
    ensures EncodePathFrom(p, from, skipEncoding)
            == EncodeSegment(p[from..idx], skipEncoding) + ("/" + EncodePathFrom(p, idx + 1, skipEncoding))
  {
    PathSegmentsStep(p, from, idx);
    JoinEncodedStep(p[from..idx], PathSegments(p, idx + 1), skipEncoding);
  }

  /** The last step of `EncodePathFrom`, when no slash follows. */
  lemma EncodePathLast(p: string, from: nat, skipEncoding: bool)
    requires from <= |p| && IndexOf(p, '/', from) == -1
    ensures EncodePathFrom(p, from, skipEncoding) == EncodeSegment(p[from..], skipEncoding)
  {
    assert PathSegments(p, from) == [p[from..]];
  }

  /** `/^(\/)?([A-Z]:)/` matches. */
  predicate HasUpperCaseDrive(path: string)
  {
    || (|path| >= 3 && path[0] == '/' && IsAsciiUpper(path[1]) && path[2] == ':')
    || (|path| >= 2 && IsAsciiUpper(path[0]) && path[1] == ':')
  }

  /** The optional slash of `/^(\/)?([A-Z]:)/` is taken whenever the path
      starts with one: the drive sits at position 1 after a leading `/` and
      at position 0 otherwise, since `/` is not an upper-case letter. */
  lemma UpperCaseDriveAfterOptionalSlash(path: string)
    ensures HasUpperCaseDrive(path) <==>
      var k := if path != [] && path[0] == '/' then 1 else 0;
      |path| >= k + 2 && IsAsciiUpper(path[k]) && path[k + 1] == ':'
  {
  }

  /** The drive-letter step of the formatter: `/C:` becomes `/c:`; a match
      without the leading slash leaves `m[1]` undefined and `m[1].length`
      throws. */
  function LowerCaseDrive(path: string): (r: Result<string, UriError>)
    ensures !HasUpperCaseDrive(path) ==> r == Ok(path)
    ensures r.Err? <==> |path| >= 2 && IsAsciiUpper(path[0]) && path[1] == ':'
    ensures r.Err? ==> r.error == DriveWithoutSlash
    ensures r.Ok? ==> |r.value| == |path| && !HasUpperCaseDrive(r.value)
    ensures r.Ok? && |path| >= 2 ==> r.value[..1] == path[..1] && r.value[2..] == path[2..]
    ensures r.Ok? && HasUpperCaseDrive(path) ==> r.value[1] == LowerChar(path[1])
  {
    if |path| >= 3 && path[0] == '/' && IsAsciiUpper(path[1]) && path[2] == ':' then
      Ok("/" + [LowerChar(path[1])] + ":" + path[3..])
    else if |path| >= 2 && IsAsciiUpper(path[0]) && path[1] == ':' then Err(DriveWithoutSlash)
    else Ok(path)
  }

  /** The formatted authority: lower-cased, then the part before the first
      `:` encoded and the rest (the port) kept as it is. */
  function FormatAuthority(authority: string, skipEncoding: bool): (r: string)
    ensures skipEncoding ==> r == ToLower(authority)
  {
    var a := ToLower(authority);
    var idx := IndexOf(a, ':', 0);
    if idx == -1 then Encoder(a, skipEncoding)
    else
      assert a[..idx] + a[idx..] == a;
      Encoder(a[..idx], skipEncoding) + a[idx..]
  }

  /** The formatted path, or the error of the drive-letter step. */
  function FormatPath(path: string, skipEncoding: bool): (r: Result<string, UriError>)
    ensures path == "" ==> r == Ok("")
    ensures r.Err? <==> |path| >= 2 && IsAsciiUpper(path[0]) && path[1] == ':'
    ensures r.Err? ==> r.error == DriveWithoutSlash
  {
    if path == "" then Ok("")
    else match LowerCaseDrive(path)
      case Err(e) => Err(e)
      case Ok(p) => Ok(EncodePathFrom(p, 0, skipEncoding))
  }

  /** The pieces of the formatted string, as the groups the splitter reads:
      `scheme:` when there is a scheme, `//` and the authority when there is
      an authority or the scheme is `file`, the path, `?query` and
      `#fragment` when they are non-empty. */
  function FormatGroups(c: UriComponents, formattedPath: string, skipEncoding: bool): RegexMatch
  {
    RegexMatch(
      SchemeGroup(c),
      AuthorityGroup(c, skipEncoding),
      formattedPath,
      if c.query != "" then Some(Encoder(c.query, skipEncoding)) else None,
      if c.fragment != "" then Some(Encoder(c.fragment, skipEncoding)) else None)
  }

  function SchemeGroup(c: UriComponents): Option<string>
  {
    if c.scheme != "" then Some(c.scheme) else None
  }

  /** The authority is written after `//` when there is one or the scheme is
      `file`. */
  function AuthorityGroup(c: UriComponents, skipEncoding: bool): Option<string>
  {
    if c.authority != "" || c.scheme == "file" then
      Some(if c.authority != "" then FormatAuthority(c.authority, skipEncoding) else "")
    else None
  }

  /** `URI._asFormatted(uri, skipEncoding)` as a value. */
  function Format(c: UriComponents, skipEncoding: bool): (r: Result<string, UriError>)
    ensures r.Err? <==> |c.path| >= 2 && IsAsciiUpper(c.path[0]) && c.path[1] == ':'
    ensures r.Err? ==> r.error == DriveWithoutSlash
  {
    match FormatPath(c.path, skipEncoding)
    case Err(e) => Err(e)
    case Ok(p) => Ok(Join(FormatGroups(c, p, skipEncoding)))
  }

  /** The state `toJSON` returns; `$mid` is the constant 1. */
  datatype UriState = UriState(
    scheme: string, authority: string, path: string, fsPath: string,
    query: string, fragment: string, external: string, mid: int)

  class URI {
    var scheme: string
    var authority: string
    var path: string
    var query: string
    var fragment: string
    /** `_formatted`: None while null. */
    var formatted: Option<string>
    /** `_fsPath`: None while null. */
    var fsPath: Option<string>

    function Components(): UriComponents
      reads this
    {
      UriComponents(scheme, authority, path, query, fragment)
    }

    /** A URI handed out by a builder: its components pass validation and a
        filled cache holds what the getter computes. */
    ghost predicate Valid()
      reads this
    {
      && PathRuleHolds(Components())
      && (formatted.Some? ==> Format(Components(), false) == Ok(formatted.value))
      && (fsPath.Some? ==>
            fsPath.value == FsPathOf(Components(), false) || fsPath.value == FsPathOf(Components(), true))
    }

    constructor ()
      ensures Components() == Empty && formatted.None? && fsPath.None?
      ensures Valid()
    {
      scheme, authority, path, query, fragment := "", "", "", "", "";
      formatted, fsPath := None, None;
    }

    static method Parse(value: string) returns (r: Result<URI, UriError>)
      ensures r.Err? ==> ParseUri(value) == Err(r.error)
      ensures r.Ok? ==> ParseUri(value) == Ok(r.value.Components())
      ensures r.Ok? ==> fresh(r.value) && r.value.Valid() && r.value.formatted.None? && r.value.fsPath.None?
    {
      var ret := new URI();
      var data := ParseComponents(value);
      ret.scheme := data.scheme;
      var authority := DecodeURIComponent(data.authority);
      if authority.None? { return Err(MalformedEscape); }
      ret.authority := authority.value;
      var path := DecodeURIComponent(data.path);
      if path.None? { return Err(MalformedEscape); }
      ret.path := path.value;
      var query := DecodeURIComponent(data.query);
      if query.None? { return Err(MalformedEscape); }
      ret.query := query.value;
      var fragment := DecodeURIComponent(data.fragment);
      if fragment.None? { return Err(MalformedEscape); }
      ret.fragment := fragment.value;
      var e := Validate(ret.Components());
      if e.Some? { return Err(e.value); }
      EmptyCachesValid(ret);
      return Ok(ret);
    }

    static method File(path: string) returns (r: Result<URI, UriError>)
      ensures r.Err? ==> FileUri(path) == Err(r.error)
      ensures r.Ok? ==> FileUri(path) == Ok(r.value.Components())
      ensures r.Ok? ==> fresh(r.value) && r.value.Valid() && r.value.formatted.None? && r.value.fsPath.None?
    {
      var ret := new URI();
      ret.scheme := "file";
      var p := ReplaceAll(path, '\\', '/');
      if |p| >= 2 && p[0] == '/' && p[0] == p[1] {
        var idx := IndexOf(p, '/', 2);
        if idx == -1 {
          ret.authority := p[2..];
        } else {
          ret.authority := p[2..idx];
          ret.path := p[idx..];
        }
      } else {
        ret.path := p;
      }
      if ret.path == "" || ret.path[0] != '/' {
        ret.path := "/" + ret.path;
      }
      assert ret.Components() == UriComponents("file", FileAuthorityAndPath(p).0, FileAuthorityAndPath(p).1, "", "");
      var e := Validate(ret.Components());
      if e.Some? { return Err(e.value); }
      EmptyCachesValid(ret);
      return Ok(ret);
    }

    static method Create(scheme: Option<string>, authority: Option<string>, path: Option<string>,
                         query: Option<string>, fragment: Option<string>)
      returns (r: Result<URI, UriError>)
      ensures r.Err? ==> WithComponents(Empty, scheme, authority, path, query, fragment) == Err(r.error)
      ensures r.Ok? ==> WithComponents(Empty, scheme, authority, path, query, fragment) == Ok(r.value.Components())
      ensures r.Ok? ==> fresh(r.value) && r.value.Valid()
    {
      var u := new URI();
      r := u.With(scheme, authority, path, query, fragment);
    }

    /** `with`: a new URI; the receiver is not modified. */
    method With(scheme: Option<string>, authority: Option<string>, path: Option<string>,
                query: Option<string>, fragment: Option<string>)
      returns (r: Result<URI, UriError>)
      ensures r.Err? ==> WithComponents(Components(), scheme, authority, path, query, fragment) == Err(r.error)
      ensures r.Ok? ==> WithComponents(Components(), scheme, authority, path, query, fragment) == Ok(r.value.Components())
      ensures r.Ok? ==> fresh(r.value) && r.value.Valid() && r.value.formatted.None? && r.value.fsPath.None?
    {
      var ret := new URI();
      ret.scheme := Pick(scheme, this.scheme);
      ret.authority := Pick(authority, this.authority);
      ret.path := Pick(path, this.path);
      ret.query := Pick(query, this.query);
      ret.fragment := Pick(fragment, this.fragment);
      var e := Validate(ret.Components());
      if e.Some? { return Err(e.value); }
      EmptyCachesValid(ret);
      return Ok(ret);
    }

    method WithScheme(value: string) returns (r: Result<URI, UriError>)
      ensures r.Err? ==> WithComponents(Components(), Some(value), None, None, None, None) == Err(r.error)
      ensures r.Ok? ==> WithComponents(Components(), Some(value), None, None, None, None) == Ok(r.value.Components())
      ensures r.Ok? ==> fresh(r.value) && r.value.Valid()
    {
      r := With(Some(value), None, None, None, None);
    }

    method WithAuthority(value: string) returns (r: Result<URI, UriError>)
      ensures r.Err? ==> WithComponents(Components(), None, Some(value), None, None, None) == Err(r.error)
      ensures r.Ok? ==> WithComponents(Components(), None, Some(value), None, None, None) == Ok(r.value.Components())
      ensures r.Ok? ==> fresh(r.value) && r.value.Valid()
    {
      r := With(None, Some(value), None, None, None);
    }

    method WithPath(value: string) returns (r: Result<URI, UriError>)
      ensures r.Err? ==> WithComponents(Components(), None, None, Some(value), None, None) == Err(r.error)
      ensures r.Ok? ==> WithComponents(Components(), None, None, Some(value), None, None) == Ok(r.value.Components())
      ensures r.Ok? ==> fresh(r.value) && r.value.Valid()
    {
      r := With(None, None, Some(value), None, None);
    }

    method WithQuery(value: string) returns (r: Result<URI, UriError>)
      ensures r.Err? ==> WithComponents(Components(), None, None, None, Some(value), None) == Err(r.error)
      ensures r.Ok? ==> WithComponents(Components(), None, None, None, Some(value), None) == Ok(r.value.Components())
      ensures r.Ok? ==> fresh(r.value) && r.value.Valid()
    {
      r := With(None, None, None, Some(value), None);
    }

    method WithFragment(value: string) returns (r: Result<URI, UriError>)
      ensures r.Err? ==> WithComponents(Components(), None, None, None, None, Some(value)) == Err(r.error)
      ensures r.Ok? ==> WithComponents(Components(), None, None, None, None, Some(value)) == Ok(r.value.Components())
      ensures r.Ok? ==> fresh(r.value) && r.value.Valid()
    {
      r := With(None, None, None, None, Some(value));
    }

    /** The `fsPath` getter; `win32` stands for `process.platform === "win32"`.
        The first read (or any read while the cache holds "") fills the
        cache; later reads return it. */
    method FsPath(win32: bool) returns (p: string)
      requires Valid()
      modifies this`fsPath
      ensures Valid() && fsPath == Some(p)
      ensures old(fsPath).Some? && old(fsPath).value != "" ==> p == old(fsPath).value
      ensures !(old(fsPath).Some? && old(fsPath).value != "") ==> p == FsPathOf(Components(), win32)
    {
      if fsPath.None? || fsPath.value == "" {
        var value;
        if authority != "" && scheme == "file" {
          value := "//" + authority + path;
        } else if IsDriveLetterPath(path) {
          value := [LowerChar(path[1])] + path[2..];
        } else {
          value := path;
        }
        if win32 {
          value := ReplaceAll(value, '/', '\\');
        }
        fsPath := Some(value);
      }
      p := fsPath.value;
    }

    /** `URI._asFormatted(uri, skipEncoding)`: pushes the pieces onto `parts`
        and joins them; the path is walked segment by segment. */
    static method AsFormatted(uri: UriComponents, skipEncoding: bool) returns (r: Result<string, UriError>)
      ensures r == Format(uri, skipEncoding)
    {
      var parts := PushSchemeAndAuthority(uri, skipEncoding);
      ghost var head := Concat(parts);
      ghost var formattedPath := "";
      if uri.path != "" {
        var path := LowerCaseDrive(uri.path);
        if path.Err? {
          return Err(path.error);
        }
        formattedPath := EncodePathFrom(path.value, 0, skipEncoding);
        parts := PushPath(parts, path.value, skipEncoding);
      }
      assert Concat(parts) == head + formattedPath;
      assert FormatPath(uri.path, skipEncoding) == Ok(formattedPath);
      parts := PushDelimited(parts, "?", uri.query, skipEncoding);
      parts := PushDelimited(parts, "#", uri.fragment, skipEncoding);
      FormatPieces(uri, skipEncoding, head, formattedPath);
      r := Ok(Concat(parts));
    }

    /** The first pieces: `scheme:` when there is a scheme, `//` when there
        is an authority or the scheme is `file`, then the authority. */
    static method PushSchemeAndAuthority(uri: UriComponents, skipEncoding: bool) returns (parts: seq<string>)
      ensures Concat(parts) == SchemeText(SchemeGroup(uri)) + AuthorityText(AuthorityGroup(uri, skipEncoding))
    {
      parts := PushScheme(uri);
      parts := PushAuthorityGroup(parts, uri, skipEncoding);
    }

    /** `scheme:` when there is a scheme. */
    static method PushScheme(uri: UriComponents) returns (parts: seq<string>)
      ensures Concat(parts) == SchemeText(SchemeGroup(uri))
    {
      parts := [];
      if uri.scheme != "" {
        parts := Push(parts, uri.scheme);
        parts := Push(parts, ":");
      }
    }

    /** `//` when there is an authority or the scheme is `file`, then the
        authority. */
    static method PushAuthorityGroup(parts: seq<string>, uri: UriComponents, skipEncoding: bool)
      returns (r: seq<string>)
      ensures Concat(r) == Concat(parts) + AuthorityText(AuthorityGroup(uri, skipEncoding))
    {
      r := parts;
      if uri.authority != "" || uri.scheme == "file" {
        r := Push(r, "//");
      }
      if uri.authority != "" {
        r := PushAuthority(r, uri.authority, skipEncoding);
        Associate3(Concat(parts), "//", FormatAuthority(uri.authority, skipEncoding));
      }
    }

    /** The authority, lower-cased, with the part before the first `:`
        encoded and the port kept as it is. */
    static method PushAuthority(parts: seq<string>, authority: string, skipEncoding: bool) returns (r: seq<string>)
      ensures Concat(r) == Concat(parts) + FormatAuthority(authority, skipEncoding)
    {
      var lowered := ToLower(authority);
      var idx := IndexOf(lowered, ':', 0);
      if idx == -1 {
        r := Push(parts, Encoder(lowered, skipEncoding));
      } else {
        r := Push(parts, Encoder(lowered[..idx], skipEncoding));
        r := Push(r, lowered[idx..]);
        Associate3(Concat(parts), Encoder(lowered[..idx], skipEncoding), lowered[idx..]);
      }
    }

    /** The loop over the path: each segment up to the next `/` is pushed
        encoded, followed by the `/`, until no `/` is left. */
    static method PushPath(parts: seq<string>, path: string, skipEncoding: bool) returns (r: seq<string>)
      ensures Concat(r) == Concat(parts) + EncodePathFrom(path, 0, skipEncoding)
    {
      r := parts;
      var lastIdx := 0;
      while true
        invariant lastIdx <= |path|
        invariant Concat(r) + EncodePathFrom(path, lastIdx, skipEncoding)
                  == Concat(parts) + EncodePathFrom(path, 0, skipEncoding)
        decreases |path| - lastIdx
      {
        var idx := IndexOf(path, '/', lastIdx);
        if idx == -1 {
          EncodePathLast(path, lastIdx, skipEncoding);
          r := Push(r, EncodeSegment(path[lastIdx..], skipEncoding));
          break;
        }
        r := PushSegment(r, path, lastIdx, idx, skipEncoding);
        lastIdx := idx + 1;
      }
    }

    /** One turn of the loop: the segment before the slash at `idx`, encoded,
        and the slash. */
    static method PushSegment(parts: seq<string>, path: string, lastIdx: nat, idx: nat, skipEncoding: bool)
      returns (r: seq<string>)
      requires lastIdx <= idx < |path| && IndexOf(path, '/', lastIdx) == idx
      ensures Concat(r) + EncodePathFrom(path, idx + 1, skipEncoding)
              == Concat(parts) + EncodePathFrom(path, lastIdx, skipEncoding)
    {
      r := Push(parts, EncodeSegment(path[lastIdx..idx], skipEncoding));
      r := Push(r, "/");
      PathLoopStep(Concat(parts), path, lastIdx, idx, skipEncoding);
    }

    /** `if (value) { parts.push(delimiter, encoder(value)); }` */
    static method PushDelimited(parts: seq<string>, delimiter: string, value: string, skipEncoding: bool)
      returns (r: seq<string>)
      ensures Concat(r) == Concat(parts) + (if value != "" then delimiter + Encoder(value, skipEncoding) else "")
    {
      r := parts;
      if value != "" {
        r := Push(r, delimiter);
        r := Push(r, Encoder(value, skipEncoding));
        Associate3(Concat(parts), delimiter, Encoder(value, skipEncoding));
      }
    }

    /** `parts.push(x)` */
    static method Push(parts: seq<string>, x: string) returns (r: seq<string>)
      ensures r == parts + [x]
      ensures Concat(r) == Concat(parts) + x
    {
      ConcatAppend(parts, x);
      r := parts + [x];
    }

    /** `toString(skipEncoding)`: the encoded form is cached in `_formatted`
        on first use, so every call returns the same string; the unencoded
        form is computed afresh. */
    method ToString(skipEncoding: bool) returns (r: Result<string, UriError>)
      requires Valid()
      modifies this`formatted
      ensures Valid()
      ensures r == Format(Components(), skipEncoding)
      ensures !skipEncoding && r.Ok? ==> formatted == Some(r.value)
      ensures skipEncoding || r.Err? ==> formatted == old(formatted)
    {
      if !skipEncoding {
        if formatted.None? || formatted.value == "" {
          var f := AsFormatted(Components(), false);
          if f.Err? { return f; }
          formatted := Some(f.value);
        }
        return Ok(formatted.value);
      } else {
        r := AsFormatted(Components(), true);
      }
    }

    /** `toJSON()`: reads `fsPath` (filling its cache) before `toString()`,
        which may throw. */
    method ToJson(win32: bool) returns (r: Result<UriState, UriError>)
      requires Valid()
      modifies this`formatted, this`fsPath
      ensures Valid() && fsPath.Some?
      ensures old(fsPath).Some? && old(fsPath).value != "" ==> fsPath == old(fsPath)
      ensures !(old(fsPath).Some? && old(fsPath).value != "") ==> fsPath == Some(FsPathOf(Components(), win32))
      ensures r.Ok? <==> Format(Components(), false).Ok?
      ensures r.Ok? ==> formatted == Some(r.value.external)
      ensures r.Ok? ==> r.value == UriState(scheme, authority, path, fsPath.value, query, fragment,
                                            Format(Components(), false).value, 1)
    {
      var fs := FsPath(win32);
      var external := ToString(false);
      if external.Err? { return Err(external.error); }
      return Ok(UriState(scheme, authority, path, fs, query, fragment, external.value, 1));
    }
  }

  /** A URI whose components pass validation and whose caches are empty is
      valid. */
  lemma EmptyCachesValid(u: URI)
    requires PathRuleHolds(u.Components()) && u.formatted.None? && u.fsPath.None?
    ensures u.Valid()
  {
  }

  /** One turn of the path loop: the segment up to the slash at `idx`, the
      slash, and the path after it make up the path from `lastIdx`. */
  lemma PathLoopStep(before: string, path: string, lastIdx: nat, idx: nat, skipEncoding: bool)
    requires lastIdx <= idx < |path| && IndexOf(path, '/', lastIdx) == idx
    ensures before + EncodeSegment(path[lastIdx..idx], skipEncoding) + "/" + EncodePathFrom(path, idx + 1, skipEncoding)
            == before + EncodePathFrom(path, lastIdx, skipEncoding)
  {
    EncodePathUnfold(path, lastIdx, idx, skipEncoding);
    Associate4(before, EncodeSegment(path[lastIdx..idx], skipEncoding), "/", EncodePathFrom(path, idx + 1, skipEncoding));
  }

  /** The formatted string, piece by piece. */
  lemma FormatPieces(uri: UriComponents, skipEncoding: bool, head: string, formattedPath: string)
    requires FormatPath(uri.path, skipEncoding) == Ok(formattedPath)
    requires head == SchemeText(SchemeGroup(uri)) + AuthorityText(AuthorityGroup(uri, skipEncoding))
    ensures Format(uri, skipEncoding) == Ok(head + formattedPath
      + (if uri.query != "" then "?" + Encoder(uri.query, skipEncoding) else "")
      + (if uri.fragment != "" then "#" + Encoder(uri.fragment, skipEncoding) else ""))
  {
    JoinFlat(FormatGroups(uri, formattedPath, skipEncoding));
  }

  /** The joined groups read left to right. */
  lemma JoinFlat(m: RegexMatch)
    ensures Join(m) == SchemeText(m.scheme) + AuthorityText(m.authority) + m.path
                       + QueryText(m.query) + FragmentText(m.fragment)
  {
    var s, a, p, q, f := SchemeText(m.scheme), AuthorityText(m.authority), m.path, QueryText(m.query), FragmentText(m.fragment);
    calc {
      Join(m);
      s + (a + (p + (q + f)));
      { Associate3(p, q, f); }
      s + (a + (p + q + f));
      { Associate3(a, p + q, f); Associate3(a, p, q); }
      s + (a + p + q + f);
      { Associate3(s, a + p + q, f); Associate3(s, a + p, q); Associate3(s, a, p); }
      s + a + p + q + f;
    }
  }
}

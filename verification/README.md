# URI value type and diagnostic accumulator of the CloudFormation language server

This project models two utilities of the language server in Dafny and proves what they promise.

**The URI value type** (`utils/uri.ts`). It covers:

- `_validate`: the path rule of section 3.3 of RFC 3986.
- `_parseComponents`: the splitter driven by the Appendix B regular expression of RFC 3986, written here as a hand-made scanner that means the same.
- The builders `parse`, `file`, `create`, `with` and the `withX` shorthands.
- The `fsPath` getter.
- `_asFormatted`, `toString` and `toJSON`, with their write-once caches.
- The percent-coding they rely on:
  - `_encode`;
  - `encodeURIComponent2`;
  - the JavaScript built-ins `encodeURIComponent` and `decodeURIComponent`, both written out with UTF-8.

Components are `UriComponents` values. The `URI` class holds them together with the `_formatted` and `_fsPath` caches. A thrown error becomes a `UriError` in a `Result`:

- the two `[UriError]`s of `_validate`;
- the `URIError` of `decodeURIComponent`;
- the `TypeError` the formatter raises on an upper-case drive letter without a leading slash.

The formatter is imperative, as in the source: a `parts` list is pushed to and then joined. Each method is proved against the value-level `Format`. The properties proved about `Format` include:

- `parse(toString())` gives back the components;
- the splitter applied to `toString(true)` gives back the components;
- for `with` and `create`, each argument lands in its component;
- `file` followed by `fsPath` gives back the path in three cases:
  - an absolute POSIX path without `\`, not starting with `//`, and not a drive path `/x:`;
  - a UNC path `//server/...` without `\`, with a non-empty server followed by a `/`;
  - on Windows, a path that starts with a lower-case drive letter and `:` and holds no `/`.

  Outside these cases the path can change: `//server` comes back as `//server/`, and `C:\x` is accepted by `file` but comes back from `fsPath` on Windows as `c:\x`.

**The diagnostic accumulator** (`utils/errorHandler.ts`). The class `ErrorHandler` keeps an append-only `seq` of `{severity, range, message}` records. `positionAt` of the text document is an uninterpreted function held by the document value. The caller's `errorType` is stored as `severity`, exactly as the source does. A client method feeds a fresh handler a sequence of calls and is proved to return one record per call, in call order.

Modules:

- `Wrappers`: `Option` and `Result`.
- `Strings`: ASCII case mapping, single-character `replace`, `indexOf` and `join("")`.
- `PercentCoding`.
- `UriSplit`: the splitter and the join of its groups.
- `Uri`: the builders, `fsPath`, the formatter and the `URI` class.
- `UriProperties`: lemmas relating the operations.
- `ErrorHandling`.

The model follows the code wherever a plain description of these utilities would differ from it:

- The path escape `.replace(/[#?]/, _encode)` has no `g` flag, so only the first `#` or `?` of a segment is escaped.
- The drive-letter class `[a-zA-z]` also admits `[ \ ] ^ _` and the backtick.
- The accumulator is a mutable list, as written, rather than an immutable result sequence.

## Model

| member | source | states |
|---|---|---|
| PercentCoding.UpperHexNumeral | packages/language-server/src/language-service/utils/uri.ts:6-9 | `toString(16).toUpperCase()` of a code gives upper-case hexadecimal digits only, with no leading zero, whose value is the code |
| PercentCoding.ToHexString | packages/language-server/src/language-service/utils/uri.ts:8 | `toString(16)` gives at least one digit, with no leading zero for a positive number |
| PercentCoding.LowerHexNumeral | packages/language-server/src/language-service/utils/uri.ts:8 | `toString(16)` writes lower-case hexadecimal digits whose value is the number |
| PercentCoding.EncodeChar | packages/language-server/src/language-service/utils/uri.ts:3-11 | `_encode` gives `%` followed by at least one character |
| PercentCoding.EncodeCharDigits | packages/language-server/src/language-service/utils/uri.ts:3-11 | after the `%` of `_encode` come upper-case hexadecimal digits, without a leading zero, whose value is the character code |
| PercentCoding.EncodeCharTwoDigits | packages/language-server/src/language-service/utils/uri.ts:3-11 | for a character code in 16..255, `_encode` gives `%` and exactly two upper-case hex digits whose value is that code |
| PercentCoding.CharCodeAt0 | packages/language-server/src/language-service/utils/uri.ts:7 | `charCodeAt(0)` is the character itself below 0x10000 and a lead surrogate above it |
| PercentCoding.Utf8RoundTrip | packages/language-server/src/language-service/utils/uri.ts:15 | the UTF-8 octets `encodeURIComponent` writes for a code point of 0x80 or more start with a lead byte giving their count, and decode back to that code point |
| PercentCoding.Utf8DecodeIsInverse | packages/language-server/src/language-service/utils/uri.ts:111-114 | an octet sequence `decodeURIComponent` accepts as one UTF-8 character is exactly the encoding of the code point it yields |
| PercentCoding.EncodeURIComponent | packages/language-server/src/language-service/utils/uri.ts:15 | `encodeURIComponent` never shortens its input |
| PercentCoding.EncodeURIComponentIdentity | packages/language-server/src/language-service/utils/uri.ts:15 | `encodeURIComponent` leaves text made only of characters it does not escape unchanged |
| PercentCoding.EncodeURIComponentAlphabet | packages/language-server/src/language-service/utils/uri.ts:15 | `encodeURIComponent` writes only characters it does not escape and `%` |
| PercentCoding.EncodeURIComponent2Identity | packages/language-server/src/language-service/utils/uri.ts:14-16 | `encodeURIComponent2` leaves text made only of unreserved characters other than `!'()*` unchanged |
| PercentCoding.EncodedCharIsSafe | packages/language-server/src/language-service/utils/uri.ts:14-16 | `encodeURIComponent2` of one character is the character when it is unreserved and not one of `!'()*`, `_encode` of it when it is one of those, and its UTF-8 octets as `%XY` otherwise; in every case only unreserved characters, `%` and upper-case hex digits are produced |
| PercentCoding.EncodeURIComponent2Safe | packages/language-server/src/language-service/utils/uri.ts:14-16 | the output of `encodeURIComponent2` holds only unreserved characters, `%` and upper-case hex digits, so none of `:/?#` and none of `!'()*` |
| PercentCoding.EscapeExtraAppend | packages/language-server/src/language-service/utils/uri.ts:15 | with the `g` flag the escape of `!'()*` applies to every character, so it distributes over concatenation |
| PercentCoding.EscapeExtraIdentity | packages/language-server/src/language-service/utils/uri.ts:15 | text without `!'()*` is left unchanged by the escape |
| PercentCoding.DecodeWithoutPercent | packages/language-server/src/language-service/utils/uri.ts:111-114 | `decodeURIComponent` of text without `%` succeeds and returns the text |
| PercentCoding.DecodeURIComponent | packages/language-server/src/language-service/utils/uri.ts:111-114 | `decodeURIComponent` never lengthens its input, and fails only on input holding a `%` |
| PercentCoding.DecodeAppend | packages/language-server/src/language-service/utils/uri.ts:111-114 | decoding a concatenation whose first part decodes equals that decoded part followed by the decoding of the rest, failing exactly when the rest fails |
| PercentCoding.DecodeEncodedChar | packages/language-server/src/language-service/utils/uri.ts:111-114 | every character, once through `encodeURIComponent2`, decodes to itself |
| PercentCoding.DecodeEncode | packages/language-server/src/language-service/utils/uri.ts:111-114 | `decodeURIComponent(encodeURIComponent2(s))` succeeds and gives `s` back, for every string |
| Strings.IndexOf | packages/language-server/src/language-service/utils/uri.ts:246 | `indexOf(c, from)` is the first position at or after `from` holding `c`, or -1 exactly when there is none |
| Strings.ToLower | packages/language-server/src/language-service/utils/uri.ts:219 | `toLowerCase` keeps the length and maps each character by itself |
| Strings.ToLowerOfLower | packages/language-server/src/language-service/utils/uri.ts:219 | text without upper-case letters is left unchanged by `toLowerCase` |
| Strings.ReplaceAll | packages/language-server/src/language-service/utils/uri.ts:98 | `replace(/x/g, y)` for single characters: same length, each `x` becomes `y`, every other character is kept |
| Strings.ToUpper | packages/language-server/src/language-service/utils/uri.ts:9 | `toUpperCase` keeps the length and maps each character by itself |
| UriSplit.Span | packages/language-server/src/language-service/utils/uri.ts:162 | a negated character class takes the longest prefix without its excluded characters, stopping at the first one |
| UriSplit.MatchScheme | packages/language-server/src/language-service/utils/uri.ts:162 | the scheme group, when present, is non-empty and free of `:/?#`, and the input is `scheme:` followed by the rest |
| UriSplit.MatchSchemeAt | packages/language-server/src/language-service/utils/uri.ts:162 | whenever a non-empty run free of `:/?#` is followed by `:`, the scheme group is that run and the rest starts after the colon |
| UriSplit.MatchAuthority | packages/language-server/src/language-service/utils/uri.ts:162 | the authority group is present exactly when the input starts with `//`; it is free of `/?#`, what follows it is empty or starts with one of `/?#`, and the input is `//authority` followed by the rest |
| UriSplit.MatchPath | packages/language-server/src/language-service/utils/uri.ts:162 | the path group is free of `?#`, and what follows it is empty or starts with `?` or `#` |
| UriSplit.MatchQuery | packages/language-server/src/language-service/utils/uri.ts:162 | the query group is free of `#`, and what follows it is empty or starts with `#` |
| UriSplit.MatchFragment | packages/language-server/src/language-service/utils/uri.ts:162 | the fragment group has no line terminator, and what is left after it is empty or starts at one |
| UriSplit.Split | packages/language-server/src/language-service/utils/uri.ts:162 | the match never fails, and each group is free of the delimiters that end it |
| UriSplit.ParseComponents | packages/language-server/src/language-service/utils/uri.ts:166-184 | scheme has none of `:/?#`, authority none of `/?#`, path neither `?` nor `#`, query no `#`, fragment no line terminator |
| UriSplit.SplitRemainder | packages/language-server/src/language-service/utils/uri.ts:175-182 | the input is the join of the matched groups with their delimiters, followed by a remainder that is empty or starts at a line terminator |
| UriSplit.JoinSplit | packages/language-server/src/language-service/utils/uri.ts:175-182 | the join of the groups is a prefix of the input, and equals the input when it holds no line terminator |
| UriSplit.SplitJoin | packages/language-server/src/language-service/utils/uri.ts:162 | splitting the join of well-formed groups gives those groups back |
| Uri.Validate | packages/language-server/src/language-service/utils/uri.ts:186-203 | it throws the first error exactly when there is an authority and the path is non-empty and not absolute, throws the second exactly when there is no authority and the path starts with `//`, and returns otherwise |
| Uri.DecodeComponents | packages/language-server/src/language-service/utils/uri.ts:111-114 | `decodeURIComponent` of authority, path, query and fragment: None exactly when one of the four is malformed, otherwise the four decoded values with the scheme kept |
| Uri.ParseUri | packages/language-server/src/language-service/utils/uri.ts:107-117 | `parse` fails with the decode error exactly when one of the four decoded components is malformed; otherwise it gives the decoded components when they meet the path rule and the error `_validate` throws when they do not; a parsed URI keeps the split scheme as it is |
| Uri.FileAuthorityAndPath | packages/language-server/src/language-service/utils/uri.ts:126-144 | for input starting with `//`, the authority runs from position 2 up to the next `/` and the path is the rest from that `/` (just `/` when there is none); otherwise the authority is empty and the path is the input, with a `/` put in front when it does not start with one; no backslash appears in either |
| Uri.FileUri | packages/language-server/src/language-service/utils/uri.ts:119-149 | `file` turns every `\` into `/`, then takes authority and path as `FileAuthorityAndPath` does, with scheme `file` and empty query and fragment; it fails exactly when the slash-normalised path starts with `////` |
| Uri.WithComponents | packages/language-server/src/language-service/utils/uri.ts:299-314 | the candidate takes each non-empty argument and keeps the current value for each undefined or empty one; `with` succeeds exactly when the candidate meets the path rule, and otherwise fails with the error `_validate` gives for it |
| Uri.Pick | packages/language-server/src/language-service/utils/uri.ts:307-311 | `argument || current`: a non-empty argument wins; an undefined or empty one gives the current value |
| Uri.FsPathOf | packages/language-server/src/language-service/utils/uri.ts:84-103 | a UNC path `//authority/path` for a `file` URI with an authority; otherwise the drive path without its slash and with the drive lower-cased; otherwise the path; on Windows, with `\` for `/` |
| Uri.IsDriveLetterPath | packages/language-server/src/language-service/utils/uri.ts:163 | `/^\/[a-zA-z]:/` holds exactly when the path has a `/`, a character between `A` and `z`, and `:` at its first three positions |
| Uri.EscapeFirstHashOrQuestion | packages/language-server/src/language-service/utils/uri.ts:249-252 | a segment without `#` and `?` is left unchanged |
| Uri.EscapeAtFirst | packages/language-server/src/language-service/utils/uri.ts:249-252 | without the `g` flag only the first `#` or `?` is replaced: what comes before it, then `_encode` of it, then the rest unchanged, other `#` and `?` included |
| Uri.EncodePathUnfold | packages/language-server/src/language-service/utils/uri.ts:256-263 | before a slash, the loop writes the escaped segment, then `/`, then continues after the slash |
| Uri.EncodePathLast | packages/language-server/src/language-service/utils/uri.ts:247-254 | with no slash left, the loop writes the escaped rest and stops |
| Uri.LowerCaseDrive | packages/language-server/src/language-service/utils/uri.ts:232-238 | a path without an upper-case drive is left unchanged; the step throws exactly when the drive letter comes without its leading slash; otherwise the result has the same length, the first character and everything after the drive letter as they were, the drive letter lower-cased, and no upper-case drive left |
| Uri.UpperCaseDriveAfterOptionalSlash | packages/language-server/src/language-service/utils/uri.ts:164 | the optional group `(\/)?` is taken whenever the path starts with `/`, so the drive letter sits at position 1 after a leading slash and at position 0 otherwise |
| Uri.FormatAuthority | packages/language-server/src/language-service/utils/uri.ts:218-229 | with encoding skipped, the authority is only lower-cased |
| Uri.FormatPath | packages/language-server/src/language-service/utils/uri.ts:230-265 | an empty path is written as nothing; the path step throws exactly when an upper-case drive letter and `:` start the path without a leading slash, and then with the drive-letter error |
| Uri.Format | packages/language-server/src/language-service/utils/uri.ts:205-274 | `_asFormatted` throws exactly when the path starts with an upper-case drive letter and `:` without a leading slash, and then with the drive-letter error |
| Uri.URI.constructor | packages/language-server/src/language-service/utils/uri.ts:286-295 | five empty components and both caches empty |
| Uri.URI.Parse | packages/language-server/src/language-service/utils/uri.ts:107-117 | a fresh valid URI with the components of `ParseUri` and empty caches, or exactly its error |
| Uri.URI.File | packages/language-server/src/language-service/utils/uri.ts:119-149 | a fresh valid URI with the components of `FileUri` and empty caches, or exactly its error |
| Uri.URI.Create | packages/language-server/src/language-service/utils/uri.ts:151-159 | `with` applied to the empty URI |
| Uri.URI.With | packages/language-server/src/language-service/utils/uri.ts:299-314 | a fresh valid URI with the components of `WithComponents` and empty caches, or exactly its error |
| Uri.URI.WithScheme | packages/language-server/src/language-service/utils/uri.ts:316-318 | `with` given only the scheme |
| Uri.URI.WithAuthority | packages/language-server/src/language-service/utils/uri.ts:320-322 | `with` given only the authority |
| Uri.URI.WithPath | packages/language-server/src/language-service/utils/uri.ts:324-326 | `with` given only the path |
| Uri.URI.WithQuery | packages/language-server/src/language-service/utils/uri.ts:328-330 | `with` given only the query |
| Uri.URI.WithFragment | packages/language-server/src/language-service/utils/uri.ts:332-334 | `with` given only the fragment |
| Uri.URI.FsPath | packages/language-server/src/language-service/utils/uri.ts:84-103 | returns a non-empty cached value unchanged, and otherwise computes `FsPathOf` and stores it; only the `_fsPath` cache changes |
| Uri.URI.AsFormatted | packages/language-server/src/language-service/utils/uri.ts:205-274 | joining the pushed parts gives `Format` of the components: the formatter's loop and pushes agree with the value-level definition |
| Uri.URI.PushSchemeAndAuthority | packages/language-server/src/language-service/utils/uri.ts:212-229 | the parts pushed so far join to `scheme:` when there is a scheme, then `//` and the formatted authority when there is an authority or the scheme is `file` |
| Uri.URI.PushScheme | packages/language-server/src/language-service/utils/uri.ts:212-214 | pushes `scheme` and `:` only when there is a scheme |
| Uri.URI.PushAuthorityGroup | packages/language-server/src/language-service/utils/uri.ts:215-229 | appends `//` when there is an authority or the scheme is `file`, then the formatted authority |
| Uri.URI.PushAuthority | packages/language-server/src/language-service/utils/uri.ts:218-229 | appends the lower-cased authority, with the part before the first `:` encoded and the port kept as it is |
| Uri.URI.PushPath | packages/language-server/src/language-service/utils/uri.ts:244-264 | the segment loop appends the encoded path: each segment encoded and first-match escaped, slashes kept |
| Uri.URI.PushSegment | packages/language-server/src/language-service/utils/uri.ts:256-263 | one loop turn: what was pushed plus what remains to push is unchanged, so the loop invariant is kept |
| Uri.URI.PushDelimited | packages/language-server/src/language-service/utils/uri.ts:266-271 | appends `?query` or `#fragment` only when the component is non-empty |
| Uri.URI.ToString | packages/language-server/src/language-service/utils/uri.ts:342-352 | returns `Format` of the components; only an encoded success fills the `_formatted` cache; the skip-encoding form leaves it alone |
| Uri.URI.ToJson | packages/language-server/src/language-service/utils/uri.ts:354-365 | reads `fsPath` first: a non-empty cached value is kept, otherwise the cache is filled with `FsPathOf`; succeeds exactly when formatting does, and then returns the five components, `fsPath`, the encoded string as `external` (which the `_formatted` cache now holds), and `$mid` 1 |
| UriProperties.WithNothingIsIdentity | packages/language-server/src/language-service/utils/uri.ts:307-311 | `with` given nothing, or only empty strings, gives the same components |
| UriProperties.WithIdempotent | packages/language-server/src/language-service/utils/uri.ts:299-314 | applying the same `with` twice is the same as applying it once |
| UriProperties.WithOneComponent | packages/language-server/src/language-service/utils/uri.ts:316-334 | each shorthand changes only its own component; those for scheme, query and fragment never fail on a valid URI; those for authority and path fail exactly when the new pair breaks the path rule |
| UriProperties.CreateGivesComponents | packages/language-server/src/language-service/utils/uri.ts:151-159 | `create` given all five components that meet the path rule gives exactly those |
| UriProperties.FilePosixRoundTrip | packages/language-server/src/language-service/utils/uri.ts:119-149 | an absolute POSIX path without `\` that neither starts with `//` nor is a drive path comes back from `fsPath` as it went into `file` |
| UriProperties.FileUncRoundTrip | packages/language-server/src/language-service/utils/uri.ts:128-135 | a UNC path `//server/...` without `\`, whose non-empty server is followed by a `/`, gets the server as authority and comes back from `fsPath` unchanged |
| UriProperties.FileWindowsDriveRoundTrip | packages/language-server/src/language-service/utils/uri.ts:90-99 | a path without `/` that starts with a lower-case drive letter and `:` comes back from `fsPath` on Windows unchanged |
| UriProperties.DriveLetterRangeAdmitsPunctuation | packages/language-server/src/language-service/utils/uri.ts:163 | the class `[a-zA-z]` reads `/_:x` as a drive path, and `fsPath` drops its slash |
| UriProperties.FormatGroupsWellFormed | packages/language-server/src/language-service/utils/uri.ts:205-274 | the pieces the formatter writes form well-formed groups, under conditions on each group; the splitter reads back each group's content |
| UriProperties.EncodePathUnencoded | packages/language-server/src/language-service/utils/uri.ts:240-264 | with encoding skipped, a path without `?` and `#` is written as it is |
| UriProperties.UnencodedRoundTrip | packages/language-server/src/language-service/utils/uri.ts:342-351 | for components free of their delimiters, `toString(true)` followed by the splitter gives the components back |
| UriProperties.SkipEncodingEscapesOnlyFirstQuestionMark | packages/language-server/src/language-service/utils/uri.ts:249-252 | without the `g` flag, `toString(true)` writes path `/a?b?c` as `/a%3Fb?c`, which splits into path `/a%3Fb` and query `c` |
| UriProperties.EscapeFirstOfTwo | packages/language-server/src/language-service/utils/uri.ts:249-252 | only the first `?` of `a?b?c` is escaped |
| UriProperties.QuestionMarkEscape | packages/language-server/src/language-service/utils/uri.ts:3-11 | `_encode('?')` is `%3F` |
| UriProperties.EncodeSegmentEncoded | packages/language-server/src/language-service/utils/uri.ts:256-260 | an encoded segment has no `#` or `?`, so the first-match escape leaves `encodeURIComponent2` of it unchanged; it is empty exactly when the segment is |
| UriProperties.EncodePathChars | packages/language-server/src/language-service/utils/uri.ts:240-264 | an encoded path holds only `/` and encoded characters |
| UriProperties.EncodePathDecodes | packages/language-server/src/language-service/utils/uri.ts:240-264 | an encoded path decodes back to the path |
| UriProperties.EncodedPathHead | packages/language-server/src/language-service/utils/uri.ts:244-264 | an encoded path starts with `/` exactly when the path does |
| UriProperties.EncodedPathDoubleSlash | packages/language-server/src/language-service/utils/uri.ts:244-264 | an encoded path starts with `//` exactly when the path does |
| UriProperties.NoColonNoScheme | packages/language-server/src/language-service/utils/uri.ts:162 | text without `:` never yields a scheme group |
| UriProperties.FormatAuthorityEncoded | packages/language-server/src/language-service/utils/uri.ts:218-229 | for a lower-case authority with a plain port, the encoded authority stays in the authority group and decodes back |
| UriProperties.PortParts | packages/language-server/src/language-service/utils/uri.ts:226 | the port, written unencoded, stays in the authority group and decodes to itself |
| UriProperties.EncodedComponent | packages/language-server/src/language-service/utils/uri.ts:266-271 | an encoded query or fragment stays in its group and decodes back |
| UriProperties.EncodedPathFacts | packages/language-server/src/language-service/utils/uri.ts:230-265 | a path without an upper-case drive is formatted without error; the result has no `:?#`, decodes back, and keeps the path's leading `/` and `//` |
| UriProperties.EncodedRoundTrip | packages/language-server/src/language-service/utils/uri.ts:342-347 | `parse(toString())` gives back the components of a valid URI whose scheme has no `:/?#`, whose authority is lower-case with a plain port, whose path has no upper-case drive, and whose path is absolute when the scheme is `file` |
| UriProperties.ParseOfDecodable | packages/language-server/src/language-service/utils/uri.ts:107-117 | `parse` succeeds with exactly the components that the split pieces decode to, whenever they meet the path rule |
| ErrorHandling.RecordOf | packages/language-server/src/language-service/utils/errorHandler.ts:11-18 | the record has severity equal to the error type, message equal to the error message, and range from `positionAt(startPosition)` to `positionAt(endPosition)` |
| ErrorHandling.ErrorHandler.constructor | packages/language-server/src/language-service/utils/errorHandler.ts:5-8 | a new handler has an empty list and keeps the document it was given |
| ErrorHandling.ErrorHandler.AddErrorResult | packages/language-server/src/language-service/utils/errorHandler.ts:10-19 | appends exactly one record at the end, leaves every earlier record unchanged, and does not change the document |
| ErrorHandling.ErrorHandler.GetErrorResultsList | packages/language-server/src/language-service/utils/errorHandler.ts:21-23 | returns the list and changes nothing |
| ErrorHandling.ReplayRecords | packages/language-server/src/language-service/utils/errorHandler.ts:10-23 | after any sequence of calls, the list has one record per call, the i-th made by the i-th call |
| ErrorHandling.ReplayPrefix | packages/language-server/src/language-service/utils/errorHandler.ts:10-19 | later calls never change the records made by earlier ones |
| ErrorHandling.CollectErrors | packages/language-server/src/language-service/utils/errorHandler.ts:1-24 | a fresh handler fed a sequence of calls returns them in order: one record per call, each with its own error type as severity, its message, and the positions of its node |

## Left out

- The YAML parser, schema resolver, completion and validation engine of the language server are not part of this model. The same holds for the editor extension (`packages/vscode/src/extension.ts`, I/O over IPC) and the completion test harness.
- `process.platform === "win32"` is an environment read. It is a `win32: bool` parameter of `FsPath`, `FsPathOf` and `ToJson`. The `_fsPath` cache therefore holds whatever platform the first call named, where the source has one platform per process.
- Lone surrogates are not representable: Dafny's `char` is a Unicode scalar value. So the `URIError` that `encodeURIComponent` throws on a lone surrogate is not modelled, and `encodeURIComponent` never fails here.
- `charCodeAt(0)` of a character above U+FFFF is a lead surrogate computed from the code point. Only its range is used.
- Strings.ToLower: maps ASCII letters only. JavaScript's full Unicode case tables are left out. The drive-letter and authority uses are exact for ASCII.
- `positionAt` of `vscode-languageserver`'s `TextDocument` is an arbitrary function from offset to position. Its line and column arithmetic belongs to the library.
- ErrorHandling.ErrorHandler.GetErrorResultsList: returns the list as a value. The source returns the array by reference, so a caller's later pushes to it would alias the handler's list. That aliasing is not modelled.
- `errorType` is an `int`, the numeric `DiagnosticSeverity` of the protocol. The source accepts any value.
- The `TypeError` raised by `m[1].length`, when `/^(\/)?([A-Z]:)/` matches without the leading slash, is the error `DriveWithoutSlash`. The exception's message text is not modelled.
- Error message strings of the two `[UriError]`s are represented by the two `UriError` constructors, not by their text.
- `URI` objects are made only by the builders, so `FsPath`, `ToString` and `ToJson` require the class invariant `Valid()`: the components meet the path rule and a filled cache holds what its getter computes. A URI that a caller assembles field by field is outside the model.

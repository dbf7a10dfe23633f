/** Percent-encoding as the URI type uses it: the `_encode` helper (one
    character as `%` and its upper-case hexadecimal code), the JavaScript
    built-ins `encodeURIComponent` and `decodeURIComponent` (UTF-8 octets,
    each written `%XY`), and `encodeURIComponent2`, which also escapes the
    sub-delimiters `!'()*` of section 2.2 of RFC 3986. */
module PercentCoding {
  import opened Wrappers
  import opened Strings

  // ---- hexadecimal digits -------------------------------------------------

  predicate IsHexDigit(c: char)
  {
    '0' <= c <= '9' || 'a' <= c <= 'f' || 'A' <= c <= 'F'
  }

  predicate IsUpperHexDigit(c: char)
  {
    '0' <= c <= '9' || 'A' <= c <= 'F'
  }

  function HexValue(c: char): (v: nat)
    requires IsHexDigit(c)
    ensures v < 16
  {
    if '0' <= c <= '9' then c as int - '0' as int
    else if 'a' <= c <= 'f' then c as int - 'a' as int + 10
    else c as int - 'A' as int + 10
  }

  function LowerHexDigit(d: nat): (c: char)
    requires d < 16
    ensures IsHexDigit(c) && HexValue(c) == d
    ensures UpperChar(c) == UpperHexDigit(d)
  {
    if d < 10 then ('0' as int + d) as char else ('a' as int + d - 10) as char
  }

  function UpperHexDigit(d: nat): (c: char)
    requires d < 16
    ensures IsUpperHexDigit(c) && IsHexDigit(c) && HexValue(c) == d
  {
    if d < 10 then ('0' as int + d) as char else ('A' as int + d - 10) as char
  }

  /** `n.toString(16)`: the shortest lower-case hexadecimal numeral of `n`. */
  function ToHexString(n: nat): (r: string)
    ensures |r| >= 1
    ensures n > 0 ==> r[0] != '0'
    decreases n
  {
    if n < 16 then [LowerHexDigit(n)] else ToHexString(n / 16) + [LowerHexDigit(n % 16)]
  }

  /** `n.toString(16)` is written in lower-case hexadecimal digits and
      denotes `n`. */
  lemma {:induction false} LowerHexNumeral(n: nat)
    ensures forall i :: 0 <= i < |ToHexString(n)| ==> IsHexDigit(ToHexString(n)[i]) && !IsAsciiUpper(ToHexString(n)[i])
    ensures HexNumeralValue(ToHexString(n)) == n
    decreases n
  {
    if n >= 16 {
      LowerHexNumeral(n / 16);
      var s := ToHexString(n);
      assert s[..|s| - 1] == ToHexString(n / 16);
    }
  }

  /** The number a numeral of hexadecimal digits denotes, most significant first. */
  function HexNumeralValue(s: string): nat
    requires forall i :: 0 <= i < |s| ==> IsHexDigit(s[i])
  {
    if s == [] then 0 else HexNumeralValue(s[..|s| - 1]) * 16 + HexValue(s[|s| - 1])
  }

  /** `toString(16).toUpperCase()` writes `n` in upper-case hexadecimal digits,
      with no leading zero, and the numeral denotes `n` again. */
  lemma {:induction false} UpperHexNumeral(n: nat)
    ensures forall i :: 0 <= i < |ToUpper(ToHexString(n))| ==> IsUpperHexDigit(ToUpper(ToHexString(n))[i])
    ensures forall i :: 0 <= i < |ToUpper(ToHexString(n))| ==> IsHexDigit(ToUpper(ToHexString(n))[i])
    ensures HexNumeralValue(ToUpper(ToHexString(n))) == n
    ensures n > 0 ==> ToUpper(ToHexString(n))[0] != '0'
    decreases n
  {
    if n < 16 {
      assert ToUpper(ToHexString(n)) == [UpperHexDigit(n)];
    } else {
      UpperHexNumeral(n / 16);
      var hi := ToUpper(ToHexString(n / 16));
      var s := ToUpper(ToHexString(n));
      assert s == hi + [UpperHexDigit(n % 16)];
      assert s[..|s| - 1] == hi;
    }
  }

  // ---- _encode ---------------------------------------------------------------

  /** `ch.charCodeAt(0)`: the first UTF-16 code unit of the character, which is
      the high surrogate for a character outside the Basic Multilingual Plane. */
  function CharCodeAt0(ch: char): (u: nat)
    ensures u < 0x10000
    ensures ch as int < 0x10000 ==> u == ch as int
    ensures ch as int >= 0x10000 ==> 0xD800 <= u < 0xDC00
  {
    if ch as int < 0x10000 then ch as int else 0xD800 + (ch as int - 0x10000) / 0x400
  }

  /** `_encode(ch)`: `%` followed by the upper-case hexadecimal code of `ch`. */
  function EncodeChar(ch: char): (r: string)
    ensures |r| >= 2 && r[0] == '%'
  {
    "%" + ToUpper(ToHexString(CharCodeAt0(ch)))
  }

  /** After the `%` of `_encode(ch)` come upper-case hexadecimal digits,
      without a leading zero, whose value is the code of `ch`. */
  lemma EncodeCharDigits(ch: char)
    ensures forall i :: 1 <= i < |EncodeChar(ch)| ==> IsUpperHexDigit(EncodeChar(ch)[i]) && IsHexDigit(EncodeChar(ch)[i])
    ensures var d := EncodeChar(ch)[1..];
      (forall i :: 0 <= i < |d| ==> IsHexDigit(d[i])) && HexNumeralValue(d) == CharCodeAt0(ch)
    ensures CharCodeAt0(ch) > 0 ==> EncodeChar(ch)[1] != '0'
  {
    var digits := ToUpper(ToHexString(CharCodeAt0(ch)));
    UpperHexNumeral(CharCodeAt0(ch));
    assert EncodeChar(ch)[1..] == digits;
  }

  /** The escape of one octet as `encodeURIComponent` writes it. */
  function PercentOctet(b: nat): (r: string)
    requires b < 256
  {
    ['%', UpperHexDigit(b / 16), UpperHexDigit(b % 16)]
  }

  /** For a code in 16..255, `_encode` gives `%` and exactly two upper-case
      hexadecimal digits whose value is that code. */
  lemma EncodeCharTwoDigits(ch: char)
    requires 16 <= ch as int <= 255
    ensures |EncodeChar(ch)| == 3 && EncodeChar(ch)[0] == '%'
    ensures IsUpperHexDigit(EncodeChar(ch)[1]) && IsUpperHexDigit(EncodeChar(ch)[2])
    ensures HexValue(EncodeChar(ch)[1]) * 16 + HexValue(EncodeChar(ch)[2]) == ch as int
    ensures EncodeChar(ch) == PercentOctet(ch as int)
  {
    var n := ch as int;
    assert ToHexString(n) == [LowerHexDigit(n / 16)] + [LowerHexDigit(n % 16)];
    assert ToUpper(ToHexString(n)) == [UpperHexDigit(n / 16), UpperHexDigit(n % 16)];
  }

  // ---- UTF-8 -----------------------------------------------------------------

  predicate IsScalarValue(cp: int)
  {
    0 <= cp < 0xD800 || 0xE000 <= cp <= 0x10FFFF
  }

  predicate AreOctets(bs: seq<nat>)
  {
    forall i :: 0 <= i < |bs| ==> bs[i] < 256
  }

  /** The UTF-8 encoding of a code point (shortest form), six payload bits per
      continuation octet. */
  function Utf8Octets(cp: int): (r: seq<nat>)
    requires IsScalarValue(cp)
    ensures 1 <= |r| <= 4 && AreOctets(r)
    ensures |r| == 1 <==> cp < 0x80
  {
    if cp < 0x80 then [cp]
    else if cp < 0x800 then [0xC0 + cp / 64, 0x80 + cp % 64]
    else if cp < 0x10000 then [0xE0 + cp / 64 / 64, 0x80 + cp / 64 % 64, 0x80 + cp % 64]
    else [0xF0 + cp / 64 / 64 / 64, 0x80 + cp / 64 / 64 % 64, 0x80 + cp / 64 % 64, 0x80 + cp % 64]
  }

  /** The number of leading one bits of an octet. */
  function LeadingOnes(b: nat): (n: nat)
    requires b < 256
    ensures n <= 8
  {
    if b < 0x80 then 0 else if b < 0xC0 then 1 else if b < 0xE0 then 2
    else if b < 0xF0 then 3 else if b < 0xF8 then 4 else if b < 0xFC then 5
    else if b < 0xFE then 6 else if b < 0xFF then 7 else 8
  }

  predicate IsContinuation(b: nat)
  {
    0x80 <= b < 0xC0
  }

  predicate TailContinues(bs: seq<nat>)
  {
    forall i :: 1 <= i < |bs| ==> IsContinuation(bs[i])
  }

  /** The value the payload bits of a lead octet and its continuations spell. */
  function Utf8Value(bs: seq<nat>): int
    requires 2 <= |bs| <= 4
  {
    var b0, b1 := bs[0] as int, bs[1] as int;
    if |bs| == 2 then (b0 - 0xC0) * 64 + (b1 - 0x80)
    else if |bs| == 3 then ((b0 - 0xE0) * 64 + (b1 - 0x80)) * 64 + (bs[2] as int - 0x80)
    else (((b0 - 0xF0) * 64 + (b1 - 0x80)) * 64 + (bs[2] as int - 0x80)) * 64 + (bs[3] as int - 0x80)
  }

  /** The code point an `n`-octet UTF-8 sequence encodes, or None when the
      octets are not the shortest UTF-8 encoding of one Unicode scalar value
      (a bad continuation octet, an overlong form, a surrogate, or a value
      above U+10FFFF). */
  function Utf8Decode(bs: seq<nat>): (r: Option<int>)
    requires 2 <= |bs| <= 4 && AreOctets(bs) && LeadingOnes(bs[0]) == |bs|
    ensures r.Some? ==> IsScalarValue(r.value) && r.value >= 0x80
  {
    if !TailContinues(bs) then None
    else
      var cp := Utf8Value(bs);
      if |bs| == 2 && cp < 0x80 then None
      else if |bs| == 3 && (cp < 0x800 || 0xD800 <= cp < 0xE000) then None
      else if |bs| == 4 && (cp < 0x10000 || cp > 0x10FFFF) then None
      else Some(cp)
  }

  lemma DivMod64(q: int, r: int)
    requires 0 <= r < 64
    ensures (q * 64 + r) / 64 == q && (q * 64 + r) % 64 == r
  {
  }

  /** Decoding is the inverse of encoding: whatever the decoder accepts is
      exactly the UTF-8 encoding of the code point it returns. */
  lemma Utf8DecodeIsInverse(bs: seq<nat>)
    requires 2 <= |bs| <= 4 && AreOctets(bs) && LeadingOnes(bs[0]) == |bs|
    requires Utf8Decode(bs).Some?
    ensures Utf8Octets(Utf8Decode(bs).value) == bs
  {
    var cp := Utf8Decode(bs).value;
    if |bs| == 2 {
      DivMod64(bs[0] as int - 0xC0, bs[1] as int - 0x80);
    } else if |bs| == 3 {
      var hi := (bs[0] as int - 0xE0) * 64 + (bs[1] as int - 0x80);
      DivMod64(hi, bs[2] as int - 0x80);
      DivMod64(bs[0] as int - 0xE0, bs[1] as int - 0x80);
    } else {
      var hi := (bs[0] as int - 0xF0) * 64 + (bs[1] as int - 0x80);
      var mid := hi * 64 + (bs[2] as int - 0x80);
      DivMod64(mid, bs[3] as int - 0x80);
      DivMod64(hi, bs[2] as int - 0x80);
      DivMod64(bs[0] as int - 0xF0, bs[1] as int - 0x80);
    }
  }

  /** Encoding a code point and decoding the octets gives it back; the lead
      octet announces the length of the sequence. */
  lemma Utf8RoundTrip(cp: int)
    requires IsScalarValue(cp) && cp >= 0x80
    ensures LeadingOnes(Utf8Octets(cp)[0]) == |Utf8Octets(cp)|
    ensures Utf8Decode(Utf8Octets(cp)) == Some(cp)
  {
    var bs := Utf8Octets(cp);
    var q1, r1 := cp / 64, cp % 64;
    assert cp == q1 * 64 + r1;
    if cp < 0x800 {
      assert Utf8Value(bs) == cp;
    } else if cp < 0x10000 {
      var q2, r2 := q1 / 64, q1 % 64;
      assert q1 == q2 * 64 + r2;
      assert Utf8Value(bs) == cp;
    } else {
      var q2, r2 := q1 / 64, q1 % 64;
      var q3, r3 := q2 / 64, q2 % 64;
      assert q1 == q2 * 64 + r2;
      assert q2 == q3 * 64 + r3;
      assert Utf8Value(bs) == cp;
    }
  }

  // ---- encodeURIComponent ----------------------------------------------------

  /** The characters `encodeURIComponent` leaves as they are: ASCII letters,
      digits and `- _ . ! ~ * ' ( )`. */
  predicate IsComponentUnescaped(c: char)
  {
    'A' <= c <= 'Z' || 'a' <= c <= 'z' || '0' <= c <= '9'
    || c == '-' || c == '_' || c == '.' || c == '!' || c == '~'
    || c == '*' || c == '\'' || c == '(' || c == ')'
  }

  /** The sub-delimiters that `encodeURIComponent2` escapes on top. */
  predicate IsExtraEscaped(c: char)
  {
    c == '!' || c == '\'' || c == '(' || c == ')' || c == '*'
  }

  function PercentOctets(bs: seq<nat>): (r: string)
    requires AreOctets(bs)
    ensures |r| == 3 * |bs|
  {
    if bs == [] then [] else PercentOctet(bs[0]) + PercentOctets(bs[1..])
  }

  function EncodeURIComponentChar(c: char): (r: string)
    ensures |r| >= 1
    ensures IsComponentUnescaped(c) ==> r == [c]
  {
    if IsComponentUnescaped(c) then [c] else PercentOctets(Utf8Octets(c as int))
  }

  /** `encodeURIComponent(s)`: no shorter than `s`. */
  function EncodeURIComponent(s: string): (r: string)
    ensures |r| >= |s|
  {
    if s == [] then [] else EncodeURIComponentChar(s[0]) + EncodeURIComponent(s[1..])
  }

  /** `encodeURIComponent` leaves text that needs no escape as it is. */
  lemma {:induction false} EncodeURIComponentIdentity(s: string)
    requires forall i :: 0 <= i < |s| ==> IsComponentUnescaped(s[i])
    ensures EncodeURIComponent(s) == s
    decreases |s|
  {
    if s != [] {
      EncodeURIComponentIdentity(s[1..]);
    }
  }

  /** `encodeURIComponent` writes only the characters it leaves unescaped
      and `%` (the hexadecimal digits of an escape are among the former). */
  lemma {:induction false} EncodeURIComponentAlphabet(s: string)
    ensures forall i :: 0 <= i < |EncodeURIComponent(s)| ==>
      IsComponentUnescaped(EncodeURIComponent(s)[i]) || EncodeURIComponent(s)[i] == '%'
    decreases |s|
  {
    if s != [] {
      if !IsComponentUnescaped(s[0]) {
        PercentOctetsChars(Utf8Octets(s[0] as int));
      }
      EncodeURIComponentAlphabet(s[1..]);
    }
  }

  /** What the escape of the sub-delimiters makes of one character. */
  function EscapedChar(c: char): string
  {
    if IsExtraEscaped(c) then EncodeChar(c) else [c]
  }

  /** `s.replace(/[!'()*]/g, _encode)` */
  function EscapeExtra(s: string): string
  {
    if s == [] then [] else EscapedChar(s[0]) + EscapeExtra(s[1..])
  }

  /** `encodeURIComponent2(s)` */
  function EncodeURIComponent2(s: string): string
  {
    EscapeExtra(EncodeURIComponent(s))
  }

  /** `encodeURIComponent2` leaves text made of unreserved characters only
      as it is. */
  lemma EncodeURIComponent2Identity(s: string)
    requires forall i :: 0 <= i < |s| ==> IsComponentUnescaped(s[i]) && !IsExtraEscaped(s[i])
    ensures EncodeURIComponent2(s) == s
  {
    EncodeURIComponentIdentity(s);
    EscapeExtraIdentity(s);
  }

  /** The characters `encodeURIComponent2` can produce: the unreserved
      characters of section 2.3 of RFC 3986 and `%`. */
  predicate IsEncodedChar(c: char)
  {
    'A' <= c <= 'Z' || 'a' <= c <= 'z' || '0' <= c <= '9'
    || c == '-' || c == '_' || c == '.' || c == '~' || c == '%'
  }

  predicate AllEncoded(s: string)
  {
    forall i :: 0 <= i < |s| ==> IsEncodedChar(s[i])
  }

  lemma {:induction false} EscapeExtraAppend(a: string, b: string)
    ensures EscapeExtra(a + b) == EscapeExtra(a) + EscapeExtra(b)
    decreases |a|
  {
    if a == [] {
      assert a + b == b;
    } else {
      assert (a + b)[0] == a[0] && (a + b)[1..] == a[1..] + b;
      EscapeExtraAppend(a[1..], b);
      Associate3(EscapedChar(a[0]), EscapeExtra(a[1..]), EscapeExtra(b));
    }
  }

  /** Escaping leaves a string alone that holds none of `!'()*`. */
  lemma {:induction false} EscapeExtraIdentity(s: string)
    requires forall i :: 0 <= i < |s| ==> !IsExtraEscaped(s[i])
    ensures EscapeExtra(s) == s
    decreases |s|
  {
    if s != [] {
      EscapeExtraIdentity(s[1..]);
    }
  }

  lemma {:induction false} PercentOctetsChars(bs: seq<nat>)
    requires AreOctets(bs)
    ensures forall i :: 0 <= i < |PercentOctets(bs)| ==>
      (PercentOctets(bs)[i] == '%' || IsUpperHexDigit(PercentOctets(bs)[i]))
    decreases |bs|
  {
    if bs != [] {
      PercentOctetsChars(bs[1..]);
    }
  }

  /** The encoding of one character, sub-delimiters escaped. */
  function EncodedChar(c: char): string
  {
    EscapeExtra(EncodeURIComponentChar(c))
  }

  lemma EncodedCharIsSafe(c: char)
    ensures AllEncoded(EncodedChar(c))
    ensures IsExtraEscaped(c) ==> EncodedChar(c) == PercentOctet(c as int)
    ensures !IsComponentUnescaped(c) ==> EncodedChar(c) == PercentOctets(Utf8Octets(c as int))
    ensures IsComponentUnescaped(c) && !IsExtraEscaped(c) ==> EncodedChar(c) == [c]
  {
    if IsExtraEscaped(c) {
      EncodeCharTwoDigits(c);
      assert EscapeExtra([c]) == EncodeChar(c) + EscapeExtra([]);
    } else if !IsComponentUnescaped(c) {
      var s := PercentOctets(Utf8Octets(c as int));
      PercentOctetsChars(Utf8Octets(c as int));
      EscapeExtraIdentity(s);
    } else {
      assert EscapeExtra([c]) == [c] + EscapeExtra([]);
    }
  }

  /** `encodeURIComponent2` works character by character. */
  lemma EncodeURIComponent2Cons(s: string)
    requires s != []
    ensures EncodeURIComponent2(s) == EncodedChar(s[0]) + EncodeURIComponent2(s[1..])
  {
    EscapeExtraAppend(EncodeURIComponentChar(s[0]), EncodeURIComponent(s[1..]));
  }

  /** `encodeURIComponent2` writes only unreserved characters and `%`; in
      particular no `: / ? # [ ] @`, no sub-delimiter and no line terminator. */
  lemma {:induction false} EncodeURIComponent2Safe(s: string)
    ensures AllEncoded(EncodeURIComponent2(s))
    decreases |s|
  {
    if s != [] {
      EncodeURIComponent2Cons(s);
      EncodedCharIsSafe(s[0]);
      EncodeURIComponent2Safe(s[1..]);
    }
  }

  // ---- decodeURIComponent ----------------------------------------------------

  /** The octet written `%XY` at position `i`, if one is written there. */
  function OctetAt(s: string, i: nat): (r: Option<nat>)
    requires i + 3 <= |s|
    ensures r.Some? ==> r.value < 256
  {
    if s[i] == '%' && IsHexDigit(s[i + 1]) && IsHexDigit(s[i + 2])
    then Some(HexValue(s[i + 1]) * 16 + HexValue(s[i + 2]))
    else None
  }

  /** The `n` escaped octets at the front of `s`. */
  function Octets(s: string, n: nat): (r: Option<seq<nat>>)
    requires 3 * n <= |s|
    ensures r.Some? ==> |r.value| == n && AreOctets(r.value)
    ensures r.Some? ==> forall j :: 0 <= j < n ==> OctetAt(s, 3 * j) == Some(r.value[j])
  {
    if n == 0 then Some([])
    else match Octets(s, n - 1)
      case None => None
      case Some(os) =>
        match OctetAt(s, 3 * (n - 1))
        case None => None
        case Some(b) => Some(os + [b])
  }

  /** One escape sequence at the front of `s` (which starts with `%`): the
      character it decodes to and the number of characters it spans. */
  function DecodeEscape(s: string): (r: Option<(char, nat)>)
    requires |s| > 0 && s[0] == '%'
    ensures r.Some? ==> 3 <= r.value.1 <= |s|
  {
    if |s| < 3 then None
    else match OctetAt(s, 0)
      case None => None
      case Some(b) =>
        var n := LeadingOnes(b);
        if n == 0 then Some((b as char, 3))
        else if n == 1 || n > 4 || |s| < 3 * n then None
        else match Octets(s, n)
          case None => None
          case Some(os) =>
            match Utf8Decode(os)
            case None => None
            case Some(cp) => Some((cp as char, 3 * n))
  }

  /** `decodeURIComponent(s)`; None stands for the URIError it throws on a
      malformed escape. */
  function DecodeURIComponent(s: string): (r: Option<string>)
    ensures r.Some? ==> |r.value| <= |s|
    ensures r.None? ==> exists i :: 0 <= i < |s| && s[i] == '%'
    decreases |s|
  {
    if s == [] then Some([])
    else if s[0] != '%' then
      match DecodeURIComponent(s[1..])
      case None => None
      case Some(t) => Some([s[0]] + t)
    else match DecodeEscape(s)
      case None => None
      case Some((c, len)) =>
        match DecodeURIComponent(s[len..])
        case None => None
        case Some(t) => Some([c] + t)
  }

  /** A string without `%` decodes to itself. */
  lemma {:induction false} DecodeWithoutPercent(s: string)
    requires forall i :: 0 <= i < |s| ==> s[i] != '%'
    ensures DecodeURIComponent(s) == Some(s)
    decreases |s|
  {
    if s != [] {
      DecodeWithoutPercent(s[1..]);
      assert [s[0]] + s[1..] == s;
    }
  }

  lemma OctetAtAppend(a: string, b: string, i: nat)
    requires i + 3 <= |a|
    ensures OctetAt(a + b, i) == OctetAt(a, i)
  {
  }

  lemma {:induction false} OctetsAppend(a: string, b: string, n: nat)
    requires 3 * n <= |a|
    ensures Octets(a + b, n) == Octets(a, n)
  {
    if n > 0 {
      OctetsAppend(a, b, n - 1);
      OctetAtAppend(a, b, 3 * (n - 1));
    }
  }

  lemma DecodeEscapeAppend(a: string, b: string)
    requires |a| > 0 && a[0] == '%' && DecodeEscape(a).Some?
    ensures DecodeEscape(a + b) == DecodeEscape(a)
  {
    OctetAtAppend(a, b, 0);
    var o := OctetAt(a, 0).value;
    if LeadingOnes(o) != 0 {
      OctetsAppend(a, b, LeadingOnes(o));
    }
  }

  /** `x` in front of a decoded string; a failure stays a failure. */
  function Prepend(x: string, r: Option<string>): (p: Option<string>)
    ensures p.Some? <==> r.Some?
    ensures r.Some? ==> p.value == x + r.value
  {
    match r
    case None => None
    case Some(t) => Some(x + t)
  }

  lemma PrependPrepend(x: string, y: string, r: Option<string>)
    ensures Prepend(x, Prepend(y, r)) == Prepend(x + y, r)
  {
    if r.Some? {
      assert x + (y + r.value) == x + y + r.value;
    }
  }

  /** The first step of the decoder: the character at the front of `s` and
      the number of input characters it takes (one, or a whole escape). */
  function FirstStep(s: string): (r: Option<(char, nat)>)
    requires s != []
    ensures r.Some? ==> 1 <= r.value.1 <= |s|
  {
    if s[0] != '%' then Some((s[0], 1)) else DecodeEscape(s)
  }

  lemma DecodeUnfold(s: string)
    requires s != []
    ensures FirstStep(s).None? ==> DecodeURIComponent(s).None?
    ensures FirstStep(s).Some? ==>
      DecodeURIComponent(s) == Prepend([FirstStep(s).value.0], DecodeURIComponent(s[FirstStep(s).value.1..]))
  {
  }

  lemma FirstStepAppend(a: string, b: string)
    requires a != [] && FirstStep(a).Some?
    ensures FirstStep(a + b) == FirstStep(a)
  {
    assert (a + b)[0] == a[0];
    if a[0] == '%' {
      DecodeEscapeAppend(a, b);
    }
  }

  /** A prefix that decodes on its own is decoded the same way in front of
      anything: decoding distributes over such a concatenation. */
  lemma {:induction false} DecodeAppend(a: string, b: string)
    requires DecodeURIComponent(a).Some?
    ensures DecodeURIComponent(a + b) == Prepend(DecodeURIComponent(a).value, DecodeURIComponent(b))
    decreases |a|
  {
    if a == [] {
      DecodeAppendEmpty(a, b);
    } else {
      DecodeUnfold(a);
      var len := FirstStep(a).value.1;
      DecodeAppend(a[len..], b);
      DecodeAppendStep(a, b);
    }
  }

  lemma DecodeAppendEmpty(a: string, b: string)
    requires a == []
    ensures DecodeURIComponent(a) == Some([])
    ensures DecodeURIComponent(a + b) == Prepend([], DecodeURIComponent(b))
  {
    assert a + b == b;
    if DecodeURIComponent(b).Some? {
      assert [] + DecodeURIComponent(b).value == DecodeURIComponent(b).value;
    }
  }

  /** The step of `DecodeAppend`: the first character of `a` is decoded in
      front of `b` as it is alone. */
  lemma DecodeAppendStep(a: string, b: string)
    requires a != [] && DecodeURIComponent(a).Some?
    requires FirstStep(a).Some?
    requires DecodeURIComponent(a[FirstStep(a).value.1..]).Some?
    requires DecodeURIComponent(a[FirstStep(a).value.1..] + b)
             == Prepend(DecodeURIComponent(a[FirstStep(a).value.1..]).value, DecodeURIComponent(b))
    ensures DecodeURIComponent(a + b) == Prepend(DecodeURIComponent(a).value, DecodeURIComponent(b))
  {
    DecodeUnfold(a);
    var (c, len) := FirstStep(a).value;
    FirstStepAppend(a, b);
    DecodeUnfold(a + b);
    DropAppend(a, b, len);
    PrependPrepend([c], DecodeURIComponent(a[len..]).value, DecodeURIComponent(b));
  }


  lemma OctetAtSlice(s: string, i: nat)
    requires i + 3 <= |s|
    ensures OctetAt(s, i) == OctetAt(s[i..i + 3], 0)
  {
  }

  lemma OctetAtPercentOctet(b: nat)
    requires b < 256
    ensures OctetAt(PercentOctet(b), 0) == Some(b)
  {
  }

  lemma {:induction false} PercentOctetsAt(bs: seq<nat>, j: nat)
    requires AreOctets(bs) && j < |bs|
    ensures PercentOctets(bs)[3 * j..3 * j + 3] == PercentOctet(bs[j])
    ensures OctetAt(PercentOctets(bs), 3 * j) == Some(bs[j])
    decreases j
  {
    if j > 0 {
      PercentOctetsAt(bs[1..], j - 1);
      assert PercentOctets(bs) == PercentOctet(bs[0]) + PercentOctets(bs[1..]);
    }
    OctetAtSlice(PercentOctets(bs), 3 * j);
    OctetAtPercentOctet(bs[j]);
  }

  lemma {:induction false} OctetsPrefix(s: string, bs: seq<nat>, n: nat)
    requires n <= |bs| && 3 * |bs| <= |s| && AreOctets(bs)
    requires forall j :: 0 <= j < |bs| ==> OctetAt(s, 3 * j) == Some(bs[j])
    ensures Octets(s, n) == Some(bs[..n])
  {
    if n > 0 {
      OctetsPrefix(s, bs, n - 1);
      assert bs[..n] == bs[..n - 1] + [bs[n - 1]];
    }
  }

  lemma OctetsOfPercent(bs: seq<nat>)
    requires AreOctets(bs)
    ensures Octets(PercentOctets(bs), |bs|) == Some(bs)
  {
    forall j | 0 <= j < |bs|
      ensures OctetAt(PercentOctets(bs), 3 * j) == Some(bs[j])
    {
      PercentOctetsAt(bs, j);
    }
    OctetsPrefix(PercentOctets(bs), bs, |bs|);
    assert bs[..|bs|] == bs;
  }

  /** The escapes of the UTF-8 octets of a character decode to it. */
  lemma DecodeEscapeOfOctets(c: char)
    ensures DecodeEscape(PercentOctets(Utf8Octets(c as int))) == Some((c, 3 * |Utf8Octets(c as int)|))
  {
    var bs := Utf8Octets(c as int);
    var e := PercentOctets(bs);
    PercentOctetsAt(bs, 0);
    if c as int >= 0x80 {
      Utf8RoundTrip(c as int);
      OctetsOfPercent(bs);
    }
  }

  lemma DecodeWholeEscape(e: string, c: char)
    requires |e| > 0 && e[0] == '%' && DecodeEscape(e) == Some((c, |e|))
    ensures DecodeURIComponent(e) == Some([c])
  {
    assert e[|e|..] == [];
    assert [c] + [] == [c];
  }

  /** Each character's encoding decodes to that character. */
  lemma DecodeEncodedChar(c: char)
    ensures DecodeURIComponent(EncodedChar(c)) == Some([c])
  {
    EncodedCharIsSafe(c);
    var e := EncodedChar(c);
    if IsExtraEscaped(c) {
      OctetAtPercentOctet(c as int);
      assert e == PercentOctet(c as int);
      assert DecodeEscape(e) == Some((c, 3));
      DecodeWholeEscape(e, c);
    } else if !IsComponentUnescaped(c) {
      var bs := Utf8Octets(c as int);
      assert e == PercentOctets(bs);
      DecodeEscapeOfOctets(c);
      PercentOctetsAt(bs, 0);
      assert e[0] == '%';
      DecodeWholeEscape(e, c);
    } else {
      assert e == [c] && e[1..] == [];
      assert DecodeURIComponent(e) == Some([c] + []);
      assert [c] + [] == [c];
    }
  }

  /** `decodeURIComponent(encodeURIComponent2(s)) == s` for every string. */
  lemma {:induction false} DecodeEncode(s: string)
    ensures DecodeURIComponent(EncodeURIComponent2(s)) == Some(s)
    decreases |s|
  {
    if s == [] {
      assert EncodeURIComponent2(s) == [];
    } else {
      EncodeURIComponent2Cons(s);
      DecodeEncodedChar(s[0]);
      DecodeEncode(s[1..]);
      DecodeAppend(EncodedChar(s[0]), EncodeURIComponent2(s[1..]));
      assert [s[0]] + s[1..] == s;
    }
  }
}

/** Cleaning of a course identifier before it is put into an instructor API URL
    (main.py, sanitize_course_id): whitespace is dropped, two common typos are
    corrected and the result is percent-encoded, keeping `:`, `/` and `+`. */
module Sanitizer {
  import opened Text

  newtype byte = x: int | 0 <= x < 256

  /** Python's `str.isspace()`: the characters `str.split()` splits on. */
  predicate IsSpace(c: char) {
    || '\t' <= c <= '\r'
    || '\U{1C}' <= c <= '\U{1F}'
    || c == ' ' || c == '\U{85}' || c == '\U{A0}' || c == '\U{1680}'
    || '\U{2000}' <= c <= '\U{200A}'
    || c == '\U{2028}' || c == '\U{2029}' || c == '\U{202F}' || c == '\U{205F}' || c == '\U{3000}'
  }

  /** `''.join(s.split())`: every whitespace character removed, the rest kept in order. */
  function RemoveSpaces(s: string): (r: string)
    ensures |r| <= |s|
    ensures forall k :: 0 <= k < |r| ==> !IsSpace(r[k])
    ensures (forall k :: 0 <= k < |s| ==> !IsSpace(s[k])) ==> r == s
    decreases |s|
  {
    if s == [] then []
    else if IsSpace(s[0]) then RemoveSpaces(s[1..])
    else [s[0]] + RemoveSpaces(s[1..])
  }

  /** A single character is dropped exactly when it is whitespace. */
  lemma RemoveSpacesChar(c: char)
    ensures RemoveSpaces([c]) == if IsSpace(c) then [] else [c]
  {
  }

  /** Removal works piecewise: together with `RemoveSpacesChar` this pins the
      result to the non-whitespace characters of `s`, in their order. */
  lemma {:induction false} RemoveSpacesAppend(a: string, b: string)
    ensures RemoveSpaces(a + b) == RemoveSpaces(a) + RemoveSpaces(b)
    decreases |a|
  {
    if a != [] {
      assert (a + b)[0] == a[0];
      assert (a + b)[1..] == a[1..] + b;
      RemoveSpacesAppend(a[1..], b);
      if !IsSpace(a[0]) {
        assert RemoveSpaces(a + b) == [a[0]] + (RemoveSpaces(a[1..]) + RemoveSpaces(b));
      }
    } else {
      assert a + b == b;
    }
  }

  /** Characters `urllib.parse.quote(s, safe=':/+')` leaves alone: ASCII
      letters and digits, `_.-~`, and the three given as safe. */
  predicate IsSafe(c: char) {
    || 'A' <= c <= 'Z' || 'a' <= c <= 'z' || '0' <= c <= '9'
    || c == '_' || c == '.' || c == '-' || c == '~'
    || c == ':' || c == '/' || c == '+'
  }

  /** UTF-8 encoding of one code point. */
  function Utf8(c: char): (bs: seq<byte>)
    ensures 1 <= |bs| <= 4
    ensures c as int < 0x80 ==> bs == [c as int as byte]
  {
    var n := c as int;
    if n < 0x80 then [n as byte]
    else if n < 0x800 then [(0xC0 + n / 64) as byte, (0x80 + n % 64) as byte]
    else if n < 0x10000 then
      [(0xE0 + n / 4096) as byte, (0x80 + (n / 64) % 64) as byte, (0x80 + n % 64) as byte]
    else
      [(0xF0 + n / 262144) as byte, (0x80 + (n / 4096) % 64) as byte,
       (0x80 + (n / 64) % 64) as byte, (0x80 + n % 64) as byte]
  }

  function Utf8Encode(s: string): (bs: seq<byte>)
    ensures |bs| >= |s|
    decreases |s|
  {
    if s == [] then [] else Utf8(s[0]) + Utf8Encode(s[1..])
  }

  /** Upper-case hexadecimal digit of a value below 16. */
  function HexDigit(d: int): (c: char)
    requires 0 <= d < 16
    ensures IsHexDigit(c) && HexValue(c) == d
  {
    if d < 10 then ('0' as int + d) as char else ('A' as int + d - 10) as char
  }

  predicate IsHexDigit(c: char) {
    '0' <= c <= '9' || 'A' <= c <= 'F' || 'a' <= c <= 'f'
  }

  function HexValue(c: char): (v: int)
    requires IsHexDigit(c)
    ensures 0 <= v < 16
  {
    if '0' <= c <= '9' then c as int - '0' as int
    else if 'A' <= c <= 'F' then c as int - 'A' as int + 10
    else c as int - 'a' as int + 10
  }

  /** `%XX` for each byte, upper-case hexadecimal. */
  function PercentBytes(bs: seq<byte>): (r: string)
    ensures |r| == 3 * |bs|
    decreases |bs|
  {
    if bs == [] then []
    else
      var b := bs[0] as int;
      ['%', HexDigit(b / 16), HexDigit(b % 16)] + PercentBytes(bs[1..])
  }

  /** The encoding of bytes is made of `%` and hexadecimal digits. */
  lemma {:induction false} PercentBytesAlphabet(bs: seq<byte>)
    ensures forall k :: 0 <= k < |PercentBytes(bs)| ==> PercentBytes(bs)[k] == '%' || IsHexDigit(PercentBytes(bs)[k])
    decreases |bs|
  {
    if bs != [] {
      PercentBytesAlphabet(bs[1..]);
      var r, t := PercentBytes(bs), PercentBytes(bs[1..]);
      assert forall k :: 3 <= k < |r| ==> r[k] == t[k - 3];
    }
  }

  function QuoteChar(c: char): (r: string)
    ensures forall k :: 0 <= k < |r| ==> IsSafe(r[k]) || r[k] == '%'
  {
    if IsSafe(c) then [c]
    else
      PercentBytesAlphabet(Utf8(c));
      PercentBytes(Utf8(c))
  }

  /** `urllib.parse.quote(s, safe=':/+')`. */
  function Quote(s: string): (r: string)
    ensures forall k :: 0 <= k < |r| ==> IsSafe(r[k]) || r[k] == '%'
    ensures (forall k :: 0 <= k < |s| ==> IsSafe(s[k])) ==> r == s
    decreases |s|
  {
    if s == [] then [] else QuoteChar(s[0]) + Quote(s[1..])
  }

  /** `urllib.parse.unquote_to_bytes`: the inverse the server applies. */
  function PercentDecode(s: string): seq<byte>
    decreases |s|
  {
    if s == [] then []
    else if s[0] == '%' && |s| >= 3 && IsHexDigit(s[1]) && IsHexDigit(s[2]) then
      [(HexValue(s[1]) * 16 + HexValue(s[2])) as byte] + PercentDecode(s[3..])
    else Utf8(s[0]) + PercentDecode(s[1..])
  }

  /** The whitespace-free, typo-corrected identifier before encoding. */
  function Cleaned(id: string): string {
    ReplaceAll(ReplaceAll(RemoveSpaces(id), "::", ":"), "coursev1", "course-v1")
  }

  /** `sanitize_course_id`: an empty identifier is returned as it is. */
  function SanitizeCourseId(id: string): string {
    if id == "" then id else Quote(Cleaned(id))
  }

  /** The sanitized identifier holds only URL-safe characters and `%`: in
      particular no whitespace survives. */
  lemma SanitizedAlphabet(id: string)
    ensures forall k :: 0 <= k < |SanitizeCourseId(id)| ==>
      var c := SanitizeCourseId(id)[k]; (IsSafe(c) || c == '%') && !IsSpace(c)
  {
  }

  lemma {:induction false} DecodePercentBytes(bs: seq<byte>, rest: string)
    ensures PercentDecode(PercentBytes(bs) + rest) == bs + PercentDecode(rest)
    decreases |bs|
  {
    if bs != [] {
      var tail := bs[1..];
      DecodePercentBytes(tail, rest);
      DecodeFirstByte(bs, rest);
      assert bs == [bs[0]] + tail;
    } else {
      assert PercentBytes(bs) + rest == rest;
    }
  }

  lemma DecodeFirstByte(bs: seq<byte>, rest: string)
    requires bs != []
    ensures PercentDecode(PercentBytes(bs) + rest) == [bs[0]] + PercentDecode(PercentBytes(bs[1..]) + rest)
  {
    var b := bs[0] as int;
    var t := PercentBytes(bs[1..]) + rest;
    assert PercentBytes(bs) + rest == ['%', HexDigit(b / 16), HexDigit(b % 16)] + t;
    DecodeTriple(bs[0], t);
  }

  /** One `%XX` decodes to its byte. */
  lemma DecodeTriple(b: byte, t: string)
    ensures PercentDecode(['%', HexDigit(b as int / 16), HexDigit(b as int % 16)] + t) == [b] + PercentDecode(t)
  {
    var s := ['%', HexDigit(b as int / 16), HexDigit(b as int % 16)] + t;
    assert s[3..] == t;
    assert (HexValue(s[1]) * 16 + HexValue(s[2])) as byte == b;
  }

  lemma {:induction false} DecodeQuoteChar(c: char, rest: string)
    ensures PercentDecode(QuoteChar(c) + rest) == Utf8(c) + PercentDecode(rest)
  {
    if IsSafe(c) {
      assert ([c] + rest)[1..] == rest;
    } else {
      DecodePercentBytes(Utf8(c), rest);
    }
  }

  /** Percent-decoding undoes the encoding: the server sees the UTF-8 bytes of
      the cleaned identifier. */
  lemma {:induction false} DecodeQuote(s: string)
    ensures PercentDecode(Quote(s)) == Utf8Encode(s)
    decreases |s|
  {
    if s != [] {
      DecodeQuoteChar(s[0], Quote(s[1..]));
      DecodeQuote(s[1..]);
    }
  }

  lemma SanitizeRoundTrip(id: string)
    requires id != ""
    ensures PercentDecode(SanitizeCourseId(id)) == Utf8Encode(Cleaned(id))
  {
    DecodeQuote(Cleaned(id));
  }

  /** An identifier of safe characters with neither typo in it is left unchanged. */
  lemma SanitizeKeepsCleanId(id: string)
    requires forall k :: 0 <= k < |id| ==> IsSafe(id[k])
    requires !Occurs("::", id) && !Occurs("coursev1", id)
    ensures SanitizeCourseId(id) == id
  {
    if id != "" {
      assert forall k :: 0 <= k < |id| ==> !IsSpace(id[k]);
      ReplaceAbsent(id, "::", ":");
      ReplaceAbsent(id, "coursev1", "course-v1");
    }
  }

  /** The `coursev1` correction leaves no `coursev1` behind. */
  lemma {:induction false} NoTypoAfterCorrection(s: string)
    ensures !Occurs("coursev1", ReplaceAll(s, "coursev1", "course-v1"))
    decreases |s|
  {
    var pat, rep := "coursev1", "course-v1";
    var o := ReplaceAll(s, pat, rep);
    if s != [] {
      var s' := if IsPrefix(pat, s) then s[|pat|..] else s[1..];
      var o' := ReplaceAll(s', pat, rep);
      NoTypoAfterCorrection(s');
      var head := if IsPrefix(pat, s) then rep else [s[0]];
      assert o == head + o';
      if IsPrefix(pat, s) {
        CorrectionHasNoTypo(o');
      }
      forall i | OccursAt(o, i, pat) ensures false {
        if i >= |head| {
          assert o[i..] == o'[i - |head|..];
          assert OccursAt(o', i - |head|, pat);
        } else if !IsPrefix(pat, s) {
          assert i == 0;
          TypoAtHead(s);
        }
      }
    }
  }

  /** No `coursev1` starts inside an inserted `course-v1`. */
  lemma CorrectionHasNoTypo(rest: string)
    ensures forall i :: 0 <= i < 9 ==> !OccursAt("course-v1" + rest, i, "coursev1")
  {
    var o := "course-v1" + rest;
    forall i | 0 <= i < 9 ensures !OccursAt(o, i, "coursev1") {
      if i == 0 {
        assert o[6] == '-';
      } else {
        assert o[i] != 'c';
      }
    }
  }

  /** A `coursev1` at the head of the output can only come from one at the head
      of the input that was not replaced. */
  lemma TypoAtHead(s: string)
    requires s != [] && IsPrefix("coursev1", [s[0]] + ReplaceAll(s[1..], "coursev1", "course-v1"))
    ensures IsPrefix("coursev1", s)
  {
    var pat, rep := "coursev1", "course-v1";
    var o := [s[0]] + ReplaceAll(s[1..], pat, rep);
    assert IsPrefix("oursev1", ReplaceAll(s[1..], pat, rep)) by {
      assert ReplaceAll(s[1..], pat, rep)[..7] == o[1..8];
    }
    ReplacePreservesPlainPrefix(s[1..], pat, rep, "oursev1");
    assert s[..8] == [s[0]] + s[1..][..7];
  }

  /** So a sanitized identifier never holds the typo. */
  lemma SanitizedHasNoTypo(id: string)
    requires id != ""
    ensures !Occurs("coursev1", Cleaned(id))
  {
    NoTypoAfterCorrection(ReplaceAll(RemoveSpaces(id), "::", ":"));
  }

  /** One pass of the `::` correction does not reach a fixed point: `:::` turns
      into `::`. */
  lemma TripleColonExample()
    ensures ReplaceAll(":::", "::", ":") == "::"
  {
    assert IsPrefix("::", ":::");
    assert ":::"[2..] == ":";
    assert !IsPrefix("::", ":");
    assert ":"[1..] == "";
  }
}

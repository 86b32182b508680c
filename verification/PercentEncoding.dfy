/** Percent-encoding of one path segment (sections 2.1 and 3.3 of RFC 3986).
    Strings are byte strings: every character is below 256. */
module PercentEncoding {
  import opened Text

  predicate IsBytes(s: string) {
    forall i :: 0 <= i < |s| ==> s[i] as int < 256
  }

  /** Characters a path segment may hold unescaped. */
  predicate Unescaped(c: char) {
    'a' <= c <= 'z' || 'A' <= c <= 'Z' || '0' <= c <= '9' ||
    c in {'-', '_', '.', '~', '$', '&', '+', ':', '=', '@'}
  }

  function HexDigit(n: nat): char
    requires n < 16
  {
    if n < 10 then '0' + n as char else 'A' + (n - 10) as char
  }

  function HexValue(c: char): Option<nat> {
    if '0' <= c <= '9' then Some((c - '0') as nat)
    else if 'A' <= c <= 'F' then Some((c - 'A') as nat + 10)
    else if 'a' <= c <= 'f' then Some((c - 'a') as nat + 10)
    else None
  }

  function EscapeChar(c: char): string {
    if Unescaped(c) then [c] else ['%', HexDigit((c as int / 16) % 16), HexDigit(c as int % 16)]
  }

  function Escape(s: string): string {
    if s == "" then "" else EscapeChar(s[0]) + Escape(s[1..])
  }

  /** Decoding fails on a "%" that two hexadecimal digits do not follow. */
  function Unescape(s: string): Option<string> {
    if s == "" then Some("")
    else if s[0] != '%' then
      match Unescape(s[1..])
      case None => None
      case Some(rest) => Some([s[0]] + rest)
    else if |s| < 3 then None
    else
      match (HexValue(s[1]), HexValue(s[2]), Unescape(s[3..]))
      case (Some(hi), Some(lo), Some(rest)) => Some([(hi * 16 + lo) as char] + rest)
      case _ => None
  }

  lemma HexRoundTrip(n: nat)
    requires n < 16
    ensures HexValue(HexDigit(n)) == Some(n)
  {
  }

  lemma UnescapeChar(c: char, s: string)
    requires c as int < 256
    ensures Unescape(EscapeChar(c) + s) == match Unescape(s) case None => None case Some(rest) => Some([c] + rest)
  {
    var e := EscapeChar(c) + s;
    if Unescaped(c) {
      assert e[1..] == s;
    } else {
      var hi, lo := (c as int / 16) % 16, c as int % 16;
      HexRoundTrip(hi);
      HexRoundTrip(lo);
      assert hi * 16 + lo == c as int;
      assert e[3..] == s && e[0] == '%' && e[1] == HexDigit(hi) && e[2] == HexDigit(lo);
    }
  }

  /** Decoding undoes encoding. */
  lemma {:induction false} UnescapeEscape(s: string)
    requires IsBytes(s)
    ensures Unescape(Escape(s)) == Some(s)
  {
    if s != "" {
      UnescapeEscape(s[1..]);
      UnescapeChar(s[0], Escape(s[1..]));
      assert [s[0]] + s[1..] == s;
    }
  }

  predicate SegmentChar(c: char) {
    Unescaped(c) || c == '%'
  }

  lemma HexDigitSegment(n: nat)
    requires n < 16
    ensures Unescaped(HexDigit(n))
  {
  }

  lemma {:induction false} EscapeSegment(s: string)
    ensures forall i :: 0 <= i < |Escape(s)| ==> SegmentChar(Escape(s)[i])
    ensures |Escape(s)| >= |s|
  {
    if s != "" {
      EscapeSegment(s[1..]);
      HexDigitSegment((s[0] as int / 16) % 16);
      HexDigitSegment(s[0] as int % 16);
      assert forall i :: 0 <= i < |EscapeChar(s[0])| ==> SegmentChar(EscapeChar(s[0])[i]);
    }
  }

  /** The encoded form is an ordinary segment, except for "", "." and "..". */
  lemma EscapeDots(s: string)
    ensures Escape(s) == "" <==> s == ""
    ensures Escape(s) == "." <==> s == "."
    ensures Escape(s) == ".." <==> s == ".."
    ensures '/' !in Escape(s)
    ensures forall c :: c in SPACES ==> c !in Escape(s)
  {
    EscapeSegment(s);
    if s == "." || Escape(s) == "." {
      assert s[1..] == "";
      assert Escape(s[1..]) == "";
      assert Escape(s) == EscapeChar(s[0]);
    }
    if s == ".." || Escape(s) == ".." {
      EscapeTwo(s);
    }
    forall c | c in Escape(s) ensures SegmentChar(c) {
      var i :| 0 <= i < |Escape(s)| && Escape(s)[i] == c;
    }
    assert forall c :: c in SPACES ==> !SegmentChar(c);
    assert !SegmentChar('/');
  }

  lemma EscapeTwo(s: string)
    requires s == ".." || Escape(s) == ".."
    ensures s == ".." && Escape(s) == ".."
  {
    EscapeSegment(s);
    EscapeSegment(s[1..]);
    assert Escape(s) == EscapeChar(s[0]) + Escape(s[1..]);
    assert s[0] == '.' by {
      assert Escape(s)[0] == EscapeChar(s[0])[0];
    }
    assert Escape(s[1..]) == Escape(s)[1..];
    assert s == ['.'] + s[1..];
    assert |s| == 2 ==> s[1..] == [s[1]] && s[1..][1..] == "" && Escape(s[1..]) == EscapeChar(s[1]) + Escape("");
  }
}

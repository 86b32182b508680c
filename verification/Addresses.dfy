/** Agent addresses: host and port, bracketed or not, bare hosts, and URLs. */
module Addresses {
  import opened Text

  const LOCALHOST := "localhost"

  /** First position of c, or |s|. */
  function IndexOf(s: string, c: char): (i: nat)
    ensures i <= |s| && (i < |s| ==> s[i] == c) && forall j :: 0 <= j < i ==> s[j] != c
  {
    if s == "" || s[0] == c then 0 else 1 + IndexOf(s[1..], c)
  }

  /** Last position of c, or -1. */
  function LastIndexOf(s: string, c: char): (i: int)
    ensures -1 <= i < |s| && (i >= 0 ==> s[i] == c) && forall j :: i < j < |s| ==> s[j] != c
  {
    if s == "" then -1 else if s[|s| - 1] == c then |s| - 1 else LastIndexOf(s[..|s| - 1], c)
  }

  datatype HostPort = HostPort(host: string, port: string)

  function SplitHostPort(s: string): Option<HostPort> {
    var i := LastIndexOf(s, ':');
    if i < 0 then None
    else if s[0] == '[' then
      var end := IndexOf(s, ']');
      if end == |s| || end + 1 != i || '[' in s[1..] || ']' in s[end + 1..] then None
      else Some(HostPort(s[1..end], s[i + 1..]))
    else if ':' in s[..i] || '[' in s || ']' in s then None
    else Some(HostPort(s[..i], s[i + 1..]))
  }

  function JoinHostPort(host: string, port: string): string {
    if ':' in host then "[" + host + "]:" + port else host + ":" + port
  }

  /** A parsed URL: its host name, and the URL with the host in lower case. */
  datatype UrlView = UrlView(hostname: string, lowered: string)

  predicate SchemeAt(s: string, i: int) {
    0 <= i && i + 3 <= |s| && s[i] == ':' && s[i + 1] == '/' && s[i + 2] == '/'
  }

  /** The string contains "://". */
  predicate HasScheme(s: string) {
    exists i :: 0 <= i < |s| && SchemeAt(s, i)
  }

  function UrlHost(url: string -> Option<UrlView>, s: string): Option<UrlView> {
    if HasScheme(s) && url(s).Some? && url(s).value.hostname != "" then url(s) else None
  }

  /** The normal form of an address that is not a URL. */
  function PlainNormal(t: string): string {
    match SplitHostPort(t)
    case Some(hp) => if hp.host == "" then t else JoinHostPort(Lower(hp.host), hp.port)
    case None => Lower(t)
  }

  /** The host of an address that is not a URL. */
  function PlainHost(t: string): string {
    if HasPrefix(t, ":") then LOCALHOST
    else
      match SplitHostPort(t)
      case Some(hp) => if hp.host == "" then LOCALHOST else Lower(hp.host)
      case None => Lower(t)
  }

  function NormalizeTarget(url: string -> Option<UrlView>, target: string): Option<string> {
    var t := TrimSpace(target);
    if t == "" then None
    else if UrlHost(url, t).Some? then Some(UrlHost(url, t).value.lowered)
    else Some(PlainNormal(t))
  }

  function Hostname(url: string -> Option<UrlView>, target: string): string {
    var t := TrimSpace(target);
    if t == "" then ""
    else if HasPrefix(t, ":") then LOCALHOST
    else if UrlHost(url, t).Some? then Lower(UrlHost(url, t).value.hostname)
    else PlainHost(t)
  }

  function LookupName(url: string -> Option<UrlView>, hostname: string): string {
    if TrimSpace(hostname) == "" then LOCALHOST else Hostname(url, hostname)
  }

  // ----- splitting and joining -----

  lemma SliceChars(s: string, a: nat, b: nat, c: char)
    requires a <= b <= |s| && c !in s
    ensures c !in s[a..b]
  {
  }

  lemma SplitBracketed(s: string)
    requires SplitHostPort(s).Some? && s[0] == '['
    ensures var HostPort(h, p) := SplitHostPort(s).value;
            s == "[" + h + "]:" + p && ':' !in p && '[' !in p && ']' !in p && '[' !in h && ']' !in h
  {
    hide LastIndexOf, IndexOf;
    var i, end := LastIndexOf(s, ':'), IndexOf(s, ']');
    var h, p := s[1..end], s[i + 1..];
    assert s == [s[0]] + h + [s[end]] + [s[i]] + p;
    SliceChars(s[1..], i, |s| - 1, '[');
    SliceChars(s[end + 1..], 1, |s| - end - 1, ']');
    SliceChars(s[1..], 0, end - 1, '[');
    assert s[1..][i..|s| - 1] == p && s[end + 1..][1..|s| - end - 1] == p && s[1..][0..end - 1] == h;
    assert ':' !in p && ']' !in h;
  }

  lemma SplitUnbracketed(s: string)
    requires SplitHostPort(s).Some? && s[0] != '['
    ensures var HostPort(h, p) := SplitHostPort(s).value;
            s == h + ":" + p && ':' !in h && ':' !in p && '[' !in p && ']' !in p && '[' !in h && ']' !in h
  {
    var i := LastIndexOf(s, ':');
    var h, p := s[..i], s[i + 1..];
    assert s == h + [s[i]] + p;
    assert forall k :: 0 <= k < |p| ==> p[k] == s[i + 1 + k];
    assert forall k :: 0 <= k < |h| ==> h[k] == s[k];
  }

  lemma SplitFacts(s: string)
    requires SplitHostPort(s).Some?
    ensures var HostPort(h, p) := SplitHostPort(s).value;
            && ':' !in p && '[' !in p && ']' !in p && '[' !in h && ']' !in h
            && (s == "[" + h + "]:" + p || (s == h + ":" + p && ':' !in h))
  {
    if s[0] == '[' {
      SplitBracketed(s);
    } else {
      SplitUnbracketed(s);
    }
  }

  lemma IndexAt(s: string, c: char, i: nat)
    requires i < |s| && s[i] == c && forall j :: 0 <= j < i ==> s[j] != c
    ensures IndexOf(s, c) == i
  {
  }

  lemma LastIndexAt(s: string, c: char, i: nat)
    requires i < |s| && s[i] == c && forall j :: i < j < |s| ==> s[j] != c
    ensures LastIndexOf(s, c) == i
  {
  }

  lemma BracketedIndexes(h: string, p: string)
    requires ':' !in p && ']' !in h
    ensures var s := "[" + h + "]:" + p; LastIndexOf(s, ':') == |h| + 2 && IndexOf(s, ']') == |h| + 1
  {
    var s, n := "[" + h + "]:" + p, |h|;
    assert s[n + 1] == ']' && s[n + 2] == ':';
    assert forall j :: n + 2 < j < |s| ==> s[j] == p[j - n - 3];
    LastIndexAt(s, ':', n + 2);
    assert s[0] == '[' && forall j :: 1 <= j < n + 1 ==> s[j] == h[j - 1];
    IndexAt(s, ']', n + 1);
  }

  lemma JoinBracketed(h: string, p: string)
    requires ':' !in p && '[' !in p && ']' !in p && '[' !in h && ']' !in h
    ensures SplitHostPort("[" + h + "]:" + p) == Some(HostPort(h, p))
  {
    hide LastIndexOf, IndexOf;
    BracketedIndexes(h, p);
    var s, n := "[" + h + "]:" + p, |h|;
    assert s[0] == '[' && s[1..n + 1] == h && s[n + 3..] == p;
    assert s[1..] == h + "]:" + p && s[n + 2..] == ":" + p;
    assert '[' !in s[1..] && ']' !in s[n + 2..];
  }

  lemma JoinUnbracketed(h: string, p: string)
    requires ':' !in p && '[' !in p && ']' !in p && ':' !in h && '[' !in h && ']' !in h
    ensures SplitHostPort(h + ":" + p) == Some(HostPort(h, p))
  {
    var s, n := h + ":" + p, |h|;
    assert s[n] == ':' && s[..n] == h && s[n + 1..] == p;
    assert forall j :: n < j < |s| ==> s[j] == p[j - n - 1];
    LastIndexAt(s, ':', n);
  }

  /** Splitting undoes joining. */
  lemma SplitJoinHost(h: string, p: string)
    requires ':' !in p && '[' !in p && ']' !in p && '[' !in h && ']' !in h
    ensures SplitHostPort(JoinHostPort(h, p)) == Some(HostPort(h, p))
  {
    if ':' in h {
      JoinBracketed(h, p);
    } else {
      JoinUnbracketed(h, p);
    }
  }

  lemma LowerIn(s: string, c: char)
    requires LowerChar(c) == c && !('a' <= c <= 'z')
    ensures c in Lower(s) <==> c in s
  {
    if c in s {
      var i :| 0 <= i < |s| && s[i] == c;
      assert Lower(s)[i] == c;
    }
    if c in Lower(s) {
      var i :| 0 <= i < |s| && Lower(s)[i] == c;
      assert s[i] == c;
    }
  }

  lemma LowerMarks(s: string)
    ensures ':' in Lower(s) <==> ':' in s
    ensures '[' in Lower(s) <==> '[' in s
    ensures ']' in Lower(s) <==> ']' in s
  {
    LowerIn(s, ':');
    LowerIn(s, '[');
    LowerIn(s, ']');
  }

  lemma LowerIndexes(s: string)
    ensures LastIndexOf(Lower(s), ':') == LastIndexOf(s, ':') && IndexOf(Lower(s), ']') == IndexOf(s, ']')
  {
    var t, i, e := Lower(s), LastIndexOf(s, ':'), IndexOf(s, ']');
    assert forall j :: 0 <= j < |s| ==> (t[j] == ':' <==> s[j] == ':') && (t[j] == ']' <==> s[j] == ']');
    if i >= 0 {
      LastIndexAt(t, ':', i);
    }
    if e < |s| {
      IndexAt(t, ']', e);
    }
  }

  /** Lower case changes no mark in any part of a text. */
  lemma LowerPart(s: string, a: nat, b: nat)
    requires a <= b <= |s|
    ensures Lower(s)[a..b] == Lower(s[a..b])
    ensures ':' in Lower(s)[a..b] <==> ':' in s[a..b]
    ensures '[' in Lower(s)[a..b] <==> '[' in s[a..b]
    ensures ']' in Lower(s)[a..b] <==> ']' in s[a..b]
  {
    LowerSlice(s, a, b);
    LowerMarks(s[a..b]);
  }

  /** The ends of a text, as parts of it. */
  lemma Ends(s: string, n: nat)
    requires n <= |s|
    ensures s[n..] == s[n..|s|] && s[..n] == s[0..n]
  {
  }

  lemma SplitLowerBracketed(s: string)
    requires s != "" && s[0] == '['
    ensures SplitHostPort(Lower(s)) ==
              match SplitHostPort(s) case None => None case Some(hp) => Some(HostPort(Lower(hp.host), Lower(hp.port)))
  {
    hide LastIndexOf, IndexOf;
    LowerIndexes(s);
    var t, i, end := Lower(s), LastIndexOf(s, ':'), IndexOf(s, ']');
    assert t[0] == '[';
    Ends(s, 1);
    Ends(t, 1);
    LowerPart(s, 1, |s|);
    if 1 <= end < |s| {
      Ends(s, end + 1);
      Ends(t, end + 1);
      LowerPart(s, end + 1, |s|);
      LowerPart(s, 1, end);
    }
    if i >= 0 {
      Ends(s, i + 1);
      Ends(t, i + 1);
      LowerPart(s, i + 1, |s|);
    }
    hide Lower;
  }

  lemma SplitLowerPlain(s: string)
    requires s == "" || s[0] != '['
    ensures SplitHostPort(Lower(s)) ==
              match SplitHostPort(s) case None => None case Some(hp) => Some(HostPort(Lower(hp.host), Lower(hp.port)))
  {
    hide LastIndexOf, IndexOf;
    LowerIndexes(s);
    LowerMarks(s);
    var t, i := Lower(s), LastIndexOf(s, ':');
    assert s != "" ==> t[0] != '[';
    if i >= 0 {
      Ends(s, i);
      Ends(t, i);
      Ends(s, i + 1);
      Ends(t, i + 1);
      LowerPart(s, i + 1, |s|);
      LowerPart(s, 0, i);
    }
    hide Lower;
  }

  /** Case does not change where an address splits. */
  lemma SplitLower(s: string)
    ensures SplitHostPort(Lower(s)) ==
              match SplitHostPort(s) case None => None case Some(hp) => Some(HostPort(Lower(hp.host), Lower(hp.port)))
  {
    hide SplitHostPort, Lower;
    if s != "" && s[0] == '[' {
      SplitLowerBracketed(s);
    } else {
      SplitLowerPlain(s);
    }
  }

  lemma LowerSlice(s: string, a: nat, b: nat)
    requires a <= b <= |s|
    ensures Lower(s)[a..b] == Lower(s[a..b])
    ensures b == |s| ==> Lower(s)[a..] == Lower(s[a..])
    ensures a == 0 ==> Lower(s)[..b] == Lower(s[..b])
  {
  }

  // ----- normal forms -----

  /** A URL does not begin with a colon, and parsing one without spaces and
      printing it with its host lowered settles at once. */
  ghost predicate UrlLaws(url: string -> Option<UrlView>) {
    && (forall s :: UrlHost(url, s).Some? ==> !HasPrefix(s, ":"))
    && (forall s :: NoSpace(s) && UrlHost(url, s).Some? ==>
          var v := UrlHost(url, s).value;
          && v.lowered != "" && NoSpace(v.lowered)
          && UrlHost(url, v.lowered) == Some(UrlView(Lower(v.hostname), v.lowered)))
  }

  predicate NoSpace(s: string) {
    forall i :: 0 <= i < |s| ==> s[i] !in SPACES
  }

  lemma NoSpaceTrim(s: string)
    requires NoSpace(s)
    ensures TrimSpace(s) == s
  {
    TrimSpaceFixed(s);
  }

  lemma HostPortNormal(t: string)
    requires NoSpace(t) && SplitHostPort(t).Some? && SplitHostPort(t).value.host != ""
    ensures var HostPort(h, p) := SplitHostPort(t).value;
            var n := JoinHostPort(Lower(h), p);
            NoSpace(n) && n != "" && !HasPrefix(n, ":") && SplitHostPort(n) == Some(HostPort(Lower(h), p))
  {
    var HostPort(h, p) := SplitHostPort(t).value;
    var n := JoinHostPort(Lower(h), p);
    SplitFacts(t);
    LowerMarks(h);
    SplitJoinHost(Lower(h), p);
    hide SplitHostPort;
    NoSpaceParts(h, p, t);
    assert ':' !in Lower(h) ==> Lower(h)[0] in Lower(h);
  }

  lemma NoSpaceParts(h: string, p: string, t: string)
    requires NoSpace(t) && (t == "[" + h + "]:" + p || t == h + ":" + p)
    ensures NoSpace(JoinHostPort(Lower(h), p))
  {
    forall i | 0 <= i < |h| ensures Lower(h)[i] !in SPACES {
      assert h[i] == t[i] || h[i] == t[i + 1];
    }
    forall i | 0 <= i < |p| ensures p[i] !in SPACES {
      assert p[i] == t[i + (|t| - |p|)];
    }
  }

  /** An address that starts with a colon names no host. */
  lemma ColonHost(t: string)
    requires SplitHostPort(t).Some? && SplitHostPort(t).value.host != ""
    ensures !HasPrefix(t, ":")
  {
    SplitFacts(t);
    var h := SplitHostPort(t).value.host;
    assert h[0] in h;
  }

  lemma LowerNoSpace(t: string)
    requires NoSpace(t)
    ensures NoSpace(Lower(t))
  {
  }

  /** Leaving URLs aside, normalising settles at once and keeps the host. */
  lemma PlainSettles(t: string)
    requires NoSpace(t) && t != ""
    ensures var n := PlainNormal(t);
            NoSpace(n) && n != "" && PlainNormal(n) == n && PlainHost(n) == PlainHost(t) && PlainHost(t) != ""
  {
    if SplitHostPort(t).Some? && SplitHostPort(t).value.host != "" {
      HostPortNormal(t);
      LowerFacts(SplitHostPort(t).value.host);
      ColonHost(t);
      hide SplitHostPort, JoinHostPort, Lower;
    } else if SplitHostPort(t).None? {
      SplitLower(t);
      LowerFacts(t);
      LowerNoSpace(t);
      assert Lower(t)[0] == LowerChar(t[0]);
      hide SplitHostPort, Lower;
    }
  }

  /** The host name of an address without spaces, URL or not. */
  lemma HostnameForm(url: string -> Option<UrlView>, t: string)
    requires UrlLaws(url) && NoSpace(t) && t != ""
    ensures TrimSpace(t) == t
    ensures Hostname(url, t) == if UrlHost(url, t).Some? then Lower(UrlHost(url, t).value.hostname) else PlainHost(t)
    ensures NormalizeTarget(url, t) ==
        Some(if UrlHost(url, t).Some? then UrlHost(url, t).value.lowered else PlainNormal(t))
    ensures Hostname(url, t) != ""
  {
    NoSpaceTrim(t);
    PlainSettles(t);
    if UrlHost(url, t).Some? {
      LowerFacts(UrlHost(url, t).value.hostname);
    }
    hide TrimSpace, PlainNormal, SplitHostPort;
  }

  /** Text that is not a URL, but whose normal form is one that moves on or
      names another host. */
  predicate Drifts(url: string -> Option<UrlView>, t: string) {
    var n := PlainNormal(t);
    && UrlHost(url, t).None? && UrlHost(url, n).Some?
    && (UrlHost(url, n).value.lowered != n || Lower(UrlHost(url, n).value.hostname) != PlainHost(t))
  }

  /** Exactly when normalising an address without spaces settles in one step
      and keeps its host name. */
  lemma SettlesExactly(url: string -> Option<UrlView>, t: string)
    requires UrlLaws(url) && NoSpace(t) && t != ""
    ensures NormalizeTarget(url, t).Some?
    ensures var n := NormalizeTarget(url, t).value;
            NormalizeTarget(url, n) == Some(n) && Hostname(url, n) == Hostname(url, t) <==> !Drifts(url, t)
  {
    HostnameForm(url, t);
    PlainSettles(t);
    if UrlHost(url, t).Some? {
      LowerFacts(UrlHost(url, t).value.hostname);
    }
    HostnameForm(url, NormalizeTarget(url, t).value);
    hide TrimSpace, PlainNormal, PlainHost, NoSpace, NormalizeTarget, Hostname, Lower;
  }

  /** Every address without spaces settles after two steps, and its host name
      after one. */
  lemma SettlesTwice(url: string -> Option<UrlView>, t: string)
    requires UrlLaws(url) && NoSpace(t) && t != ""
    ensures NormalizeTarget(url, t).Some?
    ensures var n := NormalizeTarget(url, t).value;
            && NoSpace(n) && n != "" && Hostname(url, n) != "" && NormalizeTarget(url, n).Some?
            && var m := NormalizeTarget(url, n).value;
               NoSpace(m) && m != "" && NormalizeTarget(url, m) == Some(m) && Hostname(url, m) == Hostname(url, n)
  {
    HostnameForm(url, t);
    PlainSettles(t);
    var n := NormalizeTarget(url, t).value;
    HostnameForm(url, n);
    PlainSettles(n);
    var m := NormalizeTarget(url, n).value;
    HostnameForm(url, m);
    if UrlHost(url, n).Some? {
      LowerFacts(UrlHost(url, n).value.hostname);
    }
    hide TrimSpace, PlainNormal, PlainHost, NoSpace, NormalizeTarget, Hostname, Lower;
  }

  /** A family that drifts: a bracketed host before "//" is not a URL, but its
      normal form is one, which names another host unless the two happen to be
      equal. */
  lemma BracketedScheme(url: string -> Option<UrlView>, h: string, p: string)
    requires h != "" && Lower(h) == h && ':' !in h && '[' !in h && ']' !in h
    requires ':' !in p && '[' !in p && ']' !in p && NoSpace(h) && NoSpace(p)
    requires UrlHost(url, "[" + h + "]:" + p).None? && UrlHost(url, h + ":" + p).Some?
    ensures var t, n := "[" + h + "]:" + p, h + ":" + p;
            && NormalizeTarget(url, t) == Some(n)
            && (Hostname(url, n) != Hostname(url, t) <==> Lower(UrlHost(url, n).value.hostname) != h)
  {
    var t, n := "[" + h + "]:" + p, h + ":" + p;
    BracketedForm(h, p);
    hide SplitHostPort, TrimSpace, JoinHostPort, UrlHost, Lower, NoSpace, PlainHost, PlainNormal;
    NoSpaceTrim(t);
    NoSpaceTrim(n);
  }

  lemma BracketedForm(h: string, p: string)
    requires h != "" && Lower(h) == h && ':' !in h && '[' !in h && ']' !in h
    requires ':' !in p && '[' !in p && ']' !in p && NoSpace(h) && NoSpace(p)
    ensures var t, n := "[" + h + "]:" + p, h + ":" + p;
            && PlainNormal(t) == n && PlainHost(t) == h && NoSpace(t) && NoSpace(n)
            && t != "" && n != "" && !HasPrefix(t, ":") && !HasPrefix(n, ":")
  {
    var t, n := "[" + h + "]:" + p, h + ":" + p;
    JoinBracketed(h, p);
    hide SplitHostPort, Lower, TrimSpace;
    assert JoinHostPort(h, p) == n;
    assert t[0] == '[' && n[0] == h[0] && h[0] in h;
  }

  /** The address "[abc]://x" belongs to host abc; once stored it is "abc://x",
      which belongs to host x. */
  lemma StoredElsewhere(url: string -> Option<UrlView>)
    requires url("[abc]://x") == None && url("abc://x") == Some(UrlView("x", "abc://x"))
    ensures NormalizeTarget(url, "[abc]://x") == Some("abc://x")
    ensures Hostname(url, "abc://x") != Hostname(url, "[abc]://x")
  {
    assert Lower("abc") == "abc" && Lower("x") == "x";
    assert "[" + "abc" + "]:" + "//x" == "[abc]://x" && "abc" + ":" + "//x" == "abc://x";
    assert SchemeAt("abc://x", 3);
    assert UrlHost(url, "abc://x") == Some(UrlView("x", "abc://x"));
    hide Lower, HasScheme, Hostname, NormalizeTarget;
    BracketedScheme(url, "abc", "//x");
  }

  // ----- what the forms of an address mean -----

  /** Host and port: the host in lower case, the port as it is. */
  lemma HostPortMeaning(url: string -> Option<UrlView>, h: string, p: string)
    requires h != "" && NoSpace(h) && NoSpace(p) && ':' !in p && '[' !in p && ']' !in p && '[' !in h && ']' !in h
    requires UrlHost(url, JoinHostPort(h, p)).None?
    ensures Hostname(url, JoinHostPort(h, p)) == Lower(h)
    ensures NormalizeTarget(url, JoinHostPort(h, p)) == Some(JoinHostPort(Lower(h), p))
  {
    var t := JoinHostPort(h, p);
    SplitJoinHost(h, p);
    JoinShape(h, p);
    NoSpaceTrim(t);
    hide TrimSpace, SplitHostPort, JoinHostPort, Lower, UrlHost;
  }

  lemma PrefixColon(t: string)
    ensures HasPrefix(t, ":") <==> t != "" && t[0] == ':'
  {
  }

  lemma JoinShape(h: string, p: string)
    requires h != "" && NoSpace(h) && NoSpace(p)
    ensures var t := JoinHostPort(h, p); NoSpace(t) && t != "" && !HasPrefix(t, ":")
  {
    var t := JoinHostPort(h, p);
    assert ':' !in h ==> t[0] == h[0] && h[0] in h;
    assert ':' in h ==> t[0] == '[';
    PrefixColon(t);
  }

  /** A port alone, a blank name and "localhost" all stand for this machine. */
  lemma LocalNames(url: string -> Option<UrlView>, p: string, blank: string)
    requires UrlLaws(url) && NoSpace(p) && ':' !in p && '[' !in p && ']' !in p && TrimSpace(blank) == ""
    ensures Hostname(url, ":" + p) == "localhost" && NormalizeTarget(url, ":" + p) == Some(":" + p)
    ensures LookupName(url, blank) == "localhost"
    ensures UrlHost(url, "localhost").None? ==> LookupName(url, "localhost") == "localhost"
  {
    var t := ":" + p;
    assert NoSpace(t) && HasPrefix(t, ":");
    NoSpaceTrim(t);
    PortAlone(p);
    assert UrlHost(url, t).None?;
    assert "localhost" == LOCALHOST && NoSpace(LOCALHOST) && Lower(LOCALHOST) == LOCALHOST && ':' !in LOCALHOST;
    NoSpaceTrim(LOCALHOST);
    BareShape(LOCALHOST);
    hide TrimSpace, SplitHostPort, Lower, UrlHost;
  }

  lemma PortAlone(p: string)
    requires ':' !in p && '[' !in p && ']' !in p
    ensures SplitHostPort(":" + p) == Some(HostPort("", p))
  {
    JoinUnbracketed("", p);
    assert "" + ":" + p == ":" + p;
  }

  lemma BareShape(t: string)
    requires ':' !in t
    ensures SplitHostPort(t).None? && !HasPrefix(t, ":")
  {
    assert LastIndexOf(t, ':') < 0;
    PrefixColon(t);
  }

  /** A bare host stands for itself in lower case. */
  lemma BareHost(url: string -> Option<UrlView>, t: string)
    requires NoSpace(t) && t != "" && ':' !in t && UrlHost(url, t).None?
    ensures Hostname(url, t) == Lower(t) && NormalizeTarget(url, t) == Some(Lower(t))
  {
    NoSpaceTrim(t);
    BareShape(t);
    hide TrimSpace, SplitHostPort, Lower, UrlHost;
  }
}

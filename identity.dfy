/** Client identity resolution: which string a request is accounted to.
    A forwarded-for header is believed only when the connecting peer is a
    trusted proxy; otherwise the peer address itself is the identity. */
module Identity {
  import opened Wrappers

  /** The proxies whose forwarded-for header is believed. */
  const TRUSTED_PROXIES: set<string> := {"127.0.0.1"}

  /** The characters Python's `str.isspace` accepts, which `str.strip()`
      (no argument) removes from both ends. */
  const WHITESPACE: set<char> := {
    ' ', '\t', '\n', '\r', '\U{0B}', '\U{0C}',
    '\U{1C}', '\U{1D}', '\U{1E}', '\U{1F}',
    '\U{85}', '\U{A0}', '\U{1680}',
    '\U{2000}', '\U{2001}', '\U{2002}', '\U{2003}', '\U{2004}', '\U{2005}',
    '\U{2006}', '\U{2007}', '\U{2008}', '\U{2009}', '\U{200A}',
    '\U{2028}', '\U{2029}', '\U{202F}', '\U{205F}', '\U{3000}'
  }

  /** `s.split(",")[0]`: everything before the first comma. */
  function FirstToken(s: string): (r: string)
    ensures |r| <= |s| && r == s[..|r|]
    ensures ',' !in r
    ensures |r| == |s| || s[|r|] == ','
  {
    if s == [] || s[0] == ',' then [] else [s[0]] + FirstToken(s[1..])
  }

  /** How many leading characters of `s` are in `ws`. */
  function LeadingCount(s: string, ws: set<char>): (n: nat)
    ensures n <= |s|
    ensures forall k :: 0 <= k < n ==> s[k] in ws
    ensures n < |s| ==> s[n] !in ws
  {
    if s != [] && s[0] in ws then 1 + LeadingCount(s[1..], ws) else 0
  }

  /** How many trailing characters of `s` are in `ws`. */
  function TrailingCount(s: string, ws: set<char>): (n: nat)
    ensures n <= |s|
    ensures forall k :: |s| - n <= k < |s| ==> s[k] in ws
    ensures n < |s| ==> s[|s| - 1 - n] !in ws
  {
    if s != [] && s[|s| - 1] in ws then 1 + TrailingCount(s[..|s| - 1], ws) else 0
  }

  /** The slice that remains once the leading and then the trailing
      characters of `ws` are cut off. */
  function StripSlice(s: string, ws: set<char>): (r: string)
    ensures LeadingCount(s, ws) + |r| <= |s|
  {
    var a := LeadingCount(s, ws);
    s[a..|s| - TrailingCount(s[a..], ws)]
  }

  /** The slice starts right after the leading characters of `ws`, and only
      characters of `ws` follow it. */
  lemma StripSliceIsInfix(s: string, ws: set<char>)
    ensures var a := LeadingCount(s, ws); var r := StripSlice(s, ws);
              r == s[a..a + |r|] && forall k :: a + |r| <= k < |s| ==> s[k] in ws
  {
    var a := LeadingCount(s, ws);
    var t := s[a..];
    forall k | a + |StripSlice(s, ws)| <= k < |s| ensures s[k] in ws {
      assert s[k] == t[k - a];
    }
  }

  /** Neither end of the slice is in `ws`, and the slice is empty exactly
      when every character of `s` is in `ws`. */
  lemma StripSliceEnds(s: string, ws: set<char>)
    ensures var r := StripSlice(s, ws);
              && (r != [] ==> r[0] !in ws && r[|r| - 1] !in ws)
              && (r == [] <==> forall k :: 0 <= k < |s| ==> s[k] in ws)
  {
    var a := LeadingCount(s, ws);
    var t := s[a..];
    var b := TrailingCount(t, ws);
    var r := StripSlice(s, ws);
    assert r == t[..|t| - b];
    if a < |s| {
      assert t[0] == s[a];
      assert b < |t|;
      assert r[0] == t[0] && r[|r| - 1] == t[|t| - 1 - b];
    } else {
      assert r == [];
    }
    StripSliceIsInfix(s, ws);
  }

  /** `s.strip(ws)`: the characters of `ws` removed from both ends and
      nothing else touched, so the result is the infix of `s` that starts
      after the leading ones. `s.strip()` is `Strip(s, WHITESPACE)`. */
  function Strip(s: string, ws: set<char>): (r: string)
    ensures var a := LeadingCount(s, ws);
              && a + |r| <= |s| && r == s[a..a + |r|]
              && forall k :: 0 <= k < a || a + |r| <= k < |s| ==> s[k] in ws
    ensures r != [] ==> r[0] !in ws && r[|r| - 1] !in ws
    ensures r == [] <==> forall k :: 0 <= k < |s| ==> s[k] in ws
  {
    StripSliceIsInfix(s, ws);
    StripSliceEnds(s, ws);
    StripSlice(s, ws)
  }

  /** `get_client_ip`: the first comma-separated token of the forwarded-for
      header, trimmed, when that header is non-empty and the peer is a
      trusted proxy; the peer address in every other case. */
  function ClientIp(peer: string, forwarded: Option<string>, trusted: set<string>): (r: string)
    ensures forwarded.Some? && forwarded.value != [] && peer in trusted ==>
              r == Strip(FirstToken(forwarded.value), WHITESPACE) && ',' !in r
    ensures !(forwarded.Some? && forwarded.value != []) || peer !in trusted ==> r == peer
  {
    match forwarded
    case Some(header) =>
      if header != [] && peer in trusted then Strip(FirstToken(header), WHITESPACE) else peer
    case None => peer
  }

  /** A peer that is not a trusted proxy cannot choose its identity,
      whatever header it sends. */
  lemma UntrustedPeerCannotSpoof(peer: string, header: string)
    requires peer !in TRUSTED_PROXIES
    ensures ClientIp(peer, Some(header), TRUSTED_PROXIES) == peer
  {
  }
}

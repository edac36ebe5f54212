/** Redirect URIs against a registered client's patterns, and browser origins against allowed ones. */
module Patterns {
  import opened Options

  // ---------------------------------------------------------------- strings

  predicate EndsWith(s: string, suffix: string) {
    |suffix| <= |s| && s[|s| - |suffix|..] == suffix
  }

  /** Where `pattern` first occurs in `s`. */
  function Find(s: string, pattern: string): (at: Option<nat>)
    ensures at.Some? ==> at.value + |pattern| <= |s| && s[at.value..at.value + |pattern|] == pattern
    ensures at.Some? ==> forall i :: 0 <= i < at.value ==> !OccursAt(s, pattern, i)
    ensures at.None? ==> forall i :: 0 <= i <= |s| ==> !OccursAt(s, pattern, i)
    decreases |s|
  {
    if pattern <= s then Some(0)
    else if s == [] then None
    else
      var rest := Find(s[1..], pattern);
      assert forall i :: 0 < i <= |s| ==> (OccursAt(s, pattern, i) <==> OccursAt(s[1..], pattern, i - 1)) by {
        forall i | 0 < i <= |s| ensures OccursAt(s, pattern, i) <==> OccursAt(s[1..], pattern, i - 1) {
          assert s[i..] == s[1..][i - 1..];
        }
      }
      assert !OccursAt(s, pattern, 0);
      if rest.None? then None
      else
        assert s[rest.value + 1..rest.value + 1 + |pattern|] == s[1..][rest.value..rest.value + |pattern|];
        Some(rest.value + 1)
  }

  predicate OccursAt(s: string, pattern: string, i: nat) {
    i <= |s| && pattern <= s[i..]
  }

  // ---------------------------------------------------------------- redirect URIs

  /** The slice that isolates the wildcard's match panics if prefix and suffix overlap in the URI. */
  datatype Verdict = Matches(yes: bool) | Panics

  function Prefix(pattern: string, star: nat): string
    requires star < |pattern|
  {
    pattern[..star]
  }

  function Suffix(pattern: string, star: nat): string
    requires star < |pattern|
  {
    pattern[star + 1..]
  }

  function MatchRedirect(pattern: string, uri: string): Verdict {
    if pattern == uri then Matches(true)
    else
      var star := Find(pattern, "*");
      if star.None? then Matches(false)
      else
        var prefix, suffix := Prefix(pattern, star.value), Suffix(pattern, star.value);
        if !(prefix <= uri) || !EndsWith(uri, suffix) then Matches(false)
        else if |uri| - |suffix| < |prefix| then Panics
        else Matches('/' !in uri[|prefix|..|uri| - |suffix|])
  }

  /** The pattern cut at its first star. */
  ghost predicate CutAt(pattern: string, prefix: string, suffix: string) {
    pattern == prefix + "*" + suffix && '*' !in prefix
  }

  lemma FindStar(pattern: string, prefix: string, suffix: string)
    requires CutAt(pattern, prefix, suffix)
    ensures Find(pattern, "*") == Some(|prefix|)
    ensures Prefix(pattern, |prefix|) == prefix && Suffix(pattern, |prefix|) == suffix
  {
    assert pattern[|prefix|..] == "*" + suffix;
    assert OccursAt(pattern, "*", |prefix|);
    forall i | 0 <= i < |prefix| ensures !OccursAt(pattern, "*", i) {
      assert pattern[i..][0] == prefix[i];
    }
    var at := Find(pattern, "*");
    assert at.Some? && OccursAt(pattern, "*", at.value) by {
      assert pattern[at.value..][..1] == pattern[at.value..at.value + 1];
    }
  }

  /** The wildcard stands for `middle`. */
  ghost predicate Fills(uri: string, prefix: string, middle: string, suffix: string) {
    uri == prefix + middle + suffix && '/' !in middle
  }

  /** A wildcard pattern matches exactly the URIs that fill its first star with text free of '/', and
    * panics exactly on those where prefix and suffix overlap. */
  lemma WildcardRedirectIff(pattern: string, uri: string, prefix: string, suffix: string)
    requires CutAt(pattern, prefix, suffix)
    ensures MatchRedirect(pattern, uri) == Matches(true) <==> exists middle :: Fills(uri, prefix, middle, suffix)
    ensures MatchRedirect(pattern, uri) == Panics <==>
              prefix <= uri && EndsWith(uri, suffix) && |uri| < |prefix| + |suffix|
  {
    FindStar(pattern, prefix, suffix);
    if pattern == uri {
      assert Fills(uri, prefix, "*", suffix);
    }
    if prefix <= uri && EndsWith(uri, suffix) && |prefix| + |suffix| <= |uri| {
      var middle := uri[|prefix|..|uri| - |suffix|];
      assert uri == prefix + middle + suffix;
      assert '/' !in middle ==> Fills(uri, prefix, middle, suffix);
    }
    forall middle | Fills(uri, prefix, middle, suffix)
      ensures prefix <= uri && EndsWith(uri, suffix) && uri[|prefix|..|uri| - |suffix|] == middle
    {}
  }

  /** A concrete overlap: the URI lacks the segment the star stands for. */
  lemma MissingSegmentPanics()
    ensures MatchRedirect("https://a.com/*/cb", "https://a.com/cb") == Panics
  {
    var prefix, suffix := "https://a.com/", "/cb";
    assert "https://a.com/*/cb" == prefix + "*" + suffix;
    WildcardRedirectIff("https://a.com/*/cb", "https://a.com/cb", prefix, suffix);
  }

  /** Without a star only the pattern itself matches, and nothing panics. */
  lemma ExactRedirectIff(pattern: string, uri: string)
    requires '*' !in pattern
    ensures MatchRedirect(pattern, uri) == Matches(pattern == uri)
  {
    FoundStarIsThere(pattern);
  }

  lemma FoundStarIsThere(pattern: string)
    ensures Find(pattern, "*").Some? ==> '*' in pattern
  {
    var at := Find(pattern, "*");
    if at.Some? {
      assert pattern[at.value..at.value + 1][0] == '*';
    }
  }

  datatype Redirect = Valid | NoUris | NotAllowed | Panicked

  ghost predicate FirstMatch(patterns: seq<string>, uri: string, i: int) {
    && 0 <= i < |patterns|
    && MatchRedirect(patterns[i], uri) == Matches(true)
    && forall j :: 0 <= j < i ==> MatchRedirect(patterns[j], uri) == Matches(false)
  }

  /** An unregistered client may use any URI; a registered one needs a matching pattern, and a pattern
    * that panics stops the search. */
  method ValidateRedirectUri(allowed: Option<seq<string>>, uri: string) returns (r: Redirect)
    ensures allowed.None? ==> r == Valid
    ensures allowed == Some([]) ==> r == NoUris
    ensures allowed.Some? && allowed.value != [] ==>
      && (r == Valid <==> exists i :: FirstMatch(allowed.value, uri, i))
      && (r == NotAllowed <==>
            forall i :: 0 <= i < |allowed.value| ==> MatchRedirect(allowed.value[i], uri) == Matches(false))
      && r != NoUris
  {
    if allowed.None? {
      return Valid;
    }
    var patterns := allowed.value;
    if patterns == [] {
      return NoUris;
    }
    for i := 0 to |patterns|
      invariant forall j :: 0 <= j < i ==> MatchRedirect(patterns[j], uri) == Matches(false)
    {
      match MatchRedirect(patterns[i], uri) {
        case Matches(yes) =>
          if yes {
            assert FirstMatch(patterns, uri, i);
            return Valid;
          }
        case Panics =>
          return Panicked;
      }
    }
    return NotAllowed;
  }

  // ---------------------------------------------------------------- origins

  /** The part before the first '/'. */
  function BeforeSlash(s: string): (host: string)
    ensures host <= s && '/' !in host && (|host| < |s| ==> s[|host|] == '/')
    decreases |s|
  {
    if s == [] || s[0] == '/' then [] else [s[0]] + BeforeSlash(s[1..])
  }

  function ParseOrigin(origin: string): Option<(string, string)> {
    var at := Find(origin, "://");
    if at.None? then None else Some((origin[..at.value], BeforeSlash(origin[at.value + 3..])))
  }

  function OriginMatches(origin: string, allowed: string): bool {
    if '*' !in allowed then origin == allowed
    else
      var o, a := ParseOrigin(origin), ParseOrigin(allowed);
      if o.None? || a.None? || o.value.0 != a.value.0 then false
      else if !("*." <= a.value.1) then false
      else
        var host, suffix := o.value.1, a.value.1[2..];
        |host| > |suffix| && EndsWith(host, suffix) && EndsWith(host[..|host| - |suffix|], ".")
  }

  /** What `origin` means: everything before the first "://", and the host up to the next '/'. */
  ghost predicate Names(origin: string, scheme: string, host: string, rest: string) {
    && origin == scheme + "://" + host + rest
    && '/' !in host && (rest == [] || rest[0] == '/')
    && forall i :: 0 <= i < |scheme| ==> !OccursAt(origin, "://", i)
  }

  lemma ParsedOriginNames(origin: string)
    requires ParseOrigin(origin).Some?
    ensures exists rest :: Names(origin, ParseOrigin(origin).value.0, ParseOrigin(origin).value.1, rest)
  {
    var at := Find(origin, "://").value;
    var tail := origin[at + 3..];
    var host := BeforeSlash(tail);
    var rest := tail[|host|..];
    assert origin[at..at + 3] == "://";
    PartsJoin(origin, at, host, rest);
    assert Names(origin, origin[..at], host, rest);
  }

  /** An origin parses as a scheme and a host if and only if it is put together from them: it names them
    * with some rest. Without "://" it does not parse. */
  lemma ParsesIff(origin: string, scheme: string, host: string)
    ensures ParseOrigin(origin) == Some((scheme, host)) <==> exists rest :: Names(origin, scheme, host, rest)
    ensures ParseOrigin(origin) == None <==> forall i :: 0 <= i <= |origin| ==> !OccursAt(origin, "://", i)
  {
    if ParseOrigin(origin) == Some((scheme, host)) {
      ParsedOriginNames(origin);
    }
    forall rest | Names(origin, scheme, host, rest) ensures ParseOrigin(origin) == Some((scheme, host)) {
      NamesParses(origin, scheme, host, rest);
    }
    var at := Find(origin, "://");
    if at.Some? {
      assert origin[at.value..][..3] == origin[at.value..at.value + 3];
      assert OccursAt(origin, "://", at.value);
    }
  }

  lemma NamesParses(origin: string, scheme: string, host: string, rest: string)
    requires Names(origin, scheme, host, rest)
    ensures ParseOrigin(origin) == Some((scheme, host))
  {
    var n := |scheme|;
    assert origin[n..] == "://" + host + rest;
    assert OccursAt(origin, "://", n);
    var at := Find(origin, "://");
    assert at.Some? && OccursAt(origin, "://", at.value) by {
      assert origin[at.value..][..3] == origin[at.value..at.value + 3];
    }
    assert at.value == n;
    assert origin[n + 3..] == host + rest && origin[..n] == scheme;
    BeforeSlashOf(host, rest);
  }

  lemma {:induction false} BeforeSlashOf(host: string, rest: string)
    requires '/' !in host && (rest == [] || rest[0] == '/')
    ensures BeforeSlash(host + rest) == host
    decreases |host|
  {
    if host == [] {
      assert host + rest == rest;
    } else {
      assert (host + rest)[0] == host[0] && (host + rest)[1..] == host[1..] + rest;
      BeforeSlashOf(host[1..], rest);
    }
  }

  /** A pattern without a star allows exactly itself. */
  lemma PlainOriginIff(origin: string, allowed: string)
    requires '*' !in allowed
    ensures OriginMatches(origin, allowed) <==> origin == allowed
  {}

  lemma PartsJoin(origin: string, at: nat, host: string, rest: string)
    requires at + 3 <= |origin| && origin[at..at + 3] == "://" && host <= origin[at + 3..]
    requires rest == origin[at + 3..][|host|..]
    ensures origin == origin[..at] + "://" + host + rest
  {
    assert origin == origin[..at] + origin[at..at + 3] + origin[at + 3..];
    assert origin[at + 3..] == host + rest;
  }

  ghost predicate Subdomain(origin: string, allowed: string, scheme: string, sub: string, suffix: string) {
    && ParseOrigin(origin) == Some((scheme, sub + "." + suffix))
    && ParseOrigin(allowed) == Some((scheme, "*." + suffix))
  }

  /** A wildcard origin matches exactly when the schemes agree and the host is some text, a dot and the
    * wildcard's suffix. */
  lemma WildcardOriginIff(origin: string, allowed: string)
    requires '*' in allowed
    ensures OriginMatches(origin, allowed) <==>
            exists scheme, sub, suffix :: Subdomain(origin, allowed, scheme, sub, suffix)
  {
    if OriginMatches(origin, allowed) {
      var (scheme, host) := ParseOrigin(origin).value;
      var pattern := ParseOrigin(allowed).value.1;
      var suffix := pattern[2..];
      var head := host[..|host| - |suffix|];
      var sub := head[..|head| - 1];
      assert pattern == "*." + suffix && host == head + suffix && head == sub + ".";
      assert Subdomain(origin, allowed, scheme, sub, suffix);
    }
    forall scheme, sub, suffix | Subdomain(origin, allowed, scheme, sub, suffix)
      ensures OriginMatches(origin, allowed)
    {
      var host := sub + "." + suffix;
      assert ("*." + suffix)[2..] == suffix;
      assert host[..|host| - |suffix|] == sub + ".";
    }
  }

  /** So the bare suffix host never matches. */
  lemma BareHostNeverMatches(origin: string, allowed: string, scheme: string, suffix: string)
    requires '*' in allowed && ParseOrigin(allowed) == Some((scheme, "*." + suffix))
    requires ParseOrigin(origin).Some? && ParseOrigin(origin).value.1 == suffix
    ensures !OriginMatches(origin, allowed)
  {
    assert ("*." + suffix)[2..] == suffix;
  }

  // ---------------------------------------------------------------- the list of allowed origins

  /** Unicode White_Space, which `trim` strips. */
  predicate White(c: char) {
    || '\U{9}' <= c <= '\U{d}' || c == ' ' || c == '\U{85}' || c == '\U{a0}' || c == '\U{1680}'
    || '\U{2000}' <= c <= '\U{200a}' || c == '\U{2028}' || c == '\U{2029}' || c == '\U{202f}'
    || c == '\U{205f}' || c == '\U{3000}'
  }

  function Trim(s: string): string
    decreases |s|
  {
    if s == [] then s
    else if White(s[0]) then Trim(s[1..])
    else if White(s[|s| - 1]) then Trim(s[..|s| - 1])
    else s
  }

  function SplitCommas(s: string): (pieces: seq<string>)
    ensures pieces != []
    decreases |s|
  {
    if s == [] then [[]]
    else
      var rest := SplitCommas(s[1..]);
      if s[0] == ',' then [[]] + rest else [[s[0]] + rest[0]] + rest[1..]
  }

  predicate Blank(s: string) {
    forall i :: 0 <= i < |s| ==> White(s[i])
  }

  /** Trimming strips the blanks on both sides and nothing else. */
  lemma {:induction false} TrimStrips(before: string, text: string, after: string)
    requires Blank(before) && Blank(after)
    requires text == [] || (!White(text[0]) && !White(text[|text| - 1]))
    ensures Trim(before + text + after) == text
    decreases |before|, |after|
  {
    var whole := before + text + after;
    if before != [] {
      assert whole[0] == before[0] && whole[1..] == before[1..] + text + after;
      TrimStrips(before[1..], text, after);
    } else if after != [] {
      var last := |after| - 1;
      if text == [] {
        assert whole == after && whole[1..] == [] + [] + after[1..];
        TrimStrips([], [], after[1..]);
      } else {
        assert whole[0] == text[0] && whole[|whole| - 1] == after[last];
        assert whole[..|whole| - 1] == before + text + after[..last];
        TrimStrips(before, text, after[..last]);
      }
    } else {
      assert whole == text;
    }
  }

  predicate OriginIsAllowed(origin: string, allowed: string, allowLocalhost: bool) {
    || (allowLocalhost && ("http://localhost:" <= origin || origin == "http://localhost"))
    || exists piece :: piece in SplitCommas(allowed) && OriginMatches(origin, Trim(piece))
  }

  /** A configuration value listing the patterns. */
  function Listed(patterns: seq<string>): string
    requires patterns != []
    decreases |patterns|
  {
    if |patterns| == 1 then patterns[0] else patterns[0] + "," + Listed(patterns[1..])
  }

  lemma {:induction false} SplitFirst(piece: string, rest: string)
    requires ',' !in piece
    ensures SplitCommas(piece) == [piece]
    ensures SplitCommas(piece + "," + rest) == [piece] + SplitCommas(rest)
    decreases |piece|
  {
    var whole := piece + "," + rest;
    if piece == [] {
      assert whole[0] == ',' && whole[1..] == rest;
    } else {
      SplitFirst(piece[1..], rest);
      assert whole[0] == piece[0] && whole[1..] == piece[1..] + "," + rest;
      assert piece == [piece[0]] + piece[1..];
    }
  }

  lemma {:induction false} SplitListed(patterns: seq<string>)
    requires patterns != [] && forall i :: 0 <= i < |patterns| ==> ',' !in patterns[i]
    ensures SplitCommas(Listed(patterns)) == patterns
    decreases |patterns|
  {
    if |patterns| == 1 {
      SplitFirst(patterns[0], []);
    } else {
      SplitFirst(patterns[0], Listed(patterns[1..]));
      SplitListed(patterns[1..]);
    }
  }

  /** A comma-separated list allows exactly the origins that one of its pieces, trimmed, matches, and
    * localhost if configured. */
  lemma ListedPatternsDecide(origin: string, patterns: seq<string>, allowLocalhost: bool)
    requires patterns != []
    requires forall i :: 0 <= i < |patterns| ==> ',' !in patterns[i]
    ensures OriginIsAllowed(origin, Listed(patterns), allowLocalhost) <==>
      || (allowLocalhost && ("http://localhost:" <= origin || origin == "http://localhost"))
      || exists i :: 0 <= i < |patterns| && OriginMatches(origin, Trim(patterns[i]))
  {
    SplitListed(patterns);
    assert forall piece :: piece in patterns <==> exists i :: 0 <= i < |patterns| && patterns[i] == piece;
  }

  /** In particular two patterns written with a comma and a space between them, and a blank, a tab and the
    * line ends are what a space may be. */
  lemma SpacedPair(origin: string, a: string, b: string)
    requires a != [] && ',' !in a && !White(a[0]) && !White(a[|a| - 1])
    requires b != [] && ',' !in b && !White(b[0]) && !White(b[|b| - 1])
    ensures OriginIsAllowed(origin, a + "," + (" " + b), false) <==> OriginMatches(origin, a) || OriginMatches(origin, b)
  {
    var patterns := [a, " " + b];
    assert Listed(patterns[1..]) == patterns[1] && Listed(patterns) == a + "," + (" " + b);
    TrimStrips([], a, []);
    TrimStrips(" ", b, []);
    assert [] + a + [] == a && " " + b + [] == " " + b;
    assert Trim(patterns[0]) == a && Trim(patterns[1]) == b;
    ListedPatternsDecide(origin, patterns, false);
  }

  lemma Blanks()
    ensures White(' ') && White('\t') && White('\n') && White('\r')
    ensures !White('a') && !White('*') && !White('/') && !White('.') && !White(',')
  {}
}

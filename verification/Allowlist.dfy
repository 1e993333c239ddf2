/** The two endpoint-allowlist matchers: the middleware's prefix test and the handler's wildcard scan. */
module Allowlist {
  import opened Prelude

  predicate Contains(s: string, c: char) {
    c in s
  }

  predicate StartsWith(s: string, prefix: string) {
    prefix <= s
  }

  /** `s` without `suffix`, if it ends that way. */
  function StripSuffix(s: string, suffix: string): (r: Option<string>)
    ensures r.Some? ==> r.value + suffix == s
    ensures r == None ==> forall prefix :: prefix + suffix != s
  {
    if |suffix| <= |s| && s[|s| - |suffix|..] == suffix then Some(s[..|s| - |suffix|])
    else
      NoPrefix(s, suffix);
      None
  }

  lemma NoPrefix(s: string, suffix: string)
    requires !(|suffix| <= |s| && s[|s| - |suffix|..] == suffix)
    ensures forall prefix :: prefix + suffix != s
  {
    forall prefix: string
      ensures prefix + suffix != s
    {
      var joined := prefix + suffix;
      assert joined[|joined| - |suffix|..] == suffix;
    }
  }

  // ------------------------------------------------ splitting and searching

  /** The maximal stretches of `s` between separators; one more than there are separators. */
  function Split(s: string, sep: char): (parts: seq<string>)
    ensures |parts| >= 1
  {
    if s == "" then [""]
    else
      var rest := Split(s[1..], sep);
      if s[0] == sep then [""] + rest else [[s[0]] + rest[0]] + rest[1..]
  }

  function Join(parts: seq<string>, sep: char): string
    requires |parts| >= 1
  {
    if |parts| == 1 then parts[0] else parts[0] + [sep] + Join(parts[1..], sep)
  }

  lemma SplitJoin(s: string, sep: char)
    ensures Join(Split(s, sep), sep) == s
    ensures forall part | part in Split(s, sep) :: sep !in part
  {
    JoinOfSplit(s, sep);
    PiecesLackSeparator(s, sep);
  }

  lemma {:induction false} JoinOfSplit(s: string, sep: char)
    ensures Join(Split(s, sep), sep) == s
  {
    if s != "" {
      JoinOfSplit(s[1..], sep);
      var rest := Split(s[1..], sep);
      if s[0] == sep {
        assert ([""] + rest)[1..] == rest;
        assert s == [sep] + s[1..];
      } else {
        LongerFirst(s[0], rest, sep);
        assert s == [s[0]] + s[1..];
      }
    }
  }

  lemma LongerFirst(c: char, parts: seq<string>, sep: char)
    requires |parts| >= 1
    ensures Join([[c] + parts[0]] + parts[1..], sep) == [c] + Join(parts, sep)
  {
    var longer := [[c] + parts[0]] + parts[1..];
    assert longer[0] == [c] + parts[0] && longer[1..] == parts[1..];
  }

  lemma {:induction false} PiecesLackSeparator(s: string, sep: char)
    ensures forall part | part in Split(s, sep) :: sep !in part
  {
    if s != "" {
      PiecesLackSeparator(s[1..], sep);
      var rest := Split(s[1..], sep);
      assert rest[0] in rest;
      forall part | part in Split(s, sep)
        ensures sep !in part
      {
        assert part in rest || part == "" || (s[0] != sep && part == [s[0]] + rest[0]);
      }
    }
  }

  function NonEmpty(parts: seq<string>): seq<string> {
    if parts == [] then []
    else (if parts[0] == "" then [] else [parts[0]]) + NonEmpty(parts[1..])
  }

  predicate OccursAt(s: string, part: string, p: nat) {
    p + |part| <= |s| && s[p..p + |part|] == part
  }

  /** The leftmost occurrence at or after `from`. */
  function Find(s: string, part: string, from: nat): (r: Option<nat>)
    ensures r.Some? ==> from <= r.value && r.value + |part| <= |s| && OccursAt(s, part, r.value)
    ensures r.Some? ==> forall p | from <= p < r.value :: !OccursAt(s, part, p)
    ensures r == None ==> forall p | from <= p :: !OccursAt(s, part, p)
    decreases |s| - from
  {
    if from + |part| > |s| then None
    else if OccursAt(s, part, from) then Some(from)
    else Find(s, part, from + 1)
  }

  // -------------------------------------------------- placements of the pieces

  /** Positions for all pieces, left to right and without overlap. */
  ghost predicate IsPlacement(parts: seq<string>, path: string, pos: seq<nat>) {
    && |pos| == |parts|
    && (forall k | 0 <= k < |parts| :: OccursAt(path, parts[k], pos[k]))
    && (forall k | 0 < k < |parts| :: pos[k - 1] + |parts[k - 1]| <= pos[k])
  }

  /** The pieces fit into `path[from..]` one after the other. */
  ghost predicate Placeable(parts: seq<string>, path: string, from: nat) {
    parts == []
    || exists p: nat :: from <= p && OccursAt(path, parts[0], p) && Placeable(parts[1..], path, p + |parts[0]|)
  }

  lemma PlacementAsSequence(parts: seq<string>, path: string)
    ensures Placeable(parts, path, 0) <==> exists pos :: IsPlacement(parts, path, pos)
  {
    if Placeable(parts, path, 0) {
      var pos := PlacementFrom(parts, path, 0);
    }
    if pos :| IsPlacement(parts, path, pos) {
      PlaceableFrom(parts, path, 0, pos);
    }
  }

  lemma {:induction false} PlacementFrom(parts: seq<string>, path: string, from: nat) returns (pos: seq<nat>)
    requires Placeable(parts, path, from)
    ensures IsPlacement(parts, path, pos)
    ensures pos != [] ==> from <= pos[0]
  {
    if parts == [] {
      pos := [];
    } else {
      var p: nat :| from <= p && OccursAt(path, parts[0], p) && Placeable(parts[1..], path, p + |parts[0]|);
      var rest := PlacementFrom(parts[1..], path, p + |parts[0]|);
      pos := [p] + rest;
      forall k | 0 < k < |parts|
        ensures OccursAt(path, parts[k], pos[k]) && pos[k - 1] + |parts[k - 1]| <= pos[k]
      {
        assert parts[k] == parts[1..][k - 1] && pos[k] == rest[k - 1];
      }
    }
  }

  lemma {:induction false} PlaceableFrom(parts: seq<string>, path: string, from: nat, pos: seq<nat>)
    requires IsPlacement(parts, path, pos) && (pos != [] ==> from <= pos[0])
    ensures Placeable(parts, path, from)
  {
    if parts != [] {
      forall k | 0 <= k < |parts[1..]|
        ensures OccursAt(path, parts[1..][k], pos[1..][k])
        ensures k > 0 ==> pos[1..][k - 1] + |parts[1..][k - 1]| <= pos[1..][k]
      {
        assert parts[1..][k] == parts[k + 1];
      }
      PlaceableFrom(parts[1..], path, pos[0] + |parts[0]|, pos[1..]);
    }
  }

  lemma PlaceableEarlier(parts: seq<string>, path: string, from: nat, later: nat)
    requires from <= later && Placeable(parts, path, later)
    ensures Placeable(parts, path, from)
  {
  }

  /** Taking the leftmost occurrence of the first piece never loses a placement. */
  lemma LeftmostSuffices(parts: seq<string>, path: string, from: nat)
    requires parts != []
    ensures var first := Find(path, parts[0], from);
            (Placeable(parts, path, from)
             <==> first.Some? && Placeable(parts[1..], path, first.value + |parts[0]|))
  {
    var first := Find(path, parts[0], from);
    if Placeable(parts, path, from) {
      var p: nat :| from <= p && OccursAt(path, parts[0], p) && Placeable(parts[1..], path, p + |parts[0]|);
      PlaceableEarlier(parts[1..], path, first.value + |parts[0]|, p + |parts[0]|);
    }
  }

  // -------------------------------------------------- the handler's matcher

  function Normalized(path: string): string {
    if StartsWith(path, "/") then path else "/"
  }

  /** What the handler's matcher accepts, without saying how it searches. */
  ghost predicate Accepts(pattern: string, path: string) {
    var path := Normalized(path);
    if !Contains(pattern, '*') then pattern == path
    else if StripSuffix(pattern, "/*").Some? then
      var prefix := StripSuffix(pattern, "/*").value;
      path == prefix || StartsWith(path, prefix + "/")
    else exists pos :: IsPlacement(NonEmpty(Split(pattern, '*')), path, pos)
  }

  method MatchOne(pattern: string, rawPath: string) returns (accepted: bool)
    ensures accepted <==> Accepts(pattern, rawPath)
  {
    hide Split, NonEmpty, Find, IsPlacement, OccursAt;
    var path := if StartsWith(rawPath, "/") then rawPath else "/";
    if !Contains(pattern, '*') {
      return pattern == path;
    }
    var stripped := StripSuffix(pattern, "/*");
    if stripped.Some? {
      var prefix := stripped.value;
      return StartsWith(path, prefix) && (|path| == |prefix| || path[|prefix|] == '/');
    }
    var parts := NonEmpty(Split(pattern, '*'));
    PlacementAsSequence(parts, path);
    if parts == [] {
      assert Placeable(parts, path, 0);
      return true;
    }
    var idx, k := 0, 0;
    while k < |parts|
      invariant 0 <= k <= |parts| && 0 <= idx <= |path|
      invariant Placeable(parts, path, 0) <==> Placeable(parts[k..], path, idx)
    {
      LeftmostSuffices(parts[k..], path, idx);
      var found := Find(path, parts[k], idx);
      if found == None {
        return false;
      }
      assert parts[k..][1..] == parts[k + 1..];
      idx := found.value + |parts[k]|;
      k := k + 1;
    }
    return true;
  }

  ghost predicate PathAllowed(allowlist: seq<string>, forwardedPath: string) {
    allowlist == [] || exists pat | pat in allowlist :: Accepts(pat, forwardedPath)
  }

  // -------------------------------------------------- the middleware's matcher

  predicate Matches(pattern: string, path: string) {
    var stripped := StripSuffix(pattern, "/*");
    if stripped.Some? then path == stripped.value || StartsWith(path, stripped.value + "/")
    else path == pattern
  }

  /** At most `n` stretches of `s`, the last of them unsplit. */
  function SplitN(s: string, n: nat, sep: char): (parts: seq<string>)
    requires n >= 1
    ensures 1 <= |parts| <= n
    decreases |s|, n
  {
    if n == 1 || s == "" then [s]
    else if s[0] == sep then [""] + SplitN(s[1..], n - 1, sep)
    else
      var rest := SplitN(s[1..], n, sep);
      [[s[0]] + rest[0]] + rest[1..]
  }

  function UpstreamPath(fullPath: string): string {
    var parts := SplitN(fullPath, 4, '/');
    if |parts| > 3 then "/" + parts[3] else "/"
  }

  predicate EnforceAllowlist(allowlist: seq<string>, fullPath: string) {
    exists pat | pat in allowlist :: Matches(pat, UpstreamPath(fullPath))
  }

  // -------------------------------------------------- the two compared

  lemma PlaceFirst(first: string, parts: seq<string>, path: string, p: nat)
    requires OccursAt(path, first, p) && Placeable(parts, path, p + |first|)
    ensures Placeable([first] + parts, path, p)
  {
    var all := [first] + parts;
    assert all[1..] == parts;
    assert OccursAt(path, all[0], p) && Placeable(all[1..], path, p + |all[0]|);
  }

  /** The pieces of a pattern can be placed in the pattern's own text. */
  lemma {:induction false} PiecesFitJoined(parts: seq<string>, before: string, sep: char)
    requires |parts| >= 1
    ensures Placeable(NonEmpty(parts), before + Join(parts, sep), |before|)
  {
    var path := before + Join(parts, sep);
    var end := |before| + |parts[0]|;
    assert OccursAt(path, parts[0], |before|);
    if |parts| == 1 {
      assert NonEmpty(parts[1..]) == [];
    } else {
      var next := before + parts[0] + [sep];
      assert path == next + Join(parts[1..], sep);
      PiecesFitJoined(parts[1..], next, sep);
      PlaceableEarlier(NonEmpty(parts[1..]), path, end, |next|);
    }
    if parts[0] == "" {
      assert NonEmpty(parts) == NonEmpty(parts[1..]);
    } else {
      PlaceFirst(parts[0], NonEmpty(parts[1..]), path, |before|);
    }
  }

  lemma PatternAcceptsItself(pattern: string)
    ensures exists pos :: IsPlacement(NonEmpty(Split(pattern, '*')), pattern, pos)
  {
    var parts := Split(pattern, '*');
    SplitJoin(pattern, '*');
    PiecesFitJoined(parts, "", '*');
    assert "" + Join(parts, '*') == pattern;
    PlacementAsSequence(NonEmpty(parts), pattern);
  }

  /** The middleware's matcher is the stricter one, and differs on inner wildcards alone. */
  lemma MatchesImpliesAccepts(pattern: string, path: string)
    requires StartsWith(path, "/")
    ensures Matches(pattern, path) ==> Accepts(pattern, path)
    ensures !Contains(pattern, '*') || StripSuffix(pattern, "/*").Some?
            ==> (Matches(pattern, path) <==> Accepts(pattern, path))
  {
    var stripped := StripSuffix(pattern, "/*");
    if stripped.Some? {
      assert pattern[|pattern| - 1] == '*';
    } else if Matches(pattern, path) {
      PatternAcceptsItself(pattern);
    }
  }

  /** Three separators found, the rest left whole. */
  lemma SplitThrice(a: string, b: string, c: string, rest: string, sep: char)
    requires sep !in a && sep !in b && sep !in c
    ensures SplitN(a + [sep] + (b + [sep] + (c + [sep] + rest)), 4, sep) == [a, b, c, rest]
  {
    var last := c + [sep] + rest;
    var more := b + [sep] + last;
    SplitNAt(a, more, 4, sep);
    SplitNAt(b, last, 3, sep);
    SplitNAt(c, rest, 2, sep);
    assert SplitN(rest, 1, sep) == [rest];
    hide SplitN;
    assert SplitN(last, 2, sep) == [c, rest];
    assert SplitN(more, 3, sep) == [b, c, rest];
  }

  /** What the middleware tests is what the router hands to the handler. */
  lemma TailOfProxyUrl(partner: string, tail: string)
    requires '/' !in partner
    ensures UpstreamPath("/proxy/" + partner + "/" + tail) == "/" + tail
  {
    hide SplitN;
    SplitThrice("", "proxy", partner, tail, '/');
    assert "/proxy/" + partner + "/" + tail == "" + ['/'] + ("proxy" + ['/'] + (partner + ['/'] + tail));
  }

  lemma {:induction false} SplitNAt(first: string, rest: string, n: nat, sep: char)
    requires sep !in first
    ensures n >= 2 ==> SplitN(first + [sep] + rest, n, sep) == [first] + SplitN(rest, n - 1, sep)
  {
    if n >= 2 {
      var s := first + [sep] + rest;
      if first == "" {
        assert s[1..] == rest;
      } else {
        SplitNAt(first[1..], rest, n, sep);
        assert s[1..] == first[1..] + [sep] + rest;
        assert [s[0]] + first[1..] == first;
      }
    }
  }

  function ForwardedPath(tail: string): string {
    if tail == "" then "/" else "/" + tail
  }

  /** A request that passes the middleware always passes the handler's own check. */
  lemma MiddlewareImpliesHandler(allowlist: seq<string>, partner: string, tail: string)
    requires '/' !in partner
    requires EnforceAllowlist(allowlist, "/proxy/" + partner + "/" + tail)
    ensures PathAllowed(allowlist, ForwardedPath(tail))
  {
    TailOfProxyUrl(partner, tail);
    var path := ForwardedPath(tail);
    var pat :| pat in allowlist && Matches(pat, "/" + tail);
    assert "/" + tail == path;
    MatchesImpliesAccepts(pat, path);
  }

  /** To the middleware a wildcard means something as the last path segment only. */
  lemma MatchesExactly(pattern: string, path: string)
    ensures var n := |pattern|;
            Matches(pattern, path)
            <==> if n >= 2 && pattern[n - 2] == '/' && pattern[n - 1] == '*'
                 then path == pattern[..n - 2] || pattern[..n - 1] <= path
                 else path == pattern
  {
    var n := |pattern|;
    if n >= 2 && pattern[n - 2] == '/' && pattern[n - 1] == '*' {
      assert pattern[n - 2..] == "/*" && pattern[..n - 2] + "/*" == pattern;
      assert pattern[..n - 2] + "/" == pattern[..n - 1];
    }
    assert StripSuffix(pattern, "/*").Some? ==> n >= 2 && pattern[n - 2..] == "/*";
  }

  /** The pattern holds no wildcard, or a single trailing one as its last path segment. */
  predicate PlainPattern(pattern: string) {
    '*' !in pattern || (|pattern| >= 2 && pattern[|pattern| - 2..] == "/*")
  }

  /** The two checks agree on every allowlist of plain patterns but the empty one. */
  lemma ChecksAgree(allowlist: seq<string>, partner: string, tail: string)
    requires '/' !in partner && allowlist != []
    requires forall pat | pat in allowlist :: PlainPattern(pat)
    ensures EnforceAllowlist(allowlist, "/proxy/" + partner + "/" + tail)
       <==> PathAllowed(allowlist, ForwardedPath(tail))
  {
    TailOfProxyUrl(partner, tail);
    assert ForwardedPath(tail) == "/" + tail;
    forall pat | pat in allowlist
      ensures Matches(pat, "/" + tail) <==> Accepts(pat, "/" + tail)
    {
      PlainSuffix(pat);
      MatchesImpliesAccepts(pat, "/" + tail);
    }
    hide Matches, Accepts;
  }

  lemma PlainSuffix(pattern: string)
    requires PlainPattern(pattern)
    ensures !Contains(pattern, '*') || StripSuffix(pattern, "/*").Some?
  {
    if |pattern| >= 2 && pattern[|pattern| - 2..] == "/*" {
      assert pattern[..|pattern| - 2] + "/*" == pattern;
    }
  }

  /** An empty allowlist is refused by the middleware, though the handler alone would let it through. */
  lemma EmptyAllowlist(fullPath: string, tail: string)
    ensures !EnforceAllowlist([], fullPath) && PathAllowed([], ForwardedPath(tail))
  {
  }

  /** An allowlist allows what any part of it allows; a single pattern, what it matches. */
  lemma AllowlistParts(a: seq<string>, b: seq<string>, pattern: string, fullPath: string, path: string)
    ensures EnforceAllowlist(a + b, fullPath) <==> EnforceAllowlist(a, fullPath) || EnforceAllowlist(b, fullPath)
    ensures EnforceAllowlist([pattern], fullPath) <==> Matches(pattern, UpstreamPath(fullPath))
    ensures a != [] && b != [] ==> (PathAllowed(a + b, path) <==> PathAllowed(a, path) || PathAllowed(b, path))
    ensures PathAllowed([pattern], path) <==> Accepts(pattern, path)
  {
    hide Matches, Accepts;
    assert forall pat: string :: pat in a + b <==> pat in a || pat in b;
    assert forall pat: string :: pat in [pattern] <==> pat == pattern;
  }

  /** A URL with no tail, and a path that does not start with a slash, count as the root. */
  lemma RootPaths(partner: string, path: string, pattern: string)
    requires '/' !in partner
    ensures UpstreamPath("/proxy/" + partner) == "/"
    ensures !StartsWith(path, "/") ==> (Accepts(pattern, path) <==> Accepts(pattern, "/"))
  {
    SplitNAt("", "proxy/" + partner, 4, '/');
    SplitNAt("proxy", partner, 3, '/');
    Unsplit(partner, 2, '/');
    assert "" + ['/'] + ("proxy/" + partner) == "/proxy/" + partner;
    assert "proxy" + ['/'] + partner == "proxy/" + partner;
    hide SplitN;
    if !StartsWith(path, "/") {
      SameWhenNormalized(pattern, path, "/");
    }
  }

  lemma SameWhenNormalized(pattern: string, path: string, other: string)
    requires Normalized(path) == Normalized(other)
    ensures Accepts(pattern, path) <==> Accepts(pattern, other)
  {
    hide IsPlacement, NonEmpty, Split;
    PlacementAsSequence(NonEmpty(Split(pattern, '*')), Normalized(path));
  }

  lemma {:induction false} Unsplit(s: string, n: nat, sep: char)
    requires n >= 1 && sep !in s
    ensures SplitN(s, n, sep) == [s]
  {
    if n > 1 && s != "" {
      Unsplit(s[1..], n, sep);
      assert s[0] in s && [s[0]] + s[1..] == s;
    }
  }

  // -------------------------------------------------- what anchoring would change

  lemma PlacementShifts(parts: seq<string>, before: string, path: string, after: string)
    requires exists pos :: IsPlacement(parts, path, pos)
    ensures exists pos :: IsPlacement(parts, before + path + after, pos)
  {
    var pos :| IsPlacement(parts, path, pos);
    var shifted := seq(|pos|, k requires 0 <= k < |pos| => pos[k] + |before|);
    var around := before + path + after;
    forall k | 0 <= k < |parts|
      ensures OccursAt(around, parts[k], shifted[k])
    {
      var p, n := pos[k], |parts[k]|;
      assert OccursAt(path, parts[k], p) && shifted[k] == p + |before|;
      assert around[p + |before|..p + |before| + n] == path[p..p + n];
    }
    assert IsPlacement(parts, around, shifted);
  }

  /** The scan is anchored at neither end: text around an accepted path changes nothing. */
  lemma InnerWildcardIsUnanchored(pattern: string, before: string, path: string, after: string)
    requires Contains(pattern, '*') && StripSuffix(pattern, "/*") == None
    requires StartsWith(path, "/") && Accepts(pattern, path)
    ensures Accepts(pattern, "/" + before + path + after)
  {
    var around := "/" + before + path + after;
    PlacementShifts(NonEmpty(Split(pattern, '*')), "/" + before, path, after);
    assert around == "/" + (before + path + after) && Normalized(around) == around;
  }

  /** The pieces with anything between them make up the whole path: a wildcard in the usual sense. */
  ghost predicate Glob(parts: seq<string>, path: string)
    requires |parts| >= 1
  {
    if |parts| == 1 then path == parts[0]
    else StartsWith(path, parts[0])
         && exists n: nat :: |parts[0]| <= n <= |path| && Glob(parts[1..], path[n..])
  }

  lemma {:induction false} GlobPlaces(parts: seq<string>, path: string, from: nat)
    requires |parts| >= 1 && from <= |path| && Glob(parts, path[from..])
    ensures Placeable(NonEmpty(parts), path, from)
  {
    assert path[from..][..|parts[0]|] == path[from..from + |parts[0]|];
    assert OccursAt(path, parts[0], from);
    if |parts| == 1 {
      assert parts[1..] == [] && Placeable(NonEmpty(parts[1..]), path, from + |parts[0]|);
    } else {
      var n: nat :| |parts[0]| <= n <= |path[from..]| && Glob(parts[1..], path[from..][n..]);
      assert path[from..][n..] == path[from + n..];
      GlobPlaces(parts[1..], path, from + n);
      PlaceableEarlier(NonEmpty(parts[1..]), path, from + |parts[0]|, from + n);
    }
    if parts[0] == "" {
      assert NonEmpty(parts) == NonEmpty(parts[1..]);
    } else {
      PlaceFirst(parts[0], NonEmpty(parts[1..]), path, from);
    }
  }

  lemma EmptyPieceFirst(parts: seq<string>)
    requires parts != []
    ensures parts[0] == "" ==> NonEmpty(parts) == NonEmpty(parts[1..])
    ensures parts[0] != "" ==> NonEmpty(parts) == [parts[0]] + NonEmpty(parts[1..])
  {
  }

  lemma GlobStep(parts: seq<string>, path: string, from: nat, p: nat)
    requires |parts| >= 2 && OccursAt(path, parts[0], from) && from + |parts[0]| <= p <= |path|
    requires Glob(parts[1..], path[p..])
    ensures Glob(parts, path[from..])
  {
    var n := p - from;
    assert StartsWith(path[from..], parts[0]) && path[from..][n..] == path[p..];
  }

  /** Where the first of the placed pieces goes; an empty one goes anywhere. */
  lemma FirstPlace(parts: seq<string>, path: string, from: nat) returns (p: nat)
    requires parts != [] && from <= |path| && Placeable(NonEmpty(parts), path, from)
    ensures from <= p && OccursAt(path, parts[0], p) && Placeable(NonEmpty(parts[1..]), path, p + |parts[0]|)
  {
    hide NonEmpty, OccursAt, Placeable;
    EmptyPieceFirst(parts);
    if parts[0] == "" {
      p := from;
      assert OccursAt(path, "", p) by {
        EmptyOccurs(path, p);
      }
    } else {
      p := PlaceOfFirst(parts[0], NonEmpty(parts[1..]), path, from);
    }
  }

  lemma EmptyOccurs(path: string, p: nat)
    requires p <= |path|
    ensures OccursAt(path, "", p)
  {
  }

  lemma PlaceOfFirst(first: string, rest: seq<string>, path: string, from: nat) returns (p: nat)
    requires Placeable([first] + rest, path, from)
    ensures from <= p && OccursAt(path, first, p) && Placeable(rest, path, p + |first|)
  {
    var all := [first] + rest;
    assert all[0] == first && all[1..] == rest;
    p :| from <= p && OccursAt(path, all[0], p) && Placeable(all[1..], path, p + |all[0]|);
  }

  /** Pieces placed after a first one make a match, if the last piece is empty. */
  lemma {:induction false} PlacedIsGlob(parts: seq<string>, path: string, from: nat)
    requires |parts| >= 2 && parts[|parts| - 1] == "" && OccursAt(path, parts[0], from)
    requires Placeable(NonEmpty(parts[1..]), path, from + |parts[0]|)
    ensures Glob(parts, path[from..])
  {
    hide Placeable, NonEmpty;
    var rest, p := parts[1..], |path|;
    if |parts| == 2 {
      assert path[p..] == "" && Glob(rest, "");
    } else {
      p := FirstPlace(rest, path, from + |parts[0]|);
      hide Glob;
      PlacedIsGlob(rest, path, p);
    }
    GlobStep(parts, path, from, p);
  }

  lemma {:induction false} GlobEnds(parts: seq<string>, path: string)
    requires |parts| >= 1 && Glob(parts, path)
    ensures var last := parts[|parts| - 1]; |last| <= |path| && path[|path| - |last|..] == last
  {
    if |parts| > 1 {
      var n: nat :| |parts[0]| <= n <= |path| && Glob(parts[1..], path[n..]);
      GlobEnds(parts[1..], path[n..]);
    }
  }

  lemma {:induction false} TwoPieces(pattern: string, sep: char)
    requires Contains(pattern, sep)
    ensures |Split(pattern, sep)| >= 2
  {
    if pattern[0] != sep {
      TwoPieces(pattern[1..], sep);
    }
  }

  /** The pattern is open at both ends, but for the slash every path begins with. */
  ghost predicate OpenEnded(pattern: string) {
    var parts := Split(pattern, '*');
    parts[0] in {"", "/"} && parts[|parts| - 1] == ""
  }

  /** A path around the pattern's own text that its first or last piece does not fit. */
  function Misfit(pattern: string): string {
    var parts := Split(pattern, '*');
    var first, last := parts[0], parts[|parts| - 1];
    "/" + [if |first| >= 2 && first[1] == 'x' then 'y' else 'x'] + pattern
    + [if last != "" && last[|last| - 1] == 'x' then 'y' else 'x']
  }

  lemma MisfitEnds(pattern: string, parts: seq<string>)
    requires parts == Split(pattern, '*') && !OpenEnded(pattern)
    ensures var path, last := Misfit(pattern), parts[|parts| - 1];
            !(StartsWith(path, parts[0]) && |last| <= |path| && path[|path| - |last|..] == last)
  {
    var path, last := Misfit(pattern), parts[|parts| - 1];
    var n, m := |path|, |last|;
    assert |parts[0]| == 1 && parts[0][0] == '/' ==> parts[0] == "/";
    assert path[0] == '/' && (|parts[0]| >= 2 ==> path[1] != parts[0][1]);
    assert m > 0 ==> path[n - 1] != last[m - 1];
    assert 0 < m <= n ==> path[n - m..][m - 1] == path[n - 1];
  }

  lemma MisfitShows(pattern: string)
    requires Contains(pattern, '*') && StripSuffix(pattern, "/*") == None && !OpenEnded(pattern)
    ensures StartsWith(Misfit(pattern), "/") && Accepts(pattern, Misfit(pattern))
    ensures !Glob(Split(pattern, '*'), Misfit(pattern))
  {
    var path, parts := Misfit(pattern), Split(pattern, '*');
    var n := |path|;
    PatternAcceptsItself(pattern);
    PlacementShifts(NonEmpty(parts), path[..2], pattern, path[n - 1..]);
    assert path == path[..2] + pattern + path[n - 1..];
    TwoPieces(pattern, '*');
    assert path[0] == '/' && Normalized(path) == path;
    if Glob(parts, path) {
      GlobEnds(parts, path);
      assert StartsWith(path, parts[0]);
      hide *;
      MisfitEnds(pattern, parts);
    }
  }

  lemma OpenEndedIsGlob(parts: seq<string>, path: string)
    requires |parts| >= 2 && StartsWith(path, "/") && parts[0] in {"", "/"} && parts[|parts| - 1] == ""
    ensures Placeable(NonEmpty(parts), path, 0) <==> Glob(parts, path)
  {
    hide NonEmpty, Glob;
    assert path[0..] == path && OccursAt(path, parts[0], 0);
    if Glob(parts, path) {
      GlobPlaces(parts, path, 0);
    }
    if Placeable(NonEmpty(parts), path, 0) {
      EmptyPieceFirst(parts);
      if parts[0] == "/" {
        assert NonEmpty(parts)[1..] == NonEmpty(parts[1..]);
        LeftmostSuffices(NonEmpty(parts), path, 0);
      }
      PlacedIsGlob(parts, path, 0);
    }
  }

  lemma AcceptsByPlacement(pattern: string, path: string)
    requires Contains(pattern, '*') && StripSuffix(pattern, "/*") == None && StartsWith(path, "/")
    ensures Accepts(pattern, path) <==> Placeable(NonEmpty(Split(pattern, '*')), path, 0)
  {
    hide Split, NonEmpty, Find, IsPlacement, OccursAt;
    assert Normalized(path) == path;
    PlacementAsSequence(NonEmpty(Split(pattern, '*')), path);
  }

  /** The scan is an anchored wildcard match on every path exactly for patterns open at both ends. */
  lemma AnchoredExactly(pattern: string)
    requires Contains(pattern, '*') && StripSuffix(pattern, "/*") == None
    ensures OpenEnded(pattern)
       <==> forall path | StartsWith(path, "/") :: Accepts(pattern, path) <==> Glob(Split(pattern, '*'), path)
  {
    TwoPieces(pattern, '*');
    if OpenEnded(pattern) {
      forall path | StartsWith(path, "/")
        ensures Accepts(pattern, path) <==> Glob(Split(pattern, '*'), path)
      {
        OpenEndedIsGlob(Split(pattern, '*'), path);
        AcceptsByPlacement(pattern, path);
      }
    } else {
      MisfitShows(pattern);
    }
  }
}

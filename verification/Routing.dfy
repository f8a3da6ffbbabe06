/** Endpoint templates: splitting paths, matching a template against a path, and the order in
    which templates are tried (src/HttpServer.cpp:45-146). */
module Routing {
  import opened Wrappers
  import opened Text
  import opened OrderedMaps

  const SLASH := '/'

  // ----- Splitting ------------------------------------------------------------------------

  /** The segments of what follows the first separator; a last empty one is dropped. */
  function Pieces(t: string, sep: char): (segments: seq<string>)
    ensures forall i :: 0 <= i < |segments| ==> sep !in segments[i]
    decreases |t|
  {
    var n := IndexOf(t, sep);
    if n < |t| then [t[..n]] + Pieces(t[n + 1..], sep)
    else if t == "" then []
    else
      assert t[..n] == t;
      [t]
  }

  function Segments(path: string): seq<string>
    requires path != ""
  {
    Pieces(path[1..], SLASH)
  }

  lemma {:induction false} PieceCut(s: string, j: nat, i: nat, sep: char)
    requires j <= i < |s| && s[i] == sep && forall k :: j <= k < i ==> s[k] != sep
    ensures Pieces(s[j..], sep) == [s[j..i]] + Pieces(s[i + 1..], sep)
  {
    assert s[j..] == s[j..i] + ([sep] + s[i + 1..]);
    PiecesCons(s[j..i], s[i + 1..], sep);
  }

  lemma {:induction false} LastPiece(t: string, sep: char)
    requires sep !in t
    ensures Pieces(t, sep) == if t == "" then [] else [t]
  {
    IndexOfAppend(t, sep, "");
    assert t + "" == t && t[..|t|] == t;
  }

  lemma {:induction false} PiecesCons(a: string, rest: string, sep: char)
    requires sep !in a
    ensures Pieces(a + ([sep] + rest), sep) == [a] + Pieces(rest, sep)
  {
    var t := a + ([sep] + rest);
    IndexOfAppend(a, sep, [sep] + rest);
    assert t[..|a|] == a && t[|a| + 1..] == rest;
  }

  lemma {:induction false} PieceTaken(s: string, j: nat, i: nat, sep: char, done: seq<string>)
    requires j <= i < |s| && s[i] == sep && forall k :: j <= k < i ==> s[k] != sep
    ensures done + Pieces(s[j..], sep) == (done + [s[j..i]]) + Pieces(s[i + 1..], sep)
  {
    PieceCut(s, j, i, sep);
    JoinLists(done, [s[j..i]], Pieces(s[i + 1..], sep));
  }

  lemma {:induction false} LastPieceTaken(s: string, j: nat, sep: char, done: seq<string>)
    requires j <= |s| && forall k :: j <= k < |s| ==> s[k] != sep
    ensures done + Pieces(s[j..], sep) == if j == |s| then done else done + [s[j..|s|]]
  {
    LastPiece(s[j..], sep);
    assert done + [] == done && s[j..|s|] == s[j..];
  }

  /** `split`; the precondition is its assertion. */
  method Split(s: string, sep: char) returns (ret: seq<string>)
    requires s != "" && s[0] == sep
    ensures ret == Pieces(s[1..], sep)
  {
    ret := [];
    var j := 1;
    var i := j;
    ghost var all := Pieces(s[1..], sep);
    assert ret + all == all;
    while i < |s|
      invariant 1 <= j <= i <= |s|
      invariant forall k :: j <= k < i ==> s[k] != sep
      invariant all == ret + Pieces(s[j..], sep)
    {
      if s[i] == sep {
        var segment := s[j..i];
        PieceTaken(s, j, i, sep, ret);
        ret := ret + [segment];
        j := i + 1;
      }
      i := i + 1;
    }
    LastPieceTaken(s, j, sep, ret);
    if |s| - j > 0 {
      var last := s[j..|s|];
      ret := ret + [last];
    }
  }

  /** Every segment followed by a separator. */
  function Joined(segments: seq<string>, sep: char): string {
    if segments == [] then "" else segments[0] + ([sep] + Joined(segments[1..], sep))
  }

  /** `path` with a final separator added where it is missing. */
  function Closed(path: string, sep: char): string {
    if path != "" && path[|path| - 1] == sep then path else path + [sep]
  }

  lemma {:induction false} SplitOfJoined(segments: seq<string>, sep: char)
    requires forall i :: 0 <= i < |segments| ==> sep !in segments[i]
    ensures Pieces(Joined(segments, sep), sep) == segments
  {
    if segments != [] {
      SplitOfJoined(segments[1..], sep);
      PiecesCons(segments[0], Joined(segments[1..], sep), sep);
    }
  }

  lemma {:induction false} JoinedCons(a: string, segments: seq<string>, sep: char)
    ensures Joined([a] + segments, sep) == a + ([sep] + Joined(segments, sep))
  {
    assert ([a] + segments)[1..] == segments;
  }

  lemma ClosedAppend(x: string, y: string, sep: char)
    requires y != ""
    ensures Closed(x + y, sep) == x + Closed(y, sep)
  {
    assert (x + y)[|x + y| - 1] == y[|y| - 1];
  }

  lemma {:induction false} JoinedOfSplit(t: string, sep: char)
    ensures [sep] + Joined(Pieces(t, sep), sep) == Closed([sep] + t, sep)
    decreases |t|
  {
    var n := IndexOf(t, sep);
    if n < |t| {
      var a, rest := t[..n], t[n + 1..];
      assert t == a + ([sep] + rest);
      JoinedOfSplit(rest, sep);
      JoinedOfSplitStep(a, rest, sep);
    } else if t != "" {
      assert t[..n] == t;
      JoinedOfLastPiece(t, sep);
    }
  }

  lemma {:induction false} JoinedOfLastPiece(t: string, sep: char)
    requires sep !in t && t != ""
    ensures [sep] + Joined([t], sep) == Closed([sep] + t, sep)
  {
    JoinedCons(t, [], sep);
    assert [t] + [] == [t];
    ClosedAppend([sep], t, sep);
    assert t[|t| - 1] in t;
  }

  lemma {:induction false} JoinedOfSplitStep(a: string, rest: string, sep: char)
    requires sep !in a
    requires [sep] + Joined(Pieces(rest, sep), sep) == Closed([sep] + rest, sep)
    ensures var t := a + ([sep] + rest);
            [sep] + Joined(Pieces(t, sep), sep) == Closed([sep] + t, sep)
  {
    PiecesCons(a, rest, sep);
    JoinedCons(a, Pieces(rest, sep), sep);
    ClosedAppend(a, [sep] + rest, sep);
    ClosedAppend([sep], a + ([sep] + rest), sep);
  }

  lemma SegmentsRejoin(s: string)
    requires s != "" && s[0] == SLASH
    ensures "/" + Joined(Segments(s), SLASH) == Closed(s, SLASH)
  {
    assert s == [SLASH] + s[1..];
    JoinedOfSplit(s[1..], SLASH);
  }

  /** Splitting undoes joining, and forgets nothing but whether the final slash was written. */
  lemma {:induction false} SplitInvertsJoin(s: string, t: string, segments: seq<string>)
    requires s != "" && s[0] == SLASH && t != "" && t[0] == SLASH
    requires forall i :: 0 <= i < |segments| ==> SLASH !in segments[i]
    ensures Segments("/" + Joined(segments, SLASH)) == segments
    ensures "/" + Joined(Segments(s), SLASH) == Closed(s, SLASH)
    ensures Segments(s) == Segments(t) <==> Closed(s, SLASH) == Closed(t, SLASH)
  {
    assert ("/" + Joined(segments, SLASH))[1..] == Joined(segments, SLASH);
    SplitOfJoined(segments, SLASH);
    SegmentsRejoin(s);
    SegmentsRejoin(t);
    if Closed(s, SLASH) == Closed(t, SLASH) {
      SplitOfJoined(Segments(s), SLASH);
      SplitOfJoined(Segments(t), SLASH);
      assert Joined(Segments(s), SLASH) == Closed(s, SLASH)[1..];
      assert Joined(Segments(t), SLASH) == Closed(t, SLASH)[1..];
    }
  }

  // ----- Matching -------------------------------------------------------------------------

  type Params = seq<(string, string)>

  predicate IsWildcard(segment: string) {
    segment != "" && segment[0] == '{'
  }

  /** `substr(1, length() - 2)`: for the one-byte segment the unsigned length wraps, and the
      rest of the segment (nothing) is taken. */
  function ParamName(segment: string): string
    requires IsWildcard(segment)
  {
    if |segment| == 1 then "" else segment[1..|segment| - 1]
  }

  predicate Matches(impl: seq<string>, got: seq<string>) {
    |impl| == |got| && forall i :: 0 <= i < |impl| ==> IsWildcard(impl[i]) || impl[i] == got[i]
  }

  /** The pairs collected while the segments agree; the loop stops at the first that do not. */
  function Bind(impl: seq<string>, got: seq<string>): Params
    requires |impl| == |got|
  {
    if impl == [] then []
    else if IsWildcard(impl[0]) then [(ParamName(impl[0]), got[0])] + Bind(impl[1..], got[1..])
    else if impl[0] == got[0] then Bind(impl[1..], got[1..])
    else []
  }

  lemma BindStep(impl: seq<string>, got: seq<string>, i: nat)
    requires |impl| == |got| && i < |impl|
    ensures var rest := Bind(impl[i + 1..], got[i + 1..]);
      Bind(impl[i..], got[i..]) ==
      if IsWildcard(impl[i]) then [(ParamName(impl[i]), got[i])] + rest
      else if impl[i] == got[i] then rest
      else []
  {
    assert impl[i..][1..] == impl[i + 1..] && got[i..][1..] == got[i + 1..];
  }

  method EndpointMatches(implEndpoint: string, gotEndpoint: string) returns (matches: bool, params: Params)
    requires implEndpoint != "" && implEndpoint[0] == SLASH
    requires gotEndpoint != "" && gotEndpoint[0] == SLASH
    ensures matches == Matches(Segments(implEndpoint), Segments(gotEndpoint))
    ensures matches ==> params == Bind(Segments(implEndpoint), Segments(gotEndpoint))
  {
    var impl := Split(implEndpoint, SLASH);
    var got := Split(gotEndpoint, SLASH);
    params := [];
    if |impl| != |got| {
      return false, params;
    }
    matches, params := SegmentsMatch(impl, got);
  }

  /** The loop of `endpoint_matches`. */
  method SegmentsMatch(impl: seq<string>, got: seq<string>) returns (matches: bool, params: Params)
    requires |impl| == |got|
    ensures matches == Matches(impl, got)
    ensures matches ==> params == Bind(impl, got)
  {
    params := [];
    var i := 0;
    assert impl[0..] == impl && got[0..] == got;
    ghost var left := Bind(impl, got);
    while i < |impl|
      invariant 0 <= i <= |impl|
      invariant forall k :: 0 <= k < i ==> IsWildcard(impl[k]) || impl[k] == got[k]
      invariant left == Bind(impl[i..], got[i..]) && params + left == Bind(impl, got)
    {
      BindStep(impl, got, i);
      left := Bind(impl[i + 1..], got[i + 1..]);
      if IsWildcard(impl[i]) {
        JoinLists(params, [(ParamName(impl[i]), got[i])], left);
        params := params + [(ParamName(impl[i]), got[i])];
      } else if impl[i] != got[i] {
        return false, params;
      }
      i := i + 1;
    }
    matches := true;
  }

  /** The wildcard segments of a template, in order. */
  function Wildcards(impl: seq<string>): seq<string> {
    if impl == [] then []
    else (if IsWildcard(impl[0]) then [impl[0]] else []) + Wildcards(impl[1..])
  }

  /** The template with its wildcards replaced by the given values, in order. */
  function Fill(impl: seq<string>, values: seq<string>): seq<string>
    requires |values| == |Wildcards(impl)|
  {
    if impl == [] then []
    else if IsWildcard(impl[0]) then [values[0]] + Fill(impl[1..], values[1..])
    else [impl[0]] + Fill(impl[1..], values)
  }

  function Values(params: Params): seq<string> {
    seq(|params|, i requires 0 <= i < |params| => params[i].1)
  }

  /** On a match there is one parameter per wildcard, named after it, in order, and putting the
      values back into the template gives the path. */
  lemma {:induction false} MatchBinds(impl: seq<string>, got: seq<string>)
    requires Matches(impl, got)
    ensures var params, wild := Bind(impl, got), Wildcards(impl);
            && |params| == |wild|
            && (forall i :: 0 <= i < |wild| ==> IsWildcard(wild[i]) && params[i].0 == ParamName(wild[i]))
            && Fill(impl, Values(params)) == got
  {
    if impl != [] {
      MatchBinds(impl[1..], got[1..]);
      var rest, wild := Bind(impl[1..], got[1..]), Wildcards(impl[1..]);
      assert got == [got[0]] + got[1..];
      if IsWildcard(impl[0]) {
        ValuesCons(ParamName(impl[0]), got[0], rest);
        assert Wildcards(impl) == [impl[0]] + wild;
      } else {
        assert Wildcards(impl) == wild;
      }
    }
  }

  lemma ValuesCons(name: string, value: string, rest: Params)
    ensures Values([(name, value)] + rest) == [value] + Values(rest)
    ensures ([value] + Values(rest))[1..] == Values(rest)
  {
  }

  /** Every instance of a template matches it and gives the values back. */
  lemma {:induction false} InstanceMatches(impl: seq<string>, values: seq<string>)
    requires |values| == |Wildcards(impl)|
    ensures Matches(impl, Fill(impl, values))
    ensures Values(Bind(impl, Fill(impl, values))) == values
  {
    if impl != [] {
      var got := Fill(impl, values);
      if IsWildcard(impl[0]) {
        InstanceMatches(impl[1..], values[1..]);
        assert got[1..] == Fill(impl[1..], values[1..]);
        assert Values(Bind(impl, got)) == [values[0]] + Values(Bind(impl[1..], got[1..]));
      } else {
        InstanceMatches(impl[1..], values);
        assert got[1..] == Fill(impl[1..], values);
      }
      forall i | 0 <= i < |impl|
        ensures IsWildcard(impl[i]) || impl[i] == got[i]
      {
        if i > 0 {
          assert impl[i] == impl[1..][i - 1] && got[i] == got[1..][i - 1];
        }
      }
    }
  }

  lemma {:induction false} FillHasNoSlash(impl: seq<string>, values: seq<string>)
    requires |values| == |Wildcards(impl)|
    requires forall i :: 0 <= i < |values| ==> SLASH !in values[i]
    requires forall i :: 0 <= i < |impl| ==> SLASH !in impl[i]
    ensures forall i :: 0 <= i < |Fill(impl, values)| ==> SLASH !in Fill(impl, values)[i]
  {
    if impl != [] {
      FillHasNoSlash(impl[1..], if IsWildcard(impl[0]) then values[1..] else values);
    }
  }

  /** The same for whole paths: writing slash-free values into a registered template, with or
      without the final slash, gives a path that matches and yields exactly those values. */
  lemma {:induction false} InstantiatedPathMatches(pattern: string, values: seq<string>, path: string)
    requires pattern != "" && pattern[0] == SLASH && path != "" && path[0] == SLASH
    requires |values| == |Wildcards(Segments(pattern))|
    requires forall i :: 0 <= i < |values| ==> SLASH !in values[i]
    requires Closed(path, SLASH) == "/" + Joined(Fill(Segments(pattern), values), SLASH)
    ensures Matches(Segments(pattern), Segments(path))
    ensures Values(Bind(Segments(pattern), Segments(path))) == values
  {
    var filled := Fill(Segments(pattern), values);
    FillHasNoSlash(Segments(pattern), values);
    var full := "/" + Joined(filled, SLASH);
    assert full[|full| - 1] == SLASH by {
      SplitInvertsJoin(path, path, filled);
    }
    SplitInvertsJoin(path, full, filled);
    InstanceMatches(Segments(pattern), values);
  }

  // ----- Precedence -----------------------------------------------------------------------

  /** What `split` asserts of its argument. */
  predicate Rooted(path: string) {
    path != "" && path[0] == SLASH
  }

  predicate AllRooted<H>(entries: seq<Entry<H>>) {
    forall k :: 0 <= k < |entries| ==> Rooted(entries[k].key)
  }

  predicate MatchesPath(pattern: string, path: string) {
    Rooted(pattern) && Rooted(path) && Matches(Segments(pattern), Segments(path))
  }

  /** The outcome of looking for a handler; the assertion in `split` can fail on the way. */
  datatype Route = NotFound | Found(index: nat) | AssertionFailed

  /** Templates are tried in map order from index `i`. */
  function RouteFrom<H>(entries: seq<Entry<H>>, path: string, i: nat): (r: Route)
    requires i <= |entries|
    ensures r.Found? ==> i <= r.index < |entries| && MatchesPath(entries[r.index].key, path)
    decreases |entries| - i
  {
    if i == |entries| then NotFound
    else if !Rooted(entries[i].key) || !Rooted(path) then AssertionFailed
    else if MatchesPath(entries[i].key, path) then Found(i)
    else RouteFrom(entries, path, i + 1)
  }

  /** The loop of `find_handler` over the handlers registered for one method. */
  method FindInOrder<H>(entries: seq<Entry<H>>, path: string) returns (route: Route, params: Params)
    ensures route == RouteFrom(entries, path, 0)
    ensures route.Found? ==> params == Bind(Segments(entries[route.index].key), Segments(path))
  {
    params := [];
    var i := 0;
    while i < |entries|
      invariant 0 <= i <= |entries|
      invariant RouteFrom(entries, path, 0) == RouteFrom(entries, path, i)
    {
      if !Rooted(entries[i].key) || !Rooted(path) {
        return AssertionFailed, params;
      }
      var matches;
      matches, params := EndpointMatches(entries[i].key, path);
      if matches {
        return Found(i), params;
      }
      i := i + 1;
    }
    route := NotFound;
  }

  /** The first match is the least matching template in byte order. */
  lemma {:induction false} RouteIsLeast<H>(entries: seq<Entry<H>>, path: string, i: nat)
    requires Rooted(path) && AllRooted(entries) && i <= |entries|
    ensures var r := RouteFrom(entries, path, i);
            && !r.AssertionFailed?
            && (r.NotFound? <==> forall k :: i <= k < |entries| ==> !MatchesPath(entries[k].key, path))
            && (r.Found? ==> forall k :: i <= k < r.index ==> !MatchesPath(entries[k].key, path))
    decreases |entries| - i
  {
    if i < |entries| {
      assert Rooted(entries[i].key);
      if !MatchesPath(entries[i].key, path) {
        assert RouteFrom(entries, path, i) == RouteFrom(entries, path, i + 1);
        RouteIsLeast(entries, path, i + 1);
      }
    }
  }

  /** Template `k` is tried, and it or the path makes the assertion in `split` fail. */
  ghost predicate FailsAt<H>(entries: seq<Entry<H>>, path: string, i: nat, k: nat) {
    && i <= k < |entries| && (!Rooted(path) || !Rooted(entries[k].key))
    && forall j :: i <= j < k ==> !MatchesPath(entries[j].key, path)
  }

  ghost predicate Fails<H>(entries: seq<Entry<H>>, path: string, i: nat) {
    exists k: nat :: FailsAt(entries, path, i, k)
  }

  /** The assertion in `split` fails exactly when there is a template to try and the path, or a
      template tried before one matches, does not start with a slash. */
  lemma {:induction false} SplitAssertionExact<H>(entries: seq<Entry<H>>, path: string, i: nat)
    requires i <= |entries|
    ensures RouteFrom(entries, path, i).AssertionFailed? <==> Fails(entries, path, i)
    decreases |entries| - i
  {
    if i < |entries| {
      if !Rooted(entries[i].key) || !Rooted(path) {
        assert FailsAt(entries, path, i, i);
      } else if !MatchesPath(entries[i].key, path) {
        SplitAssertionExact(entries, path, i + 1);
        FailsLater(entries, path, i);
      }
    }
  }

  lemma FailsLater<H>(entries: seq<Entry<H>>, path: string, i: nat)
    requires i < |entries| && Rooted(entries[i].key) && Rooted(path) && !MatchesPath(entries[i].key, path)
    ensures Fails(entries, path, i) <==> Fails(entries, path, i + 1)
  {
    if Fails(entries, path, i) {
      var k: nat :| FailsAt(entries, path, i, k);
      assert FailsAt(entries, path, i + 1, k);
    }
    if Fails(entries, path, i + 1) {
      var k: nat :| FailsAt(entries, path, i + 1, k);
      assert FailsAt(entries, path, i, k);
    }
  }

  // ----- Templates as they are written ----------------------------------------------------

  /** A segment of a template: a text, or a name in braces. */
  datatype Part = Literal(text: string) | Named(name: string)

  predicate Plain(part: Part) {
    part.Literal? ==> part.text == "" || part.text[0] != '{'
  }

  function WrittenPart(part: Part): string {
    match part
    case Literal(text) => text
    case Named(name) => "{" + (name + "}")
  }

  function WrittenParts(parts: seq<Part>): (segments: seq<string>)
    ensures |segments| == |parts|
  {
    if parts == [] then [] else [WrittenPart(parts[0])] + WrittenParts(parts[1..])
  }

  /** Each name with the segment the path has in its place. */
  function NamedSegments(parts: seq<Part>, got: seq<string>): Params
    requires |parts| == |got|
  {
    if parts == [] then []
    else (if parts[0].Named? then [(parts[0].name, got[0])] else []) + NamedSegments(parts[1..], got[1..])
  }

  lemma NameInBraces(name: string)
    ensures var s := "{" + (name + "}"); IsWildcard(s) && ParamName(s) == name
  {
    var s := "{" + (name + "}");
    assert s[1..|s| - 1] == name;
  }

  lemma {:induction false} PartsBind(parts: seq<Part>, got: seq<string>)
    requires (forall i :: 0 <= i < |parts| ==> Plain(parts[i])) && Matches(WrittenParts(parts), got)
    ensures Bind(WrittenParts(parts), got) == NamedSegments(parts, got)
  {
    if parts != [] {
      var impl := WrittenParts(parts);
      assert impl[0] == WrittenPart(parts[0]) && impl[1..] == WrittenParts(parts[1..]);
      assert Plain(parts[0]);
      PartsBind(parts[1..], got[1..]);
      if parts[0].Named? {
        NameInBraces(parts[0].name);
      }
    }
  }

  /** A template of literals and {names} binds, on a match, exactly each name to the segment the
      path has in its place, in order. */
  lemma {:induction false} NamesAreBound(pattern: string, parts: seq<Part>, path: string)
    requires MatchesPath(pattern, path)
    requires forall i :: 0 <= i < |parts| ==> Plain(parts[i]) && SLASH !in WrittenPart(parts[i])
    requires Closed(pattern, SLASH) == "/" + Joined(WrittenParts(parts), SLASH)
    ensures |parts| == |Segments(path)|
    ensures Bind(Segments(pattern), Segments(path)) == NamedSegments(parts, Segments(path))
  {
    WrittenHaveNoSlash(parts);
    var full := "/" + Joined(WrittenParts(parts), SLASH);
    assert full[|full| - 1] == SLASH;
    SplitInvertsJoin(pattern, full, WrittenParts(parts));
    PartsBind(parts, Segments(path));
  }

  lemma {:induction false} WrittenHaveNoSlash(parts: seq<Part>)
    requires forall i :: 0 <= i < |parts| ==> SLASH !in WrittenPart(parts[i])
    ensures forall i :: 0 <= i < |parts| ==> SLASH !in WrittenParts(parts)[i]
  {
    if parts != [] {
      WrittenHaveNoSlash(parts[1..]);
    }
  }

  lemma {:induction false} FirstPiece(t: string)
    requires Pieces(t, SLASH) != []
    ensures var n, p := IndexOf(t, SLASH), Pieces(t, SLASH);
            && t != "" && p[0] == t[..n]
            && t[0] == (if p[0] == "" then SLASH else p[0][0])
            && (|p| > 1 ==> n < |t| && p[1..] == Pieces(t[n + 1..], SLASH))
  {
    assert t[..|t|] == t;
  }

  lemma {:induction false} SameFirstPiece(a: string, b: string, n: nat)
    requires n < |a| && n < |b| && a[..n] == b[..n] && a[n] == b[n]
    ensures Less(a, b) <==> Less(a[n + 1..], b[n + 1..])
    ensures Less(b, a) <==> Less(b[n + 1..], a[n + 1..])
  {
    assert a[..n + 1] == a[..n] + [a[n]];
    assert b[..n + 1] == b[..n] + [b[n]];
    LessAfterPrefix(a, b, n + 1);
    LessAfterPrefix(b, a, n + 1);
  }

  /** `i` is the first segment where `p` has a literal and `q` a wildcard; they agree before. */
  predicate LiteralAgainstWildcard(p: seq<string>, q: seq<string>, i: nat) {
    i < |p| && i < |q| && p[..i] == q[..i] && !IsWildcard(p[i]) && IsWildcard(q[i])
  }

  lemma StripFirst(p: seq<string>, q: seq<string>, i: nat)
    requires LiteralAgainstWildcard(p, q, i) && i > 0
    ensures p[0] == q[0] && LiteralAgainstWildcard(p[1..], q[1..], i - 1)
  {
    assert p[0] == p[..i][0] == q[..i][0] == q[0];
    assert p[1..][..i - 1] == p[..i][1..] == q[..i][1..] == q[1..][..i - 1];
  }

  lemma StripFirstPiece(a: string, b: string, i: nat) returns (n: nat)
    requires LiteralAgainstWildcard(Pieces(a, SLASH), Pieces(b, SLASH), i) && i > 0
    ensures n < |a| && n < |b| && Pieces(a[n + 1..], SLASH) == Pieces(a, SLASH)[1..]
    ensures LiteralAgainstWildcard(Pieces(a[n + 1..], SLASH), Pieces(b[n + 1..], SLASH), i - 1)
    ensures Less(a, b) <==> Less(a[n + 1..], b[n + 1..])
    ensures Less(b, a) <==> Less(b[n + 1..], a[n + 1..])
  {
    FirstPiece(a);
    FirstPiece(b);
    StripFirst(Pieces(a, SLASH), Pieces(b, SLASH), i);
    n := IndexOf(a, SLASH);
    assert |a[..n]| == |b[..IndexOf(b, SLASH)]|;
    SameFirstPiece(a, b, n);
  }

  /** At the first segment where two templates differ, a literal sorts before a wildcard exactly
      when it is empty or starts with a byte below '{'. */
  lemma {:induction false} LiteralBeforeWildcard(a: string, b: string, i: nat)
    requires LiteralAgainstWildcard(Pieces(a, SLASH), Pieces(b, SLASH), i)
    ensures Less(a, b) <==> Pieces(a, SLASH)[i] == "" || Pieces(a, SLASH)[i][0] < '{'
    ensures Less(b, a) <==> !Less(a, b)
    decreases i
  {
    if i == 0 {
      FirstPiece(a);
      FirstPiece(b);
    } else {
      var n := StripFirstPiece(a, b, i);
      LiteralBeforeWildcard(a[n + 1..], b[n + 1..], i - 1);
    }
  }

  /** So of two registered templates that match a path, the literal one wins exactly then; with a
      literal from '|' upwards (any non-ASCII byte, say) the wildcard wins instead. */
  lemma {:induction false} LiteralWins<H>(entries: seq<Entry<H>>, path: string, x: nat, y: nat, i: nat)
    requires Sorted(entries) && AllRooted(entries) && x < |entries| && y < |entries|
    requires MatchesPath(entries[x].key, path) && MatchesPath(entries[y].key, path)
    requires LiteralAgainstWildcard(Segments(entries[x].key), Segments(entries[y].key), i)
    ensures var literal := Segments(entries[x].key)[i];
      RouteFrom(entries, path, 0) !=
      if literal == "" || literal[0] < '{' then Found(y) else Found(x)
  {
    var a, b := entries[x].key, entries[y].key;
    LiteralBeforeWildcard(a[1..], b[1..], i);
    LessAfterPrefix(a, b, 1);
    LessAfterPrefix(b, a, 1);
    LessIrreflexive(a);
    if y < x {
      assert Less(b, a);
    } else if x < y {
      assert Less(a, b);
    }
    RouteIsLeast(entries, path, 0);
  }
}

/** Choosing the server and the location for a request (normalize_path and match_location,
    srcs/ReqRes/RequestParser.cpp:565-644). */
module Routing {
  import opened Text
  import opened ConfigTypes

  // ---------------------------------------------------------------- collapsing slashes

  function CollapseAfter(slash: bool, p: string): string
    decreases |p|
  {
    if p == "" then ""
    else if p[0] == '/' then (if slash then "" else "/") + CollapseAfter(true, p[1..])
    else [p[0]] + CollapseAfter(false, p[1..])
  }

  /** normalize_path. */
  function Collapse(p: string): string { CollapseAfter(false, p) }

  lemma CollapseStep(done: string, slash: bool, path: string, i: nat)
    requires i < |path|
    ensures done + CollapseAfter(slash, path[i..]) ==
            done + (if path[i] == '/' && slash then "" else [path[i]]) + CollapseAfter(path[i] == '/', path[i + 1..])
  {
    assert path[i..][1..] == path[i + 1..];
  }

  lemma CollapseEdges(path: string, done: string)
    ensures "" + CollapseAfter(false, path[0..]) == Collapse(path)
    ensures forall slash :: done + CollapseAfter(slash, path[|path|..]) == done
  {
    assert path[0..] == path && "" + CollapseAfter(false, path) == CollapseAfter(false, path);
    assert path[|path|..] == "" && done + "" == done;
  }

  method NormalizePath(path: string) returns (result: string)
    ensures result == Collapse(path)
  {
    hide CollapseAfter;
    result := "";
    var lastWasSlash := false;
    CollapseEdges(path, "");
    for i := 0 to |path|
      invariant Collapse(path) == result + CollapseAfter(lastWasSlash, path[i..])
    {
      CollapseStep(result, lastWasSlash, path, i);
      if path[i] == '/' {
        if !lastWasSlash {
          result := result + ['/'];
          lastWasSlash := true;
        }
      } else {
        result := result + [path[i]];
        lastWasSlash := false;
      }
    }
    CollapseEdges(path, result);
  }

  predicate NoDoubleSlash(p: string) {
    forall i :: 0 <= i < |p| - 1 ==> p[i] != '/' || p[i + 1] != '/'
  }

  lemma {:induction false} CollapsedShape(slash: bool, p: string)
    ensures var c := CollapseAfter(slash, p);
            NoDoubleSlash(c) && |c| <= |p| && (slash && c != "" ==> c[0] != '/')
    decreases |p|
  {
    if p != "" { CollapsedShape(p[0] == '/', p[1..]); }
  }

  lemma {:induction false} CollapseKeeps(slash: bool, p: string)
    requires NoDoubleSlash(p) && (slash && p != "" ==> p[0] != '/')
    ensures CollapseAfter(slash, p) == p
    decreases |p|
  {
    if p != "" {
      CollapseKeeps(p[0] == '/', p[1..]);
      assert p == [p[0]] + p[1..];
    }
  }

  /** The non-empty segments of a path, with `segment` already read. */
  function Segments(segment: string, p: string): seq<string>
    decreases |p|
  {
    if p == "" then (if segment == "" then [] else [segment])
    else if p[0] == '/' then (if segment == "" then [] else [segment]) + Segments("", p[1..])
    else Segments(segment + [p[0]], p[1..])
  }

  lemma {:induction false} CollapseSegments(segment: string, slash: bool, p: string)
    requires slash ==> segment == ""
    ensures Segments(segment, CollapseAfter(slash, p)) == Segments(segment, p)
    decreases |p|
  {
    if p != "" {
      var c := CollapseAfter(p[0] == '/', p[1..]);
      if p[0] == '/' {
        CollapseSegments("", true, p[1..]);
        if slash { assert "" + c == c; } else { assert ("/" + c)[1..] == c; }
      } else {
        CollapseSegments(segment + [p[0]], false, p[1..]);
        assert ([p[0]] + c)[1..] == c;
      }
    }
  }

  predicate Starts(p: string) { p != "" && p[0] == '/' }

  predicate Ends(p: string) { p != "" && p[|p| - 1] == '/' }

  lemma {:induction false} CollapseEnds(slash: bool, p: string)
    ensures CollapseAfter(slash, p) != "" ==> (Ends(CollapseAfter(slash, p)) <==> Ends(p))
    ensures CollapseAfter(slash, p) == "" ==> p == "" || (slash && Ends(p))
    decreases |p|
  {
    if p != "" {
      var c := CollapseAfter(p[0] == '/', p[1..]);
      CollapseEnds(p[0] == '/', p[1..]);
      EndsOfTail(p);
      if c != "" {
        assert ([p[0]] + c)[|c|] == c[|c| - 1];
      }
    }
  }

  lemma EndsOfTail(p: string)
    requires p != ""
    ensures Ends(p) <==> if p[1..] == "" then p[0] == '/' else Ends(p[1..])
  {
  }

  /** Collapsing gives a path without double slashes, leaves exactly such paths as they are, and keeps everything else:
      the non-empty segments in their order, and whether a slash stands at either end. */
  lemma CollapseExactly(p: string)
    ensures NoDoubleSlash(Collapse(p)) && |Collapse(p)| <= |p|
    ensures Collapse(p) == p <==> NoDoubleSlash(p)
    ensures Collapse(Collapse(p)) == Collapse(p)
    ensures Segments("", Collapse(p)) == Segments("", p)
    ensures Starts(Collapse(p)) == Starts(p) && Ends(Collapse(p)) == Ends(p)
  {
    CollapseSegments("", false, p);
    CollapseEnds(false, p);
    CollapsedShape(false, p);
    CollapseKeeps(false, Collapse(p));
    if NoDoubleSlash(p) { CollapseKeeps(false, p); }
  }

  // ---------------------------------------------------------------- the longest prefix

  /** A path the loop may pick: a non-empty prefix of the URI, or the URI itself. */
  predicate Candidate(path: string, uri: string) {
    path <= uri && (path != "" || uri == "")
  }

  /** The simple search: keep the longest candidate so far, the earlier one on equal length. */
  function Best(paths: seq<string>, uri: string): (r: Option<nat>)
    ensures r.Some? ==> r.value < |paths|
    decreases |paths|
  {
    if paths == [] then None
    else
      var n := |paths| - 1;
      var b := Best(paths[..n], uri);
      if Candidate(paths[n], uri) && (b.None? || |paths[b.value]| < |paths[n]|) then Some(n) else b
  }

  /** It is the argmax: the first of the longest candidates, and None exactly when there is no candidate. */
  lemma {:induction false} BestIsLongest(paths: seq<string>, uri: string)
    ensures var b := Best(paths, uri);
            && (b.Some? ==>
                  && Candidate(paths[b.value], uri)
                  && (forall j :: 0 <= j < |paths| && Candidate(paths[j], uri) ==> |paths[j]| <= |paths[b.value]|)
                  && (forall j :: 0 <= j < b.value && Candidate(paths[j], uri) ==> |paths[j]| < |paths[b.value]|))
            && (b.None? ==> forall j :: 0 <= j < |paths| ==> !Candidate(paths[j], uri))
    decreases |paths|
  {
    if paths != [] {
      var n := |paths| - 1;
      BestIsLongest(paths[..n], uri);
      assert forall j :: 0 <= j < n ==> paths[j] == paths[..n][j];
    }
  }

  /** Nothing after an exact match can beat it: why the loop may stop there. */
  lemma {:induction false} ExactEndsSearch(paths: seq<string>, uri: string, i: nat)
    requires i < |paths| && paths[i] == uri && Best(paths[..i + 1], uri) == Some(i)
    ensures Best(paths, uri) == Some(i)
    decreases |paths|
  {
    var n := |paths| - 1;
    if i == n {
      assert paths[..i + 1] == paths;
    } else {
      assert paths[..n][..i + 1] == paths[..i + 1];
      ExactEndsSearch(paths[..n], uri, i);
    }
  }

  function Paths(locations: seq<Location>): (ps: seq<string>)
    ensures |ps| == |locations| && forall i :: 0 <= i < |ps| ==> ps[i] == Collapse(locations[i].location)
  {
    seq(|locations|, i requires 0 <= i < |locations| => Collapse(locations[i].location))
  }

  lemma BestStep(paths: seq<string>, uri: string, i: nat)
    requires i < |paths|
    ensures var b := Best(paths[..i], uri);
            Best(paths[..i + 1], uri) ==
            if Candidate(paths[i], uri) && (b.None? || |paths[b.value]| < |paths[i]|) then Some(i) else b
  {
    assert paths[..i + 1][..i] == paths[..i];
  }

  /** The search of match_location, with its early exit. */
  method SearchLocation(locations: seq<Location>, uri: string) returns (r: Option<nat>)
    ensures r == Best(Paths(locations), uri)
  {
    hide Best;
    ghost var paths := Paths(locations);
    assert Best(paths[..0], uri).None?;
    var bestMatchLength := 0;
    var bestPrefixMatch: Option<nat> := None;
    for i := 0 to |locations|
      invariant bestPrefixMatch == Best(paths[..i], uri)
      invariant bestMatchLength == if bestPrefixMatch.Some? then |paths[bestPrefixMatch.value]| else 0
      invariant forall j :: 0 <= j < i ==> paths[j] != uri
    {
      var normalized := NormalizePath(locations[i].location);
      BestStep(paths, uri, i);
      BestShorter(paths[..i], uri);
      BestIsLongest(paths[..i], uri);
      if uri == normalized {
        ExactEndsSearch(paths, uri, i);
        return Some(i);
      }
      if normalized <= uri && |normalized| > bestMatchLength {
        bestMatchLength := |normalized|;
        bestPrefixMatch := Some(i);
      }
    }
    assert paths[..|paths|] == paths;
    return bestPrefixMatch;
  }

  lemma BestShorter(paths: seq<string>, uri: string)
    requires forall j :: 0 <= j < |paths| ==> paths[j] != uri
    ensures Best(paths, uri).Some? ==> |paths[Best(paths, uri).value]| < |uri|
  {
    BestIsLongest(paths, uri);
    if Best(paths, uri).Some? {
      var p := paths[Best(paths, uri).value];
      assert |p| == |uri| ==> p == uri;
    }
  }

  /** The location itself. */
  function Chosen(locations: seq<Location>, uri: string): Option<Location> {
    match Best(Paths(locations), uri)
    case None => None
    case Some(i) => Some(locations[i])
  }

  predicate DistinctPaths(locations: seq<Location>) {
    forall i, j :: 0 <= i < j < |locations| ==> Collapse(locations[i].location) != Collapse(locations[j].location)
  }

  /** The order of the location blocks does not matter as long as their paths differ. */
  lemma OrderDoesNotMatter(a: seq<Location>, b: seq<Location>, uri: string)
    requires multiset(a) == multiset(b) && DistinctPaths(a) && DistinctPaths(b)
    ensures Chosen(a, uri) == Chosen(b, uri)
  {
    BestIsLongest(Paths(a), uri);
    BestIsLongest(Paths(b), uri);
    var i, j := Best(Paths(a), uri), Best(Paths(b), uri);
    if i.Some? { OtherIndex(a, b, i.value); }
    if j.Some? { OtherIndex(b, a, j.value); }
    if i.Some? && j.Some? {
      assert Paths(a)[i.value] == Paths(b)[j.value];
    }
  }

  lemma OtherIndex(a: seq<Location>, b: seq<Location>, i: nat)
    requires multiset(a) == multiset(b) && i < |a|
    ensures exists j :: 0 <= j < |b| && b[j] == a[i]
  {
    assert a[i] in multiset(a);
    assert a[i] in multiset(b);
  }

  // ---------------------------------------------------------------- the server

  function HostName(headers: map<string, string>): string {
    var host := if "host" in headers then headers["host"] else "";
    match Find(host, ":", 0) case Some(k) => host[..k] case None => host
  }

  /** The Host value without its port. */
  lemma HostNameOnly(headers: map<string, string>, name: string, port: string)
    requires ':' !in name && (port == "" || port[0] == ':')
    requires "host" in headers && headers["host"] == name + port
    ensures HostName(headers) == name
  {
    hide Find;
    hide At;
    if port == "" {
      FindCharAbsent(name, ':');
      assert name + port == name;
    } else {
      FindChar(name, ':', port[1..]);
      assert name + port == name + [':'] + port[1..];
      assert (name + port)[..|name|] == name;
    }
  }

  lemma NoHostName(headers: map<string, string>)
    requires "host" !in headers
    ensures HostName(headers) == ""
  {
    FindCharAbsent("", ':');
  }

  /** The last server that lists the host name, or the first server. */
  ghost predicate ServerFor(servers: seq<ServerConfig>, host: string, i: nat) {
    && i < |servers|
    && (host in servers[i].serverNames || (i == 0 && forall j :: 0 <= j < |servers| ==>
          host !in servers[j].serverNames))
    && forall j :: i < j < |servers| ==> host !in servers[j].serverNames
  }

  function PickServer(servers: seq<ServerConfig>, host: string): (i: nat)
    requires servers != []
    ensures ServerFor(servers, host, i)
    decreases |servers|
  {
    var n := |servers| - 1;
    if n == 0 || host in servers[n].serverNames then n
    else
      assert forall j :: 0 <= j < n ==> servers[j] == servers[..n][j];
      PickServer(servers[..n], host)
  }

  lemma ServerUnique(servers: seq<ServerConfig>, host: string, i: nat, j: nat)
    requires ServerFor(servers, host, i) && ServerFor(servers, host, j)
    ensures i == j
  {
  }

  method SearchServer(servers: seq<ServerConfig>, host: string) returns (i: nat)
    requires servers != []
    ensures i == PickServer(servers, host)
  {
    i := 0;
    for k := 0 to |servers|
      invariant i < |servers|
      invariant if exists j :: 0 <= j < k && host in servers[j].serverNames
                then i < k && host in servers[i].serverNames && forall j :: i < j < k ==>
                    host !in servers[j].serverNames
                else i == 0
    {
      if host in servers[k].serverNames {
        i := k;
      }
    }
    ServerUnique(servers, host, i, PickServer(servers, host));
  }
}

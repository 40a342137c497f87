/** web/src/readerRoutes.ts: printing the Reader's paths and reading them back. */
module ReaderRoutes {
  import opened Wrappers
  import opened PercentCoding

  datatype Surface = Today | Wiki | Tasks | Graph | Inbox

  datatype RouteMatch = RouteMatch(orgSlug: string, projectSlug: string, surface: Surface, slug: Option<string>,
      legacyProjectRoute: bool)

  const DEFAULT_ORG := "default"

  function SurfaceText(surface: Surface): string {
    match surface
    case Today => "today"
    case Wiki => "wiki"
    case Tasks => "tasks"
    case Graph => "graph"
    case Inbox => "inbox"
  }

  /** normalizeReaderSurfaceSegment. */
  function NormalizeSurface(segment: string): Option<Surface> {
    if segment == "" then None
    else if segment == "task" || segment == "tasks" then Some(Tasks)
    else if segment == "today" then Some(Today)
    else if segment == "wiki" then Some(Wiki)
    else if segment == "graph" then Some(Graph)
    else if segment == "inbox" then Some(Inbox)
    else None
  }

  /** A text the caller gave, where the empty one counts as none. */
  function Given(s: Option<string>): Option<string> {
    if s.Some? && s.value == "" then None else s
  }

  function Segment(s: Option<string>): string {
    match Given(s) case Some(t) => "/" + Encode(t) case None => ""
  }

  function ProjectSurfacePath(project: string, surface: Surface, slug: Option<string>, org: Option<string>): string {
    Segment(org) + "/p/" + Encode(project) + "/" + SurfaceText(surface) + Segment(slug)
  }

  // ----- reading a path --------------------------------------------------------------------

  /** pathname.split(/[?#]/, 1). */
  function PathOnly(s: string): string {
    if s == "" || s[0] == '?' || s[0] == '#' then "" else [s[0]] + PathOnly(s[1..])
  }

  function StripLeft(s: string): string {
    if s != "" && s[0] == '/' then StripLeft(s[1..]) else s
  }

  function StripRight(s: string): string {
    if s != "" && s[|s| - 1] == '/' then StripRight(s[..|s| - 1]) else s
  }

  /** split("/"). */
  function SplitSlash(s: string): (r: seq<string>)
    ensures r != []
  {
    if s == "" then [""]
    else
      var rest := SplitSlash(s[1..]);
      if s[0] == '/' then [""] + rest else [[s[0]] + rest[0]] + rest[1..]
  }

  /** filter(Boolean). */
  function NonEmpty(parts: seq<string>): seq<string> {
    if parts == [] then []
    else if parts[0] == "" then NonEmpty(parts[1..]) else [parts[0]] + NonEmpty(parts[1..])
  }

  function PartsOf(pathname: string): seq<string> {
    NonEmpty(SplitSlash(StripRight(StripLeft(PathOnly(pathname)))))
  }

  function SlugAt(parts: seq<string>, i: nat): Option<string> {
    if i < |parts| && parts[i] != "" then Some(SafeDecode(parts[i])) else None
  }

  function MatchParts(parts: seq<string>): Option<RouteMatch> {
    if |parts| < 3 then None
    else if parts[0] == "p" then
      match NormalizeSurface(parts[2])
      case None => None
      case Some(surface) => Some(RouteMatch(DEFAULT_ORG, SafeDecode(parts[1]), surface, SlugAt(parts, 3), true))
    else if |parts| >= 4 && parts[1] == "p" then
      match NormalizeSurface(parts[3])
      case None => None
      case Some(surface) =>
        Some(RouteMatch(SafeDecode(parts[0]), SafeDecode(parts[2]), surface, SlugAt(parts, 4), false))
    else None
  }

  function MatchReaderRoutePath(pathname: string): Option<RouteMatch> {
    MatchParts(PartsOf(pathname))
  }

  // ----- printed paths split into their parts ---------------------------------------------------

  predicate Slashless(s: string) {
    forall i :: 0 <= i < |s| ==> s[i] != '/' && s[i] != '?' && s[i] != '#'
  }

  function Render(parts: seq<string>): string {
    if parts == [] then "" else "/" + parts[0] + Render(parts[1..])
  }

  ghost predicate AllSlashless(parts: seq<string>) {
    forall i :: 0 <= i < |parts| ==> Slashless(parts[i])
  }

  lemma {:induction false} SplitPart(a: string, t: string)
    requires Slashless(a) && (t == "" || t[0] == '/')
    ensures SplitSlash(a + t) == [a] + (if t == "" then [] else SplitSlash(t[1..]))
  {
    if a == "" {
      assert a + t == t;
    } else {
      assert (a + t)[1..] == a[1..] + t && (a + t)[0] == a[0];
      SplitPart(a[1..], t);
      assert [a[0]] + a[1..] == a;
    }
  }

  lemma {:induction false} SplitRendered(parts: seq<string>)
    requires AllSlashless(parts)
    ensures SplitSlash(Render(parts)) == [""] + parts
  {
    if parts != [] {
      var a, t := parts[0], Render(parts[1..]);
      SplitRendered(parts[1..]);
      SplitPart(a, t);
      var s := "/" + a + t;
      assert s[0] == '/' && s[1..] == a + t;
      assert t != "" ==> SplitSlash(t)[1..] == parts[1..];
      assert t == "" ==> parts[1..] == [];
      assert t != "" ==> SplitSlash(t) == [""] + SplitSlash(t[1..]);
      assert parts == [a] + parts[1..];
    }
  }

  lemma {:induction false} NoQuery(s: string)
    requires forall i :: 0 <= i < |s| ==> s[i] != '?' && s[i] != '#'
    ensures PathOnly(s) == s
  {
    if s != "" {
      NoQuery(s[1..]);
      assert s == [s[0]] + s[1..];
    }
  }

  lemma {:induction false} RenderedPlain(parts: seq<string>)
    requires AllSlashless(parts)
    ensures forall i :: 0 <= i < |Render(parts)| ==> Render(parts)[i] != '?' && Render(parts)[i] != '#'
  {
    if parts != [] {
      RenderedPlain(parts[1..]);
    }
  }

  lemma {:induction false} NonEmptyJoined(a: seq<string>, b: seq<string>)
    ensures NonEmpty(a + b) == NonEmpty(a) + NonEmpty(b)
  {
    if a == [] {
      assert a + b == b;
    } else {
      assert (a + b)[1..] == a[1..] + b;
      NonEmptyJoined(a[1..], b);
    }
  }

  /** Outer slashes only make empty parts, which are dropped anyway. */
  lemma {:induction false} StripLeftKeeps(s: string)
    ensures NonEmpty(SplitSlash(StripLeft(s))) == NonEmpty(SplitSlash(s))
  {
    if s != "" && s[0] == '/' {
      StripLeftKeeps(s[1..]);
      assert ([""] + SplitSlash(s[1..]))[1..] == SplitSlash(s[1..]);
    }
  }

  lemma {:induction false} SplitTrailing(s: string)
    ensures SplitSlash(s + "/") == SplitSlash(s) + [""]
  {
    if s == "" {
      assert s + "/" == "/" && "/"[1..] == "";
    } else {
      assert (s + "/")[1..] == s[1..] + "/" && (s + "/")[0] == s[0];
      SplitTrailing(s[1..]);
    }
  }

  lemma {:induction false} StripRightKeeps(s: string)
    ensures NonEmpty(SplitSlash(StripRight(s))) == NonEmpty(SplitSlash(s))
  {
    if s != "" && s[|s| - 1] == '/' {
      var front := s[..|s| - 1];
      StripRightKeeps(front);
      assert s == front + "/";
      SplitTrailing(front);
      NonEmptyJoined(SplitSlash(front), [""]);
    }
  }

  /** A printed path reads back as its nonempty parts. */
  lemma PartsOfRendered(parts: seq<string>)
    requires AllSlashless(parts)
    ensures PartsOf(Render(parts)) == NonEmpty(parts)
  {
    var s := Render(parts);
    RenderedPlain(parts);
    NoQuery(s);
    StripLeftKeeps(s);
    StripRightKeeps(StripLeft(s));
    SplitRendered(parts);
    assert ([""] + parts)[1..] == parts;
  }

  // ----- the round trip -------------------------------------------------------------------------

  function Part(s: Option<string>): seq<string> {
    match Given(s) case Some(t) => [Encode(t)] case None => []
  }

  function PathParts(project: string, surface: Surface, slug: Option<string>, org: Option<string>): seq<string> {
    Part(org) + ["p", Encode(project), SurfaceText(surface)] + Part(slug)
  }

  lemma EncodeSlashless(s: string)
    ensures Slashless(Encode(s))
  {
    EncodePlain(s);
    forall i | 0 <= i < |Encode(s)| ensures Encode(s)[i] != '/' && Encode(s)[i] != '?' && Encode(s)[i] != '#' {
      assert Plain(Encode(s)[i]);
    }
  }

  lemma SurfaceSlashless(surface: Surface)
    ensures Slashless(SurfaceText(surface)) && SurfaceText(surface) != ""
  {
  }

  lemma SurfaceRoundTrips(surface: Surface)
    ensures NormalizeSurface(SurfaceText(surface)) == Some(surface)
  {
    var text := SurfaceText(surface);
    assert surface == Today ==> text[1] == 'o';
    assert surface == Tasks ==> |text| == 5 && text[1] == 'a';
    assert surface == Wiki ==> text[0] == 'w';
    assert surface == Graph ==> text[0] == 'g';
    assert surface == Inbox ==> text[0] == 'i';
  }

  lemma PartSlashless(s: Option<string>)
    ensures AllSlashless(Part(s)) && forall i :: 0 <= i < |Part(s)| ==> Part(s)[i] != ""
  {
    if Given(s).Some? {
      EncodeSlashless(s.value);
      EncodePlain(s.value);
    }
  }

  lemma {:induction false} RenderJoined(a: seq<string>, b: seq<string>)
    ensures Render(a + b) == Render(a) + Render(b)
  {
    if a == [] {
      assert a + b == b;
    } else {
      assert (a + b)[1..] == a[1..] + b;
      RenderJoined(a[1..], b);
    }
  }

  lemma RenderOne(x: string)
    ensures Render([x]) == "/" + x
  {
    assert [x][1..] == [];
  }

  lemma RenderThree(x: string, y: string, z: string)
    ensures Render([x, y, z]) == "/" + x + "/" + y + "/" + z
  {
    assert [x, y, z] == [x] + [y] + [z];
    RenderJoined([x] + [y], [z]);
    RenderJoined([x], [y]);
    RenderOne(x);
    RenderOne(y);
    RenderOne(z);
  }

  lemma Middle(org: string, project: string, surface: string)
    ensures org + "/p/" + project + "/" + surface == org + Render(["p", project, surface])
  {
    var p, slash, m := "p", "/", "/p/";
    RenderThree(p, project, surface);
    assert m == slash + p + slash;
    var rest := project + slash + surface;
    assert slash + p + slash + project + slash + surface == m + rest;
    assert org + m + project + slash + surface == org + (m + rest);
  }

  lemma PathIsRendered(project: string, surface: Surface, slug: Option<string>, org: Option<string>)
    ensures ProjectSurfacePath(project, surface, slug, org) == Render(PathParts(project, surface, slug, org))
  {
    var middle := ["p", Encode(project), SurfaceText(surface)];
    RenderJoined(Part(org) + middle, Part(slug));
    RenderJoined(Part(org), middle);
    SegmentIsPart(org);
    SegmentIsPart(slug);
    Middle(Segment(org), Encode(project), SurfaceText(surface));
  }

  lemma PathSlashless(project: string, surface: Surface, slug: Option<string>, org: Option<string>)
    ensures AllSlashless(PathParts(project, surface, slug, org))
  {
    PartSlashless(org);
    PartSlashless(slug);
    EncodeSlashless(project);
    SurfaceSlashless(surface);
    var p := "p";
    assert Slashless(p);
  }

  lemma SegmentIsPart(s: Option<string>)
    ensures Segment(s) == Render(Part(s))
  {
    if Given(s).Some? {
      RenderOne(Encode(s.value));
    }
  }

  /** What reading the printed path back should give. */
  function Expected(project: string, surface: Surface, slug: Option<string>, org: Option<string>): RouteMatch {
    match Given(org)
    case Some(o) => RouteMatch(o, project, surface, Given(slug), false)
    case None => RouteMatch(DEFAULT_ORG, project, surface, Given(slug), true)
  }

  lemma {:induction false} AllStay(parts: seq<string>)
    requires forall i :: 0 <= i < |parts| ==> parts[i] != ""
    ensures NonEmpty(parts) == parts
  {
    if parts != [] {
      AllStay(parts[1..]);
      assert parts == [parts[0]] + parts[1..];
    }
  }

  lemma {:induction false} NoneEmpty(parts: seq<string>)
    ensures forall i :: 0 <= i < |NonEmpty(parts)| ==> NonEmpty(parts)[i] != ""
  {
    if parts != [] {
      NoneEmpty(parts[1..]);
    }
  }

  lemma SafeDecodeEncoded(s: string)
    ensures SafeDecode(Encode(s)) == s
  {
    EncodeRoundTrips(s);
  }

  lemma SafeDecodeNonempty(s: string)
    requires s != ""
    ensures SafeDecode(s) != ""
  {
  }

  lemma SlugRoundTrips(front: seq<string>, slug: Option<string>)
    ensures SlugAt(front + Part(slug), |front|) == Given(slug)
  {
    if Given(slug).Some? {
      assert (front + Part(slug))[|front|] == Encode(slug.value);
      EncodePlain(slug.value);
      SafeDecodeEncoded(slug.value);
    }
  }

  /** A match never names an empty project. */
  lemma MatchNamesProject(parts: seq<string>)
    requires forall i :: 0 <= i < |parts| ==> parts[i] != ""
    ensures MatchParts(parts).Some? ==> MatchParts(parts).value.projectSlug != ""
  {
    if |parts| >= 3 {
      SafeDecodeNonempty(parts[1]);
      SafeDecodeNonempty(parts[2]);
    }
  }

  lemma LegacyParts(parts: seq<string>, project: string, surface: Surface, slug: Option<string>)
    requires parts == ["p", Encode(project), SurfaceText(surface)] + Part(slug)
    ensures MatchParts(parts) == Some(RouteMatch(DEFAULT_ORG, project, surface, Given(slug), true))
  {
    SurfaceRoundTrips(surface);
    SafeDecodeEncoded(project);
    SlugRoundTrips(["p", Encode(project), SurfaceText(surface)], slug);
    assert parts[0] == "p" && parts[1] == Encode(project) && parts[2] == SurfaceText(surface);
  }

  lemma OrgParts(parts: seq<string>, project: string, surface: Surface, slug: Option<string>, org: string)
    requires parts == [Encode(org), "p", Encode(project), SurfaceText(surface)] + Part(slug)
    ensures Encode(org) != "p" ==> MatchParts(parts) == Some(RouteMatch(org, project, surface, Given(slug), false))
    ensures Encode(org) == "p" && MatchParts(parts).Some? ==> MatchParts(parts).value.legacyProjectRoute
  {
    SurfaceRoundTrips(surface);
    SafeDecodeEncoded(project);
    SafeDecodeEncoded(org);
    SlugRoundTrips([Encode(org), "p", Encode(project), SurfaceText(surface)], slug);
    assert parts[0] == Encode(org) && parts[1] == "p" && parts[2] == Encode(project)
      && parts[3] == SurfaceText(surface);
  }

  lemma OnlyPIsP(org: string)
    ensures Encode(org) == "p" <==> org == "p"
  {
    var p := "p";
    assert Unreserved(p[0]) && p[1..] == "";
    assert Encode(p) == EncodeChar(p[0]) + Encode(p[1..]) == p;
    EncodeInjective(org, p);
  }

  /** Reading undoes printing exactly when the project is not empty and the org is not
      "p": an org of that name reads as the legacy form. */
  lemma PathRoundTrips(project: string, surface: Surface, slug: Option<string>, org: Option<string>)
    ensures MatchReaderRoutePath(ProjectSurfacePath(project, surface, slug, org)) ==
            Some(Expected(project, surface, slug, org))
       <==> project != "" && org != Some("p")
  {
    var parts := PathParts(project, surface, slug, org);
    PathIsRendered(project, surface, slug, org);
    PathSlashless(project, surface, slug, org);
    PartsOfRendered(parts);
    if project == "" {
      NoneEmpty(parts);
      MatchNamesProject(NonEmpty(parts));
    } else {
      PartsStay(project, surface, slug, org);
      if Given(org).Some? {
        OnlyPIsP(org.value);
        assert parts == [Encode(org.value), "p", Encode(project), SurfaceText(surface)] + Part(slug);
        OrgParts(parts, project, surface, slug, org.value);
      } else {
        assert parts == ["p", Encode(project), SurfaceText(surface)] + Part(slug);
        LegacyParts(parts, project, surface, slug);
        NotGivenIsNotP(org);
      }
    }
  }

  lemma NotGivenIsNotP(org: Option<string>)
    requires Given(org).None?
    ensures org != Some("p")
  {
    var p := "p";
    assert |p| == 1;
  }

  lemma PartsStay(project: string, surface: Surface, slug: Option<string>, org: Option<string>)
    requires project != ""
    ensures NonEmpty(PathParts(project, surface, slug, org)) == PathParts(project, surface, slug, org)
  {
    PartSlashless(org);
    PartSlashless(slug);
    EncodePlain(project);
    SurfaceSlashless(surface);
    AllStay(PathParts(project, surface, slug, org));
  }

  // ----- the paths by their text ----------------------------------------------------------------

  /** The segments that name a surface: its own, and "task" for the tasks. */
  lemma SurfaceSegments(segment: string, surface: Surface)
    ensures NormalizeSurface(segment) == Some(surface) <==>
            || segment == SurfaceText(surface)
            || (surface == Tasks && segment == "task")
    ensures [SurfaceText(Today), SurfaceText(Wiki), SurfaceText(Tasks), SurfaceText(Graph), SurfaceText(Inbox)] ==
            ["today", "wiki", "tasks", "graph", "inbox"]
  {
    SurfaceRoundTrips(surface);
    var task := "task";
    assert |task| == 4 && task[0] == 't';
  }

  /** A path over plain names, as it is printed. */
  lemma PlainPath(project: string, surface: Surface, slug: string, org: string)
    requires forall c :: c in project + slug + org ==> Unreserved(c)
    requires slug != "" && org != ""
    ensures ProjectSurfacePath(project, surface, Some(slug), Some(org)) ==
            "/" + org + "/p/" + project + "/" + SurfaceText(surface) + ("/" + slug)
    ensures ProjectSurfacePath(project, surface, None, None) == "/p/" + project + "/" + SurfaceText(surface)
  {
    PlainName(project, project + slug + org);
    PlainName(slug, project + slug + org);
    PlainName(org, project + slug + org);
    assert Segment(None) == "";
    assert "" + "/p/" == "/p/";
  }

  lemma PlainName(name: string, all: string)
    requires (forall c :: c in all ==> Unreserved(c)) && forall c :: c in name ==> c in all
    ensures Encode(name) == name
  {
    PlainTextStays(name);
  }

  lemma {:induction false} CutAt(path: string, tail: string)
    requires tail != "" && (tail[0] == '?' || tail[0] == '#')
    ensures PathOnly(path + tail) == PathOnly(path)
  {
    if path == "" {
      assert path + tail == tail;
    } else {
      assert (path + tail)[0] == path[0] && (path + tail)[1..] == path[1..] + tail;
      CutAt(path[1..], tail);
    }
  }

  /** A query or fragment does not matter, nor do outer slashes. */
  lemma QueryIsIgnored(path: string, tail: string)
    requires tail != "" && (tail[0] == '?' || tail[0] == '#')
    ensures MatchReaderRoutePath(path + tail) == MatchReaderRoutePath(path)
    ensures MatchReaderRoutePath("/" + path) == MatchReaderRoutePath(path)
  {
    CutAt(path, tail);
    assert ("/" + path)[1..] == path;
    assert PathOnly("/" + path) == "/" + PathOnly(path);
    assert ("/" + PathOnly(path))[1..] == PathOnly(path);
  }

  /** The tasks are also reached under "task". */
  lemma TaskAlias(project: string, slug: Option<string>, org: string)
    requires project != "" && org != "" && org != "p"
    ensures MatchParts(["p", Encode(project), "task"] + Part(slug)) ==
            Some(RouteMatch("default", project, Tasks, Given(slug), true))
    ensures MatchParts([Encode(org), "p", Encode(project), "task"] + Part(slug)) ==
            Some(RouteMatch(org, project, Tasks, Given(slug), false))
  {
    OnlyPIsP(org);
    SafeDecodeEncoded(project);
    SafeDecodeEncoded(org);
    SlugRoundTrips(["p", Encode(project), "task"], slug);
    SlugRoundTrips([Encode(org), "p", Encode(project), "task"], slug);
  }

  /** Which paths are the Reader's: p, a project and a surface, or an org before these, where the
      first of the two readings wins. */
  lemma MatchedWhen(parts: seq<string>)
    ensures MatchParts(parts).Some? <==>
            || (|parts| >= 3 && parts[0] == "p" && NormalizeSurface(parts[2]).Some?)
            || (|parts| >= 4 && parts[0] != "p" && parts[1] == "p" && NormalizeSurface(parts[3]).Some?)
    ensures MatchParts(parts).Some? ==> (MatchParts(parts).value.legacyProjectRoute <==> parts[0] == "p")
  {
  }
}

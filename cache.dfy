/**
 * The image cache of snowbird.py: `fetch_icon` and `fetch_webcams`.
 *
 * The filesystem is a map from path to modification time (whole seconds);
 * the cams folder is an entry of its own. A download is abstract: the set
 * `reachable` holds the URLs that answer; fetching one of them rewrites the
 * target path with mtime `now`, fetching any other raises ConnectionError.
 */
module Cache {
  import opened Wrappers
  import opened Text
  import opened Markup
  import opened Weather

  const SNOWBIRD_URL := "http://www.snowbird.com"
  const CAMS_FOLDER := "/tmp/cams"
  /** Seconds after which a cached webcam picture is stale. */
  const CAM_TIMEOUT := 1000

  type Fs = map<string, int>

  /** The new filesystem, the URLs requested in order, and the outcome. */
  datatype Run<T> = Run(fs: Fs, requests: seq<string>, result: Result<T>)

  /** GET `url` and stream it into `path`. */
  function Download(fs: Fs, url: string, path: string, now: int, reachable: set<string>): Run<()> {
    if url in reachable then Run(fs[path := now], [url], Ok(()))
    else Run(fs, [url], Raise(ConnectionError))
  }

  // ---------------------------------------------------------------------
  // The condition icon

  /** Where the icon is written. */
  function IconPath(basename: string): string {
    "/tmp/" + basename
  }

  /**
   * `os.path.exists(basename)`: a relative name, looked up in the working
   * directory. "." and ".." name the working directory and its parent, which
   * always exist; the empty name never does.
   */
  predicate IconExists(fs: Fs, cwd: string, basename: string) {
    || basename == "." || basename == ".."
    || (basename != "" && PathJoin(cwd, basename) in fs)
  }

  /** The only directory the model tracks is the cams folder, once created. */
  predicate IsDirectory(fs: Fs, path: string) {
    path == CAMS_FOLDER && path in fs
  }

  /**
   * `fetch_icon(url)`: downloads the icon unless a file of its basename
   * exists, and returns the basename. The existence test resolves the
   * basename against the working directory while the copy goes to /tmp.
   * Opening "/tmp/" or a directory for writing fails after the request.
   */
  function FetchIcon(fs: Fs, cwd: string, url: string, now: int, reachable: set<string>): (r: Run<string>)
    ensures r.result.Ok? ==> r.result.value == Basename(url)
    ensures r.result.Raise? ==> r.result.exc == ConnectionError || r.result.exc == IsADirectoryError
    ensures r.requests == if IconExists(fs, cwd, Basename(url)) then [] else [SNOWBIRD_URL + url]
    ensures r.fs == if r.result.Ok? && r.requests != [] then fs[IconPath(Basename(url)) := now] else fs
  {
    var basename := Basename(url);
    if IconExists(fs, cwd, basename) then Run(fs, [], Ok(basename))
    else
      var get := SNOWBIRD_URL + url;
      if get !in reachable then Run(fs, [get], Raise(ConnectionError))
      else if basename == "" || IsDirectory(fs, IconPath(basename)) then Run(fs, [get], Raise(IsADirectoryError))
      else Run(fs[IconPath(basename) := now], [get], Ok(basename))
  }

  /** Joined to /tmp, a plain file name is the path the icon is written to. */
  lemma TmpJoin(b: string)
    requires b != "" && '/' !in b
    ensures PathJoin("/tmp", b) == IconPath(b)
  {
    assert !StartsWith(b, "/") by { assert b[..1] == [b[0]] && b[0] in b; }
  }

  /**
   * Outside /tmp the existence test never sees the copy just written: a
   * second call downloads the icon again.
   */
  lemma IconRefetchedOutsideTmp(fs: Fs, cwd: string, url: string, now: int, later: int, reachable: set<string>)
    requires Basename(url) != "." && Basename(url) != ".."
    requires PathJoin(cwd, Basename(url)) != IconPath(Basename(url))
    requires PathJoin(cwd, Basename(url)) !in fs
    ensures var first := FetchIcon(fs, cwd, url, now, reachable);
            FetchIcon(first.fs, cwd, url, later, reachable).requests == [SNOWBIRD_URL + url]
  {
  }

  /** Run from /tmp, the test finds the copy: after one success the icon is never fetched again. */
  lemma IconCachedInTmp(fs: Fs, url: string, now: int, later: int, reachable: set<string>)
    requires FetchIcon(fs, "/tmp", url, now, reachable).result.Ok?
    ensures var first := FetchIcon(fs, "/tmp", url, now, reachable);
            FetchIcon(first.fs, "/tmp", url, later, reachable) == Run(first.fs, [], Ok(Basename(url)))
  {
    var b := Basename(url);
    var first := FetchIcon(fs, "/tmp", url, now, reachable);
    if !IconExists(fs, "/tmp", b) {
      TmpJoin(b);
    }
  }

  /** A basename of ".." always exists: nothing is requested and ".." is returned. */
  lemma IconDotDotExists(fs: Fs, cwd: string, now: int, reachable: set<string>)
    ensures FetchIcon(fs, cwd, "/icons/..", now, reachable) == Run(fs, [], Ok(".."))
  {
    BasenameAfterLastSlash("/icons/..", 6);
    assert "/icons/.."[7..] == "..";
  }

  /**
   * An icon named like the cams folder, once that folder exists: the icon is
   * requested, then opening /tmp/cams for writing fails and nothing changes.
   */
  lemma IconOntoCamsFolder(fs: Fs, now: int, reachable: set<string>)
    requires CAMS_FOLDER in fs && "/home/pi/cams" !in fs
    requires "http://www.snowbird.com/icons/cams" in reachable
    ensures FetchIcon(fs, "/home/pi", "/icons/cams", now, reachable)
              == Run(fs, ["http://www.snowbird.com/icons/cams"], Raise(IsADirectoryError))
  {
    var url := "/icons/cams";
    BasenameAfterLastSlash(url, 6);
    assert url[7..] == "cams";
    var b := Basename(url);
    assert !StartsWith(b, "/") by { assert b[..1] == "c"; }
    assert PathJoin("/home/pi", b) == "/home/pi/cams";
    assert SNOWBIRD_URL + url == "http://www.snowbird.com/icons/cams";
    assert IconPath(b) == CAMS_FOLDER;
  }

  /** The icon of the report page: "/icons/sun.png" is kept as "sun.png" and written to /tmp/sun.png. */
  lemma IconOfReportPage(fs: Fs, now: int, reachable: set<string>)
    requires "http://www.snowbird.com/icons/sun.png" in reachable
    requires "/home/pi/sun.png" !in fs
    ensures FetchIcon(fs, "/home/pi", "/icons/sun.png", now, reachable)
              == Run(fs["/tmp/sun.png" := now], ["http://www.snowbird.com/icons/sun.png"], Ok("sun.png"))
  {
    var url := "/icons/sun.png";
    var b := Basename(url);
    assert url[7..] == "sun.png";
    BasenameAfterLastSlash(url, 6);
    assert !StartsWith(b, "/") by { assert b[..1] == "s"; }
    assert PathJoin("/home/pi", b) == "/home/pi/sun.png";
    assert !IconExists(fs, "/home/pi", b);
    assert SNOWBIRD_URL + url == "http://www.snowbird.com/icons/sun.png";
    assert IconPath(b) == "/tmp/sun.png";
  }

  // ---------------------------------------------------------------------
  // The webcams

  /** The file name a cam is cached under: spaces become underscores. */
  function CacheFileName(name: string): string {
    Replace(name, " ", "_") + ".jpg"
  }

  /** `os.path.join(CAMS_FOLDER, name.replace(" ", "_")) + ".jpg"`. */
  function CamPath(name: string): string {
    PathJoin(CAMS_FOLDER, Replace(name, " ", "_")) + ".jpg"
  }

  /** A name that is not absolute is cached inside the cams folder under its cache file name. */
  lemma CamPathInFolder(name: string)
    requires !StartsWith(name, "/")
    ensures CamPath(name) == CAMS_FOLDER + "/" + CacheFileName(name)
  {
    var u := Replace(name, " ", "_");
    if name != "" {
      assert StartsWith(name, " ") <==> name[0] == ' ';
      assert u[0] == (if name[0] == ' ' then '_' else name[0]);
      assert name[..1] == [name[0]];
    }
    assert !StartsWith(u, "/");
  }

  /** No cam picture can be the cams folder itself: every cam path ends in ".jpg". */
  lemma CamPathNotFolder(name: string)
    ensures CamPath(name) != CAMS_FOLDER
  {
    var p := CamPath(name);
    assert p[|p| - 1] == 'g';
  }

  /** Two different names can share a cache path: "Mid Gad" and "Mid_Gad". */
  lemma CamPathCollision()
    ensures CamPath("Mid Gad") == CamPath("Mid_Gad")
  {
    var mid, gad, space := "Mid", "Gad", " ";
    ReplaceAbsentChar(mid, ' ', "_");
    ReplaceAbsentChar(gad, ' ', "_");
    ReplaceAbsentChar(mid + "_" + gad, ' ', "_");
    ReplaceCharAppend(mid + space, gad, ' ', "_");
    ReplaceCharAppend(mid, space, ' ', "_");
    assert Replace(space, " ", "_") == "_" by {
      assert StartsWith(space, " ");
      assert space[1..] == "";
    }
    assert mid + space + gad == "Mid Gad";
    assert mid + "_" + gad == "Mid_Gad";
  }

  /** Names without underscores get distinct cache file names. */
  lemma CacheFileNameInjective(a: string, b: string)
    requires '_' !in a && '_' !in b
    requires CacheFileName(a) == CacheFileName(b)
    ensures a == b
  {
    var x, y := Replace(a, " ", "_"), Replace(b, " ", "_");
    assert x == CacheFileName(a)[..|x|];
    assert y == CacheFileName(b)[..|y|];
    ReplaceCharRoundTrip(a, ' ', '_');
    ReplaceCharRoundTrip(b, ' ', '_');
  }

  /** How a cache entry stands at time `now`. */
  datatype Freshness = Missing | Stale | Fresh

  /** Missing, older than CAM_TIMEOUT (strictly), or fresh. */
  function Age(fs: Fs, path: string, now: int): Freshness {
    if path !in fs then Missing
    else if now - fs[path] > CAM_TIMEOUT then Stale
    else Fresh
  }

  /** One turn of the loop: refresh one cam's picture unless it is fresh. */
  function CamStep(fs: Fs, cam: Cam, now: int, reachable: set<string>): Run<()> {
    match cam.name
    case Element(_, _, _, _) => Run(fs, [], Raise(TypeError))
    case Text(name) =>
      var path := CamPath(name);
      if Age(fs, path, now) == Fresh then Run(fs, [], Ok(()))
      else Download(fs, SNOWBIRD_URL + cam.url, path, now, reachable)
  }

  /** One turn after another: the second only runs when the first raised nothing. */
  function Then(first: Run<()>, second: Run<()>): Run<()> {
    if first.result.Raise? then first
    else Run(second.fs, first.requests + second.requests, second.result)
  }

  /** The loop over the cams: turn after turn, stopping at the first exception. */
  function Refresh(fs: Fs, cams: seq<Cam>, now: int, reachable: set<string>): Run<()>
    decreases |cams|
  {
    if cams == [] then Run(fs, [], Ok(()))
    else
      var prior := Refresh(fs, cams[..|cams| - 1], now, reachable);
      Then(prior, CamStep(prior.fs, cams[|cams| - 1], now, reachable))
  }

  /**
   * What `for cam in cams` meets: the cams of a cam list. Iterating an empty
   * string or an element without children does nothing; any other
   * non-list value fails on the first `cam['name']`.
   */
  function CamItems(v: Value): Result<seq<Cam>> {
    match v
    case CamList(cams) => Ok(cams)
    case Url(s) => if s == "" then Ok([]) else Raise(TypeError)
    case Content(Text(s)) => if s == "" then Ok([]) else Raise(TypeError)
    case Content(Element(_, _, _, children)) => if children == [] then Ok([]) else Raise(TypeError)
  }

  /** The cams folder, created if absent. */
  function WithCamsFolder(fs: Fs, now: int): Fs {
    if CAMS_FOLDER in fs then fs else fs[CAMS_FOLDER := now]
  }

  /** `fetch_webcams(cams)`: create the folder, then refresh every cam in order. */
  function Webcams(fs: Fs, cams: Value, now: int, reachable: set<string>): Run<()> {
    var disk := WithCamsFolder(fs, now);
    match CamItems(cams)
    case Raise(e) => Run(disk, [], Raise(e))
    case Ok(items) => Refresh(disk, items, now, reachable)
  }

  /** `fetch_webcams(cams)`, step by step. */
  method FetchWebcams(fs: Fs, cams: Value, now: int, reachable: set<string>) returns (r: Run<()>)
    ensures r == Webcams(fs, cams, now, reachable)
  {
    var disk := fs;
    if CAMS_FOLDER !in disk {
      disk := disk[CAMS_FOLDER := now];
    }
    var items := CamItems(cams);
    if items.Raise? {
      return Run(disk, [], Raise(items.exc));
    }
    var list := items.value;
    var requests: seq<string> := [];
    var i := 0;
    while i < |list|
      invariant 0 <= i <= |list|
      invariant Refresh(WithCamsFolder(fs, now), list[..i], now, reachable) == Run(disk, requests, Ok(()))
    {
      var cam := list[i];
      assert list[..i + 1][..i] == list[..i];
      if cam.name.Element? {
        r := Run(disk, requests, Raise(TypeError));
        RefreshStops(WithCamsFolder(fs, now), list, i + 1, now, reachable);
        return;
      }
      var localPath := CamPath(cam.name.text);
      if localPath !in disk || now - disk[localPath] > CAM_TIMEOUT {
        var url := SNOWBIRD_URL + cam.url;
        requests := requests + [url];
        if url !in reachable {
          r := Run(disk, requests, Raise(ConnectionError));
          RefreshStops(WithCamsFolder(fs, now), list, i + 1, now, reachable);
          return;
        }
        disk := disk[localPath := now];
      }
      i := i + 1;
    }
    assert list[..i] == list;
    r := Run(disk, requests, Ok(()));
  }

  // ---------------------------------------------------------------------
  // Properties of the refresh loop

  /** Once a prefix raises, the cams after it are never looked at. */
  lemma {:induction false} RefreshStops(fs: Fs, cams: seq<Cam>, k: nat, now: int, reachable: set<string>)
    requires k <= |cams| && Refresh(fs, cams[..k], now, reachable).result.Raise?
    ensures Refresh(fs, cams, now, reachable) == Refresh(fs, cams[..k], now, reachable)
    decreases |cams|
  {
    if k < |cams| {
      var init := cams[..|cams| - 1];
      assert init[..k] == cams[..k];
      RefreshStops(fs, init, k, now, reachable);
    } else {
      assert cams[..k] == cams;
    }
  }

  /**
   * A failed download is not rolled back: when cam k raises, the disk keeps
   * every picture written for the cams before it.
   */
  lemma RaiseKeepsEarlierWrites(fs: Fs, cams: seq<Cam>, k: nat, now: int, reachable: set<string>)
    requires k < |cams|
    requires Refresh(fs, cams[..k], now, reachable).result.Ok?
    requires Refresh(fs, cams[..k + 1], now, reachable).result.Raise?
    ensures Refresh(fs, cams, now, reachable).fs == Refresh(fs, cams[..k], now, reachable).fs
  {
    RefreshStops(fs, cams, k + 1, now, reachable);
    assert cams[..k + 1][..k] == cams[..k];
  }

  /** The cache paths of the cams whose name is text. */
  function CamPaths(cams: seq<Cam>): set<string> {
    set i | 0 <= i < |cams| && cams[i].name.Text? :: CamPath(cams[i].name.text)
  }

  /** One turn writes at most its own cam's path, with mtime `now`, and requests at most one URL. */
  lemma CamStepFrame(fs: Fs, cam: Cam, now: int, reachable: set<string>)
    ensures var r := CamStep(fs, cam, now, reachable);
            && |r.requests| <= 1
            && (r.fs == fs || (cam.name.Text? && r.fs == fs[CamPath(cam.name.text) := now]))
  {
  }

  /**
   * The loop writes only cam paths, and only with mtime `now`; it requests
   * at most one URL per cam.
   */
  lemma {:induction false} RefreshFrame(fs: Fs, cams: seq<Cam>, now: int, reachable: set<string>)
    ensures var r := Refresh(fs, cams, now, reachable);
            && |r.requests| <= |cams|
            && (forall p :: p !in CamPaths(cams) ==> (p in r.fs <==> p in fs) && (p in fs ==> r.fs[p] == fs[p]))
            && (forall p :: p in r.fs && (p !in fs || r.fs[p] != fs[p]) ==> r.fs[p] == now)
    decreases |cams|
  {
    if cams != [] {
      var init := cams[..|cams| - 1];
      var last := cams[|cams| - 1];
      RefreshFrame(fs, init, now, reachable);
      var prior := Refresh(fs, init, now, reachable);
      assert CamPaths(cams) == CamPaths(init) + (if last.name.Text? then {CamPath(last.name.text)} else {}) by {
        forall p | p in CamPaths(cams) ensures p in CamPaths(init) + (if last.name.Text? then {CamPath(last.name.text)} else {}) {
          var i :| 0 <= i < |cams| && cams[i].name.Text? && CamPath(cams[i].name.text) == p;
          if i < |cams| - 1 { assert init[i] == cams[i]; }
        }
        forall p | p in CamPaths(init) ensures p in CamPaths(cams) {
          var i :| 0 <= i < |init| && init[i].name.Text? && CamPath(init[i].name.text) == p;
          assert cams[i] == init[i];
        }
      }
      if prior.result.Ok? {
        CamStepFrame(prior.fs, last, now, reachable);
      }
    }
  }

  /** After a pass that raised nothing, every cam has a fresh picture. */
  lemma {:induction false} RefreshLeavesFresh(fs: Fs, cams: seq<Cam>, now: int, reachable: set<string>)
    requires Refresh(fs, cams, now, reachable).result.Ok?
    ensures forall i :: 0 <= i < |cams| ==>
              cams[i].name.Text? && Age(Refresh(fs, cams, now, reachable).fs, CamPath(cams[i].name.text), now) == Fresh
    decreases |cams|
  {
    if cams != [] {
      var init := cams[..|cams| - 1];
      RefreshLeavesFresh(fs, init, now, reachable);
      var prior := Refresh(fs, init, now, reachable);
      forall i | 0 <= i < |cams| - 1
        ensures cams[i].name.Text? && Age(Refresh(fs, cams, now, reachable).fs, CamPath(cams[i].name.text), now) == Fresh
      {
        assert cams[i] == init[i];
      }
    }
  }

  /** A pass over cams whose pictures are all fresh requests nothing and changes nothing. */
  lemma {:induction false} RefreshFreshIsNoop(fs: Fs, cams: seq<Cam>, now: int, reachable: set<string>)
    requires forall i :: 0 <= i < |cams| ==> cams[i].name.Text? && Age(fs, CamPath(cams[i].name.text), now) == Fresh
    ensures Refresh(fs, cams, now, reachable) == Run(fs, [], Ok(()))
    decreases |cams|
  {
    if cams != [] {
      var init := cams[..|cams| - 1];
      forall i | 0 <= i < |init| ensures init[i].name.Text? && Age(fs, CamPath(init[i].name.text), now) == Fresh {
        assert init[i] == cams[i];
      }
      RefreshFreshIsNoop(fs, init, now, reachable);
    }
  }

  /** A second pass at the same time, after one that raised nothing, downloads nothing. */
  lemma SecondPassDownloadsNothing(fs: Fs, cams: Value, now: int, reachable: set<string>)
    requires Webcams(fs, cams, now, reachable).result.Ok?
    ensures var first := Webcams(fs, cams, now, reachable);
            Webcams(first.fs, cams, now, reachable) == Run(first.fs, [], Ok(()))
  {
    var first := Webcams(fs, cams, now, reachable);
    var items := CamItems(cams).value;
    var disk := WithCamsFolder(fs, now);
    RefreshLeavesFresh(disk, items, now, reachable);
    RefreshFrame(disk, items, now, reachable);
    forall n: string ensures CamPath(n) != CAMS_FOLDER { CamPathNotFolder(n); }
    assert CAMS_FOLDER !in CamPaths(items);
    RefreshFreshIsNoop(first.fs, items, now, reachable);
  }

  /**
   * The kiosk's timer runs a pass more often than pictures expire: a second
   * pass within CAM_TIMEOUT of one that succeeded downloads nothing, provided
   * none of the cams' pictures had gone stale by then already. Other files on
   * the disk play no part.
   */
  lemma SecondPassWithinWindow(fs: Fs, cams: Value, now: int, later: int, reachable: set<string>)
    requires Webcams(fs, cams, now, reachable).result.Ok?
    requires now <= later <= now + CAM_TIMEOUT
    requires CamItems(cams).Ok?
    requires forall p :: p in fs && p in CamPaths(CamItems(cams).value) ==> later - fs[p] <= CAM_TIMEOUT
    ensures var first := Webcams(fs, cams, now, reachable);
            Webcams(first.fs, cams, later, reachable) == Run(first.fs, [], Ok(()))
  {
    var first := Webcams(fs, cams, now, reachable);
    var items := CamItems(cams).value;
    var disk := WithCamsFolder(fs, now);
    RefreshLeavesFresh(disk, items, now, reachable);
    RefreshFrame(disk, items, now, reachable);
    forall n: string ensures CamPath(n) != CAMS_FOLDER { CamPathNotFolder(n); }
    assert CAMS_FOLDER !in CamPaths(items);
    forall i | 0 <= i < |items|
      ensures items[i].name.Text? && Age(first.fs, CamPath(items[i].name.text), later) == Fresh
    {
      var path := CamPath(items[i].name.text);
      assert path in CamPaths(items);
      assert path in first.fs;
      if path in disk && first.fs[path] == disk[path] {
        assert path in fs && disk[path] == fs[path];
      }
    }
    RefreshFreshIsNoop(first.fs, items, later, reachable);
  }

  /** The cams folder exists after every pass, whatever happened to the cams. */
  lemma WebcamsCreatesFolder(fs: Fs, cams: Value, now: int, reachable: set<string>)
    ensures CAMS_FOLDER in Webcams(fs, cams, now, reachable).fs
  {
    if CamItems(cams).Ok? {
      var items := CamItems(cams).value;
      RefreshFrame(WithCamsFolder(fs, now), items, now, reachable);
      forall n: string ensures CamPath(n) != CAMS_FOLDER { CamPathNotFolder(n); }
      assert CAMS_FOLDER !in CamPaths(items);
    }
  }

  /** The only exceptions a pass raises are ConnectionError and TypeError. */
  lemma WebcamsRaises(fs: Fs, cams: Value, now: int, reachable: set<string>)
    ensures var r := Webcams(fs, cams, now, reachable);
            r.result.Raise? ==> r.result.exc == ConnectionError || r.result.exc == TypeError
  {
    if CamItems(cams).Ok? {
      RefreshRaises(WithCamsFolder(fs, now), CamItems(cams).value, now, reachable);
    }
  }

  lemma {:induction false} RefreshRaises(fs: Fs, cams: seq<Cam>, now: int, reachable: set<string>)
    ensures var r := Refresh(fs, cams, now, reachable);
            r.result.Raise? ==> r.result.exc == ConnectionError || r.result.exc == TypeError
    decreases |cams|
  {
    if cams != [] {
      RefreshRaises(fs, cams[..|cams| - 1], now, reachable);
    }
  }

  /**
   * A picture exactly CAM_TIMEOUT seconds old is kept; one a second older,
   * or 2000 s old, is downloaded again; one 500 s old is kept.
   */
  lemma FreshnessBoundary(fs: Fs, path: string, now: int)
    ensures path in fs && fs[path] == now - 1000 ==> Age(fs, path, now) == Fresh
    ensures path in fs && fs[path] == now - 1001 ==> Age(fs, path, now) == Stale
    ensures path in fs && fs[path] == now - 2000 ==> Age(fs, path, now) == Stale
    ensures path in fs && fs[path] == now - 500 ==> Age(fs, path, now) == Fresh
  {
  }

  /** A cam is downloaded exactly when its picture is missing or stale. */
  lemma CamStepDownloadsIffNotFresh(fs: Fs, cam: Cam, now: int, reachable: set<string>)
    requires cam.name.Text?
    ensures var r := CamStep(fs, cam, now, reachable);
            (r.requests == [SNOWBIRD_URL + cam.url] <==> Age(fs, CamPath(cam.name.text), now) != Fresh)
            && (r.requests == [] <==> Age(fs, CamPath(cam.name.text), now) == Fresh)
  {
  }

  /** Two cams of the same name share a path: after the first is downloaded, the second is skipped. */
  lemma SameNameDownloadedOnce(fs: Fs, a: Cam, b: Cam, now: int, reachable: set<string>)
    requires a.name == b.name && a.name.Text?
    requires Refresh(fs, [a], now, reachable).result.Ok?
    ensures Refresh(fs, [a, b], now, reachable).requests == Refresh(fs, [a], now, reachable).requests
  {
    assert [a, b][..1] == [a];
    assert [a][..0] == [];
  }
}

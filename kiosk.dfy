/**
 * The kiosk's screen logic (main.py): the webcam carousel behind the "next"
 * button, and the two periodic jobs that consume the weather record.
 */
module Kiosk {
  import opened Wrappers
  import opened Text
  import opened Markup
  import opened Weather
  import Cache

  // ---------------------------------------------------------------------
  // Labels and the webcam carousel

  /** The caption shown under a cached picture: '_' back to ' ', ".jpg" dropped. */
  function Label(file: string): string {
    Replace(Replace(file, "_", " "), ".jpg", "")
  }

  /** The picture the webcam widget loads for a listed file. */
  function CamSource(file: string): string {
    PathJoin(Cache.CAMS_FOLDER, file)
  }

  /**
   * The caption undoes the cache file naming for any cam name that has no
   * '_' and no ".jpg" of its own.
   */
  lemma LabelInvertsCacheFileName(name: string)
    requires '_' !in name && !Occurs(".jpg", name)
    ensures Label(Cache.CacheFileName(name)) == name
  {
    var x := Replace(name, " ", "_");
    ReplaceCharAppend(x, ".jpg", '_', " ");
    ReplaceAbsentChar(".jpg", '_', " ");
    ReplaceCharRoundTrip(name, ' ', '_');
    StripJpg(name);
  }

  /** The carousel shows a cached file from exactly the path the refresh loop writes. */
  lemma ShownPathIsCachePath(name: string)
    ensures CamSource(Cache.CacheFileName(name)) == Cache.CamPath(name)
  {
    var x := Replace(name, " ", "_");
    var y := x + ".jpg";
    if StartsWith(x, "/") {
      assert y[..1] == x[..1];
    } else {
      assert !StartsWith(y, "/") by {
        assert y[..1] == [y[0]];
        if x != "" {
          assert x[..1] == [x[0]] && y[0] == x[0];
        }
      }
      assert Cache.CAMS_FOLDER + "/" + y == (Cache.CAMS_FOLDER + "/" + x) + ".jpg";
    }
  }

  /** The carousel's state: the two fields of the root widget and the webcam widget's view. */
  datatype Carousel = Carousel(webcamMode: bool, currentCam: nat, visible: bool, source: string, caption: string)

  /** What one press did. */
  datatype PressOutcome = Showed | Hid | PressFailed(exc: Exception)

  /**
   * `button_press`: switch to webcam mode and show the widget, list the cams
   * folder (None when it does not exist), then either hide everything after
   * the last picture or show the current picture and move on.
   */
  function Press(c: Carousel, listing: Option<seq<string>>): (Carousel, PressOutcome) {
    var shown := c.(webcamMode := true, visible := true);
    match listing
    case None => (shown, PressFailed(FileNotFoundError))
    case Some(pics) =>
      if c.currentCam == |pics| then
        (shown.(visible := false, webcamMode := false, currentCam := 0), Hid)
      else if c.currentCam > |pics| then (shown, PressFailed(IndexError))
      else
        var file := pics[c.currentCam];
        (shown.(source := CamSource(file), caption := Label(file), currentCam := c.currentCam + 1), Showed)
  }

  /** After a press the carousel is in webcam mode and visible, unless that press hid it. */
  lemma ModeAfterPress(c: Carousel, listing: Option<seq<string>>)
    ensures var (d, outcome) := Press(c, listing);
            d.webcamMode == (outcome != Hid) && d.visible == (outcome != Hid)
  {
  }

  /** Over a fixed listing of n pictures, the current cam stays within 0..n and presses never fail. */
  lemma PressKeepsInRange(c: Carousel, pics: seq<string>)
    requires c.currentCam <= |pics|
    ensures var (d, outcome) := Press(c, Some(pics));
            d.currentCam <= |pics| && !outcome.PressFailed?
            && (outcome == Hid <==> c.currentCam == |pics|)
  {
  }

  /** `k` presses in a row over the same listing. */
  function Presses(c: Carousel, listing: Option<seq<string>>, k: nat): Carousel
    decreases k
  {
    if k == 0 then c else Presses(Press(c, listing).0, listing, k - 1)
  }

  /**
   * Starting at cam `i`, the `k`-th press (k >= 1, i + k <= n) shows
   * picture `i + k - 1` in webcam mode, pointing at the next one.
   */
  lemma {:induction false} PressesWalk(c: Carousel, pics: seq<string>, k: nat)
    requires c.currentCam + k <= |pics|
    ensures var d := Presses(c, Some(pics), k);
            d.currentCam == c.currentCam + k
            && (k > 0 ==> d.webcamMode && d.visible
                          && d.source == CamSource(pics[c.currentCam + k - 1])
                          && d.caption == Label(pics[c.currentCam + k - 1]))
    decreases k
  {
    if k > 0 {
      var next := Press(c, Some(pics)).0;
      PressesWalk(next, pics, k - 1);
    }
  }

  /** From cam `i <= n`, n - i + 1 presses return to the hidden, reset state. */
  lemma {:induction false} PressesReset(c: Carousel, pics: seq<string>)
    requires c.currentCam <= |pics|
    ensures var d := Presses(c, Some(pics), |pics| - c.currentCam + 1);
            !d.webcamMode && !d.visible && d.currentCam == 0
    decreases |pics| - c.currentCam
  {
    var next := Press(c, Some(pics)).0;
    if c.currentCam < |pics| {
      PressesReset(next, pics);
    }
  }

  /**
   * A full cycle from the reset position: the presses show every picture in
   * listing order, and press n + 1 hides the carousel and resets it.
   */
  lemma FullCycle(c: Carousel, pics: seq<string>)
    requires c.currentCam == 0
    ensures forall k :: 1 <= k <= |pics| ==>
              Presses(c, Some(pics), k).source == CamSource(pics[k - 1])
              && Presses(c, Some(pics), k).caption == Label(pics[k - 1])
    ensures var d := Presses(c, Some(pics), |pics| + 1);
            !d.webcamMode && !d.visible && d.currentCam == 0
  {
    forall k | 1 <= k <= |pics|
      ensures Presses(c, Some(pics), k).source == CamSource(pics[k - 1])
              && Presses(c, Some(pics), k).caption == Label(pics[k - 1])
    {
      PressesWalk(c, pics, k);
    }
    PressesReset(c, pics);
  }

  /**
   * Once the listing has shrunk below the current cam, every further press
   * over it fails on the index and leaves the current cam where it is.
   */
  lemma {:induction false} ShrunkListingSticks(c: Carousel, pics: seq<string>, k: nat)
    requires c.currentCam > |pics|
    ensures var d := Presses(c, Some(pics), k);
            d.currentCam == c.currentCam && Press(d, Some(pics)).1 == PressFailed(IndexError)
    decreases k
  {
    if k > 0 {
      ShrunkListingSticks(Press(c, Some(pics)).0, pics, k - 1);
    }
  }

  // ---------------------------------------------------------------------
  // The widgets the weather record feeds

  /** The record keys the snow-depth widget shows, in the order it assigns them. */
  const DEPTH_KEYS: seq<string> := ["twelve-hour", "twenty-four-hour", "forty-eight-hour", "current-depth"]

  /** `output[key] + '"'`: fails on a missing key or a value that is not a string. */
  function DepthText(output: Record, key: string): (t: Option<string>)
    ensures t.Some? <==> key in output && AsStr(output[key]).Some?
    ensures t.Some? ==> t.value == AsStr(output[key]).value + "\""
  {
    if key in output then
      match AsStr(output[key])
      case Some(s) => Some(s + "\"")
      case None => None
    else None
  }

  /**
   * The four depth fields after an update: field `i` takes its new text when
   * keys 0..i all succeed, and keeps its previous text otherwise.
   */
  function DepthsAfter(prev: seq<string>, output: Record): (r: seq<string>)
    requires |prev| == 4
  {
    seq(4, i requires 0 <= i < 4 =>
      if forall j | 0 <= j <= i :: DepthText(output, DEPTH_KEYS[j]).Some?
      then DepthText(output, DEPTH_KEYS[i]).value
      else prev[i])
  }

  /** With all four keys holding strings, every field shows its value followed by '"'. */
  lemma DepthsAllPresent(prev: seq<string>, output: Record)
    requires |prev| == 4
    requires forall k :: k in DEPTH_KEYS ==> k in output && AsStr(output[k]).Some?
    ensures forall i :: 0 <= i < 4 ==>
              DepthsAfter(prev, output)[i] == AsStr(output[DEPTH_KEYS[i]]).value + "\""
  {
    forall i | 0 <= i < 4
      ensures DepthsAfter(prev, output)[i] == AsStr(output[DEPTH_KEYS[i]]).value + "\""
    {
      forall j | 0 <= j <= i
        ensures DepthText(output, DEPTH_KEYS[j]).Some?
      {
        assert DEPTH_KEYS[j] in DEPTH_KEYS;
      }
    }
  }

  /** The first key that fails stops the update: it and every later field keep their text. */
  lemma DepthsStopAtFailure(prev: seq<string>, output: Record, i: nat)
    requires |prev| == 4 && i < 4
    requires DepthText(output, DEPTH_KEYS[i]).None?
    ensures DepthsAfter(prev, output)[i..] == prev[i..]
  {
    var r := DepthsAfter(prev, output);
    forall k | i <= k < 4
      ensures r[k] == prev[k]
    {
      assert !DepthText(output, DEPTH_KEYS[i]).Some?;
    }
  }

  /** The snow-depth panel: four strings, assigned one after the other. */
  class SnowDepthsWidget {
    var twelveHr: string
    var twentyFourHr: string
    var fortyEightHr: string
    var depth: string

    function Depths(): seq<string>
      reads this
    {
      [twelveHr, twentyFourHr, fortyEightHr, depth]
    }

    constructor ()
      ensures Depths() == ["", "", "", ""]
    {
      twelveHr, twentyFourHr, fortyEightHr, depth := "", "", "", "";
    }

    /** `update(output)`: any exception is caught, so the fields set before it stay set. */
    method Update(output: Record)
      modifies this
      ensures Depths() == DepthsAfter(old(Depths()), output)
    {
      ghost var prev := Depths();
      var t := DepthText(output, DEPTH_KEYS[0]);
      if t.None? {
        assert Depths() == DepthsAfter(prev, output);
        return;
      }
      twelveHr := t.value;
      t := DepthText(output, DEPTH_KEYS[1]);
      if t.None? {
        assert Depths() == DepthsAfter(prev, output);
        return;
      }
      twentyFourHr := t.value;
      t := DepthText(output, DEPTH_KEYS[2]);
      if t.None? {
        assert Depths() == DepthsAfter(prev, output);
        return;
      }
      fortyEightHr := t.value;
      t := DepthText(output, DEPTH_KEYS[3]);
      if t.None? {
        assert Depths() == DepthsAfter(prev, output);
        return;
      }
      depth := t.value;
      assert Depths() == DepthsAfter(prev, output);
    }
  }

  /** The weather icon; it starts on the offline picture. */
  class IconWidget {
    var iconSource: string

    constructor ()
      ensures iconSource == "/home/pi/snowbird/wifi.png"
    {
      iconSource := "/home/pi/snowbird/wifi.png";
    }

    method Update(icon: string)
      modifies this
      ensures iconSource == icon
    {
      iconSource := icon;
    }
  }

  /** The report's timestamp; a string property, so anything but a string is refused. */
  class TimestampWidget {
    var timestamp: string

    constructor ()
      ensures timestamp == ""
    {
      timestamp := "";
    }

    method Update(v: Value) returns (r: Result<()>)
      modifies this
      ensures AsStr(v).Some? ==> r == Ok(()) && timestamp == AsStr(v).value
      ensures AsStr(v).None? ==> r == Raise(ValueError) && unchanged(this)
    {
      match AsStr(v)
      case Some(s) =>
        timestamp := s;
        r := Ok(());
      case None =>
        r := Raise(ValueError);
    }
  }

  /** The webcam view: whether it is shown, the picture it loads and its caption. */
  class WebcamWidget {
    var visible: bool
    var source: string
    var caption: string

    constructor ()
      ensures !visible && source == "" && caption == ""
    {
      visible, source, caption := false, "", "";
    }
  }

  // ---------------------------------------------------------------------
  // The root widget

  /** How a weather refresh ended. */
  datatype WeatherOutcome = Updated | KeyMissing | Raised(exc: Exception)

  /** How a webcam refresh ended, as reported by the root widget. */
  datatype WebcamsOutcome = Refreshed | ConnectionFailed | NotReady | Propagated(exc: Exception)

  /** The handler's dispatch on what the refresh loop raised. */
  function WebcamsReport(result: Result<()>): (o: WebcamsOutcome)
    ensures o == Refreshed <==> result.Ok?
    ensures o == ConnectionFailed <==> result == Raise(ConnectionError)
    ensures o == NotReady <==> result == Raise(TypeError) || result == Raise(KeyError)
  {
    match result
    case Ok(_) => Refreshed
    case Raise(ConnectionError) => ConnectionFailed
    case Raise(TypeError) => NotReady
    case Raise(KeyError) => NotReady
    case Raise(e) => Propagated(e)
  }

  class RootWidget {
    var webcamMode: bool
    var currentCam: nat
    var weatherOutput: Option<Record>
    const ww: WebcamWidget

    /** The carousel as the user sees it. */
    function State(): Carousel
      reads this, ww
    {
      Carousel(webcamMode, currentCam, ww.visible, ww.source, ww.caption)
    }

    constructor ()
      ensures !webcamMode && currentCam == 0 && weatherOutput.None?
      ensures fresh(ww)
      ensures State() == Carousel(false, 0, false, "", "")
    {
      webcamMode := false;
      currentCam := 0;
      weatherOutput := None;
      ww := new WebcamWidget();
    }

    /** `button_press`, given the listing of the cams folder (None when it is missing). */
    method ButtonPress(listing: Option<seq<string>>) returns (outcome: PressOutcome)
      modifies this, ww
      ensures (State(), outcome) == Press(old(State()), listing)
      ensures weatherOutput == old(weatherOutput)
    {
      if !webcamMode {
        webcamMode := true;
      }
      ww.visible := true;
      if listing.None? {
        return PressFailed(FileNotFoundError);
      }
      var pics := listing.value;
      if currentCam == |pics| {
        ww.visible := false;
        webcamMode := false;
        currentCam := 0;
        outcome := Hid;
      } else if currentCam > |pics| {
        outcome := PressFailed(IndexError);
      } else {
        ww.source := CamSource(pics[currentCam]);
        ww.caption := Label(pics[currentCam]);
        currentCam := currentCam + 1;
        outcome := Showed;
      }
    }

    /**
     * `fetch_webcams`: runs the refresh loop on the record's cam list. A
     * missing record or key, a bad cam list and a lost connection are all
     * reported rather than raised, and nothing else can be raised.
     */
    method FetchWebcams(fs: Cache.Fs, now: int, reachable: set<string>)
      returns (disk: Cache.Fs, requests: seq<string>, outcome: WebcamsOutcome)
      ensures weatherOutput.None? || "cams" !in weatherOutput.value ==>
                outcome == NotReady && disk == fs && requests == []
      ensures weatherOutput.Some? && "cams" in weatherOutput.value ==>
                var run := Cache.Webcams(fs, weatherOutput.value["cams"], now, reachable);
                disk == run.fs && requests == run.requests && outcome == WebcamsReport(run.result)
      ensures !outcome.Propagated?
    {
      if weatherOutput.None? || "cams" !in weatherOutput.value {
        return fs, [], NotReady;
      }
      var cams := weatherOutput.value["cams"];
      var run := Cache.FetchWebcams(fs, cams, now, reachable);
      Cache.WebcamsRaises(fs, cams, now, reachable);
      disk, requests := run.fs, run.requests;
      outcome := WebcamsReport(run.result);
    }

    /**
     * `update_weather`: parse the page, fetch the icon, then update the depth,
     * icon and timestamp widgets in that order. A KeyError stops the update
     * where it is met; any other exception propagates.
     */
    method UpdateWeather(doc: Option<Node>, fs: Cache.Fs, cwd: string, now: int, reachable: set<string>,
                         sdw: SnowDepthsWidget, iw: IconWidget, tw: TimestampWidget)
      returns (disk: Cache.Fs, requests: seq<string>, outcome: WeatherOutcome)
      modifies this, sdw, iw, tw
      ensures weatherOutput == Some(Parsed(doc))
      ensures webcamMode == old(webcamMode) && currentCam == old(currentCam)
      ensures var run := ReportIcon(Parsed(doc), fs, cwd, now, reachable);
              && disk == run.fs && requests == run.requests
              && (run.result.Raise? ==> outcome == Caught(run.result.exc) && unchanged(sdw, iw, tw))
              && (run.result.Ok? ==> Shown(Parsed(doc), run.result.value, sdw, iw, tw, outcome))
    {
      var out := ParseWeather(doc);
      weatherOutput := Some(out);
      var run := ReportIcon(out, fs, cwd, now, reachable);
      disk, requests := run.fs, run.requests;
      if run.result.Raise? {
        return disk, requests, Caught(run.result.exc);
      }
      outcome := ShowReport(out, run.result.value, sdw, iw, tw);
    }
  }

  /** The `except KeyError` around the widget updates. */
  function Caught(e: Exception): WeatherOutcome {
    if e == KeyError then KeyMissing else Raised(e)
  }

  /**
   * `fetch_icon(output["icon_url"])`: a missing key raises KeyError and a
   * value that is not a string raises TypeError, both before any request.
   */
  function ReportIcon(out: Record, fs: Cache.Fs, cwd: string, now: int, reachable: set<string>): (r: Cache.Run<string>)
    ensures r.result == Raise(KeyError) <==> "icon_url" !in out
    ensures r.result == Raise(TypeError) <==> "icon_url" in out && AsStr(out["icon_url"]).None?
    ensures "icon_url" !in out || AsStr(out["icon_url"]).None? ==> r.fs == fs && r.requests == []
  {
    if "icon_url" !in out then Cache.Run(fs, [], Raise(KeyError))
    else match AsStr(out["icon_url"])
      case None => Cache.Run(fs, [], Raise(TypeError))
      case Some(url) => Cache.FetchIcon(fs, cwd, url, now, reachable)
  }

  /** On a complete page the icon fetched is the `src` of the page's condition icon. */
  lemma CompletePageFetchesItsIcon(doc: Option<Node>, fs: Cache.Fs, cwd: string, now: int, reachable: set<string>)
    requires Complete(doc)
    ensures ReportIcon(Parsed(doc), fs, cwd, now, reachable)
              == Cache.FetchIcon(fs, cwd, SummaryOf(doc.value).value.icon, now, reachable)
  {
    CompleteRecord(doc);
  }

  /**
   * On an incomplete page, unless a parent id is one of the summary keys,
   * the update stops at the icon's key: nothing is requested or written.
   */
  lemma IncompletePageStopsAtIcon(doc: Option<Node>, fs: Cache.Fs, cwd: string, now: int, reachable: set<string>)
    requires !Complete(doc)
    requires doc.Some? ==> SummaryKeys !! ParentIds(doc.value)
    ensures ReportIcon(Parsed(doc), fs, cwd, now, reachable) == Cache.Run(fs, [], Raise(KeyError))
  {
    IncompleteRecord(doc);
    assert "icon_url" in SummaryKeys;
  }

  /**
   * The widgets once the icon is in: the depth panel as `DepthsAfter` says,
   * the icon from /tmp, and the timestamp when the record holds a string
   * for it.
   */
  twostate predicate Shown(out: Record, basename: string, sdw: SnowDepthsWidget, iw: IconWidget,
                           tw: TimestampWidget, outcome: WeatherOutcome)
    reads sdw, iw, tw
  {
    && sdw.Depths() == DepthsAfter(old(sdw.Depths()), out)
    && iw.iconSource == Cache.IconPath(basename)
    && ("timestamp" !in out ==> outcome == KeyMissing && unchanged(tw))
    && ("timestamp" in out && AsStr(out["timestamp"]).None? ==>
          outcome == Raised(ValueError) && unchanged(tw))
    && ("timestamp" in out && AsStr(out["timestamp"]).Some? ==>
          outcome == Updated && tw.timestamp == AsStr(out["timestamp"]).value)
  }

  /** The three widget updates of `update_weather`, after the icon has been fetched. */
  method ShowReport(out: Record, basename: string, sdw: SnowDepthsWidget, iw: IconWidget, tw: TimestampWidget)
    returns (outcome: WeatherOutcome)
    modifies sdw, iw, tw
    ensures Shown(out, basename, sdw, iw, tw, outcome)
  {
    sdw.Update(out);
    iw.Update(Cache.IconPath(basename));
    if "timestamp" !in out {
      return Caught(KeyError);
    }
    var shown := tw.Update(out["timestamp"]);
    if shown.Raise? {
      outcome := Raised(shown.exc);
    } else {
      outcome := Updated;
    }
  }
}

# Snowbird ski-report kiosk, modelled in Dafny

The kiosk scrapes Snowbird's mountain-report page and shows snow depths, a
weather icon, a timestamp and a carousel of webcam pictures. This project
models its logic in Dafny and proves what that logic does:

- `wrappers.dfy` (module `Wrappers`): `Option`, `Result` and the Python
  exceptions the code can raise or catch.
- `text.dfy` (module `Text`): `str.replace`, `os.path.basename` and
  `os.path.join` as the code uses them.
- `markup.dfy` (module `Markup`): a parsed HTML tree, and BeautifulSoup's
  `find_all` and `find` as "all matches" and "first match" in document order.
  Each hit carries its parent's attributes, for `item.parent.attrs['id']`.
- `weather.dfy` (module `Weather`): `parse_weather`. The method
  `ParseWeather` keeps the three loops of `parse_weather` and is proved equal to
  the declarative record `Parsed`. The lemmas then show what that record
  holds:
  - the summary keys are all-or-nothing;
  - one bad cam empties the whole record;
  - the cams appear in document order;
  - the last write to a parent id wins.
- `cache.dfy` (module `Cache`): `fetch_icon` and `fetch_webcams`.
  - The disk is a map from path to modification time.
  - The network is the set of URLs that answer.
  - A pass returns the new disk, the URLs requested in order and the outcome.
  - `FetchWebcams` keeps the loop of `fetch_webcams` and is proved equal to the
    recursive `Webcams`. The lemmas give its freshness rule, its frame,
    idempotence within the timeout window while none of the cams' pictures is
    yet stale (the kiosk repeats a pass every `UPDATE_FREQUENCY` seconds,
    main.py:49), and how it aborts on the first
    exception without rolling back earlier writes.
- `kiosk.dfy` (module `Kiosk`): `main.py`.
  - The carousel behind the "next" button is a pure transition `Press`. The
    `RootWidget.ButtonPress` method updates the widget's fields exactly as
    `Press` says.
  - Its lemmas show the cycle through the listing, the range of the current
    cam, and that a shrunk listing makes every press fail.
  - The caption recovers the cam name from the cache file name.
  - `update_weather` and `fetch_webcams` dispatch on missing keys and
    exceptions, and `SnowDepthsWidget.update` assigns its four fields.

`fetch_icon` tests `os.path.exists(basename)` relative to the working
directory, but writes the file to `"/tmp/" + basename`. The model keeps that
behaviour: the existence test takes the working directory as a parameter.
`IconRefetchedOutsideTmp` shows that, outside `/tmp`, the icon is downloaded
again on every call unless a file of the same name happens to sit in the
working directory (or the name is "." or ".."). `IconCachedInTmp` covers the
`/tmp` case.

Two behaviours of the program are easy to miss:

- A slideshow photo without a name or an image aborts the whole parse. It is
  not skipped.
- A failed webcam download stops the loop: the cams after it are left as they
  were, and the exception reaches the caller.

## Model

| member | source | states |
|---|---|---|
| `Text.Basename` | snowbird.py:61 | the basename is the suffix of the path after its last '/', holds no '/', and is the whole path when there is no '/' |
| `Text.ReplaceCharRoundTrip` | snowbird.py:78 | replacing ' ' by '_' is undone by replacing '_' by ' ' when the name holds no '_' |
| `Text.StripJpg` | main.py:101 | removing every ".jpg" from `s + ".jpg"` gives back `s` when `s` holds no ".jpg" |
| `Text.Replace` | snowbird.py:78 | defines `str.replace`: every non-overlapping occurrence, scanned from the left; `ReplaceCharRoundTrip` and `StripJpg` prove its properties |
| `Text.PathJoin` | snowbird.py:78 | defines `os.path.join`: an absolute second part replaces the first; otherwise joined with one '/'; `CamPathInFolder` and `IconRefetchedOutsideTmp` use it |
| `Markup.FindAll` | snowbird.py:27-28 | defines `find_all`: the matching descendants in document order; `SelectSingleton` and `SelectAppend` prove the filter keeps exactly the matches in input order, `SelectMembers` and `SelectFirst` give membership and the first match |
| `Markup.Find` | snowbird.py:29 | defines `find`: the first of them, or None; `FindIsFirst` proves it |
| `Markup.SelectMembers` | snowbird.py:27-28 | `find_all` keeps exactly the descendants that match the selector and never more than there are |
| `Markup.SelectSingleton` | snowbird.py:27-28 | a single hit is kept exactly when it matches the selector |
| `Markup.SelectAppend` | snowbird.py:27-28 | selecting from two pieces one after the other gives the selection of the first followed by that of the second, so matches keep their document order |
| `Markup.SelectFirst` | snowbird.py:30 | element `[0]` of a `find_all` result is a match preceded by no other match |
| `Markup.FindIsFirst` | snowbird.py:29 | `find` is None iff no descendant matches; otherwise it is a match preceded in document order by no other match |
| `Weather.TimestampOf` | snowbird.py:29 | defines the timestamp lookup: the first content of the `timestamp` div in the first `current-conditions` div, or nothing when either div is missing or the content list is empty |
| `Weather.IconOf` | snowbird.py:30 | defines the icon lookup: the `src` of the first "retina condition-icon" image, or nothing when there is no such image or it has no `src` |
| `Weather.PhotosOf` | snowbird.py:31 | defines the photo lookup: the `slideshow-photo` divs inside the first `slideshow-content` div, or nothing when that div is missing |
| `Weather.CamOf` | snowbird.py:35-37 | defines the cam of a slideshow photo: first content of the `h3` in `cam-info` and `src` of the first `img.retina`, or nothing if either is missing; `CollectCams` and `IncompleteCamAbortsAll` use it |
| `Weather.Parsed` | snowbird.py:19-56 | defines the record: the parent-id writes up to the first failing element, then the three summary keys, or nothing when a lookup or a cam fails; `ParseWeather` is proved equal to it, `CompleteRecord` and `IncompleteRecord` state its keys |
| `Weather.ParseWeather` | snowbird.py:19-56 | the three-loop scraper returns exactly the record `Parsed` describes, for every page and for no page; it never raises |
| `Weather.CollectCams` | snowbird.py:33-37 | the cam loop yields one `{name, url}` per slideshow photo in order, or fails if any photo lacks either field |
| `Weather.StoreAll` | snowbird.py:39-47 | a parent-id loop stores the writes made before the first failing element and reports whether every element succeeded |
| `Weather.Entries` | snowbird.py:39-42 | the writes are one per element, in order, up to the first element without a parent id or a first content |
| `Weather.StoreKeys` | snowbird.py:42 | after the writes, the keys are the old keys plus the written ids, and every written key holds element contents |
| `Weather.StoreLastWrite` | snowbird.py:46-47 | a key holds the value of the last write to it |
| `Weather.EntriesKeys` | snowbird.py:40 | every key written is the id of one of the elements' parents, and every such id is written when no element fails |
| `Weather.CompleteRecord` | snowbird.py:49-51 | on a fully understood page the keys are exactly the parent ids plus "timestamp", "icon_url" and "cams", holding the timestamp's first content, the icon's `src` and the cams |
| `Weather.IncompleteRecord` | snowbird.py:53-56 | otherwise the record holds only parent ids mapped to element contents, and nothing at all for an unparsable page |
| `Weather.CamListIffComplete` | snowbird.py:51 | "cams" holds a cam list iff every lookup, cam and write succeeded |
| `Weather.SummaryAllOrNothing` | snowbird.py:49-51 | unless a parent id is itself a summary key, the three summary keys are present together, exactly on a complete page |
| `Weather.IncompleteCamAbortsAll` | snowbird.py:34-37 | one slideshow photo missing its name or image makes the result empty |
| `Weather.CamsInDocumentOrder` | snowbird.py:34-37 | "cams" has one entry per slideshow photo, and entry i is the cam of photo i |
| `Weather.LastWriteWins` | snowbird.py:39-47 | each parent-id write survives unless a later write to the same id replaces it or a summary key shadows it, even when a later element fails |
| `Cache.IconExists` | snowbird.py:62 | defines `os.path.exists(basename)`: "." and ".." always exist, "" never does, any other name is looked up in the working directory; used by `FetchIcon` and the icon lemmas |
| `Cache.FetchIcon` | snowbird.py:58-66 | returns the basename; requests the icon iff the basename does not exist relative to the working directory; writes only `/tmp/<basename>`; raises only ConnectionError (no answer) or IsADirectoryError (an empty basename, or the cams folder as target) |
| `Cache.IconRefetchedOutsideTmp` | snowbird.py:62-64 | when the basename is not "." or "..", and the checked path is not the written one and holds no file, a second call requests the icon again whatever the first call wrote |
| `Cache.IconCachedInTmp` | snowbird.py:62-64 | from /tmp a second call after a successful one requests nothing and changes nothing |
| `Cache.IconOfReportPage` | snowbird.py:61-64 | run from /home/pi, the icon `src` "/icons/sun.png" is requested from the site, stored as /tmp/sun.png, and "sun.png" is returned |
| `Cache.IconDotDotExists` | snowbird.py:61-66 | an icon URL ending in "/.." requests nothing, writes nothing and returns ".." |
| `Cache.IconOntoCamsFolder` | snowbird.py:62-65 | an icon named "cams", once the cams folder exists, is requested and then fails with IsADirectoryError, leaving the disk unchanged |
| `Cache.CamPath` | snowbird.py:78 | defines a cam's cache path: the name with spaces as underscores, joined to the cams folder, plus ".jpg"; proved inside the folder by `CamPathInFolder` |
| `Cache.CamPathInFolder` | snowbird.py:78 | for a name not starting with '/', the cache path is the cams folder, '/', the name with spaces as underscores, and ".jpg" |
| `Cache.CamPathNotFolder` | snowbird.py:74-78 | no cam path is the cams folder itself |
| `Cache.CamPathCollision` | snowbird.py:78 | "Mid Gad" and "Mid_Gad" share one cache path |
| `Cache.CacheFileNameInjective` | snowbird.py:78 | names without '_' get distinct cache file names |
| `Cache.Age` | snowbird.py:80 | defines the freshness test: missing, older than CAM_TIMEOUT (strictly), or fresh; boundary proved by `FreshnessBoundary` |
| `Cache.CamStep` | snowbird.py:78-84 | defines one turn of the loop: a name that is not a string raises TypeError; a fresh picture is skipped; otherwise the cam is downloaded to its path; downloads iff not fresh by `CamStepDownloadsIffNotFresh` |
| `Cache.Refresh` | snowbird.py:77-84 | defines the loop: turn after turn in list order, stopping at the first exception; `RefreshStops`, `RefreshFrame` and `RefreshLeavesFresh` prove it |
| `Cache.CamItems` | snowbird.py:77 | defines what `for cam in cams` yields: the cams of a cam list; nothing for an empty string or an element without children; TypeError for any other value, on the first `cam['name']` |
| `Cache.Webcams` | snowbird.py:68-86 | defines a whole pass: create the folder if absent, then run the loop over the cam list; `FetchWebcams` is proved equal to it |
| `Cache.FetchWebcams` | snowbird.py:68-86 | the loop creates the folder, then refreshes cam after cam, exactly as `Webcams` describes |
| `Cache.RefreshStops` | snowbird.py:77-84 | once a cam raises, the cams after it are not looked at |
| `Cache.RaiseKeepsEarlierWrites` | snowbird.py:77-84 | when cam k raises after the cams before it succeeded, the pass leaves the disk exactly as those earlier cams left it: nothing is rolled back and nothing after k is written |
| `Cache.CamStepFrame` | snowbird.py:80-84 | one turn requests at most one URL and writes at most its own cam's path, with time `now` |
| `Cache.RefreshFrame` | snowbird.py:77-84 | a pass requests at most one URL per cam, changes no path but cam paths, and stamps what it writes with `now` |
| `Cache.RefreshLeavesFresh` | snowbird.py:80-84 | after a pass that raised nothing, every cam's picture is fresh |
| `Cache.RefreshFreshIsNoop` | snowbird.py:80-86 | a pass over cams whose pictures are all fresh requests nothing and changes nothing |
| `Cache.SecondPassDownloadsNothing` | snowbird.py:74-86 | a second pass at the same time, after one that succeeded, leaves the disk as it is and requests nothing |
| `Cache.SecondPassWithinWindow` | snowbird.py:74-86 | a later pass, at most CAM_TIMEOUT after one that succeeded and while none of the cams' pictures is yet stale (other files on the disk do not matter), requests nothing and leaves the disk as it is |
| `Cache.WebcamsCreatesFolder` | snowbird.py:74-75 | the cams folder exists after every pass |
| `Cache.WebcamsRaises` | snowbird.py:77-84 | a pass raises nothing but ConnectionError or TypeError |
| `Cache.RefreshRaises` | snowbird.py:80-84 | the per-cam loop raises nothing but ConnectionError or TypeError |
| `Cache.FreshnessBoundary` | snowbird.py:80 | a picture exactly 1000 s old is kept, one 1001 s old is downloaded again |
| `Cache.CamStepDownloadsIffNotFresh` | snowbird.py:80-84 | a cam is requested exactly when its picture is missing or older than the timeout |
| `Cache.SameNameDownloadedOnce` | snowbird.py:78-80 | of two cams with the same name in one pass, only the first is downloaded |
| `Kiosk.Label` | main.py:101 | defines the caption: every '_' back to ' ', then every ".jpg" removed; `LabelInvertsCacheFileName` proves it undoes the cache file name |
| `Kiosk.CamSource` | main.py:99 | defines the picture path: the listed file joined to the cams folder; `ShownPathIsCachePath` proves it is the cam's cache path |
| `Kiosk.Press` | main.py:83-102 | defines one press: webcam mode on and shown; no folder raises FileNotFoundError; at the end of the listing hide and reset; past it raise IndexError; otherwise show the current picture and its caption and advance; `ModeAfterPress`, `PressKeepsInRange` and `FullCycle` prove it |
| `Kiosk.LabelInvertsCacheFileName` | main.py:101 | the caption of a cached picture is the cam's name when the name has no '_' and no ".jpg" |
| `Kiosk.ShownPathIsCachePath` | main.py:99 | the carousel loads a cached picture from exactly the path the refresh loop wrote |
| `Kiosk.ModeAfterPress` | main.py:85-97 | after a press the kiosk is in webcam mode with the picture shown, unless that press hid the carousel |
| `Kiosk.PressKeepsInRange` | main.py:93-102 | over a fixed listing the current cam stays within 0..n, no press fails, and a press hides iff the current cam is n |
| `Kiosk.PressesWalk` | main.py:98-102 | from cam i, the k-th press shows picture i+k-1 with its caption, and the current cam moves by exactly one per press |
| `Kiosk.PressesReset` | main.py:93-97 | from cam i <= n, n-i+1 presses hide the carousel and reset mode and cam |
| `Kiosk.FullCycle` | main.py:83-102 | from the reset position, presses 1..n show the pictures in listing order and press n+1 returns to the reset position |
| `Kiosk.ShrunkListingSticks` | main.py:93-99 | once the listing holds fewer pictures than the current cam, every later press raises IndexError and the cam stays put |
| `Kiosk.DepthText` | main.py:115-118 | a depth text exists iff the key is present with a string value, and it is that value followed by '"' |
| `Kiosk.DepthsAfter` | main.py:113-120 | defines the four fields after an update: field i takes its new text when keys 0..i all succeed, and keeps its old text otherwise; `DepthsAllPresent` and `DepthsStopAtFailure` prove it |
| `Kiosk.DepthsAllPresent` | main.py:113-118 | with all four keys present as strings, each field is its value followed by '"' |
| `Kiosk.DepthsStopAtFailure` | main.py:114-120 | the first key that is missing or not a string leaves its field and all later fields unchanged |
| `Kiosk.SnowDepthsWidget.Update` | main.py:113-120 | the four assignments leave the fields as `DepthsAfter` says: set up to the first failure, unchanged after it |
| `Kiosk.IconWidget.constructor` | main.py:123 | the icon starts on the offline picture |
| `Kiosk.IconWidget.Update` | main.py:128-129 | the icon source becomes the given path |
| `Kiosk.TimestampWidget.Update` | main.py:140-141 | a string is shown; anything else is refused with ValueError and the widget is unchanged |
| `Kiosk.RootWidget.constructor` | main.py:26-28 | the kiosk starts out of webcam mode, at cam 0, without a weather record, and its carousel state is `Carousel(false, 0, false, "", "")`: webcam widget hidden, no picture and no caption |
| `Kiosk.RootWidget.ButtonPress` | main.py:83-102 | a press changes the mode, the current cam and the webcam view exactly as `Press` says, and nothing else |
| `Kiosk.WebcamsReport` | main.py:66-71 | ConnectionError is reported as a failed connection, TypeError and KeyError as "not ready" |
| `Kiosk.RootWidget.FetchWebcams` | main.py:65-71 | with no record or no "cams" it reports "not ready" and touches nothing; otherwise it runs the refresh pass, and none of the modelled exceptions (ConnectionError, TypeError) escapes |
| `Kiosk.ReportIcon` | main.py:57 | a missing "icon_url" raises KeyError and a non-string one raises TypeError, both before any request; otherwise the icon is fetched |
| `Kiosk.CompletePageFetchesItsIcon` | main.py:57 | on a complete page the icon fetched is the page's condition icon |
| `Kiosk.IncompletePageStopsAtIcon` | main.py:56-63 | on an incomplete page without id clashes the update stops at the icon: nothing is requested, written or shown |
| `Kiosk.ShowReport` | main.py:59-63 | the depth panel is updated, the icon shows /tmp/<basename>, and the timestamp is shown unless its key is missing (KeyError caught) or it is not a string |
| `Kiosk.RootWidget.UpdateWeather` | main.py:51-63 | the record is stored; a KeyError stops the update where it occurs and leaves the remaining widgets alone; other exceptions propagate |

## Left out

- The Kivy presentation layer is not modelled. This covers layout, colours (`show_image` is reduced to a visible flag), the logo, the button binding, `SnowbirdApp` and `Config`.
- The timers that schedule `update_weather` and `fetch_webcams` are not modelled, nor any overlap between their runs. Each run is modelled as one call.
- `fetch_weather` and the network are reduced to the page tree given to `ParseWeather` (None when no page arrived) and to the set of URLs that answer.
- The streaming of response bodies into files is reduced to a download that sets the target's modification time to `now` or raises ConnectionError. Other exceptions the program can meet there are not modelled: errors while `shutil.copyfileobj` reads the response, `requests` exceptions other than ConnectionError, and OSError from `open` or `os.mkdir`. They would escape the handler of `fetch_webcams` (main.py:66-71), so the statement that no exception escapes `RootWidget.FetchWebcams` holds only under this abstraction.
- HTML tokenisation is not modelled: the page is taken as an already parsed tree. A class selector matches an element listing that class, or one whose whole class attribute equals the selector.
- The clock is reduced to one integer `now` per pass. `time.time()` is a float and advances during a pass.
- The order of `os.listdir` is not modelled: the listing is a parameter.
- The filesystem does not tell files from directories except for the cams folder (and "/tmp/" itself, for an empty icon name). Opening `/tmp/<basename>` when that names any other existing directory would raise IsADirectoryError in the program; the model writes it as a file.
- Paths are not normalised: apart from the icon names "." and "..", which always exist, a path such as "a/../b" is a different key from "b".
- The page tree's root stands for the BeautifulSoup object, and `find_all` gives top-level elements the root's attributes as their parent's. A BeautifulSoup object has no attributes, so `item.parent.attrs['id']` fails for a top-level element; the model reproduces that only when the root's attributes are empty, which it does not require.
- Directory modification times, and writes that fail because a cam name holds '/' and names a missing subfolder, are not modelled.
- Kiosk.RootWidget.FetchWebcams: promises that no exception escapes only for the exceptions the model raises; the download line above lists the ones that could escape in the program.
- Iterating a "cams" value that is an element with children is not modelled: any such value raises TypeError in the model. In Python, child elements with `name` and `url` attributes would be used as cams.
- Logging with `print` is not modelled.
- `Kiosk.RootWidget.constructor` only sets the three fields of `__init__`. The child widgets it creates are the parameters of `UpdateWeather`.

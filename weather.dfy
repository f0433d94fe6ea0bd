/**
 * `parse_weather` of snowbird.py: projects the mountain-report page onto a
 * flat record. Every lookup failure is caught and the record built so far
 * is returned.
 */
module Weather {
  import opened Wrappers
  import opened Markup

  /** One webcam: the first content of its heading and its image's `src`. */
  datatype Cam = Cam(name: Node, url: string)

  /**
   * A record value: the first content of an element (a string, or an
   * element when the first child is one), the icon's `src`, or the cam list.
   */
  datatype Value = Content(node: Node) | Url(url: string) | CamList(cams: seq<Cam>)

  type Record = map<string, Value>

  /** The value as a Python `str`, if it is one (a text node is a str subclass). */
  function AsStr(v: Value): Option<string> {
    match v
    case Content(Text(s)) => Some(s)
    case Url(s) => Some(s)
    case _ => None
  }

  const TotalInches := Selector("div", Some("total-inches"))
  const ConditionValue := Selector("div", Some("condition-value"))
  const CurrentConditions := Selector("div", Some("current-conditions"))
  const TimestampDiv := Selector("div", Some("timestamp"))
  const ConditionIcon := Selector("img", Some("retina condition-icon"))
  const SlideshowContent := Selector("div", Some("slideshow-content"))
  const SlideshowPhoto := Selector("div", Some("slideshow-photo"))
  const CamInfo := Selector("div", Some("cam-info"))
  const Heading := Selector("h3", None)
  const RetinaImage := Selector("img", Some("retina"))

  /** The keys written only when the whole page was understood. */
  const SummaryKeys: set<string> := {"timestamp", "icon_url", "cams"}

  // ---------------------------------------------------------------------
  // Specification of the lookups

  /** First content of the timestamp div inside the current-conditions div. */
  function TimestampOf(d: Node): Option<Node> {
    match Find(d, CurrentConditions)
    case None => None
    case Some(cc) =>
      match Find(cc, TimestampDiv)
      case None => None
      case Some(ts) => FirstContent(ts)
  }

  /** `src` of the first "retina condition-icon" image. */
  function IconOf(d: Node): Option<string> {
    var icons := FindAll(d, ConditionIcon);
    if icons == [] then None else Attr(icons[0].node, "src")
  }

  /** The slideshow-photo divs inside the first slideshow-content div. */
  function PhotosOf(d: Node): Option<seq<Hit>> {
    match Find(d, SlideshowContent)
    case None => None
    case Some(show) => Some(FindAll(show, SlideshowPhoto))
  }

  /** The cam a slideshow photo describes; None if either field is missing. */
  function CamOf(photo: Node): Option<Cam> {
    match Find(photo, CamInfo)
    case None => None
    case Some(info) =>
      match Find(info, Heading)
      case None => None
      case Some(h3) =>
        match FirstContent(h3)
        case None => None
        case Some(name) =>
          match Find(photo, RetinaImage)
          case None => None
          case Some(img) =>
            match Attr(img, "src")
            case None => None
            case Some(url) => Some(Cam(name, url))
  }

  /** All cams, in document order, or None as soon as one photo lacks a field. */
  function CamsOf(ps: seq<Hit>): Option<seq<Cam>> {
    if forall i :: 0 <= i < |ps| ==> CamOf(ps[i].node).Some?
    then Some(seq(|ps|, i requires 0 <= i < |ps| => CamOf(ps[i].node).value))
    else None
  }

  /** The three summary values, when every lookup and every cam succeeds. */
  datatype Summary = Summary(timestamp: Node, icon: string, cams: seq<Cam>)

  function SummaryOf(d: Node): Option<Summary> {
    match TimestampOf(d)
    case None => None
    case Some(ts) =>
      match IconOf(d)
      case None => None
      case Some(icon) =>
        match PhotosOf(d)
        case None => None
        case Some(ps) =>
          match CamsOf(ps)
          case None => None
          case Some(cams) => Some(Summary(ts, icon, cams))
  }

  // ---------------------------------------------------------------------
  // Specification of the parent-id writes

  /** `output[parent id] = first content`, one write. */
  datatype Entry = Entry(key: string, value: Node)

  /** The write a hit makes; None where the parent has no id or the hit no content. */
  function EntryOf(h: Hit): Option<Entry> {
    if "id" !in h.parentAttrs then None
    else
      match FirstContent(h.node)
      case None => None
      case Some(c) => Some(Entry(h.parentAttrs["id"], c))
  }

  predicate AllEntries(hs: seq<Hit>) {
    forall i :: 0 <= i < |hs| ==> EntryOf(hs[i]).Some?
  }

  /** The writes made before the first failing hit. */
  function Entries(hs: seq<Hit>): (es: seq<Entry>)
    ensures |es| <= |hs|
    ensures forall i :: 0 <= i < |es| ==> EntryOf(hs[i]) == Some(es[i])
    ensures |es| < |hs| ==> EntryOf(hs[|es|]).None?
  {
    if hs == [] then []
    else
      match EntryOf(hs[0])
      case None => []
      case Some(e) => [e] + Entries(hs[1..])
  }

  /** Applies the writes in order; a later write to a key replaces an earlier one. */
  function Store(m: Record, es: seq<Entry>): Record {
    if es == [] then m
    else Store(m, es[..|es| - 1])[es[|es| - 1].key := Content(es[|es| - 1].value)]
  }

  function EntryKeys(es: seq<Entry>): set<string> {
    set i | 0 <= i < |es| :: es[i].key
  }

  /** The ids of the parents of `hs` that have one. */
  function Ids(hs: seq<Hit>): set<string> {
    set i | 0 <= i < |hs| && "id" in hs[i].parentAttrs :: hs[i].parentAttrs["id"]
  }

  /** Every lookup, every cam and every parent-id write succeeds. */
  predicate Complete(doc: Option<Node>) {
    && doc.Some?
    && SummaryOf(doc.value).Some?
    && AllEntries(FindAll(doc.value, TotalInches))
    && AllEntries(FindAll(doc.value, ConditionValue))
  }

  /**
   * The record built from the lookups' results: the parent-id writes of
   * both element lists in order, then the summary keys, stopping at the
   * first failing element.
   */
  function Assemble(sum: Summary, snowfall: seq<Hit>, conditions: seq<Hit>): Record {
    var m1 := Store(map[], Entries(snowfall));
    if !AllEntries(snowfall) then m1
    else
      var m2 := Store(m1, Entries(conditions));
      if !AllEntries(conditions) then m2
      else m2["timestamp" := Content(sum.timestamp)]["icon_url" := Url(sum.icon)]["cams" := CamList(sum.cams)]
  }

  /** The record `parse_weather` returns for a page (None: the page could not be parsed). */
  function Parsed(doc: Option<Node>): Record {
    if doc.None? then map[]
    else
      match SummaryOf(doc.value)
      case None => map[]
      case Some(sum) => Assemble(sum, FindAll(doc.value, TotalInches), FindAll(doc.value, ConditionValue))
  }

  // ---------------------------------------------------------------------
  // The scraper

  /** `parse_weather(html_doc)`, step by step: three loops and an early return on any failure. */
  method ParseWeather(doc: Option<Node>) returns (output: Record)
    ensures output == Parsed(doc)
  {
    output := map[];
    if doc.None? {
      return;
    }
    var soup := doc.value;
    var snowfall := FindAll(soup, TotalInches);
    var conditions := FindAll(soup, ConditionValue);
    var timestamp := TimestampOf(soup);
    if timestamp.None? { assert SummaryOf(soup).None?; return; }
    var icon := IconOf(soup);
    if icon.None? { assert SummaryOf(soup).None?; return; }
    var cams := PhotosOf(soup);
    if cams.None? { assert SummaryOf(soup).None?; return; }

    var outputCams := CollectCams(cams.value);
    if outputCams.None? { assert SummaryOf(soup).None?; return; }
    assert SummaryOf(soup) == Some(Summary(timestamp.value, icon.value, outputCams.value));
    var complete;
    output, complete := StoreAll(output, snowfall);
    if !complete { return; }
    output, complete := StoreAll(output, conditions);
    if !complete { return; }
    output := output["timestamp" := Content(timestamp.value)];
    output := output["icon_url" := Url(icon.value)];
    output := output["cams" := CamList(outputCams.value)];
  }

  /** The loop over the slideshow photos: every cam, or None at the first incomplete one. */
  method CollectCams(cams: seq<Hit>) returns (r: Option<seq<Cam>>)
    ensures r == CamsOf(cams)
  {
    var outputCams: seq<Cam> := [];
    var i := 0;
    while i < |cams|
      invariant 0 <= i <= |cams|
      invariant |outputCams| == i
      invariant forall j :: 0 <= j < i ==> CamOf(cams[j].node) == Some(outputCams[j])
    {
      var cam := cams[i].node;
      var info := Find(cam, CamInfo);
      if info.None? { return None; }
      var h3 := Find(info.value, Heading);
      if h3.None? { return None; }
      var name := FirstContent(h3.value);
      if name.None? { return None; }
      var img := Find(cam, RetinaImage);
      if img.None? { return None; }
      var url := Attr(img.value, "src");
      if url.None? { return None; }
      outputCams := outputCams + [Cam(name.value, url.value)];
      i := i + 1;
    }
    assert outputCams == seq(|cams|, j requires 0 <= j < |cams| => CamOf(cams[j].node).value);
    return Some(outputCams);
  }

  /**
   * One of the two loops over the found elements: writes `output[parent id]`
   * for each until one lacks a parent id or a first content.
   */
  method StoreAll(output: Record, hs: seq<Hit>) returns (r: Record, complete: bool)
    ensures r == Store(output, Entries(hs))
    ensures complete == AllEntries(hs)
  {
    r := output;
    var i := 0;
    while i < |hs|
      invariant 0 <= i <= |hs|
      invariant AllEntries(hs[..i])
      invariant r == Store(output, Entries(hs[..i]))
    {
      var item := hs[i];
      if "id" !in item.parentAttrs { EntriesStop(hs, i); return r, false; }
      var contents := FirstContent(item.node);
      if contents.None? { EntriesStop(hs, i); return r, false; }
      StoreStep(output, hs, i);
      r := r[item.parentAttrs["id"] := Content(contents.value)];
      i := i + 1;
    }
    assert hs[..i] == hs;
    return r, true;
  }

  // ---------------------------------------------------------------------
  // Properties

  /** The contract of Entries determines it. */
  lemma EntriesUnique(hs: seq<Hit>, es: seq<Entry>)
    requires |es| <= |hs|
    requires forall i :: 0 <= i < |es| ==> EntryOf(hs[i]) == Some(es[i])
    requires |es| < |hs| ==> EntryOf(hs[|es|]).None?
    ensures Entries(hs) == es
  {
    var e := Entries(hs);
    assert |e| == |es|;
  }

  /** A successful prefix followed by a successful hit extends the writes by one. */
  lemma EntriesGrow(hs: seq<Hit>, i: nat)
    requires i < |hs| && AllEntries(hs[..i]) && EntryOf(hs[i]).Some?
    ensures AllEntries(hs[..i + 1])
    ensures Entries(hs[..i + 1]) == Entries(hs[..i]) + [EntryOf(hs[i]).value]
    ensures |Entries(hs[..i])| == i
  {
    var p := hs[..i];
    assert |Entries(p)| == i;
    EntriesUnique(hs[..i + 1], Entries(p) + [EntryOf(hs[i]).value]);
  }

  /** One more successful hit stores one more write, on top of the earlier ones. */
  lemma StoreStep(m: Record, hs: seq<Hit>, i: nat)
    requires i < |hs| && AllEntries(hs[..i]) && EntryOf(hs[i]).Some?
    ensures AllEntries(hs[..i + 1])
    ensures var e := EntryOf(hs[i]).value;
            Store(m, Entries(hs[..i + 1])) == Store(m, Entries(hs[..i]))[e.key := Content(e.value)]
  {
    EntriesGrow(hs, i);
    var es := Entries(hs[..i + 1]);
    assert es[..|es| - 1] == Entries(hs[..i]);
  }

  /** A failing hit after a successful prefix ends the writes there. */
  lemma EntriesStop(hs: seq<Hit>, i: nat)
    requires i < |hs| && AllEntries(hs[..i]) && EntryOf(hs[i]).None?
    ensures !AllEntries(hs)
    ensures Entries(hs) == Entries(hs[..i])
  {
    var p := hs[..i];
    assert |Entries(p)| == i;
    EntriesUnique(hs, Entries(p));
  }

  /** The keys of a store are the old keys and the written ones; written keys hold contents. */
  lemma {:induction false} StoreKeys(m: Record, es: seq<Entry>)
    ensures Store(m, es).Keys == m.Keys + EntryKeys(es)
    ensures forall k :: k in Store(m, es) ==>
              if k in EntryKeys(es) then Store(m, es)[k].Content? else Store(m, es)[k] == m[k]
    decreases |es|
  {
    if es != [] {
      var init := es[..|es| - 1];
      StoreKeys(m, init);
      assert EntryKeys(es) == EntryKeys(init) + {es[|es| - 1].key} by {
        forall k | k in EntryKeys(es) ensures k in EntryKeys(init) + {es[|es| - 1].key} {
          var i :| 0 <= i < |es| && es[i].key == k;
          if i < |es| - 1 { assert init[i] == es[i]; }
        }
        forall k | k in EntryKeys(init) ensures k in EntryKeys(es) {
          var i :| 0 <= i < |init| && init[i].key == k;
          assert es[i] == init[i];
        }
      }
    }
  }

  /** The value stored under a key is the one its last write put there. */
  lemma {:induction false} StoreLastWrite(m: Record, es: seq<Entry>, i: nat)
    requires i < |es|
    requires forall j :: i < j < |es| ==> es[j].key != es[i].key
    ensures es[i].key in Store(m, es) && Store(m, es)[es[i].key] == Content(es[i].value)
    decreases |es|
  {
    if i < |es| - 1 {
      var init := es[..|es| - 1];
      assert init[i] == es[i];
      StoreLastWrite(m, init, i);
    }
  }

  /** Storing two batches one after the other is storing their concatenation. */
  lemma {:induction false} StoreAppend(m: Record, a: seq<Entry>, b: seq<Entry>)
    ensures Store(Store(m, a), b) == Store(m, a + b)
    decreases |b|
  {
    if b == [] {
      assert a + b == a;
    } else {
      StoreAppend(m, a, b[..|b| - 1]);
      assert (a + b)[..|a + b| - 1] == a + b[..|b| - 1];
    }
  }

  /** Every key written for a list of hits is the id of one of their parents, and all are when none fails. */
  lemma EntriesKeys(hs: seq<Hit>)
    ensures EntryKeys(Entries(hs)) <= Ids(hs)
    ensures AllEntries(hs) ==> EntryKeys(Entries(hs)) == Ids(hs)
  {
    var es := Entries(hs);
    forall k | k in EntryKeys(es) ensures k in Ids(hs) {
      var i :| 0 <= i < |es| && es[i].key == k;
      assert EntryOf(hs[i]) == Some(es[i]);
    }
    if AllEntries(hs) {
      assert |es| == |hs|;
      forall k | k in Ids(hs) ensures k in EntryKeys(es) {
        var i :| 0 <= i < |hs| && "id" in hs[i].parentAttrs && hs[i].parentAttrs["id"] == k;
        assert EntryOf(hs[i]) == Some(es[i]);
      }
    }
  }

  /** The writes `parse_weather` makes, in order, up to the first failing element. */
  function Writes(snowfall: seq<Hit>, conditions: seq<Hit>): seq<Entry> {
    Entries(snowfall) + (if AllEntries(snowfall) then Entries(conditions) else [])
  }

  lemma EntryKeysAppend(a: seq<Entry>, b: seq<Entry>)
    ensures EntryKeys(a + b) == EntryKeys(a) + EntryKeys(b)
  {
    forall k | k in EntryKeys(a + b) ensures k in EntryKeys(a) + EntryKeys(b) {
      var i :| 0 <= i < |a + b| && (a + b)[i].key == k;
      if i >= |a| { assert b[i - |a|] == (a + b)[i]; }
    }
    forall k | k in EntryKeys(a) + EntryKeys(b) ensures k in EntryKeys(a + b) {
      if k in EntryKeys(a) {
        var i :| 0 <= i < |a| && a[i].key == k;
        assert (a + b)[i] == a[i];
      } else {
        var i :| 0 <= i < |b| && b[i].key == k;
        assert (a + b)[|a| + i] == b[i];
      }
    }
  }

  /** The assembled record holds the writes in order, plus the summary when every write succeeded. */
  lemma AssembleIsWrites(sum: Summary, snowfall: seq<Hit>, conditions: seq<Hit>)
    ensures !(AllEntries(snowfall) && AllEntries(conditions)) ==>
              Assemble(sum, snowfall, conditions) == Store(map[], Writes(snowfall, conditions))
    ensures AllEntries(snowfall) && AllEntries(conditions) ==>
              Assemble(sum, snowfall, conditions) == Store(map[], Writes(snowfall, conditions))
                                                       ["timestamp" := Content(sum.timestamp)]
                                                       ["icon_url" := Url(sum.icon)]
                                                       ["cams" := CamList(sum.cams)]
  {
    if AllEntries(snowfall) {
      StoreAppend(map[], Entries(snowfall), Entries(conditions));
    } else {
      assert Entries(snowfall) + [] == Entries(snowfall);
    }
  }

  /** The keys written are parent ids of the two lists, all of them when nothing failed. */
  lemma WritesKeys(snowfall: seq<Hit>, conditions: seq<Hit>)
    ensures EntryKeys(Writes(snowfall, conditions)) <= Ids(snowfall) + Ids(conditions)
    ensures AllEntries(snowfall) && AllEntries(conditions) ==>
              EntryKeys(Writes(snowfall, conditions)) == Ids(snowfall) + Ids(conditions)
  {
    EntriesKeys(snowfall);
    EntriesKeys(conditions);
    EntryKeysAppend(Entries(snowfall), if AllEntries(snowfall) then Entries(conditions) else []);
  }

  /** The parent ids of all total-inches and condition-value elements. */
  function ParentIds(d: Node): set<string> {
    Ids(FindAll(d, TotalInches)) + Ids(FindAll(d, ConditionValue))
  }

  /**
   * A complete page yields exactly the parent ids and the three summary
   * keys, with the timestamp, the icon's `src` and every cam.
   */
  lemma CompleteRecord(doc: Option<Node>)
    requires Complete(doc)
    ensures var r, d, sum := Parsed(doc), doc.value, SummaryOf(doc.value).value;
            && r.Keys == ParentIds(d) + SummaryKeys
            && r["timestamp"] == Content(sum.timestamp)
            && r["icon_url"] == Url(sum.icon)
            && r["cams"] == CamList(sum.cams)
  {
    var d := doc.value;
    var snowfall, conditions := FindAll(d, TotalInches), FindAll(d, ConditionValue);
    AssembleIsWrites(SummaryOf(d).value, snowfall, conditions);
    StoreKeys(map[], Writes(snowfall, conditions));
    WritesKeys(snowfall, conditions);
  }

  /**
   * An incomplete page yields only parent ids, each holding an element's
   * first content: no icon URL and no cam list.
   */
  lemma IncompleteRecord(doc: Option<Node>)
    requires !Complete(doc)
    ensures doc.None? ==> Parsed(doc) == map[]
    ensures doc.Some? ==> Parsed(doc).Keys <= ParentIds(doc.value)
    ensures forall k :: k in Parsed(doc) ==> Parsed(doc)[k].Content?
  {
    if doc.Some? && SummaryOf(doc.value).Some? {
      var d := doc.value;
      var snowfall, conditions := FindAll(d, TotalInches), FindAll(d, ConditionValue);
      AssembleIsWrites(SummaryOf(d).value, snowfall, conditions);
      StoreKeys(map[], Writes(snowfall, conditions));
      WritesKeys(snowfall, conditions);
    }
  }

  /** A cam list under "cams" signals, and only signals, that the whole page was understood. */
  lemma CamListIffComplete(doc: Option<Node>)
    ensures "cams" in Parsed(doc) && Parsed(doc)["cams"].CamList? <==> Complete(doc)
  {
    if Complete(doc) { CompleteRecord(doc); } else { IncompleteRecord(doc); }
  }

  /**
   * Unless a parent id collides with a summary key, "timestamp", "icon_url"
   * and "cams" are present together, exactly when the page was complete.
   */
  lemma SummaryAllOrNothing(doc: Option<Node>)
    requires doc.Some? ==> SummaryKeys !! ParentIds(doc.value)
    ensures "timestamp" in Parsed(doc) <==> Complete(doc)
    ensures "icon_url" in Parsed(doc) <==> Complete(doc)
    ensures "cams" in Parsed(doc) <==> Complete(doc)
  {
    if Complete(doc) { CompleteRecord(doc); } else { IncompleteRecord(doc); }
  }

  /** One photo lacking its name or its image aborts the whole parse: nothing is returned. */
  lemma IncompleteCamAbortsAll(d: Node, i: nat)
    requires PhotosOf(d).Some? && i < |PhotosOf(d).value|
    requires CamOf(PhotosOf(d).value[i].node).None?
    ensures Parsed(Some(d)) == map[]
  {
    assert CamsOf(PhotosOf(d).value).None?;
  }

  /** On a complete page "cams" lists one cam per slideshow photo, in document order. */
  lemma CamsInDocumentOrder(d: Node)
    requires Complete(Some(d))
    ensures var cams, ps := Parsed(Some(d))["cams"].cams, PhotosOf(d).value;
            && |cams| == |ps|
            && forall i :: 0 <= i < |ps| ==> CamOf(ps[i].node) == Some(cams[i])
  {
    CompleteRecord(Some(d));
  }

  /**
   * Each parent-id write survives unless a later write to the same key
   * replaces it, also when a later element makes the parse fail.
   */
  lemma LastWriteWins(sum: Summary, snowfall: seq<Hit>, conditions: seq<Hit>, i: nat)
    requires i < |Writes(snowfall, conditions)|
    requires var w := Writes(snowfall, conditions);
             forall j :: i < j < |w| ==> w[j].key != w[i].key
    requires AllEntries(snowfall) && AllEntries(conditions) ==>
               Writes(snowfall, conditions)[i].key !in SummaryKeys
    ensures var w, r := Writes(snowfall, conditions), Assemble(sum, snowfall, conditions);
            w[i].key in r && r[w[i].key] == Content(w[i].value)
  {
    AssembleIsWrites(sum, snowfall, conditions);
    StoreLastWrite(map[], Writes(snowfall, conditions), i);
  }
}

/**
 * The player helper's decision logic: choosing what to auto-queue when the
 * play queue runs out, the elapsed-time string, the subtitle MIME type and the
 * minimize-on-exit mode read from a stored preference.
 */
module PlayerHelper {
  import opened Wrappers
  import opened Extractor
  import opened PlayQueue
  import opened TimeText

  // ---------------------------------------------------------------------------
  // Time string
  // ---------------------------------------------------------------------------

  const MillisPerSecond := 1000
  const MillisPerMinute := 60000
  const MillisPerHour := 3600000
  const MillisPerDay := 86400000
  const MillisPerWeek := 86400000 * 7

  /** A duration split into clock components; days count within one week. */
  datatype TimeParts = TimeParts(days: nat, hours: nat, minutes: nat, seconds: nat)

  /** The components getTimeString computes, each with its own remainder and quotient. */
  function TimePartsOf(milliSeconds: int): (t: TimeParts)
    requires milliSeconds >= 0
    ensures t.seconds < 60 && t.minutes < 60 && t.hours < 24 && t.days < 7
  {
    TimeParts(
      (milliSeconds % MillisPerWeek) / MillisPerDay,
      (milliSeconds % MillisPerDay) / MillisPerHour,
      (milliSeconds % MillisPerHour) / MillisPerMinute,
      (milliSeconds % MillisPerMinute) / MillisPerSecond)
  }

  /** Whole seconds since the start of the week the duration falls in. */
  function WeekSeconds(t: TimeParts): nat {
    ((t.days * 24 + t.hours) * 60 + t.minutes) * 60 + t.seconds
  }

  lemma ModOfMod(x: nat, coarse: nat, fine: nat)
    requires fine > 0 && coarse > 0 && coarse % fine == 0
    ensures (x % coarse) % fine == x % fine
  {
    var k := coarse / fine;
    assert coarse == k * fine;
    var q, r := x / coarse, x % coarse;
    assert x == q * coarse + r;
    assert x == (q * k) * fine + r;
    assert x == (q * k + r / fine) * fine + r % fine;
    assert 0 <= r % fine < fine;
    DivModUnique(x, fine, q * k + r / fine, r % fine);
  }

  lemma DivModUnique(x: int, d: int, q: int, r: int)
    requires d > 0 && x == q * d + r && 0 <= r < d
    ensures x % d == r && x / d == q
  {
    var k := q - x / d;
    assert k * d == x % d - r;
    assert -d < k * d < d;
    assert k == 0;
  }

  /** The components put back together give the milliseconds within the week, less the sub-second part. */
  lemma TimePartsReconstruct(milliSeconds: int)
    requires milliSeconds >= 0
    ensures milliSeconds % MillisPerWeek
      == WeekSeconds(TimePartsOf(milliSeconds)) * MillisPerSecond + milliSeconds % MillisPerSecond
  {
    var m: nat := milliSeconds;
    var t := TimePartsOf(m);
    ModOfMod(m, MillisPerWeek, MillisPerDay);
    ModOfMod(m, MillisPerDay, MillisPerHour);
    ModOfMod(m, MillisPerHour, MillisPerMinute);
    ModOfMod(m, MillisPerMinute, MillisPerSecond);
    assert m % MillisPerWeek == t.days * MillisPerDay + m % MillisPerDay;
    assert m % MillisPerDay == t.hours * MillisPerHour + m % MillisPerHour;
    assert m % MillisPerHour == t.minutes * MillisPerMinute + m % MillisPerMinute;
    assert m % MillisPerMinute == t.seconds * MillisPerSecond + m % MillisPerSecond;
  }

  /**
   * getTimeString: the components of the duration, laid out by FormatTime.
   * Read back field by field the string gives those components, and read back
   * as a clock it gives the whole seconds elapsed within the week.
   */
  function GetTimeString(milliSeconds: int): (s: string)
    requires milliSeconds >= 0
    ensures ParseFields(Split(s)) == Some(TimeValues(TimePartsOf(milliSeconds)))
    ensures ParseClock(s) == Some((milliSeconds % MillisPerWeek) / MillisPerSecond)
  {
    var t := TimePartsOf(milliSeconds);
    TimePartsReconstruct(milliSeconds);
    DivModUnique(milliSeconds % MillisPerWeek, MillisPerSecond, WeekSeconds(t), milliSeconds % MillisPerSecond);
    assert ClockSeconds(TimeValues(t)) == WeekSeconds(t);
    FormatTime(t)
  }

  /**
   * The three layouts: "d:hh:mm:ss" when a day has passed, else "h:mm:ss" when
   * an hour has, else "mm:ss". The string splits on ':' into exactly the
   * fields of the chosen layout, and each field reads back as its component.
   */
  function FormatTime(t: TimeParts): (s: string)
    ensures Split(s) == TimeFields(t)
    ensures ParseFields(Split(s)) == Some(TimeValues(t))
  {
    TimeFieldsReadBack(t);
    if t.days > 0 then
      JoinFour(Decimal(t.days), Pad2(t.hours), Pad2(t.minutes), Pad2(t.seconds));
      Decimal(t.days) + ":" + Pad2(t.hours) + ":" + Pad2(t.minutes) + ":" + Pad2(t.seconds)
    else if t.hours > 0 then
      JoinThree(Decimal(t.hours), Pad2(t.minutes), Pad2(t.seconds));
      Decimal(t.hours) + ":" + Pad2(t.minutes) + ":" + Pad2(t.seconds)
    else
      JoinTwo(Pad2(t.minutes), Pad2(t.seconds));
      Pad2(t.minutes) + ":" + Pad2(t.seconds)
  }

  /** The fields of the layout FormatTime chooses for `t`: `%d` first, `%02d` after. */
  function TimeFields(t: TimeParts): seq<string> {
    if t.days > 0 then [Decimal(t.days), Pad2(t.hours), Pad2(t.minutes), Pad2(t.seconds)]
    else if t.hours > 0 then [Decimal(t.hours), Pad2(t.minutes), Pad2(t.seconds)]
    else [Pad2(t.minutes), Pad2(t.seconds)]
  }

  /** The numbers those fields show. */
  function TimeValues(t: TimeParts): seq<nat> {
    if t.days > 0 then [t.days, t.hours, t.minutes, t.seconds]
    else if t.hours > 0 then [t.hours, t.minutes, t.seconds]
    else [t.minutes, t.seconds]
  }

  /** The layout's fields, joined by ':', split back into themselves and read back as their values. */
  lemma TimeFieldsReadBack(t: TimeParts)
    ensures Split(Join(TimeFields(t))) == TimeFields(t)
    ensures ParseFields(TimeFields(t)) == Some(TimeValues(t))
  {
    var fs, vs := TimeFields(t), TimeValues(t);
    forall i | 0 <= i < |fs| ensures ':' !in fs[i] && ParseDecimal(fs[i]) == Some(vs[i]) {
      DigitsHaveNoColon(fs[i]);
      if i == 0 && (t.days > 0 || t.hours > 0) {
        DecimalRoundTrip(vs[i]);
      } else {
        Pad2RoundTrip(vs[i]);
      }
    }
    SplitJoin(fs);
    ParseFieldsOf(fs, vs);
  }

  /**
   * The layout of the time string: four fields when a day has passed, three
   * when an hour has, two otherwise; every field is decimal digits, and every
   * field after the first is zero-padded to exactly two.
   */
  lemma TimeStringLayout(milliSeconds: int)
    requires milliSeconds >= 0
    ensures var t := TimePartsOf(milliSeconds);
      var fields := Split(GetTimeString(milliSeconds));
      && |fields| == (if t.days > 0 then 4 else if t.hours > 0 then 3 else 2)
      && (forall i :: 0 <= i < |fields| ==> AllDigits(fields[i]))
      && (forall i :: 1 <= i < |fields| ==> |fields[i]| == 2)
      && 1 <= |fields[0]| <= 2
      && (t.days == 0 && t.hours == 0 ==> |fields[0]| == 2)
  {
    var t := TimePartsOf(milliSeconds);
    assert Split(GetTimeString(milliSeconds)) == TimeFields(t);
  }

  // ---------------------------------------------------------------------------
  // Subtitle MIME types
  // ---------------------------------------------------------------------------

  const TextVtt := "text/vtt"
  const ApplicationTtml := "application/ttml+xml"

  /** The subtitle format a MIME type names, if it is one the player shows. */
  function SubtitlesFormatOf(mimeType: string): Option<SubtitlesFormat> {
    if mimeType == TextVtt then Some(VTT)
    else if mimeType == ApplicationTtml then Some(TTML)
    else None
  }

  /**
   * mimeTypesOf: VTT and TTML map to their MIME types; every other format is
   * refused with the message of the IllegalArgumentException thrown.
   */
  function MimeTypesOf(format: SubtitlesFormat): (r: Result<string, string>)
    ensures r.Success? <==> format == VTT || format == TTML
    ensures r.Success? ==> SubtitlesFormatOf(r.value) == Some(format)
    ensures r.Failure? ==> r.error == "Unrecognized mime type: " + format.name
  {
    match format
    case VTT => Success(TextVtt)
    case TTML => Success(ApplicationTtml)
    case Other(name) => Failure("Unrecognized mime type: " + name)
  }

  // ---------------------------------------------------------------------------
  // Minimize-on-exit mode
  // ---------------------------------------------------------------------------

  /** The MinimizeMode int constants: NONE 0, BACKGROUND 1, POPUP 2. */
  datatype MinimizeMode = MinimizeNone | MinimizeBackground | MinimizePopup {
    function Code(): (c: int)
      ensures 0 <= c <= 2
      ensures c == 0 <==> this == MinimizeNone
      ensures c == 2 <==> this == MinimizePopup
    {
      match this
      case MinimizeNone => 0
      case MinimizeBackground => 1
      case MinimizePopup => 2
    }
  }

  /** The three preference values, as the app's string resources define them. */
  datatype MinimizeKeys = MinimizeKeys(noneKey: string, popupKey: string, backgroundKey: string)

  /**
   * getMinimizeOnExitAction: the stored preference, or the "none" key when
   * nothing is stored, compared with the popup key first and then with the
   * background key; anything else means no minimizing.
   */
  function GetMinimizeOnExitAction(stored: Option<string>, keys: MinimizeKeys): (mode: MinimizeMode)
    ensures var action := stored.GetOr(keys.noneKey);
      && (mode == MinimizePopup <==> action == keys.popupKey)
      && (mode == MinimizeBackground <==> action != keys.popupKey && action == keys.backgroundKey)
      && (mode == MinimizeNone <==> action != keys.popupKey && action != keys.backgroundKey)
  {
    var action := stored.GetOr(keys.noneKey);
    if action == keys.popupKey then MinimizePopup
    else if action == keys.backgroundKey then MinimizeBackground
    else MinimizeNone
  }

  /** The preference value the settings screen stores for a mode. */
  function KeyOf(mode: MinimizeMode, keys: MinimizeKeys): string {
    match mode
    case MinimizeNone => keys.noneKey
    case MinimizeBackground => keys.backgroundKey
    case MinimizePopup => keys.popupKey
  }

  /** With three distinct keys, storing a mode's key and reading it back gives that mode. */
  lemma MinimizeKeyRoundTrip(mode: MinimizeMode, keys: MinimizeKeys)
    requires keys.noneKey != keys.popupKey && keys.noneKey != keys.backgroundKey
    requires keys.popupKey != keys.backgroundKey
    ensures GetMinimizeOnExitAction(Some(KeyOf(mode, keys)), keys) == mode
  {
  }

  /** With nothing stored, the mode is NONE unless the "none" key collides with another key. */
  lemma MinimizeDefaultIsNone(keys: MinimizeKeys)
    requires keys.noneKey != keys.popupKey && keys.noneKey != keys.backgroundKey
    ensures GetMinimizeOnExitAction(None, keys) == MinimizeNone
    ensures GetMinimizeOnExitAction(None, keys).Code() == 0
  {
  }

  // ---------------------------------------------------------------------------
  // Auto-queue
  // ---------------------------------------------------------------------------

  /** The URLs of the items already in the play queue. */
  function UrlsOf(items: seq<PlayQueueItem>): (urls: set<string>)
    ensures forall i :: 0 <= i < |items| ==> items[i].url in urls
    ensures forall u :: u in urls ==> exists i :: 0 <= i < |items| && items[i].url == u
  {
    if items == [] then {}
    else UrlsOf(items[..|items| - 1]) + {items[|items| - 1].url}
  }

  /** A related item may be auto-queued when it is a stream item whose URL is not queued yet. */
  predicate IsAutoQueueCandidate(item: InfoItem, urls: set<string>) {
    item.infoType == Stream && item.url !in urls
  }

  /** The related items that may be auto-queued, in their listed order. */
  function AutoQueueItems(related: seq<InfoItem>, urls: set<string>): (r: seq<StreamInfoItem>)
    ensures |r| <= |related|
    ensures forall x :: x in r ==> x in related && IsAutoQueueCandidate(x, urls)
    ensures forall j :: 0 <= j < |related| && IsAutoQueueCandidate(related[j], urls) ==> related[j] in r
  {
    if related == [] then []
    else
      var last := related[|related| - 1];
      AutoQueueItems(related[..|related| - 1], urls) + (if IsAutoQueueCandidate(last, urls) then [last] else [])
  }

  /** True when the platform's next video exists and is not queued yet. */
  predicate NextVideoIsNew(info: StreamInfo, urls: set<string>) {
    info.nextVideo.Some? && info.nextVideo.value.url !in urls
  }

  /**
   * getAutoQueuedSinglePlayQueue: a new one-item queue for `item`, whose item
   * is then flagged as auto-queued.
   */
  method GetAutoQueuedSinglePlayQueue(item: StreamInfoItem) returns (q: SinglePlayQueue)
    ensures fresh(q) && |q.streams| == 1 && fresh(q.streams[0])
    ensures q.streams[0].Mirrors(item) && q.streams[0].autoQueued
  {
    q := new SinglePlayQueue(item);
    q.GetItem().SetAutoQueued(true);
  }

  /**
   * autoQueueOf: the queue to play once the current one runs out, or null.
   * The next video wins when it is not queued yet; otherwise a shuffled pick
   * among the related stream items not queued yet; null when there is none.
   */
  method AutoQueueOf(info: StreamInfo, existingItems: seq<PlayQueueItem>) returns (q: SinglePlayQueue?)
    ensures q != null ==> fresh(q) && |q.streams| == 1 && fresh(q.streams[0]) && q.streams[0].autoQueued
    ensures q != null ==> q.streams[0].url !in UrlsOf(existingItems)
    ensures NextVideoIsNew(info, UrlsOf(existingItems)) ==>
      q != null && q.streams[0].Mirrors(info.nextVideo.value)
    ensures !NextVideoIsNew(info, UrlsOf(existingItems)) && info.relatedStreams.None? ==> q == null
    ensures !NextVideoIsNew(info, UrlsOf(existingItems)) && info.relatedStreams.Some? ==>
      var related := info.relatedStreams.value;
      && (q == null <==> forall j :: 0 <= j < |related| ==> !IsAutoQueueCandidate(related[j], UrlsOf(existingItems)))
      && (q != null ==> exists j :: 0 <= j < |related| && IsAutoQueueCandidate(related[j], UrlsOf(existingItems))
                                   && q.streams[0].Mirrors(related[j]))
  {
    var urls: set<string> := {};
    for i := 0 to |existingItems|
      invariant urls == UrlsOf(existingItems[..i])
    {
      assert existingItems[..i + 1][..i] == existingItems[..i];
      urls := urls + {existingItems[i].url};
    }
    assert existingItems[..|existingItems|] == existingItems;

    var nextVideo := info.nextVideo;
    if nextVideo.Some? && nextVideo.value.url !in urls {
      q := GetAutoQueuedSinglePlayQueue(nextVideo.value);
      return;
    }

    if info.relatedStreams.None? {
      return null;
    }
    var related := info.relatedStreams.value;
    var autoQueueItems: seq<StreamInfoItem> := [];
    for j := 0 to |related|
      invariant autoQueueItems == AutoQueueItems(related[..j], urls)
    {
      assert related[..j + 1][..j] == related[..j];
      var item := related[j];
      if item.infoType == Stream && item.url !in urls {
        autoQueueItems := autoQueueItems + [item];
      }
    }
    assert related[..|related|] == related;

    // Collections.shuffle: any ordering of the same items. The assertion names
    // autoQueueItems itself as a witness that such an ordering exists.
    assert multiset(autoQueueItems) == multiset(autoQueueItems);
    var shuffled: seq<StreamInfoItem> :| multiset(shuffled) == multiset(autoQueueItems);
    if shuffled == [] {
      assert |multiset(autoQueueItems)| == 0;
      assert autoQueueItems == [];
      return null;
    }
    var chosen := shuffled[0];
    assert chosen in multiset(autoQueueItems);
    assert chosen in related && IsAutoQueueCandidate(chosen, urls);
    var k :| 0 <= k < |related| && related[k] == chosen;
    q := GetAutoQueuedSinglePlayQueue(chosen);
    assert q.streams[0].Mirrors(related[k]);
  }
}

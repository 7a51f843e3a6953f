# NewPipe player helper: auto-queue selection and player formatting

A Dafny model of the decision logic in NewPipe's `PlayerHelper`:

- **Auto-queue** (`autoQueueOf`). When the play queue runs out, the player asks for one more stream. The rule is as follows. Collect the URLs already in the queue. If the platform's "next video" exists and its URL is not among them, queue it. Otherwise keep the related items that are stream items with an unqueued URL. Shuffle them and queue the first; if none are left, return null. The chosen stream is wrapped in a fresh one-item queue, and that queue's item is flagged as auto-queued.
- **Time string** (`getTimeString`). Milliseconds are split into seconds, minutes, hours and days, with days counted within one week. The layout is `d:hh:mm:ss`, `h:mm:ss` or `mm:ss`.
- **Subtitle MIME type** (`mimeTypesOf`). VTT and TTML have a MIME type. Any other format raises an `IllegalArgumentException`.
- **Minimize-on-exit mode** (`getMinimizeOnExitAction`). The stored preference string becomes mode POPUP (2), BACKGROUND (1) or NONE (0). The popup key is compared first.

Files:

- `wrappers.dfy`: `Option`, used for Java's null, and `Result`, used for a thrown exception.
- `extractor.dfy`: the extractor values the helper reads.
  - `InfoItem` is a kind tag, a URL and a title.
  - `StreamInfoItem` is an `InfoItem` of kind `Stream`.
  - `StreamInfo` has an optional next video and an optional list of related items. The stream's own URL is not modelled, because only `cacheKeyOf` reads it.
  - `SubtitlesFormat` is also defined here.
- `play_queue.dfy`: the queue objects. `PlayQueueItem` is a class with a mutable `autoQueued` flag. `SinglePlayQueue` is a class holding exactly one item.
- `time_text.dfy`: the formatting pieces the time string uses.
  - `%d` and `%02d` for non-negative numbers.
  - Joining and splitting on `:`.
  - A decimal reader and a clock-string reader `ParseClock`. These are the inverse the time string is proved against.
- `player_helper.dfy`: the four operations and their lemmas.

Modelling choices:

- `autoQueueOf` is an imperative method.
  - Its two loops carry invariants tying them to the specification functions `UrlsOf` (the `HashSet` fill) and `AutoQueueItems` (the filter).
  - `Collections.shuffle` is a nondeterministic choice of any sequence with the same multiset of items. Its first element is then taken.
  - `getRelatedStreams()` is read twice in the source. Both reads are the same field of the `StreamInfo` value.
  - Null results are `SinglePlayQueue?` values.
- The resource strings of the minimize keys, and the stored preference, are parameters. A preference that was never stored is `None`, and it then reads as the "none" key.
- The shared static `StringBuilder`/`Formatter` becomes a pure function. Its locale is fixed to one that writes the ASCII digits '0'..'9'.

## Model

| member | source | states |
|---|---|---|
| `PlayerHelper.AutoQueueOf` | app/src/main/java/org/schabi/newpipe/player/helper/PlayerHelper.java:139-162 | a non-null result is a new one-item queue whose new item is auto-queued and whose URL is not the URL of any existing item; an unqueued next video is always the result, whatever the related list holds; with no usable next video and no related list the result is null; otherwise the result is null exactly when no related item is a stream item with an unqueued URL, and else it is one of those items |
| `PlayerHelper.UrlsOf` | app/src/main/java/org/schabi/newpipe/player/helper/PlayerHelper.java:141-144 | the set collected from the queue holds the URL of every existing item and nothing else |
| `PlayerHelper.AutoQueueItems` | app/src/main/java/org/schabi/newpipe/player/helper/PlayerHelper.java:154-159 | the filtered list holds only related items that are stream items with unqueued URLs, and every such related item is in it |
| `PlayerHelper.GetAutoQueuedSinglePlayQueue` | app/src/main/java/org/schabi/newpipe/player/helper/PlayerHelper.java:362-366 | the result is a new queue of exactly one item, made from the given stream item and flagged as auto-queued |
| `PlayQueue.PlayQueueItem.constructor` | app/src/main/java/org/schabi/newpipe/player/helper/PlayerHelper.java:363 | the new item copies the stream item's URL and title and is not auto-queued |
| `PlayQueue.SinglePlayQueue.GetItem` | app/src/main/java/org/schabi/newpipe/player/helper/PlayerHelper.java:364 | the item at the queue's position, which is its only item |
| `PlayQueue.SinglePlayQueue.constructor` | app/src/main/java/org/schabi/newpipe/player/helper/PlayerHelper.java:363 | a new single queue holds one fresh item copied from the stream item, not yet auto-queued |
| `PlayQueue.PlayQueueItem.SetAutoQueued` | app/src/main/java/org/schabi/newpipe/player/helper/PlayerHelper.java:364 | sets the item's auto-queued flag to the given value |
| `PlayerHelper.TimePartsOf` | app/src/main/java/org/schabi/newpipe/player/helper/PlayerHelper.java:71-74 | for a non-negative input, seconds < 60, minutes < 60, hours < 24 and days < 7 |
| `PlayerHelper.TimePartsReconstruct` | app/src/main/java/org/schabi/newpipe/player/helper/PlayerHelper.java:71-74 | days, hours, minutes and seconds put back together give the milliseconds within the week, less the sub-second part |
| `PlayerHelper.TimeStringLayout` | app/src/main/java/org/schabi/newpipe/player/helper/PlayerHelper.java:76-79 | the time string has 4 fields when days > 0, 3 when days = 0 and hours > 0, and 2 otherwise; all fields are decimal digits; every field after the first has exactly two digits, and so does the first in the `mm:ss` layout |
| `PlayerHelper.GetTimeString` | app/src/main/java/org/schabi/newpipe/player/helper/PlayerHelper.java:70-80 | the time string, split on ':', reads back field by field as the computed components, and read as a clock it gives exactly the whole seconds elapsed within the week |
| `PlayerHelper.FormatTime` | app/src/main/java/org/schabi/newpipe/player/helper/PlayerHelper.java:77-79 | the layout splits on ':' into exactly the fields of the chosen format (`%d` days then three `%02d`, or `%d` hours then two `%02d`, or two `%02d`), and each field reads back as its component |
| `PlayerHelper.TimeFieldsReadBack` | app/src/main/java/org/schabi/newpipe/player/helper/PlayerHelper.java:77-79 | the fields of each layout contain no ':' and read back as the numbers they print |
| `TimeText.Decimal` | app/src/main/java/org/schabi/newpipe/player/helper/PlayerHelper.java:77-78 | `%d` of a non-negative number is a non-empty string of digits; it has one digit exactly below 10 and no leading zero otherwise |
| `TimeText.Pad2` | app/src/main/java/org/schabi/newpipe/player/helper/PlayerHelper.java:77-79 | `%02d` of a non-negative number is digits, at least two of them, and exactly two below 100 |
| `TimeText.DecimalRoundTrip` | app/src/main/java/org/schabi/newpipe/player/helper/PlayerHelper.java:77-78 | reading `%d` of n as a decimal gives n back |
| `TimeText.Pad2RoundTrip` | app/src/main/java/org/schabi/newpipe/player/helper/PlayerHelper.java:77-79 | reading `%02d` of n as a decimal gives n back, whatever padding was added |
| `TimeText.SplitJoin` | app/src/main/java/org/schabi/newpipe/player/helper/PlayerHelper.java:77-79 | fields without ':' that are joined by ':' split back into the same fields |
| `PlayerHelper.MimeTypesOf` | app/src/main/java/org/schabi/newpipe/player/helper/PlayerHelper.java:90-95 | the call succeeds exactly for VTT and TTML, and the MIME type it returns names that same format; any other format fails with "Unrecognized mime type: " followed by the format's name |
| `PlayerHelper.GetMinimizeOnExitAction` | app/src/main/java/org/schabi/newpipe/player/helper/PlayerHelper.java:193-205 | the action is the stored preference or, when none is stored, the "none" key; the mode is POPUP exactly when the action equals the popup key, BACKGROUND exactly when it does not but equals the background key, and NONE exactly when it equals neither |
| `PlayerHelper.MinimizeMode.Code` | app/src/main/java/org/schabi/newpipe/player/helper/PlayerHelper.java:61-65 | the mode constants are NONE 0, BACKGROUND 1 and POPUP 2: code 0 exactly for NONE, code 2 exactly for POPUP, and 1 for BACKGROUND |
| `PlayerHelper.MinimizeKeyRoundTrip` | app/src/main/java/org/schabi/newpipe/player/helper/PlayerHelper.java:199-205 | with three distinct keys, storing a mode's key and reading it back gives that mode |
| `PlayerHelper.MinimizeDefaultIsNone` | app/src/main/java/org/schabi/newpipe/player/helper/PlayerHelper.java:194-198 | with nothing stored, and a "none" key unlike the other two, the mode is NONE (code 0) |

## Left out

- The uniform distribution of `Collections.shuffle`. The model only says that some eligible item is chosen.
- `GetTimeString` requires a non-negative input. Java's `%` and `/` truncate toward zero on negative values, and that behaviour and its `%02d` output are not modelled. Durations of a week or more wrap around, as in the source, because days are taken modulo 7.
- `PlayerHelper.GetMinimizeOnExitAction`: reading the preference store and the string resources is I/O. The stored value and the three keys are parameters.
- SharedPreferences reads and writes: the `is…Enabled` getters, `getScreenBrightness` and `setScreenBrightness`. These are persistence I/O. Brightness also uses floats and the wall clock.
- TimeText.Decimal and TimeText.Pad2 fix the formatter's zero digit to '0'. Java's `Formatter` prints digits and `%02d` padding with the default locale's zero digit. The model fixes that digit to '0', so locales with other digit sets, such as Arabic-Indic, are not modelled, and the digit-only and read-back results hold only for ASCII digits.
- `formatSpeed` and `formatPitch`: floating-point values formatted by `DecimalFormat`.
- `getCaptionStyle` and `getCaptionScale`: Android system-service calls returning floats.
- `captionLanguageOf` and `resizeTypeOf`: Android resource and locale lookups.
- `getQualitySelector` and `getSeekParameters`: thin wrappers over ExoPlayer.
- `cacheKeyOf` and the constant-returning getters: they have no logic to prove.
- The extractor's `SubtitlesFormat` enum is not part of this model. Its constants other than VTT and TTML are represented by `Other(name)`. `Other` stands only for those remaining constants, so a name of "VTT" or "TTML" under `Other` has no Java counterpart.
- The MIME strings "text/vtt" and "application/ttml+xml" are ExoPlayer's `MimeTypes` constants. That class is not part of this model.
- `PlayQueueItem` and `SinglePlayQueue` are reduced to what auto-queueing touches: the URL, the title and the auto-queued flag. Their other fields are not part of this model, and neither are the other queue operations.

/**
 * The values the auto-queue and subtitle helpers receive from the stream
 * extractor: list items of several kinds, the description of the stream being
 * played and the subtitle formats.
 */
module Extractor {
  import opened Wrappers

  /** The kind of a list item; only `Stream` items are playable. */
  datatype InfoType = Stream | Playlist | Channel

  /** An entry of a listing: its kind, its URL and its title. */
  datatype InfoItem = InfoItem(infoType: InfoType, url: string, name: string)

  /** An item that is an instance of the stream item class. */
  type StreamInfoItem = item: InfoItem | item.infoType == Stream
    witness InfoItem(Stream, "", "")

  /**
   * What auto-queueing reads of the stream being played: the platform's
   * "up next" video (null when absent) and its related items (null when absent).
   */
  datatype StreamInfo = StreamInfo(
    nextVideo: Option<StreamInfoItem>,
    relatedStreams: Option<seq<InfoItem>>)

  /**
   * Subtitle formats: the two the player can show, and the enum's remaining
   * constants by name. `Other` stands only for those remaining constants, so
   * its name is never "VTT" or "TTML".
   */
  datatype SubtitlesFormat = VTT | TTML | Other(name: string)
}

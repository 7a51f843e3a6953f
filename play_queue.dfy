/**
 * The play-queue objects that auto-queueing builds. A queue item copies the
 * URL and title of the stream item it is made from; only its auto-queued flag
 * changes after construction.
 */
module PlayQueue {
  import opened Extractor

  class PlayQueueItem {
    const url: string
    const title: string
    var autoQueued: bool

    /** True when this item was made from `item`. */
    predicate Mirrors(item: InfoItem) {
      url == item.url && title == item.name
    }

    constructor (item: StreamInfoItem)
      ensures Mirrors(item) && !autoQueued
    {
      url := item.url;
      title := item.name;
      autoQueued := false;
    }

    method SetAutoQueued(autoQueued: bool)
      modifies this
      ensures this.autoQueued == autoQueued
    {
      this.autoQueued := autoQueued;
    }
  }

  /** A queue of exactly one stream, positioned on it. */
  class SinglePlayQueue {
    const streams: seq<PlayQueueItem>

    constructor (item: StreamInfoItem)
      ensures |streams| == 1 && fresh(streams[0])
      ensures streams[0].Mirrors(item) && !streams[0].autoQueued
    {
      var queueItem := new PlayQueueItem(item);
      streams := [queueItem];
    }

    /** The item at the queue's current position, which is its first. */
    function GetItem(): (it: PlayQueueItem)
      requires streams != []
      ensures it in streams
      ensures |streams| == 1 ==> forall x :: x in streams ==> x == it
    {
      streams[0]
    }
  }
}

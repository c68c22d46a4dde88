/** `PlayLog`: a custom log put together piece by piece before it is handed to the store. */
module PlayLogs {
  import opened Wrappers
  import opened Logs

  class PlayLog {
    var message: Option<string>
    var source: Option<Source>
    var tags: Option<seq<Option<LogTag>>>
    /** The content list, created by the first `AddContent` only. */
    var content: Option<seq<Option<ContentObject>>>

    /** `PlayLog(message, tags)`: no source and no content yet. */
    constructor (message: Option<string>, tags: Option<seq<Option<LogTag>>>)
      ensures this.message == message && this.tags == tags
      ensures source.None? && content.None?
    {
      this.message := message;
      this.tags := tags;
      source := None;
      content := None;
    }

    /** `PlayLog(message, source, tags)`: no content yet. */
    constructor WithSource(message: Option<string>, source: Option<Source>, tags: Option<seq<Option<LogTag>>>)
      ensures this.message == message && this.source == source && this.tags == tags
      ensures content.None?
    {
      this.message := message;
      this.source := source;
      this.tags := tags;
      content := None;
    }

    /** The items added so far; none while the list has not been created. */
    function Items(): seq<Option<ContentObject>>
      reads this
    {
      if content.None? then [] else content.value
    }

    /** `AddContent`: creates the list if needed, then appends `item` (which may be null). */
    method AddContent(item: Option<ContentObject>)
      modifies this`content
      ensures content.Some?
      ensures Items() == old(Items()) + [item]
    {
      if content.None? {
        content := Some([]);
      }
      content := Some(content.value + [item]);
    }
  }
}

/**
 * `LogStore`: the append-only list of logs, its one-level clear/restore
 * backup, the clear-on-play and clear-on-build settings, and the rules for
 * recording engine and custom logs.
 */
module LogStores {
  import opened Wrappers
  import opened StringOps
  import opened LogTypes
  import opened Logs
  import opened PlayLogs

  /** Every entry carries its own position as its index. */
  predicate IndexedFromZero(s: seq<Log>) {
    forall i :: 0 <= i < |s| ==> s[i].index == i
  }

  /**
   * A `List<Log>`. The store's current list and its backup are references
   * to such lists, so after `Restore` both fields name the same list.
   */
  class LogList {
    var items: seq<Log>

    constructor ()
      ensures items == []
    {
      items := [];
    }

    /** `List.Add`. */
    method Add(log: Log)
      modifies this
      ensures items == old(items) + [log]
    {
      items := items + [log];
    }
  }

  /** The engine's play-mode transitions. */
  datatype PlayModeStateChange = EnteredEditMode | ExitingEditMode | EnteredPlayMode | ExitingPlayMode

  /** What became of an engine log: recorded, dropped as a compiler message, or thrown out of range. */
  datatype Delivery = Recorded(log: Log) | Dropped | Failed(error: Error)

  class LogStore {
    var logs: LogList
    /** `_deletedLogs`: the list the last `ClearLogs` replaced; null before the first one. */
    var deletedLogs: LogList?
    var clearOnPlay: bool
    var clearOnBuild: bool
    /** A second serialized flag that only the pre-build hook reads. */
    var clearObBuild: bool
    /** `includeUnityLogsInEditorInEditor`: whether `OnEnable` subscribes `UnityLog` inside the editor. */
    var includeUnityLogsInEditor: bool

    ghost predicate Valid()
      reads this, logs, deletedLogs
    {
      && IndexedFromZero(logs.items)
      && (deletedLogs != null ==> IndexedFromZero(deletedLogs.items))
    }

    /** A new store asset: no logs, no backup, both clear settings on. */
    constructor ()
      ensures Valid() && fresh(logs)
      ensures logs.items == [] && deletedLogs == null
      ensures clearOnPlay && clearOnBuild && !clearObBuild && !includeUnityLogsInEditor
    {
      logs := new LogList();
      deletedLogs := null;
      clearOnPlay := true;
      clearOnBuild := true;
      clearObBuild := false;
      includeUnityLogsInEditor := false;
    }

    /** `HasLogs`. */
    function HasLogs(): (r: bool)
      reads this, logs
      ensures r <==> logs.items != []
    {
      |logs.items| > 0
    }

    /** `IsRestorable`: there is a backup and it is not empty. */
    function IsRestorable(): (r: bool)
      reads this, deletedLogs
      ensures r <==> deletedLogs != null && deletedLogs.items != []
    {
      deletedLogs != null && |deletedLogs.items| > 0
    }

    /** The `ClearOnPlay` setter: no change when the value is already set. */
    method SetClearOnPlay(value: bool)
      modifies this`clearOnPlay
      ensures clearOnPlay == value
      ensures old(clearOnPlay) == value ==> unchanged(this)
    {
      if clearOnPlay == value {
        return;
      }
      clearOnPlay := value;
    }

    /**
     * The `IncludeUnityLogsInEditor` setter: no change when the value is
     * already set; otherwise the flag is stored (the subscription change
     * that goes with it is outside this model).
     */
    method SetIncludeUnityLogsInEditor(value: bool)
      modifies this`includeUnityLogsInEditor
      ensures includeUnityLogsInEditor == value
      ensures old(includeUnityLogsInEditor) == value ==> unchanged(this)
    {
      if includeUnityLogsInEditor == value {
        return;
      }
      includeUnityLogsInEditor := value;
    }

    /** The `ClearOnBuild` setter: no change when the value is already set. */
    method SetClearOnBuild(value: bool)
      modifies this`clearOnBuild
      ensures clearOnBuild == value
      ensures old(clearOnBuild) == value ==> unchanged(this)
    {
      if clearOnBuild == value {
        return;
      }
      clearOnBuild := value;
    }

    /**
     * `LogFull`: builds a log whose index is the current count and appends
     * it; when the constructor throws, nothing is appended.
     */
    method LogFull(message: Option<string>, stackTrace: Option<string>, content: Option<seq<Option<ContentObject>>>,
                   logType: LogType, source: Option<Source>, tags: Option<seq<Option<LogTag>>>)
      returns (r: Result<Log>)
      requires Valid()
      modifies logs
      ensures Valid()
      ensures r.Fail? <==> content.Some? && exists i :: 0 <= i < |content.value| && content.value[i].None?
      ensures r.Fail? ==> r.error == NullReference && logs.items == old(logs.items)
      ensures r.Ok? ==> logs.items == old(logs.items) + [r.value]
      ensures r.Ok? ==>
                && r.value.index == |old(logs.items)|
                && r.value.message == message
                && r.value.logType == logType
                && r.value.stackTrace == TrimStackTrace(stackTrace)
                && r.value.source == source
                && r.value.sourceName == (if source.None? then None else Some(SourceName(source.value)))
                && r.value.tags == tags
                && (r.value.content.None? <==> content.None?)
      ensures r.Ok? && content.Some? ==>
                && |r.value.content.value| == |content.value|
                && forall i :: 0 <= i < |content.value| ==> ObjectToContentRow(content.value[i]) == Ok(r.value.content.value[i])
      ensures deletedLogs != null && deletedLogs != logs ==> deletedLogs.items == old(deletedLogs.items)
    {
      r := NewLog(message, stackTrace, content, logType, |logs.items|, tags, source);
      if r.Ok? {
        logs.Add(r.value);
      }
    }

    /** `LogCustom`: a custom log has the `PlayLog` category and no stack trace. */
    method LogCustom(message: Option<string>, source: Option<Source>, tags: Option<seq<Option<LogTag>>>,
                     objects: Option<seq<Option<ContentObject>>>)
      returns (r: Result<Log>)
      requires Valid()
      modifies logs
      ensures Valid()
      ensures r.Fail? <==> objects.Some? && exists i :: 0 <= i < |objects.value| && objects.value[i].None?
      ensures r.Fail? ==> r.error == NullReference && logs.items == old(logs.items)
      ensures r.Ok? ==> logs.items == old(logs.items) + [r.value]
      ensures r.Ok? ==>
                && r.value.index == |old(logs.items)|
                && r.value.logType == PlayLog
                && r.value.stackTrace.None?
                && r.value.message == message
                && r.value.source == source
                && r.value.sourceName == (if source.None? then None else Some(SourceName(source.value)))
                && r.value.tags == tags
                && (r.value.content.None? <==> objects.None?)
      ensures r.Ok? && objects.Some? ==>
                && |r.value.content.value| == |objects.value|
                && forall i :: 0 <= i < |objects.value| ==> ObjectToContentRow(objects.value[i]) == Ok(r.value.content.value[i])
    {
      r := LogFull(message, None, objects, PlayLog, source, tags);
    }

    /**
     * `UnityLog`: an engine error or warning without a stack trace is a
     * compiler message and is dropped; any other engine log is recorded
     * under its category, and a type no category matches throws.
     */
    method UnityLog(message: Option<string>, stackTrace: Option<string>, engineType: int) returns (d: Delivery)
      requires Valid()
      modifies logs
      ensures Valid()
      ensures d.Dropped? <==> (engineType == EngineError || engineType == EngineWarning) && IsNullOrEmpty(stackTrace)
      ensures d.Failed? <==> !d.Dropped? && ToCustomLogType(engineType).Fail?
      ensures d.Failed? ==> d.error == ArgumentOutOfRange
      ensures !d.Recorded? ==> logs.items == old(logs.items)
      ensures d.Recorded? ==>
                && logs.items == old(logs.items) + [d.log]
                && d.log.index == |old(logs.items)|
                && d.log.logType == ToCustomLogType(engineType).value
                && d.log.message == message
                && d.log.stackTrace == TrimStackTrace(stackTrace)
                && d.log.content.None? && d.log.tags.None? && d.log.source.None? && d.log.sourceName.None?
    {
      if (engineType == EngineError || engineType == EngineWarning) && IsNullOrEmpty(stackTrace) {
        return Dropped;
      }
      var logType := ToCustomLogType(engineType);
      if logType.Fail? {
        return Failed(logType.error);
      }
      var r := LogFull(message, stackTrace, None, logType.value, None, None);
      d := Recorded(r.value);
    }

    /**
     * `Log(PlayLog)`: a null play log throws on `log.message`, and one with
     * no content list throws on `content.ToArray()`.
     */
    method LogPlayLog(playLog: PlayLog?) returns (r: Result<Log>)
      requires Valid()
      modifies logs
      ensures Valid()
      ensures playLog == null ==> r == Fail(NullReference)
      ensures playLog != null && playLog.content.None? ==> r == Fail(NullReference)
      ensures r.Fail? ==> r.error == NullReference
      ensures r.Fail? ==> logs.items == old(logs.items)
      ensures r.Ok? ==>
                && playLog != null
                && playLog.content.Some?
                && logs.items == old(logs.items) + [r.value]
                && r.value.index == |old(logs.items)|
                && r.value.logType == PlayLog
                && r.value.message == playLog.message
                && r.value.source == playLog.source
                && r.value.sourceName == (if playLog.source.None? then None else Some(SourceName(playLog.source.value)))
                && r.value.tags == playLog.tags
                && r.value.stackTrace.None?
                && r.value.content.Some?
                && |r.value.content.value| == |playLog.content.value|
                && forall i :: 0 <= i < |playLog.content.value| ==>
                     ObjectToContentRow(playLog.content.value[i]) == Ok(r.value.content.value[i])
      ensures r.Fail? <==> playLog == null || playLog.content.None? ||
                           exists i :: 0 <= i < |playLog.content.value| && playLog.content.value[i].None?
    {
      if playLog == null || playLog.content.None? {
        return Fail(NullReference);
      }
      r := LogFull(playLog.message, None, Some(playLog.content.value), PlayLog, playLog.source, playLog.tags);
    }

    /** `ClearLogs`: the current list becomes the backup and a new empty list takes its place. */
    method ClearLogs()
      requires Valid()
      modifies this`logs, this`deletedLogs
      ensures Valid() && fresh(logs)
      ensures logs.items == [] && !HasLogs()
      ensures deletedLogs == old(logs) && deletedLogs.items == old(logs.items)
      ensures IsRestorable() <==> |old(logs.items)| > 0
    {
      deletedLogs := logs;
      logs := new LogList();
    }

    /** `Restore`: when the backup is not empty, it becomes the current list; the backup is kept. */
    method Restore()
      requires Valid()
      modifies this`logs
      ensures Valid()
      ensures deletedLogs == old(deletedLogs)
      ensures old(IsRestorable()) ==> logs == deletedLogs && IsRestorable() && HasLogs()
      ensures !old(IsRestorable()) ==> logs == old(logs)
    {
      if !IsRestorable() {
        return;
      }
      logs := deletedLogs;
    }

    /** The play-mode hook: clears only when leaving edit mode with `clearOnPlay` set. */
    method PlayModeChanged(mode: PlayModeStateChange)
      requires Valid()
      modifies this`logs, this`deletedLogs
      ensures Valid()
      ensures mode == ExitingEditMode && clearOnPlay ==>
                fresh(logs) && logs.items == [] && deletedLogs == old(logs)
      ensures !(mode == ExitingEditMode && clearOnPlay) ==> logs == old(logs) && deletedLogs == old(deletedLogs)
    {
      if mode == ExitingEditMode && clearOnPlay {
        ClearLogs();
      }
    }

    /** The pre-build hook as written: it tests `clearObBuild`, not `clearOnBuild`. */
    method OnPreprocessBuild()
      requires Valid()
      modifies this`logs, this`deletedLogs
      ensures Valid()
      ensures clearObBuild ==> fresh(logs) && logs.items == [] && deletedLogs == old(logs)
      ensures !clearObBuild ==> logs == old(logs) && deletedLogs == old(deletedLogs)
    {
      if clearObBuild {
        ClearLogs();
      }
    }

    /** The pre-build hook as the `ClearOnBuild` setting intends it. */
    method OnPreprocessBuildIntended()
      requires Valid()
      modifies this`logs, this`deletedLogs
      ensures Valid()
      ensures clearOnBuild ==> fresh(logs) && logs.items == [] && deletedLogs == old(logs)
      ensures !clearOnBuild ==> logs == old(logs) && deletedLogs == old(deletedLogs)
    {
      if clearOnBuild {
        ClearLogs();
      }
    }
  }

  /** Clearing and then restoring at once gives back the logs that were there. */
  method ClearThenRestore(store: LogStore)
    requires store.Valid()
    modifies store`logs, store`deletedLogs
    ensures store.Valid()
    ensures store.logs.items == old(store.logs.items)
    ensures old(store.HasLogs()) ==> store.logs == old(store.logs)
    ensures store.deletedLogs == old(store.logs)
  {
    store.ClearLogs();
    store.Restore();
  }

  /**
   * With `ClearOnBuild` switched on and `clearObBuild` at its default, a
   * build leaves the logs in place.
   */
  method BuildIgnoresClearOnBuild(store: LogStore)
    requires store.Valid() && !store.clearObBuild
    modifies store`logs, store`deletedLogs, store`clearOnBuild
    ensures store.clearOnBuild
    ensures store.logs == old(store.logs) && store.logs.items == old(store.logs.items)
  {
    store.SetClearOnBuild(true);
    store.OnPreprocessBuild();
  }

  /**
   * After a restore the current list and the backup are one list: a log
   * appended then is still there after a second restore.
   */
  method RestoreKeepsLaterLogs(store: LogStore, message: Option<string>) returns (r: Result<Log>)
    requires store.Valid() && store.HasLogs()
    modifies store`logs, store`deletedLogs, store.logs
    ensures store.Valid()
    ensures r.Ok?
    ensures store.logs == old(store.logs)
    ensures store.logs.items == old(store.logs.items) + [r.value]
  {
    store.ClearLogs();
    store.Restore();
    r := store.LogCustom(message, None, None, None);
    store.Restore();
  }
}

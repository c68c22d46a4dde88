# PlayLogger: the log store and filter logic behind the Unity log viewer

PlayLogger is a Unity editor plugin. It receives engine log callbacks and
custom `Log(...)` calls, keeps them in a `LogStore` asset, and shows them in
a "Play Logs" editor window with type and tag filters. This project models
the bookkeeping under the GUI, in Dafny:

- `LogTypes` (`Runtime/LogType.cs`): the six log categories as single bits of a
  32-bit filter mask, the `all` mask, and the translation of engine log types.
- `Logs` (`Runtime/Log.cs`): a content object becomes the row
  `"[<type>] : <value>"`, and a row reads back as what follows its first
  `"] : "`, or as `"Corrupted"`. Rows are joined for display, and the
  message-and-content line is built. The record constructor trims one
  trailing newline from the stack trace. A log record is a value: its
  constructor is the only code that writes its fields.
- `PlayLogs` (`Runtime/PlayLog.cs`): the custom-log builder. It creates its
  content list the first time something is added.
- `LogStores` (`Runtime/LogStore.cs`): the store is a class. Its current list
  and its clear/restore backup are references to `LogList` objects, as in the
  C# code. After `Restore` the two fields name the same list, so a log
  appended afterwards is in the backup too, and a second `Restore` keeps it
  (`RestoreKeepsLaterLogs`). Every store operation keeps the invariant that
  each entry's `index` equals its position, in both lists.
- `TypeFilter` (`Editor/PlayLogsWindow.cs`): the window's type filter mask.
  `DrawFilterToggle` flips a category's bit by XOR, and the header draws six
  such toggles one after the other.
- `LogsWindow` (`Editor/PlayLogsWindow.cs`): the window's `Check` filter, the
  filtered list and its shortcut, row selection, the choice of the selected
  entry, the Clear/Restore button and `LineCount`.
- `StringOps` and `Wrappers`: the .NET string operations the code calls
  (ordinal `IndexOf` and `LastIndexOf`, `EndsWith`, `Split(char)`), joining
  with a separator, and `null` and exceptions as values (`Option`, `Result`).

Null strings, lists, content objects, sources and tags are `Option.None`,
and so are null elements of a tag list: a single-tag overload builds
`new[] {tag}` (`Runtime/LogStore.cs:106`, `:123`, `:129`), which holds a null
element when `tag` is null. A `PlayLog` argument is a nullable reference
(`PlayLog?`). An exception the code would throw (a null
content object, a null `PlayLog` or one without content, an engine log type with no
matching case) is a `Result.Fail` or `Delivery.Failed`, and the store is left
unchanged. Engine log types are their numeric values in the engine
(`Error` 0, `Assert` 1, `Warning` 2, `Log` 3, `Exception` 4); any other
value is out of range. Masks are `bv32`, because C# `int` bit operations
act on 32-bit two's complement words.

An entry's index is its position in the current list. `ClearLogs` starts a
new list, so indices restart at 0 and are reused (`Runtime/LogStore.cs:154`,
`:164`).

## Model

| member | source | states |
|---|---|---|
| StringOps.IndexOf | Runtime/Log.cs:152 | -1 exactly when the pattern occurs nowhere; otherwise an occurrence with none before it |
| StringOps.LastIndexOf | Runtime/Log.cs:64-65 | -1 or an occurrence of the pattern with none after it |
| StringOps.Split | Editor/PlayLogsWindow.cs:370 | at least one piece, and no piece contains the separator character |
| StringOps.SplitCount | Editor/PlayLogsWindow.cs:370 | splitting at a character gives one more piece than the text has occurrences of it |
| StringOps.SplitJoinRoundTrip | Editor/PlayLogsWindow.cs:370 | joining the pieces of a split with the split character gives the original text back |
| StringOps.JoinSnoc | Runtime/Log.cs:134-142 | adding a part at the end adds exactly one separator and the part, with no trailing separator |
| LogTypes.Bit | Runtime/LogType.cs:5-13 | every category's value is one of the six lowest bits: 1, 2, 4, 8, 16 or 32 |
| LogTypes.BitsDistinct | Runtime/LogType.cs:5-13 | two categories share a bit exactly when they are the same category |
| LogTypes.AllHasEveryBit | Runtime/LogType.cs:37-39 | `all` is 63, and every category's bit is set in it |
| LogTypes.ToCustomLogType | Runtime/LogType.cs:18-34 | defined exactly for the five engine types; never `PlayLog`; any other value raises out-of-range |
| LogTypes.ToCustomLogTypeInjective | Runtime/LogType.cs:18-31 | different engine types map to different categories |
| Logs.ObjectToContentRow | Runtime/Log.cs:147 | a null object throws a null reference; otherwise the row is `[`, the type name, `"] : "` and the value text, in that order |
| Logs.ContentRowToValueString | Runtime/Log.cs:149-158 | a row without `"] : "` reads as `"Corrupted"`; otherwise the text after its first `"] : "` |
| Logs.RowRoundTrip | Runtime/Log.cs:147-158 | the row of an object reads back as the object's value text, if its type name has no `"] : "` |
| Logs.ObjectsToContent | Runtime/Log.cs:121-129 | null gives null; a null element throws; otherwise there is one row per object, in the same order |
| Logs.ContentToString | Runtime/Log.cs:131-145 | null gives ""; otherwise the rows' value texts in order, with `",\n"` or `",   "` between neighbours and no trailing separator |
| Logs.MessageAndContent | Runtime/Log.cs:45-55 | no message: the content string alone; a message leads the line, stands alone without content, and is followed by `" :   \t"` and the content otherwise |
| Logs.TrimStackTrace | Runtime/Log.cs:63-67 | a stack trace ending in a newline loses exactly that newline; any other, null included, is stored unchanged |
| Logs.SourceName | Runtime/Log.cs:75 | the source's name, then `" ("`, its type name and `)` |
| Logs.NewLog | Runtime/Log.cs:59-77 | message, type, index, tags and source stored as given; stack trace trimmed; content rows as `ObjectsToContent` makes them; source name only with a source; a null content object throws |
| PlayLogs.PlayLog.constructor | Runtime/PlayLog.cs:13-17 | message and tags as given; no source; no content list |
| PlayLogs.PlayLog.WithSource | Runtime/PlayLog.cs:19-24 | message, source and tags as given; no content list |
| PlayLogs.PlayLog.AddContent | Runtime/PlayLog.cs:26-31 | afterwards the list exists and is the earlier items plus the new one at the end |
| LogStores.LogList.constructor | Runtime/LogStore.cs:164 | a new list is empty |
| LogStores.LogList.Add | Runtime/LogStore.cs:155 | the list gains exactly the new entry at its end |
| LogStores.LogStore.constructor | Runtime/LogStore.cs:22-25 | no logs, no backup, clear-on-play and clear-on-build on, Unity logs in the editor off |
| LogStores.LogStore.HasLogs | Runtime/LogStore.cs:76 | true exactly when the current list has an entry |
| LogStores.LogStore.IsRestorable | Runtime/LogStore.cs:75 | true exactly when there is a backup list and it has an entry |
| LogStores.LogStore.SetIncludeUnityLogsInEditor | Runtime/LogStore.cs:52-61 | the flag holds the new value; setting the current value changes nothing |
| LogStores.LogStore.SetClearOnPlay | Runtime/LogStore.cs:27-36 | the flag holds the new value; setting the current value changes nothing |
| LogStores.LogStore.SetClearOnBuild | Runtime/LogStore.cs:38-47 | the flag holds the new value; setting the current value changes nothing |
| LogStores.LogStore.LogFull | Runtime/LogStore.cs:152-158 | one entry appended whose index is the previous count, with message, type, trimmed stack trace, source, source name, tags and rows as given; earlier entries unchanged, index invariant kept; on a null content object a null reference is thrown and nothing is appended |
| LogStores.LogStore.LogCustom | Runtime/LogStore.cs:140-141 | custom logs are recorded with type `PlayLog`, no stack trace, and message, source, source name, tags and rows as given; a null content object throws a null reference and records nothing |
| LogStores.LogStore.UnityLog | Runtime/LogStore.cs:143-150 | dropped exactly for an engine error or warning with a null or empty stack trace; out-of-range types throw; otherwise recorded with the mapped type, the message and trimmed stack trace, and no content, tags, source or source name |
| LogStores.LogStore.LogPlayLog | Runtime/LogStore.cs:135-136 | a null play log, or one whose content list was never created, throws a null reference and records nothing; otherwise it is logged as a custom log with its message, source, source name, tags and rows |
| LogStores.LogStore.ClearLogs | Runtime/LogStore.cs:161-167 | logs become a new empty list, the backup is the previous list, and restorable exactly when that list was non-empty |
| LogStores.LogStore.Restore | Runtime/LogStore.cs:78-83 | nothing happens unless restorable; otherwise the backup becomes the current list and stays restorable |
| LogStores.LogStore.PlayModeChanged | Runtime/LogStore.cs:191-195 | clears exactly when leaving edit mode with clear-on-play set |
| LogStores.LogStore.OnPreprocessBuild | Runtime/LogStore.cs:185-189 | clears exactly when the separate `clearObBuild` field is set |
| LogStores.LogStore.OnPreprocessBuildIntended | Runtime/LogStore.cs:185-189 | clears exactly when the clear-on-build setting is on |
| LogStores.ClearThenRestore | Runtime/LogStore.cs:161-164 | clearing and then restoring at once gives back the same entries |
| LogStores.BuildIgnoresClearOnBuild | Runtime/LogStore.cs:187 | with clear-on-build switched on and `clearObBuild` at its default, a build keeps every log |
| LogStores.RestoreKeepsLaterLogs | Runtime/LogStore.cs:81 | after a restore, a log appended and then a second restore leave that log in the list |
| LogsWindow.Check | Editor/PlayLogsWindow.cs:373-378 | false when a filter tag is set and the log lacks it; otherwise true exactly when the log's type bit is in the mask |
| LogsWindow.Filtered | Editor/PlayLogsWindow.cs:301 | contains exactly the logs that pass `Check`, and is no longer than the input |
| LogsWindow.FilteredAppend | Editor/PlayLogsWindow.cs:301 | filtering a concatenation is the concatenation of the filtered parts, so the original order is kept |
| LogsWindow.FilteredSingle | Editor/PlayLogsWindow.cs:301 | a single log is kept exactly when it passes `Check` |
| LogsWindow.CheckAllPasses | Editor/PlayLogsWindow.cs:373-378 | with no filter tag and the `all` mask every log passes |
| LogsWindow.FilteredAllIsIdentity | Editor/PlayLogsWindow.cs:299-301 | with no filter tag and the `all` mask filtering returns the list unchanged |
| LogsWindow.Displayed | Editor/PlayLogsWindow.cs:299-301 | using the unfiltered list as a shortcut shows the same logs as filtering |
| LogsWindow.PlayLogsWindow.DisplayedLogs | Editor/PlayLogsWindow.cs:299-303 | the table draws exactly the store's logs filtered by the window's tag and mask |
| TypeFilter.FilterToggleEnabled | Editor/PlayLogsWindow.cs:267-275 | afterwards the type is enabled exactly as the toggle reports |
| TypeFilter.FilterToggleKeepsBits | Editor/PlayLogsWindow.cs:272-273 | `filter ^ (int) logType`, or no change, keeps every bit other than the toggled type's |
| TypeFilter.FilterToggleFlips | Editor/PlayLogsWindow.cs:272-273 | when the toggle disagrees with the mask, the mask is the old one with that bit inverted |
| TypeFilter.FilterToggleKeepsOthers | Editor/PlayLogsWindow.cs:267-275 | a toggle leaves every other category's state as it was |
| TypeFilter.FilterToggleTwice | Editor/PlayLogsWindow.cs:272-273 | toggling a type and then setting it back restores the mask |
| LogsWindow.ToggledOffIsHidden | Editor/PlayLogsWindow.cs:267-275 | once a type is toggled off, no log of that type passes `Check` |
| TypeFilter.ToggleResult | Editor/EditorWindowHeader.cs:96-106 | a toggle reports a state different from its type's state in the mask exactly when it was pressed |
| TypeFilter.FilterToggleKeepsOutsideAll | Editor/PlayLogsWindow.cs:272-273 | a toggle never changes a bit outside `all` |
| TypeFilter.DrawToggle | Editor/PlayLogsWindow.cs:267-275 | one drawn toggle leaves its type enabled exactly when it was enabled and not pressed or disabled and pressed, and never changes a bit outside `all` |
| TypeFilter.ToggleStep | Editor/PlayLogsWindow.cs:267-275 | one drawn toggle flips its own type when pressed and no other type |
| TypeFilter.ApplyTypeToggles | Editor/PlayLogsWindow.cs:256-261 | drawing any sequence of toggles never changes a bit outside `all` |
| TypeFilter.ApplyTypeTogglesFlipsPressed | Editor/PlayLogsWindow.cs:256-261 | drawing toggles for distinct types flips exactly the pressed types among them |
| TypeFilter.HeaderTogglesFlipPressed | Editor/PlayLogsWindow.cs:256-261 | the header's six toggles flip exactly the pressed types and nothing outside `all` |
| LogsWindow.SelectedLog | Editor/PlayLogsWindow.cs:295-297 | an entry is shown exactly when 0 <= selected index < number of logs, and it is the entry at that index |
| LogsWindow.LineCount | Editor/PlayLogsWindow.cs:366-371 | 0 for null or empty text; otherwise the number of newlines plus one |
| LogsWindow.ClearOrRestoreButton | Editor/PlayLogsWindow.cs:228-239 | a click clears while there are logs, restores when there are none but a backup, and otherwise changes nothing |
| LogsWindow.PlayLogsWindow.constructor | Editor/PlayLogsWindow.cs:14-18 | nothing selected, no filter tag, every type shown |
| LogsWindow.PlayLogsWindow.IsRowSelected | Editor/PlayLogsWindow.cs:173 | a row is highlighted exactly when its index is the selection; with nothing selected no row is |
| LogsWindow.PlayLogsWindow.OnClickOnRow | Editor/PlayLogsWindow.cs:172-173 | clicking the selected row deselects it and any other row selects it; afterwards exactly that row, or none, is highlighted |
| LogsWindow.PlayLogsWindow.DrawTypeToggles | Editor/PlayLogsWindow.cs:256-261 | the mask becomes the six toggles applied in the header's order |

## Left out

- Drawing and layout: `OnGUI`, the rest of `DrawHeader`, `DrawSelected`, the table columns, the header helper, the store's inspector and the icons. The model keeps only the logic these call.
- `LineHeight` and the panel height arithmetic, which use floats.
- Events and persistence. The model does not raise `LogReceived`, `LogsChanged` or `LogsCleared`, and does not call `Repaint` or `SetObjectDirty`. So the setters' early return only shows as "nothing changes". `_deletedLogs` is not serialized, so it is null again after an asset reload; the model only has the null of a new store.
- `OnEnable`/`OnDisable` and the subscription part of the `IncludeUnityLogsInEditor` setter: they subscribe or unsubscribe `UnityLog` to the host's log callback and `PlayModeChanged` to the editor's play-mode callback (Runtime/LogStore.cs:85-99, :57-59). Event subscriptions are host wiring outside this model. `UnityLog` and `PlayModeChanged` are modelled as plain methods, called as if subscribed. In the editor `OnEnable` subscribes `UnityLog` only when the stored flag `includeUnityLogsInEditor` is on, and it is off by default (:25, :87). The setter's storing of that flag (:55) is modelled as `SetIncludeUnityLogsInEditor`. Its `SetObjectDirty` call (:60) falls under the events-and-persistence line above.
- Threads: the engine may call `UnityLog` on another thread, and `ContentToString` uses one shared `StringBuilder`. The model makes every call in sequence.
- Timestamps (`SetTime`, the `...ShortString` members), because they read clocks and format floats.
- The ten `Log(...)` overloads at `Runtime/LogStore.cs:102-132` only forward to `LogCustom`. Some wrap a single tag as `new[] {tag}`. Most pass `null` for a missing message, source, tag list or content. The two overloads at `Runtime/LogStore.cs:128-132` pass `string.Empty` as the message instead. Callers can get the same effect through `LogStores.LogStore.LogCustom`.
- External calls are modelled as plain values. `GetType()` and `ToString()` of a content object are its `typeName` and `text`. A source object is its `name` and its type's `Name`. `tags.CreateCopy()` is a copy of the sequence that keeps null as null.
- Unity's overloaded `==` for destroyed objects. Tags and sources are plain values, and a tag compares by identity.
- The assignment of the filter tag from the header's object field, which is host input. In the model it is a plain field.
- The toggle buttons' input. `ToggleResult` follows `DrawToggleButton` (`Editor/EditorWindowHeader.cs:96-106`) for a given set of pressed buttons.
- Logs.TrimStackTrace: `stackTrace.EndsWith("\n")` at `Runtime/Log.cs:63` uses the culture-sensitive overload, but the model tests for a final `'\n'` character exactly, as an ordinal comparison would. The two can differ. For example, with an ignorable character after the last newline, such as `"a\n\u00AD"`, the code trims two characters and the model trims none. Under ICU collation, `"\r\n"` is not trimmed by the code but is by the model. Culture-aware collation is not part of this model.
- `LogsWindow.SelectedLog`: the selected-entry panel indexes the store's unfiltered list (`Editor/PlayLogsWindow.cs:297`). Whether a clicked row index counts rows of the filtered table depends on the table component, which is not part of this model.

## Findings

| source | as written | input that shows it | evidently intended | confidence | as-written member | corrected member |
|---|---|---|---|---|---|---|
| Runtime/LogStore.cs:187 | the pre-build hook tests the serialized field `clearObBuild`, which no code assigns, instead of `clearOnBuild` | a store with "Clear on Build" switched on and `clearObBuild` at its default `false`: a build keeps every log | clear before a build exactly when `clearOnBuild` is set | high; not executed | LogStores.BuildIgnoresClearOnBuild | LogStores.LogStore.OnPreprocessBuildIntended |

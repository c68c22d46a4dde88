/**
 * The logic of the logs window behind its drawing: the type and tag
 * filter, the six type toggles, row selection, the entry panel's choice of
 * log, the Clear/Restore button and the line count of a text.
 */
module LogsWindow {
  import opened Wrappers
  import opened StringOps
  import opened LogTypes
  import opened Logs
  import opened LogStores
  import opened TypeFilter

  /** The log carries the filter tag, or no filter tag is set (`Contains` on a tag list with null elements). */
  predicate CarriesTag(filterTag: Option<LogTag>, log: Log) {
    filterTag.None? || (log.tags.Some? && filterTag in log.tags.value)
  }

  /** `Check`: the log carries the filter tag (when one is set) and its category is in the mask. */
  function Check(filterTag: Option<LogTag>, filter: Mask, log: Log): (r: bool)
    ensures !CarriesTag(filterTag, log) ==> !r
    ensures CarriesTag(filterTag, log) ==> (r <==> Enabled(filter, log.logType))
  {
    if !CarriesTag(filterTag, log) then false
    else Enabled(filter, log.logType)
  }

  /** `logs.Where(Check).ToList()`. */
  function Filtered(logs: seq<Log>, filterTag: Option<LogTag>, filter: Mask): (r: seq<Log>)
    ensures |r| <= |logs|
    ensures forall x :: x in r ==> x in logs && Check(filterTag, filter, x)
    ensures forall x :: x in logs && Check(filterTag, filter, x) ==> x in r
  {
    if |logs| == 0 then []
    else
      var rest := Filtered(logs[1..], filterTag, filter);
      var keep := Check(filterTag, filter, logs[0]);
      assert forall x :: x in logs <==> x == logs[0] || x in logs[1..];
      if keep then [logs[0]] + rest else rest
  }

  /** The first log is kept exactly when it passes, ahead of the rest filtered. */
  lemma FilteredCons(logs: seq<Log>, filterTag: Option<LogTag>, filter: Mask)
    requires |logs| > 0
    ensures Filtered(logs, filterTag, filter)
         == (if Check(filterTag, filter, logs[0]) then [logs[0]] else []) + Filtered(logs[1..], filterTag, filter)
  {
  }

  /** Filtering a concatenation filters each part and keeps them in order. */
  lemma {:induction false} FilteredAppend(a: seq<Log>, b: seq<Log>, filterTag: Option<LogTag>, filter: Mask)
    ensures Filtered(a + b, filterTag, filter) == Filtered(a, filterTag, filter) + Filtered(b, filterTag, filter)
  {
    if |a| > 0 {
      assert (a + b)[0] == a[0];
      assert (a + b)[1..] == a[1..] + b;
      FilteredCons(a + b, filterTag, filter);
      FilteredCons(a, filterTag, filter);
      FilteredAppend(a[1..], b, filterTag, filter);
    } else {
      assert a + b == b;
    }
  }

  /** A one-log list passes the filter exactly when the log does. */
  lemma FilteredSingle(log: Log, filterTag: Option<LogTag>, filter: Mask)
    ensures Filtered([log], filterTag, filter) == if Check(filterTag, filter, log) then [log] else []
  {
    assert [log][1..] == [];
  }

  /** With no tag and the `all` mask, every log passes. */
  lemma CheckAllPasses(log: Log)
    ensures Check(None, All, log)
  {
    AllHasEveryBit();
  }

  /** With no tag and the `all` mask, filtering keeps the whole list. */
  lemma {:induction false} FilteredAllIsIdentity(logs: seq<Log>)
    ensures Filtered(logs, None, All) == logs
  {
    if |logs| > 0 {
      CheckAllPasses(logs[0]);
      FilteredAllIsIdentity(logs[1..]);
    }
  }

  /**
   * The list the table shows: the store's own list when nothing is filtered
   * out. The shortcut shows the same logs as filtering would.
   */
  function Displayed(logs: seq<Log>, filterTag: Option<LogTag>, filter: Mask): (r: seq<Log>)
    ensures r == Filtered(logs, filterTag, filter)
  {
    if filterTag.None? && filter == All then
      FilteredAllIsIdentity(logs);
      logs
    else Filtered(logs, filterTag, filter)
  }

  /** Once a category is toggled off, no log of that category passes. */
  lemma ToggledOffIsHidden(filterTag: Option<LogTag>, filter: Mask, log: Log)
    ensures !Check(filterTag, FilterToggle(filter, log.logType, false), log)
  {
    FilterToggleEnabled(filter, log.logType, false);
  }


  /** The entry shown in the selected-entry panel: only for an index inside the store's list. */
  function SelectedLog(selectedIndex: int, logs: seq<Log>): (r: Option<Log>)
    ensures r.Some? <==> 0 <= selectedIndex < |logs|
    ensures r.Some? ==> r.value == logs[selectedIndex]
  {
    if selectedIndex >= 0 && selectedIndex < |logs| then Some(logs[selectedIndex]) else None
  }

  /** `LineCount`: no lines in null or empty text, else one more than its newlines. */
  function LineCount(text: Option<string>): (n: nat)
    ensures IsNullOrEmpty(text) ==> n == 0
    ensures !IsNullOrEmpty(text) ==> n == CountChar(text.value, '\n') + 1
  {
    if IsNullOrEmpty(text) then 0
    else
      SplitCount(text.value, '\n');
      |Split(text.value, '\n')|
  }

  /**
   * The header's Clear/Restore button: Clear while the store has logs,
   * otherwise Restore while there is something to restore.
   */
  method ClearOrRestoreButton(store: LogStore, clicked: bool)
    requires store.Valid()
    modifies store`logs, store`deletedLogs
    ensures store.Valid()
    ensures clicked && old(store.HasLogs()) ==> store.logs.items == [] && store.deletedLogs == old(store.logs)
    ensures clicked && !old(store.HasLogs()) && old(store.IsRestorable()) ==>
              store.logs == old(store.deletedLogs) && store.HasLogs()
    ensures !clicked || (!old(store.HasLogs()) && !old(store.IsRestorable())) ==>
              store.logs == old(store.logs) && store.deletedLogs == old(store.deletedLogs)
  {
    if store.HasLogs() {
      if clicked {
        store.ClearLogs();
      }
    } else if store.IsRestorable() {
      if clicked {
        store.Restore();
      }
    }
  }

  class PlayLogsWindow {
    var selectedLogIndex: int
    var filterTag: Option<LogTag>
    var logTypeFilter: Mask

    /** A new window: nothing selected, no tag, every category shown. */
    constructor ()
      ensures selectedLogIndex == -1 && filterTag.None? && logTypeFilter == All
    {
      selectedLogIndex := -1;
      filterTag := None;
      logTypeFilter := All;
    }

    /** `IsRowSelected`: a row is highlighted exactly when it is the selection; with none, no row is. */
    function IsRowSelected(index: int): (r: bool)
      reads this
      ensures r <==> index == selectedLogIndex
      ensures selectedLogIndex < 0 && index >= 0 ==> !r
    {
      index == selectedLogIndex
    }

    /** `OnClickOnRow`: clicking the selected row deselects it, any other row becomes the selection. */
    method OnClickOnRow(index: int)
      modifies this`selectedLogIndex
      ensures selectedLogIndex == if old(selectedLogIndex) == index then -1 else index
      ensures forall row :: 0 <= row ==> (IsRowSelected(row) <==> row == index && old(selectedLogIndex) != index)
    {
      selectedLogIndex := if selectedLogIndex == index then -1 else index;
    }

    /** The header's six type toggles, given which of them were pressed in this frame. */
    method DrawTypeToggles(pressed: set<LogType>)
      modifies this`logTypeFilter
      ensures logTypeFilter == ApplyTypeToggles(old(logTypeFilter), HeaderToggleOrder, pressed)
    {
      ghost var order := HeaderToggleOrder;
      ghost var target := ApplyTypeToggles(logTypeFilter, order, pressed);
      logTypeFilter := FilterToggle(logTypeFilter, PlayLog, ToggleResult(logTypeFilter, PlayLog, pressed));
      ApplyTypeTogglesStep(old(logTypeFilter), order, pressed);
      assert target == ApplyTypeToggles(logTypeFilter, order[1..], pressed);
      ghost var f1 := logTypeFilter;
      logTypeFilter := FilterToggle(logTypeFilter, UnityLog, ToggleResult(logTypeFilter, UnityLog, pressed));
      ApplyTypeTogglesStep(f1, order[1..], pressed);
      assert order[1..][1..] == order[2..];
      assert target == ApplyTypeToggles(logTypeFilter, order[2..], pressed);
      ghost var f2 := logTypeFilter;
      logTypeFilter := FilterToggle(logTypeFilter, UnityWarning, ToggleResult(logTypeFilter, UnityWarning, pressed));
      ApplyTypeTogglesStep(f2, order[2..], pressed);
      assert order[2..][1..] == order[3..];
      assert target == ApplyTypeToggles(logTypeFilter, order[3..], pressed);
      ghost var f3 := logTypeFilter;
      logTypeFilter := FilterToggle(logTypeFilter, UnityError, ToggleResult(logTypeFilter, UnityError, pressed));
      ApplyTypeTogglesStep(f3, order[3..], pressed);
      assert order[3..][1..] == order[4..];
      assert target == ApplyTypeToggles(logTypeFilter, order[4..], pressed);
      ghost var f4 := logTypeFilter;
      logTypeFilter := FilterToggle(logTypeFilter, UnityAssert, ToggleResult(logTypeFilter, UnityAssert, pressed));
      ApplyTypeTogglesStep(f4, order[4..], pressed);
      assert order[4..][1..] == order[5..];
      assert target == ApplyTypeToggles(logTypeFilter, order[5..], pressed);
      ghost var f5 := logTypeFilter;
      logTypeFilter := FilterToggle(logTypeFilter, Exception, ToggleResult(logTypeFilter, Exception, pressed));
      ApplyTypeTogglesStep(f5, order[5..], pressed);
      assert order[5..][1..] == [];
      assert target == logTypeFilter;
    }

    /** The list the table draws in this frame. */
    function DisplayedLogs(logs: seq<Log>): (r: seq<Log>)
      reads this
      ensures r == Filtered(logs, filterTag, logTypeFilter)
    {
      Displayed(logs, filterTag, logTypeFilter)
    }
  }
}

/**
 * The log record: how its content objects become text rows, how the rows
 * are read back and joined for display, the message-and-content line, and
 * the record's construction.
 */
module Logs {
  import opened Wrappers
  import opened StringOps
  import opened LogTypes

  /** A `LogTag` asset, compared by identity; a tag list may hold null elements, so its elements are `Option<LogTag>`. */
  datatype LogTag = LogTag(id: nat)

  /** The engine object a log names as its source: its `name` and its type's `Name`. */
  datatype Source = Source(name: string, typeName: string)

  /** A content object, seen through `GetType()` and `ToString()`. */
  datatype ContentObject = ContentObject(typeName: string, text: string)

  /**
   * A stored log. Every field is written by the constructor only; the
   * timestamps are not part of this model.
   */
  datatype Log = Log(
    logType: LogType,
    message: Option<string>,
    stackTrace: Option<string>,
    index: int,
    tags: Option<seq<Option<LogTag>>>,
    source: Option<Source>,
    sourceName: Option<string>,
    content: Option<seq<string>>)

  /** What separates a row's type part from its value part. */
  const RowSeparator := "] : "
  /** The value a row without a `RowSeparator` reads back as. */
  const Corrupted := "Corrupted"
  /** What `ContentToString` puts between rows, one per line or all on one line. */
  const LineSeparator := ",\n"
  const InlineSeparator := ",   "
  /** What `MessageAndContent` puts between the message and the content. */
  const MessageContentSeparator := " :   \t"

  function RowsSeparator(separatedLines: bool): string {
    if separatedLines then LineSeparator else InlineSeparator
  }

  /** `ObjectToContentRow`: `[<type>] : <value>`; a null object throws on `GetType()`. */
  function ObjectToContentRow(obj: Option<ContentObject>): (r: Result<string>)
    ensures r.Fail? <==> obj.None?
    ensures r.Fail? ==> r.error == NullReference
    ensures r.Ok? ==> OccursAt(r.value, RowSeparator, |obj.value.typeName| + 1)
    ensures r.Ok? ==> r.value[..|obj.value.typeName| + 1] == "[" + obj.value.typeName
    ensures r.Ok? ==> r.value[|obj.value.typeName| + 1 + |RowSeparator|..] == obj.value.text
  {
    match obj
    case None => Fail(NullReference)
    case Some(o) => Ok("[" + o.typeName + RowSeparator + o.text)
  }

  /** `ContentRowToValueString`: what follows the first `RowSeparator`, or `Corrupted`. */
  function ContentRowToValueString(row: string): (r: string)
    ensures (forall k :: !OccursAt(row, RowSeparator, k)) ==> r == Corrupted
    ensures forall k :: OccursAt(row, RowSeparator, k) && (forall j :: 0 <= j < k ==> !OccursAt(row, RowSeparator, j))
                   ==> r == row[k + |RowSeparator|..]
  {
    var i := IndexOf(row, RowSeparator);
    if i <= -1 then Corrupted else row[i + |RowSeparator|..]
  }

  /** Reading back the row of an object gives its value text, unless its type name holds a `RowSeparator`. */
  lemma RowRoundTrip(obj: ContentObject)
    requires forall k :: !OccursAt(obj.typeName, RowSeparator, k)
    ensures ObjectToContentRow(Some(obj)).Ok?
    ensures ContentRowToValueString(ObjectToContentRow(Some(obj)).value) == obj.text
  {
    var t := obj.typeName;
    var row := ObjectToContentRow(Some(obj)).value;
    var p := |t| + 1;
    assert row == "[" + t + RowSeparator + obj.text;
    forall j | 0 <= j < p
      ensures !OccursAt(row, RowSeparator, j)
    {
      if j == 0 {
        assert row[0] == '[';
      } else if j + |RowSeparator| <= p {
        assert row[j..j + |RowSeparator|] == t[j - 1..j - 1 + |RowSeparator|];
        assert !OccursAt(t, RowSeparator, j - 1);
      } else {
        // The occurrence would overlap the `]` that ends the type part.
        assert row[p] == ']';
        assert row[j..j + |RowSeparator|][p - j] == ']';
      }
    }
    assert row[p + |RowSeparator|..] == obj.text;
  }

  /** The value texts of the rows, in order. */
  function Decoded(rows: seq<string>): seq<string> {
    seq(|rows|, i requires 0 <= i < |rows| => ContentRowToValueString(rows[i]))
  }

  /** What `ContentToString` returns: nothing for null, else the value texts joined. */
  function ContentString(content: Option<seq<string>>, separatedLines: bool): string {
    match content
    case None => ""
    case Some(rows) => Join(Decoded(rows), RowsSeparator(separatedLines))
  }

  /** `ObjectsToContent`: one row per object, or null for null; a null object throws. */
  method ObjectsToContent(content: Option<seq<Option<ContentObject>>>) returns (r: Result<Option<seq<string>>>)
    ensures content.None? ==> r == Ok(None)
    ensures r.Fail? <==> content.Some? && exists i :: 0 <= i < |content.value| && content.value[i].None?
    ensures r.Fail? ==> r.error == NullReference
    ensures content.Some? && r.Ok? ==>
              && r.value.Some?
              && |r.value.value| == |content.value|
              && forall i :: 0 <= i < |content.value| ==> ObjectToContentRow(content.value[i]) == Ok(r.value.value[i])
  {
    if content.None? {
      return Ok(None);
    }
    var objects := content.value;
    var result := new string[|objects|];
    for i := 0 to |objects|
      invariant forall j :: 0 <= j < i ==> ObjectToContentRow(objects[j]) == Ok(result[j])
    {
      var row := ObjectToContentRow(objects[i]);
      if row.Fail? {
        return Fail(row.error);
      }
      result[i] := row.value;
    }
    return Ok(Some(result[..]));
  }

  /** One more part of `parts`, joined onto the separator that ends the prefix. */
  lemma JoinPrefixStep(parts: seq<string>, i: nat, sep: string)
    requires i < |parts|
    ensures Join(parts[..i + 1], sep) == (if i == 0 then "" else Join(parts[..i], sep) + sep) + parts[i]
  {
    assert parts[..i + 1] == parts[..i] + [parts[i]];
    if i > 0 {
      JoinSnoc(parts[..i], parts[i], sep);
    }
  }

  /** `ContentToString`: appends each value text, and a separator after every row but the last. */
  method ContentToString(content: Option<seq<string>>, separatedLines: bool) returns (s: string)
    ensures s == ContentString(content, separatedLines)
  {
    if content.None? {
      return "";
    }
    var rows := content.value;
    var sep := RowsSeparator(separatedLines);
    ghost var values := Decoded(rows);
    var builder := "";
    var i := 0;
    while i < |rows|
      invariant 0 <= i <= |rows|
      invariant |rows| > 0 ==> i < |rows|
      invariant i == 0 ==> builder == ""
      invariant i > 0 ==> builder == Join(values[..i], sep) + sep
    {
      var value := ContentRowToValueString(rows[i]);
      assert value == values[i];
      builder := builder + value;
      JoinPrefixStep(values, i, sep);
      if i == |rows| - 1 {
        assert values[..i + 1] == values;
        break;
      }
      builder := builder + sep;
      i := i + 1;
    }
    return builder;
  }

  /** `IsNullOrEmpty` on a collection. */
  predicate IsNullOrEmptySeq<T>(s: Option<seq<T>>) {
    s.None? || |s.value| == 0
  }

  /**
   * `MessageAndContent`: without a message the line is the content alone; a
   * message always leads the line, stands alone when there is no content,
   * and is followed by the separator and the content otherwise.
   */
  function MessageAndContent(log: Log): (r: string)
    ensures IsNullOrEmpty(log.message) ==> r == ContentString(log.content, false)
    ensures !IsNullOrEmpty(log.message) ==> log.message.value <= r
    ensures !IsNullOrEmpty(log.message) && IsNullOrEmptySeq(log.content) ==> r == log.message.value
    ensures !IsNullOrEmpty(log.message) && !IsNullOrEmptySeq(log.content) ==>
              r[|log.message.value|..] == MessageContentSeparator + ContentString(log.content, false)
    ensures IsNullOrEmptySeq(log.content) ==> r == if log.message.None? then "" else log.message.value
  {
    assert log.content.Some? && |log.content.value| == 0 ==> Decoded(log.content.value) == [];
    if IsNullOrEmpty(log.message) then ContentString(log.content, false)
    else if IsNullOrEmptySeq(log.content) then log.message.value
    else
      var m, tail := log.message.value, MessageContentSeparator + ContentString(log.content, false);
      assert (m + tail)[|m|..] == tail && m <= m + tail;
      m + tail
  }

  /** The constructor's stack-trace rule: drop one trailing newline, if there is one. */
  function TrimStackTrace(stackTrace: Option<string>): (r: Option<string>)
    ensures stackTrace.Some? && EndsWith(stackTrace.value, "\n") ==> r.Some? && r.value + "\n" == stackTrace.value
    ensures !(stackTrace.Some? && EndsWith(stackTrace.value, "\n")) ==> r == stackTrace
  {
    if stackTrace.Some? && EndsWith(stackTrace.value, "\n") then
      var s := stackTrace.value;
      assert OccursAt(s, "\n", |s| - 1);
      Some(s[..LastIndexOf(s, "\n")])
    else stackTrace
  }

  /** The text the constructor stores for a source object: its name, then its type in parentheses. */
  function SourceName(source: Source): (r: string)
    ensures |r| == |source.name| + |source.typeName| + 3
    ensures r[..|source.name|] == source.name
    ensures r[|source.name|..|source.name| + 2] == " ("
    ensures r[|source.name| + 2..|r| - 1] == source.typeName
    ensures r[|r| - 1] == ')'
  {
    source.name + " (" + source.typeName + ")"
  }

  /**
   * The `Log` constructor: captures its arguments, trims the stack trace,
   * turns the content objects into rows and copies the tags; it throws when
   * a content object is null.
   */
  method NewLog(message: Option<string>, stackTrace: Option<string>, content: Option<seq<Option<ContentObject>>>,
                logType: LogType, index: int, tags: Option<seq<Option<LogTag>>>, source: Option<Source>)
    returns (r: Result<Log>)
    ensures r.Fail? <==> content.Some? && exists i :: 0 <= i < |content.value| && content.value[i].None?
    ensures r.Fail? ==> r.error == NullReference
    ensures r.Ok? ==>
              && r.value.message == message
              && r.value.logType == logType
              && r.value.index == index
              && r.value.tags == tags
              && r.value.source == source
              && r.value.stackTrace == TrimStackTrace(stackTrace)
    ensures r.Ok? ==> r.value.sourceName == if source.None? then None else Some(SourceName(source.value))
    ensures r.Ok? ==> (r.value.content.None? <==> content.None?)
    ensures r.Ok? && content.Some? ==>
              && |r.value.content.value| == |content.value|
              && forall i :: 0 <= i < |content.value| ==> ObjectToContentRow(content.value[i]) == Ok(r.value.content.value[i])
  {
    var rows := ObjectsToContent(content);
    if rows.Fail? {
      return Fail(rows.error);
    }
    var sourceName := if source.None? then None else Some(SourceName(source.value));
    r := Ok(Log(logType, message, TrimStackTrace(stackTrace), index, tags, source, sourceName, rows.value));
  }
}

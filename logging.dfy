/**
 * Config::LogLevel and the parse log. The engine formats each entry as a line of text; the
 * model keeps the entry's level, the input token it is about and its message.
 */
module Logging {

  /** Ordered INFO < WARNING < ERROR < NONE, as the enumerators are declared. */
  datatype LogLevel = INFO | WARNING | ERROR | NONE
  {
    function Rank(): (r: nat)
      ensures r <= 3
    {
      match this
      case INFO => 0
      case WARNING => 1
      case ERROR => 2
      case NONE => 3
    }
  }

  /** The comparisons of the log levels: each level has its own rank, in declaration order. */
  lemma RankOrder()
    ensures INFO.Rank() < WARNING.Rank() < ERROR.Rank() < NONE.Rank()
    ensures forall a: LogLevel, b: LogLevel :: a.Rank() == b.Rank() ==> a == b
  {
  }

  datatype LogRecord = LogRecord(level: LogLevel, token: string, msg: string)

  /** worseLevel: the more severe of two levels. */
  function WorseLevel(a: LogLevel, b: LogLevel): (r: LogLevel)
    ensures r == a || r == b
    ensures r.Rank() >= a.Rank() && r.Rank() >= b.Rank()
  {
    if a.Rank() < b.Rank() then b else a
  }

  /** The most severe level among the records, INFO when there are none. */
  function MaxLevel(records: seq<LogRecord>): (r: LogLevel)
    ensures forall x :: x in records ==> r.Rank() >= x.level.Rank()
    ensures r == INFO || HasLevel(records, r)
  {
    if |records| == 0 then INFO
    else
      var init := records[..|records| - 1];
      var last := records[|records| - 1];
      assert records == init + [last];
      WorseLevel(MaxLevel(init), last.level)
  }

  /** Some record has exactly this level. */
  predicate HasLevel(records: seq<LogRecord>, level: LogLevel)
  {
    exists x :: x in records && x.level == level
  }

  /** The records `log(level, token, msg)` keeps: those at or above the threshold. */
  function Visible(threshold: LogLevel, records: seq<LogRecord>): (r: seq<LogRecord>)
    ensures |r| <= |records|
  {
    if |records| == 0 then []
    else
      var last := records[|records| - 1];
      Visible(threshold, records[..|records| - 1])
        + (if last.level.Rank() >= threshold.Rank() then [last] else [])
  }

  /** The log keeps exactly the records at or above the threshold. */
  lemma {:induction false} VisibleMembers(threshold: LogLevel, records: seq<LogRecord>)
    ensures forall x :: x in Visible(threshold, records) <==> x in records && x.level.Rank() >= threshold.Rank()
    decreases |records|
  {
    if |records| > 0 {
      var init := records[..|records| - 1];
      assert records == init + [records[|records| - 1]];
      VisibleMembers(threshold, init);
    }
  }

  /** Filtering record by record is filtering the whole: the log of two phases is the log of their sequence. */
  lemma {:induction false} VisibleAppend(threshold: LogLevel, a: seq<LogRecord>, b: seq<LogRecord>)
    ensures Visible(threshold, a + b) == Visible(threshold, a) + Visible(threshold, b)
    decreases |b|
  {
    if |b| > 0 {
      var b' := b[..|b| - 1];
      var last := b[|b| - 1];
      var tail := if last.level.Rank() >= threshold.Rank() then [last] else [];
      assert (a + b)[..|a + b| - 1] == a + b';
      assert Visible(threshold, a + b) == Visible(threshold, a + b') + tail;
      VisibleAppend(threshold, a, b');
      assert Visible(threshold, b) == Visible(threshold, b') + tail;
    } else {
      assert a + b == a;
    }
  }

  /** The worst level of two phases is the worse of their worst levels. */
  lemma {:induction false} MaxLevelAppend(a: seq<LogRecord>, b: seq<LogRecord>)
    ensures MaxLevel(a + b) == WorseLevel(MaxLevel(a), MaxLevel(b))
    decreases |b|
  {
    if |b| > 0 {
      assert (a + b)[..|a + b| - 1] == a + b[..|b| - 1];
      MaxLevelAppend(a, b[..|b| - 1]);
    } else {
      assert a + b == a;
    }
  }

  /**
   * For records that are never NONE, the worst level is ERROR exactly when some record is an
   * error, and otherwise WARNING exactly when some record is a warning.
   */
  lemma MaxLevelClassifies(records: seq<LogRecord>)
    requires !HasLevel(records, NONE)
    ensures MaxLevel(records) == ERROR <==> HasLevel(records, ERROR)
    ensures MaxLevel(records) == WARNING <==> !HasLevel(records, ERROR) && HasLevel(records, WARNING)
    ensures MaxLevel(records) == INFO <==> !HasLevel(records, ERROR) && !HasLevel(records, WARNING)
  {
    var m := MaxLevel(records);
    if HasLevel(records, ERROR) {
      var x :| x in records && x.level == ERROR;
      assert m.Rank() >= 2;
    } else if HasLevel(records, WARNING) {
      var x :| x in records && x.level == WARNING;
      assert m.Rank() >= 1;
    }
  }
}

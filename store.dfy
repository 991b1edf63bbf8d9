/**
 * What the parsing phases of Config change: the resolved-value map `_optionValues` and the
 * diagnostics they report. The records kept here are all the ones reported; which of them
 * reach `_log` depends on the threshold (Logging.Visible).
 */
module Store {
  import opened Values
  import opened Logging

  datatype Store = Store(values: map<string, Value>, records: seq<LogRecord>)
  {
    /** `_optionValues[k] = v`. */
    function Put(k: string, v: Value): (st: Store)
    {
      this.(values := values[k := v])
    }

    /** `log(level, token, msg)`, before the threshold is applied. */
    function Note(level: LogLevel, token: string, msg: string): (st: Store)
    {
      this.(records := records + [LogRecord(level, token, msg)])
    }
  }
}

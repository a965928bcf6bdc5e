/** The editor console's LogCollector: every published log line is
    appended, and the oldest lines are evicted so that at most `MAX_LOGS`
    remain. */
module LogCollector {

  const MAX_LOGS: nat := 100

  datatype LogType = Debug | Warn | Error | Info | FatalLog

  datatype Log = Log(logType: LogType, text: string)

  /** The most recent `MAX_LOGS` entries of `s`, in arrival order. */
  function Recent(s: seq<Log>): (r: seq<Log>)
  {
    if |s| > MAX_LOGS then s[|s| - MAX_LOGS..] else s
  }

  /** What is kept is bounded, is a suffix of the input, and loses nothing
      while the input fits. */
  lemma RecentIsBoundedSuffix(s: seq<Log>)
    ensures |Recent(s)| <= MAX_LOGS
    ensures Recent(s) == s[|s| - |Recent(s)|..]
    ensures |s| <= MAX_LOGS <==> Recent(s) == s
  {
  }

  /** A log just published is the last entry kept. */
  lemma {:induction false} NewestIsKept(s: seq<Log>, log: Log)
    ensures var r := Recent(s + [log]); |r| > 0 && r[|r| - 1] == log
  {
    var t := s + [log];
    assert t[|t| - 1] == log;
  }

  class Collector {
    var logs: seq<Log>

    ghost predicate Valid()
      reads this
    {
      |logs| <= MAX_LOGS
    }

    /** LogCollector::LogCollector, apart from registering with the logger. */
    constructor ()
      ensures Valid() && logs == []
    {
      logs := [];
    }

    /** The shared body of the debug, error, info and fatal handlers: append,
        then erase from the front while there are too many. */
    method Publish(logType: LogType, text: string)
      modifies this
      ensures logs == Recent(old(logs) + [Log(logType, text)])
      ensures Valid()
    {
      logs := logs + [Log(logType, text)];
      ghost var appended := logs;
      while |logs| > MAX_LOGS
        invariant |logs| <= |appended|
        invariant logs == appended[|appended| - |logs|..]
        invariant |appended| > MAX_LOGS ==> |logs| >= MAX_LOGS
        invariant |appended| <= MAX_LOGS ==> logs == appended
        decreases |logs|
      {
        logs := logs[1..];
      }
    }

    method DebugLogPublished(text: string)
      modifies this
      ensures logs == Recent(old(logs) + [Log(Debug, text)]) && Valid()
    {
      Publish(Debug, text);
    }

    /** The warn handler trims with a single `if`: one eviction, which is
        enough as long as the buffer was within bounds before. */
    method WarnLogPublished(text: string)
      modifies this
      ensures |old(logs)| < MAX_LOGS ==> logs == old(logs) + [Log(Warn, text)]
      ensures |old(logs)| >= MAX_LOGS ==> logs == (old(logs) + [Log(Warn, text)])[1..]
      ensures old(Valid()) ==> logs == Recent(old(logs) + [Log(Warn, text)]) && Valid()
    {
      logs := logs + [Log(Warn, text)];
      if |logs| > MAX_LOGS {
        logs := logs[1..];
      }
    }

    method ErrorLogPublished(text: string)
      modifies this
      ensures logs == Recent(old(logs) + [Log(Error, text)]) && Valid()
    {
      Publish(Error, text);
    }

    method InfoLogPublished(text: string)
      modifies this
      ensures logs == Recent(old(logs) + [Log(Info, text)]) && Valid()
    {
      Publish(Info, text);
    }

    method FatalLogPublished(text: string)
      modifies this
      ensures logs == Recent(old(logs) + [Log(FatalLog, text)]) && Valid()
    {
      Publish(FatalLog, text);
    }

    /** LogCollector::getLogs returns a copy; the buffer is not touched. */
    method GetLogs() returns (r: seq<Log>)
      ensures r == logs
    {
      r := logs;
    }

    method ClearLogs()
      modifies this
      ensures logs == [] && Valid()
    {
      logs := [];
    }
  }
}

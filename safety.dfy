/**
 * The alert log of `NavigationSafetyManager`: newest entry first, at most
 * ten entries. The DOM container is modelled as the sequence of its
 * entries' texts, and the time-of-day prefix of each entry is left out.
 */
module Safety {

  const MaxLogEntries := 10

  /** The first `n` elements of `s`, or all of them when there are fewer. */
  function Take<T>(s: seq<T>, n: nat): (r: seq<T>)
    ensures |r| <= n && r <= s
    ensures |s| <= n ==> r == s
  {
    if |s| <= n then s else s[..n]
  }

  /** Taking after prepending an element equals prepending to an already shortened tail. */
  lemma TakeAfterPrepend<T>(x: T, s: seq<T>, n: nat)
    requires n > 0
    ensures Take([x] + Take(s, n), n) == Take([x] + s, n)
  {
    if |s| > n {
      assert ([x] + s)[..n] == [x] + s[..n - 1];
      assert ([x] + s[..n])[..n] == [x] + s[..n - 1];
    }
  }

  /**
   * One `logAlert(message)`: prepend the entry, then remove the last child
   * when the container holds more than ten.
   */
  function Logged(log: seq<string>, message: string): (r: seq<string>)
    ensures |r| > 0 && r[0] == message
    ensures |log| <= MaxLogEntries ==> r == Take([message] + log, MaxLogEntries)
  {
    var grown := [message] + log;
    if |grown| > MaxLogEntries then grown[..|grown| - 1] else grown
  }

  /** `s` read back to front. */
  function Reversed<T>(s: seq<T>): (r: seq<T>)
    ensures |r| == |s|
  {
    if |s| == 0 then [] else [s[|s| - 1]] + Reversed(s[..|s| - 1])
  }

  /** `logAlert` called with each message in turn, oldest first. */
  function LoggedAll(log: seq<string>, messages: seq<string>): seq<string>
    decreases |messages|
  {
    if |messages| == 0 then log
    else Logged(LoggedAll(log, messages[..|messages| - 1]), messages[|messages| - 1])
  }

  /**
   * After any number of calls the log is the newest ten entries of the whole
   * history, newest first: the messages in reverse order of logging, then
   * the earlier log.
   */
  lemma {:induction false} LogIsNewestTenOfHistory(log: seq<string>, messages: seq<string>)
    requires |log| <= MaxLogEntries
    ensures LoggedAll(log, messages) == Take(Reversed(messages) + log, MaxLogEntries)
    decreases |messages|
  {
    if |messages| > 0 {
      var earlier, m := messages[..|messages| - 1], messages[|messages| - 1];
      LogIsNewestTenOfHistory(log, earlier);
      var history := Reversed(earlier) + log;
      TakeAfterPrepend(m, history, MaxLogEntries);
      assert Reversed(messages) + log == [m] + history;
    }
  }

  /**
   * Hence: never more than ten entries, the latest message at index 0, and
   * the surviving entries in their order of logging, newest first.
   */
  lemma LogStaysBoundedAndOrdered(log: seq<string>, messages: seq<string>)
    requires |log| <= MaxLogEntries
    ensures |LoggedAll(log, messages)| <= MaxLogEntries
    ensures |messages| > 0 ==> LoggedAll(log, messages)[0] == messages[|messages| - 1]
    ensures LoggedAll(log, messages) <= Reversed(messages) + log
  {
    LogIsNewestTenOfHistory(log, messages);
    if |messages| > 0 {
      assert (Reversed(messages) + log)[0] == messages[|messages| - 1];
    }
  }

  /** The log-keeping part of `NavigationSafetyManager`. */
  class NavigationSafetyManager {
    var alertsLog: seq<string>

    ghost predicate Valid()
      reads this
    {
      |alertsLog| <= MaxLogEntries
    }

    constructor ()
      ensures Valid() && alertsLog == []
    {
      alertsLog := [];
    }

    /** `logAlert`: `prepend`, then `removeChild(lastChild)` above ten entries. */
    method LogAlert(message: string)
      requires Valid()
      modifies this
      ensures Valid()
      ensures alertsLog == Logged(old(alertsLog), message)
      ensures alertsLog[0] == message && alertsLog <= [message] + old(alertsLog)
    {
      alertsLog := [message] + alertsLog;
      if |alertsLog| > MaxLogEntries {
        alertsLog := alertsLog[..|alertsLog| - 1];
      }
    }
  }
}

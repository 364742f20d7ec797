/**
 * `recent_errors`: the last few failures of the monitor cycle and of the
 * webhook, kept for the `/debug` command. Each failure is appended and, when
 * the list then holds more than five entries, the oldest one is popped.
 */
module RecentErrors {
  import opened Wrappers

  /** One recorded failure: when it happened and its message, both as text. */
  datatype ErrorRecord = ErrorRecord(time: string, error: string)

  /** At most this many failures are kept. */
  const MaxRecentErrors: nat := 5

  /** The `count` most recent entries of `log`. */
  function Newest<T>(log: seq<T>, count: nat): (r: seq<T>)
    requires count <= |log|
    ensures |r| == count
  {
    log[|log| - count..]
  }

  /** Append `e`, then drop the oldest entry if the list has grown past the bound. */
  function KeepRecent(errors: seq<ErrorRecord>, e: ErrorRecord): (r: seq<ErrorRecord>)
    ensures |errors| <= MaxRecentErrors ==> |r| <= MaxRecentErrors
    ensures |errors| <= MaxRecentErrors ==> r == Newest(errors + [e], Min(MaxRecentErrors, |errors| + 1))
    ensures r != [] && r[|r| - 1] == e
  {
    var appended := errors + [e];
    if |appended| > MaxRecentErrors then appended[1..] else appended
  }

  /** The list after recording every failure of `failures`, in order. */
  function RecordAll(errors: seq<ErrorRecord>, failures: seq<ErrorRecord>): seq<ErrorRecord>
  {
    if failures == [] then errors
    else KeepRecent(RecordAll(errors, failures[..|failures| - 1]), failures[|failures| - 1])
  }

  /** Recording one more failure moves the window of the newest entries on by one. */
  lemma KeepRecentSlides(recorded: seq<ErrorRecord>, e: ErrorRecord)
    ensures KeepRecent(Newest(recorded, Min(MaxRecentErrors, |recorded|)), e)
         == Newest(recorded + [e], Min(MaxRecentErrors, |recorded| + 1))
  {
    var n := Min(MaxRecentErrors, |recorded|);
    var all := recorded + [e];
    assert Newest(recorded, n) + [e] == all[|all| - (n + 1)..];
  }

  /**
   * However many failures are recorded, the list holds the most recent ones, at most
   * five, oldest first: exactly the last five of everything recorded.
   */
  lemma {:induction false} RecordAllKeepsNewest(errors: seq<ErrorRecord>, failures: seq<ErrorRecord>)
    requires |errors| <= MaxRecentErrors
    ensures RecordAll(errors, failures) ==
      Newest(errors + failures, Min(MaxRecentErrors, |errors| + |failures|))
  {
    if failures == [] {
      assert errors + failures == errors == errors[0..];
    } else {
      var init, e := failures[..|failures| - 1], failures[|failures| - 1];
      RecordAllKeepsNewest(errors, init);
      assert errors + failures == (errors + init) + [e];
      KeepRecentSlides(errors + init, e);
    }
  }
}

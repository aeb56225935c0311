/** The bounded metrics log of `Vec0SDK` (app/lib/vec0/index.ts:14-15, 250-260). */
module Vec0Metrics {

  /** `maxMetrics`. */
  const MaxMetrics: nat := 1000

  /** The log after `recordMetric`'s trim: `metrics.slice(-maxMetrics)` once it is too long. */
  function Trimmed<T>(log: seq<T>): (r: seq<T>)
    ensures |r| == if |log| > MaxMetrics then MaxMetrics else |log|
    ensures r == log[|log| - |r|..]
  {
    if |log| > MaxMetrics then log[|log| - MaxMetrics..] else log
  }

  /** Trimming after each append keeps the same entries as trimming once at the end:
      the log is always the newest `MaxMetrics` entries, oldest evicted first. */
  lemma TrimmedTrimmed<T>(a: seq<T>, b: seq<T>)
    ensures Trimmed(Trimmed(a) + b) == Trimmed(a + b)
  {
    if |a| > MaxMetrics {
      var t := Trimmed(a);
      var n := |a| - MaxMetrics;
      assert t == a[n..];
      assert a[n..] + b == (a + b)[n..];
    }
  }

  /** A log within the bound is not trimmed, and the newest entry is always the last one kept. */
  lemma TrimmedKeepsNewest<T>(log: seq<T>, x: T)
    ensures |log| <= MaxMetrics ==> Trimmed(log) == log
    ensures Trimmed(log + [x])[|Trimmed(log + [x])| - 1] == x
  {
  }
}

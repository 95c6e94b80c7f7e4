/** `TranscriptSegment`: one caption line with its on-screen interval. Times are the
    seconds of the source's `Double`s, taken as exact reals. */
module Segments {

  datatype TranscriptSegment = TranscriptSegment(text: string, start: real, duration: real) {

    /** `end`: the moment the segment leaves the screen. */
    function End(): real {
      start + duration
    }

    /** `overlapsWith(other)`: each segment starts strictly before the other ends. */
    predicate OverlapsWith(other: TranscriptSegment) {
      start < other.End() && End() > other.start
    }
  }

  /** The end lies `duration` after the start (test: 10.5 + 2.0 ends at 12.5). */
  lemma EndIsStartPlusDuration(s: TranscriptSegment)
    ensures s.End() - s.start == s.duration
    ensures TranscriptSegment("Hello world", 10.5, 2.0).End() == 12.5
  {
  }

  /** Overlapping is symmetric. */
  lemma OverlapSymmetric(a: TranscriptSegment, b: TranscriptSegment)
    ensures a.OverlapsWith(b) <==> b.OverlapsWith(a)
  {
  }

  /** The comparison is strict: a segment that ends exactly when the next starts does not
      overlap it; a segment overlaps itself exactly when its duration is positive. */
  lemma OverlapIsStrict(a: TranscriptSegment, b: TranscriptSegment)
    requires a.End() == b.start
    ensures !a.OverlapsWith(b) && !b.OverlapsWith(a)
    ensures a.OverlapsWith(a) <==> a.duration > 0.0
  {
  }

  /** Instant `t` lies strictly inside the segment's on-screen interval. */
  predicate OnScreen(s: TranscriptSegment, t: real) {
    s.start < t < s.End()
  }

  /** For segments of positive duration, overlapping means that their open on-screen
      intervals share an instant. */
  lemma OverlapMeansSharedInstant(a: TranscriptSegment, b: TranscriptSegment)
    requires a.duration > 0.0 && b.duration > 0.0
    ensures a.OverlapsWith(b) <==> exists t: real :: OnScreen(a, t) && OnScreen(b, t)
  {
    if a.OverlapsWith(b) {
      var lo := if a.start < b.start then b.start else a.start;
      var hi := if a.End() < b.End() then a.End() else b.End();
      var t := (lo + hi) / 2.0;
      assert OnScreen(a, t) && OnScreen(b, t);
    }
  }

  /** The overlap cases of the test suite. */
  lemma OverlapExamples()
    ensures TranscriptSegment("First", 10.0, 5.0).OverlapsWith(TranscriptSegment("Second", 12.0, 3.0))
    ensures TranscriptSegment("Second", 12.0, 3.0).OverlapsWith(TranscriptSegment("First", 10.0, 5.0))
    ensures !TranscriptSegment("First", 10.0, 5.0).OverlapsWith(TranscriptSegment("Third", 20.0, 2.0))
    ensures !TranscriptSegment("Third", 20.0, 2.0).OverlapsWith(TranscriptSegment("First", 10.0, 5.0))
  {
  }
}

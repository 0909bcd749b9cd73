/**
 * `ContextSnapshot`: what a tracing context hands to another thread. It is
 * written once at capture and never changed; its correlation data is a copy
 * of the capturing context's map, so it is held here as a map value.
 */
module Snapshots {
  import opened Wrappers
  import opened JavaText

  datatype ContextSnapshot = ContextSnapshot(
    traceSegmentId: Option<string>,
    spanId: Int32,
    traceId: Option<string>,
    parentEndpoint: Option<string>,
    correlation: map<string, string>)
  {
    /** `isValid()`: a segment id, a span id above -1 and a trace id. */
    predicate IsValid(): (b: bool)
      ensures b ==> IsFromCurrent(traceSegmentId) && spanId >= 0 && traceId.Some?
      ensures traceSegmentId.Some? && spanId >= 0 && traceId.Some? ==> b
    {
      traceSegmentId.Some? && spanId > -1 && traceId.Some?
    }

    /**
     * `isFromCurrent()`, given the segment id of the context current on this
     * thread (None when it has none): false without a segment id of its own,
     * otherwise whether the two ids are equal.
     */
    predicate IsFromCurrent(currentSegmentId: Option<string>)
      ensures IsFromCurrent(currentSegmentId) ==> traceSegmentId.Some? && traceSegmentId == currentSegmentId
      ensures traceSegmentId.Some? && traceSegmentId == currentSegmentId ==> IsFromCurrent(currentSegmentId)
    {
      match traceSegmentId
      case None => false
      case Some(id) => currentSegmentId == Some(id)
    }
  }

  /**
   * The constructor: the ids and endpoint are stored as given and the
   * correlation data is copied.
   */
  function Capture(traceSegmentId: Option<string>, spanId: Int32, traceId: Option<string>,
                   parentEndpoint: Option<string>, correlation: map<string, string>): (s: ContextSnapshot)
    ensures s.traceSegmentId == traceSegmentId && s.spanId == spanId
    ensures s.traceId == traceId && s.parentEndpoint == parentEndpoint
    ensures s.correlation == correlation
  {
    ContextSnapshot(traceSegmentId, spanId, traceId, parentEndpoint, correlation)
  }

  /** A snapshot taken from a context with no segment id is never from the current context. */
  lemma NoSegmentNeverCurrent(s: ContextSnapshot, current: Option<string>)
    requires s.traceSegmentId.None?
    ensures !s.IsFromCurrent(current) && !s.IsValid()
  {
  }
}

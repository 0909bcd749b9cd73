/**
 * `TraceSegmentRef`: the causal edge from a segment to its parent, built from
 * a carrier (another process) or a snapshot (another thread), with the wire
 * record it is reported as. Equality and hash look only at the parent
 * segment id and span id.
 */
module SegmentRefs {
  import opened Wrappers
  import opened JavaText
  import Carrier
  import Snapshots

  datatype SegmentRefType = CrossProcess | CrossThread

  datatype TraceSegmentRef = TraceSegmentRef(
    refType: SegmentRefType,
    traceId: Option<string>,
    traceSegmentId: Option<string>,
    spanId: Int32,
    parentService: Option<string>,
    parentServiceInstance: Option<string>,
    parentEndpoint: Option<string>,
    addressUsedAtClient: Option<string>)

  /** `RefType` of the reporting protocol. */
  datatype RefType = RefCrossProcess | RefCrossThread

  /** The `SegmentReference` record; a string field never set reads as "". */
  datatype SegmentReference = SegmentReference(
    refType: RefType,
    traceId: string,
    parentTraceSegmentId: string,
    parentSpanId: Int32,
    parentService: string,
    parentServiceInstance: string,
    parentEndpoint: string,
    networkAddressUsedAtPeer: string)

  /** `new TraceSegmentRef(carrier)`: a cross-process edge holding the carrier's seven fields as they are. */
  function FromCarrier(carrier: Carrier.ContextCarrier): (r: TraceSegmentRef)
    reads carrier
    ensures r.refType == CrossProcess
    ensures Carrier.CarrierFields(r.traceId, r.traceSegmentId, r.spanId, r.parentService,
              r.parentServiceInstance, r.parentEndpoint, r.addressUsedAtClient) == carrier.Fields()
  {
    TraceSegmentRef(CrossProcess, carrier.traceId, carrier.traceSegmentId, carrier.spanId,
      carrier.parentService, carrier.parentServiceInstance, carrier.parentEndpoint, carrier.addressUsedAtClient)
  }

  /**
   * `new TraceSegmentRef(snapshot)`: a cross-thread edge whose ids and endpoint
   * come from the snapshot, whose parent service and instance are this agent's
   * configured names, and which has no client address. The snapshot's trace
   * id is dereferenced, so it must be present.
   */
  function FromSnapshot(snapshot: Snapshots.ContextSnapshot, serviceName: Option<string>, instanceName: Option<string>): (r: TraceSegmentRef)
    requires snapshot.traceId.Some?
    ensures r.refType == CrossThread && r.addressUsedAtClient.None?
    ensures r.traceId == snapshot.traceId && r.traceSegmentId == snapshot.traceSegmentId
    ensures r.spanId == snapshot.spanId && r.parentEndpoint == snapshot.parentEndpoint
    ensures r.parentService == serviceName && r.parentServiceInstance == instanceName
  {
    TraceSegmentRef(CrossThread, snapshot.traceId, snapshot.traceSegmentId, snapshot.spanId,
      serviceName, instanceName, snapshot.parentEndpoint, None)
  }

  /** The protocol builder refuses null for every field `transform` always sets. */
  predicate Transformable(ref: TraceSegmentRef) {
    ref.traceId.Some? && ref.traceSegmentId.Some? && ref.parentService.Some? &&
    ref.parentServiceInstance.Some? && ref.parentEndpoint.Some?
  }

  /**
   * `transform()`: CrossProcess exactly for a cross-process edge, the six
   * identity fields copied, and the peer address set only when the client
   * address is present.
   */
  function Transform(ref: TraceSegmentRef): (r: SegmentReference)
    requires Transformable(ref)
    ensures r.refType == RefCrossProcess <==> ref.refType == CrossProcess
    ensures Some(r.traceId) == ref.traceId && Some(r.parentTraceSegmentId) == ref.traceSegmentId
    ensures r.parentSpanId == ref.spanId && Some(r.parentEndpoint) == ref.parentEndpoint
    ensures Some(r.parentService) == ref.parentService && Some(r.parentServiceInstance) == ref.parentServiceInstance
    ensures ref.addressUsedAtClient.Some? ==> r.networkAddressUsedAtPeer == ref.addressUsedAtClient.value
    ensures ref.addressUsedAtClient.None? ==> r.networkAddressUsedAtPeer == ""
  {
    SegmentReference(
      if ref.refType == CrossProcess then RefCrossProcess else RefCrossThread,
      ref.traceId.value, ref.traceSegmentId.value, ref.spanId,
      ref.parentService.value, ref.parentServiceInstance.value, ref.parentEndpoint.value,
      if ref.addressUsedAtClient.Some? then ref.addressUsedAtClient.value else "")
  }

  /** A cross-thread edge is reported without a peer address. */
  lemma SnapshotRefHasNoPeer(snapshot: Snapshots.ContextSnapshot, serviceName: Option<string>, instanceName: Option<string>)
    requires snapshot.traceId.Some? && Transformable(FromSnapshot(snapshot, serviceName, instanceName))
    ensures Transform(FromSnapshot(snapshot, serviceName, instanceName)).refType == RefCrossThread
    ensures Transform(FromSnapshot(snapshot, serviceName, instanceName)).networkAddressUsedAtPeer == ""
  {
  }

  /**
   * `equals(o)`: different span ids are unequal; otherwise the segment id is
   * dereferenced and compared, so it must be present.
   */
  predicate Equals(a: TraceSegmentRef, b: TraceSegmentRef): (r: bool)
    requires a.spanId != b.spanId || a.traceSegmentId.Some?
    ensures a == b ==> r
    ensures a.spanId != b.spanId ==> !r
    ensures r ==> a.traceSegmentId == b.traceSegmentId
    ensures r && a.traceSegmentId.Some? ==> HashCode(a) == HashCode(b)
  {
    a.spanId == b.spanId && a.traceSegmentId == b.traceSegmentId
  }

  /** `hashCode()`: 31 times the segment id's string hash plus the span id, in `int` arithmetic. */
  function HashCode(ref: TraceSegmentRef): (h: Int32)
    requires ref.traceSegmentId.Some?
    ensures (h - (31 * StringHash(ref.traceSegmentId.value) + ref.spanId)) % 0x1_0000_0000 == 0
  {
    Wrap32(31 * StringHash(ref.traceSegmentId.value) + ref.spanId)
  }

  /** Equality ignores the kind of edge, the trace id, the parents' names, the endpoint and the address. */
  lemma EqualsOnlyIds(a: TraceSegmentRef, b: TraceSegmentRef)
    requires a.traceSegmentId.Some?
    ensures Equals(a, b) <==> a.spanId == b.spanId && a.traceSegmentId == b.traceSegmentId
    ensures Equals(a, a.(refType := b.refType, traceId := b.traceId, parentService := b.parentService,
                          parentServiceInstance := b.parentServiceInstance, parentEndpoint := b.parentEndpoint,
                          addressUsedAtClient := b.addressUsedAtClient))
  {
  }

  /** Equality is an equivalence on refs that have a segment id, and equal refs hash alike. */
  lemma EqualsIsEquivalence(a: TraceSegmentRef, b: TraceSegmentRef, c: TraceSegmentRef)
    requires a.traceSegmentId.Some? && b.traceSegmentId.Some? && c.traceSegmentId.Some?
    ensures Equals(a, a)
    ensures Equals(a, b) ==> Equals(b, a)
    ensures Equals(a, b) && Equals(b, c) ==> Equals(a, c)
    ensures Equals(a, b) ==> HashCode(a) == HashCode(b)
  {
  }

  /** A cross-process and a cross-thread edge to the same parent span are equal. */
  lemma CarrierAndSnapshotRefsAgree(carrier: Carrier.ContextCarrier, snapshot: Snapshots.ContextSnapshot,
                                    serviceName: Option<string>, instanceName: Option<string>)
    requires snapshot.traceId.Some? && carrier.traceSegmentId.Some?
    requires carrier.traceSegmentId == snapshot.traceSegmentId && carrier.spanId == snapshot.spanId
    ensures FromCarrier(carrier).refType != FromSnapshot(snapshot, serviceName, instanceName).refType
    ensures Equals(FromCarrier(carrier), FromSnapshot(snapshot, serviceName, instanceName))
  {
  }
}

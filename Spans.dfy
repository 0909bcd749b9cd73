/** The layer a span belongs to, each with its fixed wire code. */
module SpanLayers {
  import opened Wrappers

  datatype SpanLayer = Db | RpcFramework | Http | Mq | Cache {
    /** `getCode()`: DB 1, RPC_FRAMEWORK 2, HTTP 3, MQ 4, CACHE 5. */
    function Code(): (code: int)
      ensures 1 <= code <= 5
    {
      match this
      case Db => 1
      case RpcFramework => 2
      case Http => 3
      case Mq => 4
      case Cache => 5
    }
  }

  /** The layer with a given code, if any: the inverse of `Code`. */
  function OfCode(code: int): (layer: Option<SpanLayer>)
    ensures layer.Some? <==> 1 <= code <= 5
    ensures layer.Some? ==> layer.value.Code() == code
  {
    if code == 1 then Some(Db)
    else if code == 2 then Some(RpcFramework)
    else if code == 3 then Some(Http)
    else if code == 4 then Some(Mq)
    else if code == 5 then Some(Cache)
    else None
  }

  /** Codes identify layers: reading a layer back from its code gives the layer. */
  lemma CodeInjective(a: SpanLayer, b: SpanLayer)
    ensures OfCode(a.Code()) == Some(a)
    ensures a.Code() == b.Code() ==> a == b
  {
  }
}

/**
 * The part of a span the propagation layer touches: its ids, operation name,
 * layer and tags, and the `LocalSpan` variant. Entry and exit spans are only
 * distinguished by their kind here.
 */
module Spans {
  import opened Wrappers
  import opened JavaText
  import opened SpanLayers
  import Tags

  datatype SpanKind = Entry | Local | Exit

  class Span {
    const spanId: Int32
    const parentSpanId: Int32
    const kind: SpanKind
    var operationName: string
    var layer: Option<SpanLayer>
    var tags: seq<(Tags.StringTag, string)>

    /** `new LocalSpan(spanId, parentSpanId, operationName, owner)`: the ids and name go to the span unchanged. */
    constructor Local(spanId: Int32, parentSpanId: Int32, operationName: string)
      ensures this.spanId == spanId && this.parentSpanId == parentSpanId
      ensures this.operationName == operationName && kind == SpanKind.Local
      ensures layer.None? && tags == []
    {
      this.spanId := spanId;
      this.parentSpanId := parentSpanId;
      this.operationName := operationName;
      this.kind := SpanKind.Local;
      this.layer := None;
      this.tags := [];
    }

    /** `isEntry()`: never true of a local span. */
    predicate IsEntry()
      ensures kind == SpanKind.Local ==> !IsEntry()
    {
      kind == Entry
    }

    /** `isExit()`: never true of a local span. */
    predicate IsExit()
      ensures kind == SpanKind.Local ==> !IsExit()
    {
      kind == Exit
    }

    /** `LocalSpan.setPeer(remotePeer)`: the peer of a local span is this process, so nothing is recorded. */
    method SetPeer(remotePeer: string) returns (r: Span)
      requires kind == SpanKind.Local
      ensures r == this
    {
      r := this;
    }

    /** `setLayer(layer)`: only the layer changes. */
    method SetLayer(l: SpanLayer) returns (r: Span)
      modifies this
      ensures r == this && layer == Some(l)
      ensures operationName == old(operationName) && tags == old(tags)
    {
      layer := Some(l);
      r := this;
    }

    /** `tag(tag, value)`: appends the tag and its value. */
    method Tag(tag: Tags.StringTag, value: string) returns (r: Span)
      modifies this
      ensures r == this && tags == old(tags) + [(tag, value)]
      ensures operationName == old(operationName) && layer == old(layer)
    {
      tags := tags + [(tag, value)];
      r := this;
    }
  }

  /** `SpanLayer.asDB(span)`. */
  method AsDb(span: Span)
    modifies span
    ensures span.layer == Some(Db)
    ensures span.operationName == old(span.operationName) && span.tags == old(span.tags)
  {
    var _ := span.SetLayer(Db);
  }

  /** `SpanLayer.asCache(span)`. */
  method AsCache(span: Span)
    modifies span
    ensures span.layer == Some(Cache)
    ensures span.operationName == old(span.operationName) && span.tags == old(span.tags)
  {
    var _ := span.SetLayer(Cache);
  }

  /** `SpanLayer.asRPCFramework(span)`. */
  method AsRpcFramework(span: Span)
    modifies span
    ensures span.layer == Some(RpcFramework)
    ensures span.operationName == old(span.operationName) && span.tags == old(span.tags)
  {
    var _ := span.SetLayer(RpcFramework);
  }

  /** `SpanLayer.asHttp(span)`. */
  method AsHttp(span: Span)
    modifies span
    ensures span.layer == Some(Http)
    ensures span.operationName == old(span.operationName) && span.tags == old(span.tags)
  {
    var _ := span.SetLayer(Http);
  }

  /** `SpanLayer.asMQ(span)`. */
  method AsMq(span: Span)
    modifies span
    ensures span.layer == Some(Mq)
    ensures span.operationName == old(span.operationName) && span.tags == old(span.tags)
  {
    var _ := span.SetLayer(Mq);
  }
}

/**
 * The chain of header items a carrier offers to a plugin: a head, the core
 * `sw8` item, the `sw8-correlation` item and the extension item. Only the
 * correlation item's behaviour is modelled; the others are chain links.
 */
module CarrierItems {
  import opened Wrappers
  import Correlation

  /** `SW8CorrelationCarrierItem.HEADER_NAME`. */
  const CorrelationHeaderName: string := "sw8-correlation"

  datatype CarrierItem =
    | End
    | Head(next: CarrierItem)
    | Sw8(next: CarrierItem)
    | Sw8Correlation(item: SW8CorrelationCarrierItem)
    | Sw8Extension(next: CarrierItem)

  /** The `sw8-correlation` header item over one correlation context. */
  class SW8CorrelationCarrierItem {
    const headKey: string
    /** The header value, serialised once when the item is made. */
    const headValue: string
    const next: CarrierItem
    const correlationContext: Correlation.CorrelationContext

    /**
     * `new SW8CorrelationCarrierItem(correlationContext, next)`, given the
     * context's iteration order: the value is the context serialised now,
     * and `next` is kept as given.
     */
    constructor (correlationContext: Correlation.CorrelationContext, next: CarrierItem, order: seq<string>)
      requires Correlation.Enumerates(order, correlationContext.data)
      ensures headKey == CorrelationHeaderName && this.next == next
      ensures this.correlationContext == correlationContext
      ensures headValue == Correlation.SerializeMap(correlationContext.data, order)
      ensures headValue == "" <==> |correlationContext.data| == 0
    {
      headKey := CorrelationHeaderName;
      headValue := correlationContext.Serialize(order);
      this.next := next;
      this.correlationContext := correlationContext;
    }

    /** `setHeadValue(headValue)`: deserialises the value into the wrapped context, and does nothing else. */
    method SetHeadValue(value: Option<string>) returns (completed: bool)
      modifies correlationContext
      ensures Correlation.Loaded(correlationContext.data, completed)
              == Correlation.DeserializeInto(old(correlationContext.data), value, correlationContext.maxElements)
    {
      completed := correlationContext.Deserialize(value);
    }
  }
}

/**
 * `ContextCarrier`: the seven identity fields that cross a process boundary
 * in the `sw8` header, their validity rule, the header they serialise to and
 * the forgiving parser that reads it back.
 */
module Carrier {
  import opened Wrappers
  import opened JavaText
  import Base64
  import Correlation
  import CarrierItems
  import Spans

  /** The identity fields of a carrier; None stands for a null string. */
  datatype CarrierFields = CarrierFields(
    traceId: Option<string>,
    traceSegmentId: Option<string>,
    spanId: Int32,
    parentService: Option<string>,
    parentServiceInstance: Option<string>,
    parentEndpoint: Option<string>,
    addressUsedAtClient: Option<string>)

  /** The fields of a new carrier: span id -1, empty parent service and instance, the rest null. */
  const Initial: CarrierFields := CarrierFields(None, None, -1, Some(""), Some(""), None, None)

  /** The string field that header part `j` carries (part 3 is the span id, part 0 the sample flag). */
  function StringField(f: CarrierFields, j: nat): Option<string>
    requires 1 <= j < 8 && j != 3
  {
    match j
    case 1 => f.traceId
    case 2 => f.traceSegmentId
    case 4 => f.parentService
    case 5 => f.parentServiceInstance
    case 6 => f.parentEndpoint
    case 7 => f.addressUsedAtClient
  }

  /** `isValid(v3)`: every string field non-null and non-empty, and a span id of at least 0. */
  predicate Valid(f: CarrierFields): (b: bool)
    ensures b <==> f.spanId >= 0 && forall j | 1 <= j < 8 && j != 3 :: !IsEmpty(StringField(f, j))
  {
    assert StringField(f, 1) == f.traceId && StringField(f, 2) == f.traceSegmentId;
    assert StringField(f, 4) == f.parentService && StringField(f, 5) == f.parentServiceInstance;
    assert StringField(f, 6) == f.parentEndpoint && StringField(f, 7) == f.addressUsedAtClient;
    !IsEmpty(f.traceId) && !IsEmpty(f.traceSegmentId) && f.spanId >= 0 &&
    !IsEmpty(f.parentService) && !IsEmpty(f.parentServiceInstance) &&
    !IsEmpty(f.parentEndpoint) && !IsEmpty(f.addressUsedAtClient)
  }

  /** A new carrier is not valid. */
  lemma InitialInvalid()
    ensures !Valid(Initial)
  {
  }

  /** The eight parts of the header of a valid carrier: "1", six encoded strings and the decimal span id third. */
  function HeaderParts(f: CarrierFields): (parts: seq<string>)
    requires Valid(f)
    ensures |parts| == 8 && parts[0] == "1" && parts[7] != ""
    ensures forall i | 0 <= i < 8 :: '-' !in parts[i]
  {
    var p1, p2 := Base64.Encode(f.traceId.value), Base64.Encode(f.traceSegmentId.value);
    var p3 := Decimal(f.spanId);
    var p4, p5 := Base64.Encode(f.parentService.value), Base64.Encode(f.parentServiceInstance.value);
    var p6, p7 := Base64.Encode(f.parentEndpoint.value), Base64.Encode(f.addressUsedAtClient.value);
    assert '-' !in p3;
    NoDashParts(p1, p2, p3, p4, p5, p6, p7);
    ["1", p1, p2, p3, p4, p5, p6, p7]
  }

  lemma NoDashParts(p1: string, p2: string, p3: string, p4: string, p5: string, p6: string, p7: string)
    requires '-' !in p1 && '-' !in p2 && '-' !in p3 && '-' !in p4 && '-' !in p5 && '-' !in p6 && '-' !in p7
    ensures forall i | 0 <= i < 8 :: '-' !in ["1", p1, p2, p3, p4, p5, p6, p7][i]
  {
  }

  /** `serialize(v3)`: the parts joined with `-` for a valid carrier, "" otherwise. */
  function Header(f: CarrierFields): (s: string)
    ensures s == "" <==> !Valid(f)
  {
    if Valid(f) then
      var parts := HeaderParts(f);
      assert |Join(parts, '-')| >= |parts[0]|;
      Join(parts, '-')
    else ""
  }

  /** Whether part `i` of a header reads: part 3 as an `int`, the others as base64. */
  predicate PartDecodes(parts: seq<string>, i: nat)
    requires |parts| == 8 && 1 <= i < 8
  {
    if i == 3 then ParseInt(parts[3]).Some? else Base64.Decode(parts[i]).Some?
  }

  /** The first part from `i` on that does not read, or 8 when all of them do. */
  function FirstFailure(parts: seq<string>, i: nat): (n: nat)
    requires |parts| == 8 && 1 <= i <= 8
    ensures i <= n <= 8
    ensures forall j | i <= j < n :: PartDecodes(parts, j)
    ensures n < 8 ==> !PartDecodes(parts, n)
    decreases 8 - i
  {
    if i == 8 then 8 else if !PartDecodes(parts, i) then i else FirstFailure(parts, i + 1)
  }

  /** The fields after parts 1 to `n - 1` of the header have been read into `f`. */
  function Assign(f: CarrierFields, parts: seq<string>, n: nat): (r: CarrierFields)
    requires |parts| == 8 && 1 <= n <= 8
    requires n > 3 ==> PartDecodes(parts, 3)
    ensures forall j | 1 <= j < n && j != 3 :: StringField(r, j) == Base64.Decode(parts[j])
    ensures forall j | n <= j < 8 && j != 3 :: StringField(r, j) == StringField(f, j)
    ensures r.spanId == if n > 3 then ParseInt(parts[3]).value else f.spanId
  {
    CarrierFields(
      if n > 1 then Base64.Decode(parts[1]) else f.traceId,
      if n > 2 then Base64.Decode(parts[2]) else f.traceSegmentId,
      if n > 3 then ParseInt(parts[3]).value else f.spanId,
      if n > 4 then Base64.Decode(parts[4]) else f.parentService,
      if n > 5 then Base64.Decode(parts[5]) else f.parentServiceInstance,
      if n > 6 then Base64.Decode(parts[6]) else f.parentEndpoint,
      if n > 7 then Base64.Decode(parts[7]) else f.addressUsedAtClient)
  }

  /**
   * The fields `deserialize(text, v3)` leaves: nothing changes for null text or
   * text that does not split into 8 parts at `-`; otherwise the parts are read
   * in order and the first one that does not read ends the update silently.
   */
  function ApplyHeader(f: CarrierFields, text: Option<string>): (g: CarrierFields)
    ensures text.None? ==> g == f
    ensures text.Some? && Occurrences(text.value, '-') < 7 ==> g == f
    ensures forall j | 1 <= j < 8 && j != 3 :: StringField(g, j) == StringField(f, j) || StringField(g, j).Some?
  {
    if text.None? then f
    else
      var parts := SplitLimit(text.value, '-', 8);
      if |parts| != 8 then f
      else
        ReadFieldsPresent(f, parts);
        Assign(f, parts, FirstFailure(parts, 1))
  }

  /** Every string field that reading a header stores is a decoded, non-null string. */
  lemma ReadFieldsPresent(f: CarrierFields, parts: seq<string>)
    requires |parts| == 8
    ensures var g := Assign(f, parts, FirstFailure(parts, 1));
      forall j | 1 <= j < 8 && j != 3 :: StringField(g, j) == StringField(f, j) || StringField(g, j).Some?
  {
    var n := FirstFailure(parts, 1);
    var g := Assign(f, parts, n);
    forall j | 1 <= j < 8 && j != 3
      ensures StringField(g, j) == StringField(f, j) || StringField(g, j).Some?
    {
      if j < n {
        assert PartDecodes(parts, j);
      }
    }
  }

  /** Text with fewer than seven dashes leaves every field as it was. */
  lemma ShortHeaderIgnored(f: CarrierFields, text: string)
    requires Occurrences(text, '-') < 7
    ensures ApplyHeader(f, Some(text)) == f
  {
  }

  /**
   * When part `k` is the first that does not read, parts 1 to `k - 1` are
   * stored and the fields of parts `k` to 7 keep their values.
   */
  lemma PartialHeader(f: CarrierFields, text: string, k: nat)
    requires |SplitLimit(text, '-', 8)| == 8 && 1 <= k < 8
    requires forall j | 1 <= j < k :: PartDecodes(SplitLimit(text, '-', 8), j)
    requires !PartDecodes(SplitLimit(text, '-', 8), k)
    ensures ApplyHeader(f, Some(text)) == Assign(f, SplitLimit(text, '-', 8), k)
    ensures k <= 1 ==> ApplyHeader(f, Some(text)) == f
  {
    var parts := SplitLimit(text, '-', 8);
    FirstFailureAt(parts, 1, k);
    assert ApplyHeader(f, Some(text)) == Assign(f, parts, k);
  }

  /** The first failure from `i` on is `k` when parts `i` to `k - 1` read and part `k` does not. */
  lemma {:induction false} FirstFailureAt(parts: seq<string>, i: nat, k: nat)
    requires |parts| == 8 && 1 <= i <= k <= 8
    requires forall j | i <= j < k :: PartDecodes(parts, j)
    requires k < 8 ==> !PartDecodes(parts, k)
    ensures FirstFailure(parts, i) == k
    decreases k - i
  {
    if i < k {
      FirstFailureAt(parts, i + 1, k);
    }
  }

  /** An encoded non-null string decodes back to itself. */
  lemma EncodedFieldDecodes(x: Option<string>)
    requires x.Some?
    ensures Base64.Decode(Base64.Encode(x.value)) == x
  {
    Base64.DecodeEncode(x.value);
  }

  /** Every part of the header of a valid carrier reads back to the field it was made from. */
  lemma HeaderPartsDecode(f: CarrierFields)
    requires Valid(f)
    ensures var parts := HeaderParts(f);
      Base64.Decode(parts[1]) == f.traceId && Base64.Decode(parts[2]) == f.traceSegmentId &&
      ParseInt(parts[3]) == Some(f.spanId) &&
      Base64.Decode(parts[4]) == f.parentService && Base64.Decode(parts[5]) == f.parentServiceInstance &&
      Base64.Decode(parts[6]) == f.parentEndpoint && Base64.Decode(parts[7]) == f.addressUsedAtClient
  {
    IdPartsDecode(f);
    NamePartsDecode(f);
  }

  lemma IdPartsDecode(f: CarrierFields)
    requires Valid(f)
    ensures var parts := HeaderParts(f);
      Base64.Decode(parts[1]) == f.traceId && Base64.Decode(parts[2]) == f.traceSegmentId &&
      ParseInt(parts[3]) == Some(f.spanId)
  {
    var parts := HeaderParts(f);
    assert parts[1] == Base64.Encode(f.traceId.value) && parts[2] == Base64.Encode(f.traceSegmentId.value);
    EncodedFieldDecodes(f.traceId);
    EncodedFieldDecodes(f.traceSegmentId);
    SpanIdPartReads(f);
  }

  lemma SpanIdPartReads(f: CarrierFields)
    requires Valid(f)
    ensures ParseInt(HeaderParts(f)[3]) == Some(f.spanId)
  {
    var n: nat := f.spanId;
    assert HeaderParts(f)[3] == Decimal(n);
    ParseIntDecimal(n);
  }

  lemma NamePartsDecode(f: CarrierFields)
    requires Valid(f)
    ensures var parts := HeaderParts(f);
      Base64.Decode(parts[4]) == f.parentService && Base64.Decode(parts[5]) == f.parentServiceInstance &&
      Base64.Decode(parts[6]) == f.parentEndpoint && Base64.Decode(parts[7]) == f.addressUsedAtClient
  {
    var parts := HeaderParts(f);
    assert parts[4] == Base64.Encode(f.parentService.value) && parts[5] == Base64.Encode(f.parentServiceInstance.value);
    assert parts[6] == Base64.Encode(f.parentEndpoint.value) && parts[7] == Base64.Encode(f.addressUsedAtClient.value);
    EncodedFieldDecodes(f.parentService);
    EncodedFieldDecodes(f.parentServiceInstance);
    EncodedFieldDecodes(f.parentEndpoint);
    EncodedFieldDecodes(f.addressUsedAtClient);
  }

  /** The header of a valid carrier splits back into its eight parts. */
  lemma HeaderSplits(f: CarrierFields)
    requires Valid(f)
    ensures SplitLimit(Header(f), '-', 8) == HeaderParts(f)
  {
    SplitLimitJoin(HeaderParts(f), '-');
  }

  /** All seven parts of the header of a valid carrier read, and reading them all gives its fields. */
  lemma HeaderPartsRead(f: CarrierFields, g: CarrierFields)
    requires Valid(f)
    ensures FirstFailure(HeaderParts(f), 1) == 8
    ensures Assign(g, HeaderParts(f), 8) == f
  {
    var parts := HeaderParts(f);
    HeaderPartsDecode(f);
    assert PartDecodes(parts, 1) && PartDecodes(parts, 2) && PartDecodes(parts, 3) && PartDecodes(parts, 4);
    assert PartDecodes(parts, 5) && PartDecodes(parts, 6) && PartDecodes(parts, 7);
  }

  /** Round trip: reading the header of a valid carrier into any carrier gives the valid carrier's fields. */
  lemma HeaderRoundTrip(f: CarrierFields, g: CarrierFields)
    requires Valid(f)
    ensures ApplyHeader(g, Some(Header(f))) == f
    ensures Valid(ApplyHeader(g, Some(Header(f))))
  {
    HeaderSplits(f);
    HeaderPartsRead(f, g);
  }

  class ContextCarrier {
    var traceId: Option<string>
    var traceSegmentId: Option<string>
    var spanId: Int32
    var parentService: Option<string>
    var parentServiceInstance: Option<string>
    var parentEndpoint: Option<string>
    var addressUsedAtClient: Option<string>
    const correlationContext: Correlation.CorrelationContext

    /** `new ContextCarrier()`, with the configured correlation caps and auto-tag keys. */
    constructor (maxElements: nat, maxValueLength: nat, autoTagKeys: seq<string>)
      ensures Fields() == Initial && !IsValid()
      ensures fresh(correlationContext) && correlationContext.data == map[]
      ensures correlationContext.maxElements == maxElements && correlationContext.maxValueLength == maxValueLength
      ensures correlationContext.autoTagKeys == autoTagKeys
    {
      traceId := None;
      traceSegmentId := None;
      spanId := -1;
      parentService := Some("");
      parentServiceInstance := Some("");
      parentEndpoint := None;
      addressUsedAtClient := None;
      correlationContext := new Correlation.CorrelationContext(maxElements, maxValueLength, autoTagKeys);
    }

    function Fields(): CarrierFields
      reads this
    {
      CarrierFields(traceId, traceSegmentId, spanId, parentService, parentServiceInstance, parentEndpoint, addressUsedAtClient)
    }

    /** `isValid()`: exactly when the carrier has a header to send. */
    predicate IsValid(): (b: bool)
      reads this
      ensures b <==> Header(Fields()) != ""
    {
      Valid(Fields())
    }

    /** `serialize(v3)`. */
    function Serialize(): (s: string)
      reads this
      ensures s == "" <==> !IsValid()
    {
      Header(Fields())
    }

    /**
     * `deserialize(text, v3)`: reads the fields one after another and stops
     * silently at the first part that does not decode; returns this carrier.
     */
    method Deserialize(text: Option<string>) returns (r: ContextCarrier)
      modifies this
      ensures r == this
      ensures Fields() == ApplyHeader(old(Fields()), text)
    {
      r := this;
      if text.None? {
        return;
      }
      var parts := SplitLimit(text.value, '-', 8);
      if |parts| != 8 {
        return;
      }
      ReadParts(parts);
    }

    /** The body of `deserialize` once the text split into eight parts: the fields in order, up to the first failure. */
    method ReadParts(parts: seq<string>)
      requires |parts| == 8
      modifies this
      ensures Fields() == Assign(old(Fields()), parts, FirstFailure(parts, 1))
    {
      ghost var f0 := Fields();
      assert Fields() == Assign(f0, parts, 1);
      var decoded := Base64.Decode(parts[1]);
      if decoded.None? {
        assert FirstFailure(parts, 1) == 1;
        return;
      }
      traceId := decoded;
      assert FirstFailure(parts, 1) == FirstFailure(parts, 2);
      assert Fields() == Assign(f0, parts, 2);
      decoded := Base64.Decode(parts[2]);
      if decoded.None? {
        assert FirstFailure(parts, 2) == 2;
        return;
      }
      traceSegmentId := decoded;
      assert FirstFailure(parts, 2) == FirstFailure(parts, 3);
      assert Fields() == Assign(f0, parts, 3);
      var id := ParseInt(parts[3]);
      if id.None? {
        assert FirstFailure(parts, 3) == 3;
        return;
      }
      spanId := id.value;
      assert FirstFailure(parts, 3) == FirstFailure(parts, 4);
      assert Fields() == Assign(f0, parts, 4);
      decoded := Base64.Decode(parts[4]);
      if decoded.None? {
        assert FirstFailure(parts, 4) == 4;
        return;
      }
      parentService := decoded;
      assert FirstFailure(parts, 4) == FirstFailure(parts, 5);
      assert Fields() == Assign(f0, parts, 5);
      decoded := Base64.Decode(parts[5]);
      if decoded.None? {
        assert FirstFailure(parts, 5) == 5;
        return;
      }
      parentServiceInstance := decoded;
      assert FirstFailure(parts, 5) == FirstFailure(parts, 6);
      assert Fields() == Assign(f0, parts, 6);
      decoded := Base64.Decode(parts[6]);
      if decoded.None? {
        assert FirstFailure(parts, 6) == 6;
        return;
      }
      parentEndpoint := decoded;
      assert FirstFailure(parts, 6) == FirstFailure(parts, 7);
      assert Fields() == Assign(f0, parts, 7);
      decoded := Base64.Decode(parts[7]);
      if decoded.None? {
        assert FirstFailure(parts, 7) == 7;
        return;
      }
      addressUsedAtClient := decoded;
      assert FirstFailure(parts, 7) == FirstFailure(parts, 8);
      assert Fields() == Assign(f0, parts, 8);
      assert FirstFailure(parts, 8) == 8;
    }

    /**
     * `items()`: a head, then the `sw8` item, then the correlation item over
     * this carrier's correlation context (serialised now), then the extension
     * item, then the end.
     */
    method Items(order: seq<string>) returns (head: CarrierItems.CarrierItem)
      requires Correlation.Enumerates(order, correlationContext.data)
      ensures head.Head? && head.next.Sw8? && head.next.next.Sw8Correlation?
      ensures var item := head.next.next.item;
        fresh(item) && item.correlationContext == correlationContext &&
        item.headKey == CarrierItems.CorrelationHeaderName &&
        item.headValue == Correlation.SerializeMap(correlationContext.data, order) &&
        item.next == CarrierItems.Sw8Extension(CarrierItems.End)
    {
      var extension := CarrierItems.Sw8Extension(CarrierItems.End);
      var correlation := new CarrierItems.SW8CorrelationCarrierItem(correlationContext, extension, order);
      var sw8 := CarrierItems.Sw8(CarrierItems.Sw8Correlation(correlation));
      head := CarrierItems.Head(sw8);
    }

    /**
     * `extractCorrelationTo(tracingContext)`, given that context's correlation
     * context and active span: the carrier's entries are copied in with the cap,
     * then the span is tagged with the carrier's auto-tag entries.
     */
    method ExtractCorrelationTo(target: Correlation.CorrelationContext, activeSpan: Spans.Span, order: seq<string>)
      requires Correlation.Enumerates(order, correlationContext.data)
      modifies target, activeSpan
      ensures target.data == Correlation.CopyBounded(old(target.data), old(correlationContext.data), order, target.maxElements)
      ensures target != correlationContext ==> correlationContext.data == old(correlationContext.data)
      ensures |activeSpan.tags| >= |old(activeSpan.tags)| && activeSpan.tags[..|old(activeSpan.tags)|] == old(activeSpan.tags)
      ensures Correlation.TagPairs(activeSpan.tags[|old(activeSpan.tags)|..])
              == Correlation.AutoTagPairs(correlationContext.autoTagKeys, correlationContext.data)
    {
      target.Extract(correlationContext, order);
      correlationContext.Handle(activeSpan);
    }
  }
}

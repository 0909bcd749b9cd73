# SkyWalking Java agent: propagation core in Dafny

This project models the parts of the SkyWalking Java agent that carry a
trace's identity from one process or thread to the next, and proves
properties of that model:

- **`ContextCarrier`** (module `Carrier`). It holds the seven identity fields
  that travel in the `sw8` header. The module covers their validity rule and
  the `-`-joined header: `"1"`, the base64 trace id, the base64 segment id,
  the decimal span id, then the base64 parent service, instance, endpoint and
  client address. It also covers the forgiving parser, which ignores text that
  does not split into eight parts and silently stops at the first part that
  does not decode. Further members build the carrier-item chain and hand the
  correlation data to a tracing context. The header round trip is proved:
  reading the header of any valid carrier restores its fields exactly.
- **`CorrelationContext`** (module `Correlation`). It is the user key/value
  map with a count cap and a value-length cap. The module covers:
  - `put`, with its null, empty, over-long, overwrite, cap and auto-tag cases;
  - `get`;
  - the `key:value,key:value` base64 serialisation and its lenient reader;
  - `inject`, `extract` (copies up to the cap), `handle` (auto-tags the active
    span), `clone`, `continued` and `equals`.

  Proved: the cap is preserved, and a serialised map read back gives the map.
- **`SW8CorrelationCarrierItem`** (module `CarrierItems`): the `sw8-correlation`
  header item.
- **`ContextSnapshot`** (module `Snapshots`): what a context hands to another
  thread, with `isValid` and `isFromCurrent`.
- **`TraceSegmentRef`** (module `SegmentRefs`). It is the edge to a parent
  segment, built from a carrier or a snapshot. The module covers its
  `transform` to the reported `SegmentReference` record, and its `equals` and
  `hashCode`, which depend only on the parent segment id and span id.
- **`LocalSpan`** and **`SpanLayer`** (modules `Spans` and `SpanLayers`): the
  span operations the correlation context uses, the layer codes 1 to 5, and
  the `as*` setters.
- **`Tags`** (module `Tags`): the predefined tag constants and `ofKey`, which
  caches one `StringTag` per key.
- **`ServiceManager`** (module `Boot`). The module covers how the loaded boot
  services resolve into a table. A default implementor yields. An override
  implementor replaces a default. Two non-default services for one slot throw
  a conflict. Proved, independently of the loop: loading throws exactly when
  two non-default services compete for one slot. Otherwise each slot holds
  its non-default service, or else its first default. The phases run in a
  stable priority order: ascending for prepare and startup, descending for
  shutdown, and table order for onComplete. A failing service does not stop
  the others.

Supporting modules:

- `Wrappers` provides `Option` for Java's null and `Result` for a thrown
  exception.
- `JavaText` provides the Java string behaviour the core relies on:
  - `split` with a limit, and with limit 0, which drops trailing empty strings;
  - `Integer.parseInt`;
  - `String.length` in UTF-16 units;
  - `String.hashCode` with 32-bit wrap-around.
- `Utf8` and `Base64` provide a concrete codec: the alphabet of section 4 of
  RFC 4648 over UTF-8 bytes, with a proved round trip.

The configuration the source reads from static globals (the correlation caps,
`AUTO_TAG_KEYS`, the agent's service and instance names) becomes constructor
or function parameters. The active span of the current context is passed as
a parameter, where `null` means no context is active. Java's
`ConcurrentHashMap` has no fixed iteration order, so the operations that walk
a map take that order as a parameter (`Enumerates(order, m)`).

Where the documentation and the code disagree, the model follows the code:

- `BootService.priority()` is documented as "higher priority starts earlier",
  but `prepare` and `startup` sort ascending. Lower priority therefore starts
  first, and `shutdown` runs from highest to lowest.
- The doc comments of `ContextCarrier.serialize`/`deserialize` speak of `'|'`.
  The code joins and splits on `'-'`.
- `put` and `extract` keep the correlation map within
  `ELEMENT_MAX_NUMBER` entries. `inject` and `continued` use `putAll` without
  a check, so a map can grow past the cap. The model states both behaviours.
- `CorrelationContext.deserialize` does not catch the decoder's
  `IllegalArgumentException`. Entries put before a bad part stay, and the
  exception escapes. The model returns `completed = false` for that case.

## Model

| member | source | states |
|---|---|---|
| JavaText.Utf16Length | apm-sniffer/apm-agent-core/src/main/java/org/apache/skywalking/apm/agent/core/context/CorrelationContext.java:86-88 | the length `put` compares with the value cap counts UTF-16 units: at least one and at most two per character |
| JavaText.Wrap32 | apm-sniffer/apm-agent-core/src/main/java/org/apache/skywalking/apm/agent/core/context/trace/TraceSegmentRef.java:131-136 | `int` arithmetic: the result is in the 32-bit range and congruent to the exact value modulo 2^32 |
| JavaText.SplitLimit | apm-sniffer/apm-agent-core/src/main/java/org/apache/skywalking/apm/agent/core/context/ContextCarrier.java:161-162 | `split("-", 8)`: one part more than the separators, capped at the limit; only the last part may hold the separator; joining the parts gives the text back |
| JavaText.SplitLimitJoin | apm-sniffer/apm-agent-core/src/main/java/org/apache/skywalking/apm/agent/core/context/ContextCarrier.java:136-146 | parts joined with the separator, none but the last holding it, split back with their count as limit into the same parts |
| JavaText.StripTrailingEmpty | apm-sniffer/apm-agent-core/src/main/java/org/apache/skywalking/apm/agent/core/context/CorrelationContext.java:151 | what limit-0 `split` removes: a prefix of the parts whose last part is non-empty, with only empty parts dropped |
| JavaText.Split | apm-sniffer/apm-agent-core/src/main/java/org/apache/skywalking/apm/agent/core/context/CorrelationContext.java:156 | `split(",")` and `split(":")`: no part holds the separator, text without one is its only part, and the parts join back to a prefix of the text followed only by separators (the dropped trailing empties) |
| JavaText.SplitJoin | apm-sniffer/apm-agent-core/src/main/java/org/apache/skywalking/apm/agent/core/context/CorrelationContext.java:137-139 | parts without the separator and with a non-empty last part, joined and split back, are the same parts |
| JavaText.ParseIntDecimal | apm-sniffer/apm-agent-core/src/main/java/org/apache/skywalking/apm/agent/core/context/ContextCarrier.java:167 | `Integer.parseInt` reads a non-negative `int` written in decimal back to the same value |
| JavaText.ParseInt | apm-sniffer/apm-agent-core/src/main/java/org/apache/skywalking/apm/agent/core/context/ContextCarrier.java:167 | `Integer.parseInt`: a result means non-empty text, a negative result needs a leading `-`; one to nine digits, optionally after a sign, always parse to their value |
| JavaText.StringHash | apm-sniffer/apm-agent-core/src/main/java/org/apache/skywalking/apm/agent/core/context/trace/TraceSegmentRef.java:133 | `String.hashCode`: 0 for the empty string, and a single Basic Multilingual Plane character hashes to its code |
| JavaText.StringHashStep | apm-sniffer/apm-agent-core/src/main/java/org/apache/skywalking/apm/agent/core/context/trace/TraceSegmentRef.java:133 | the hash recurrence: appending a character multiplies by 31 and adds its unit, with `int` wrap-around |
| Utf8.Encode | apm-sniffer/apm-agent-core/src/main/java/org/apache/skywalking/apm/agent/core/context/ContextCarrier.java:139-145 | the UTF-8 bytes of a string: between one and four per character |
| Utf8.Decode | apm-sniffer/apm-agent-core/src/main/java/org/apache/skywalking/apm/agent/core/context/ContextCarrier.java:165 | decoding UTF-8 never fails and yields at most one character per byte |
| Utf8.DecodeEncode | apm-sniffer/apm-agent-core/src/main/java/org/apache/skywalking/apm/agent/core/context/ContextCarrier.java:165 | decoding the UTF-8 bytes of any string of Unicode scalar values gives the string back |
| Base64.SextetOf | apm-sniffer/apm-agent-core/src/main/java/org/apache/skywalking/apm/agent/core/context/ContextCarrier.java:165 | an alphabet character's six-bit value maps back to that character |
| Base64.EncodeBytes | apm-sniffer/apm-agent-core/src/main/java/org/apache/skywalking/apm/agent/core/context/ContextCarrier.java:139 | encoded text uses only the alphabet and `=` |
| Base64.EncodedLength | apm-sniffer/apm-agent-core/src/main/java/org/apache/skywalking/apm/agent/core/context/ContextCarrier.java:139 | every started group of three bytes takes four characters |
| Base64.DecodeBytes | apm-sniffer/apm-agent-core/src/main/java/org/apache/skywalking/apm/agent/core/context/ContextCarrier.java:165-172 | text that decodes uses only the alphabet and `=`; anything else is rejected (the `IllegalArgumentException`) |
| Base64.DecodeEncodeBytes | apm-sniffer/apm-agent-core/src/main/java/org/apache/skywalking/apm/agent/core/context/ContextCarrier.java:165 | decoding the encoding of any bytes gives the bytes back |
| Base64.Encode | apm-sniffer/apm-agent-core/src/main/java/org/apache/skywalking/apm/agent/core/context/CorrelationContext.java:138 | `Base64.encode`: empty exactly for empty text, and never holds the `-`, `:` or `,` separators |
| Base64.Decode | apm-sniffer/apm-agent-core/src/main/java/org/apache/skywalking/apm/agent/core/context/CorrelationContext.java:160 | `Base64.decode2UTFString`: text holding a separator never decodes |
| Base64.DecodeEncode | apm-sniffer/apm-agent-core/src/main/java/org/apache/skywalking/apm/agent/core/context/ContextCarrier.java:165-171 | decoding the encoding of any string of Unicode scalar values gives the string back |
| SpanLayers.SpanLayer.Code | apm-sniffer/apm-agent-core/src/main/java/org/apache/skywalking/apm/agent/core/context/trace/SpanLayer.java:28-58 | every layer's code is between 1 and 5 |
| SpanLayers.OfCode | apm-sniffer/apm-agent-core/src/main/java/org/apache/skywalking/apm/agent/core/context/trace/SpanLayer.java:28-44 | a code names a layer exactly when it is 1 to 5, and that layer has the code |
| SpanLayers.CodeInjective | apm-sniffer/apm-agent-core/src/main/java/org/apache/skywalking/apm/agent/core/context/trace/SpanLayer.java:28-44 | distinct layers have distinct codes, and a layer's code names it |
| Spans.Span.Local | apm-sniffer/apm-agent-core/src/main/java/org/apache/skywalking/apm/agent/core/context/trace/LocalSpan.java:29-31 | a local span keeps its ids and operation name, with no layer and no tags |
| Spans.Span.IsEntry | apm-sniffer/apm-agent-core/src/main/java/org/apache/skywalking/apm/agent/core/context/trace/LocalSpan.java:33-37 | a local span is never an entry span |
| Spans.Span.IsExit | apm-sniffer/apm-agent-core/src/main/java/org/apache/skywalking/apm/agent/core/context/trace/LocalSpan.java:39-43 | a local span is never an exit span |
| Spans.Span.SetPeer | apm-sniffer/apm-agent-core/src/main/java/org/apache/skywalking/apm/agent/core/context/trace/LocalSpan.java:45-49 | `setPeer` on a local span changes nothing and returns the span |
| Spans.Span.SetLayer | apm-sniffer/apm-agent-core/src/main/java/org/apache/skywalking/apm/agent/core/context/trace/SpanLayer.java:62-80 | the layer is set; name and tags are unchanged |
| Spans.Span.Tag | apm-sniffer/apm-agent-core/src/main/java/org/apache/skywalking/apm/agent/core/context/CorrelationContext.java:105 | a tag is appended; nothing else changes |
| Spans.AsDb | apm-sniffer/apm-agent-core/src/main/java/org/apache/skywalking/apm/agent/core/context/trace/SpanLayer.java:62-64 | the span's layer becomes DB; name and tags are unchanged |
| Spans.AsCache | apm-sniffer/apm-agent-core/src/main/java/org/apache/skywalking/apm/agent/core/context/trace/SpanLayer.java:66-68 | the span's layer becomes CACHE; name and tags are unchanged |
| Spans.AsRpcFramework | apm-sniffer/apm-agent-core/src/main/java/org/apache/skywalking/apm/agent/core/context/trace/SpanLayer.java:70-72 | the span's layer becomes RPC_FRAMEWORK; name and tags are unchanged |
| Spans.AsHttp | apm-sniffer/apm-agent-core/src/main/java/org/apache/skywalking/apm/agent/core/context/trace/SpanLayer.java:74-76 | the span's layer becomes HTTP; name and tags are unchanged |
| Spans.AsMq | apm-sniffer/apm-agent-core/src/main/java/org/apache/skywalking/apm/agent/core/context/trace/SpanLayer.java:78-80 | the span's layer becomes MQ; name and tags are unchanged |
| Tags.StringTag.constructor | apm-sniffer/apm-agent-core/src/main/java/org/apache/skywalking/apm/agent/core/context/tag/Tags.java:218 | a tag made from a key has that key and no id |
| Tags.SharedIds | apm-sniffer/apm-agent-core/src/main/java/org/apache/skywalking/apm/agent/core/context/tag/Tags.java:43-208 | every id it returns is used by two different entries of the table |
| Tags.PredefinedIdsRepeat | apm-sniffer/apm-agent-core/src/main/java/org/apache/skywalking/apm/agent/core/context/tag/Tags.java:97-172 | ids 15, 16, 17 and 18 each name two different predefined tags |
| Tags.TagRegistry.constructor | apm-sniffer/apm-agent-core/src/main/java/org/apache/skywalking/apm/agent/core/context/tag/Tags.java:34 | the prototype cache starts empty |
| Tags.TagRegistry.OfKey | apm-sniffer/apm-agent-core/src/main/java/org/apache/skywalking/apm/agent/core/context/tag/Tags.java:217-219 | `computeIfAbsent`: a cached key returns its tag with the cache unchanged; a new key gets a fresh tag with that key, added to the cache and nothing else |
| Tags.TagRegistry.OfKeyTwice | apm-sniffer/apm-agent-core/src/main/java/org/apache/skywalking/apm/agent/core/context/tag/Tags.java:217-219 | two lookups of one key return the same tag object |
| Snapshots.ContextSnapshot.IsFromCurrent | apm-sniffer/apm-agent-core/src/main/java/org/apache/skywalking/apm/agent/core/context/ContextSnapshot.java:76-78 | true exactly when the snapshot has a segment id equal to the current context's |
| Snapshots.ContextSnapshot.IsValid | apm-sniffer/apm-agent-core/src/main/java/org/apache/skywalking/apm/agent/core/context/ContextSnapshot.java:87-89 | valid exactly when it has a segment id, a trace id and a span id of at least 0; a valid snapshot is from the context holding its own segment id |
| Snapshots.Capture | apm-sniffer/apm-agent-core/src/main/java/org/apache/skywalking/apm/agent/core/context/ContextSnapshot.java:60-74 | the snapshot holds the given ids, endpoint and a copy of the correlation map |
| Snapshots.NoSegmentNeverCurrent | apm-sniffer/apm-agent-core/src/main/java/org/apache/skywalking/apm/agent/core/context/ContextSnapshot.java:76-89 | a snapshot without a segment id is neither valid nor from the current context |
| Correlation.AutoTagKeys | apm-sniffer/apm-agent-core/src/main/java/org/apache/skywalking/apm/agent/core/context/CorrelationContext.java:51-57 | no keys when the setting is null or empty; otherwise keys that hold no comma |
| Correlation.AutoTagKeysOfList | apm-sniffer/apm-agent-core/src/main/java/org/apache/skywalking/apm/agent/core/context/CorrelationContext.java:51-57 | a comma-joined list of keys is read back as that list |
| Correlation.Entry | apm-sniffer/apm-agent-core/src/main/java/org/apache/skywalking/apm/agent/core/context/CorrelationContext.java:138 | one serialised entry holds a `:` and no `,` |
| Correlation.Entries | apm-sniffer/apm-agent-core/src/main/java/org/apache/skywalking/apm/agent/core/context/CorrelationContext.java:137-138 | one non-empty entry without `,` per key, in iteration order |
| Correlation.SerializeMap | apm-sniffer/apm-agent-core/src/main/java/org/apache/skywalking/apm/agent/core/context/CorrelationContext.java:132-140 | the serialisation is empty exactly when the map is |
| Correlation.EnumerationSize | apm-sniffer/apm-agent-core/src/main/java/org/apache/skywalking/apm/agent/core/context/CorrelationContext.java:137 | an iteration order lists as many keys as the map has entries |
| Correlation.LoadEntries | apm-sniffer/apm-agent-core/src/main/java/org/apache/skywalking/apm/agent/core/context/CorrelationContext.java:151-161 | the entry loop never grows a map past the cap, does nothing to a full map, and never drops a key |
| Correlation.DeserializeInto | apm-sniffer/apm-agent-core/src/main/java/org/apache/skywalking/apm/agent/core/context/CorrelationContext.java:146-162 | reading a header never grows a map past the cap and never drops a key |
| Correlation.SplitEntry | apm-sniffer/apm-agent-core/src/main/java/org/apache/skywalking/apm/agent/core/context/CorrelationContext.java:156-157 | an entry with a non-empty value splits at `:` into its two encoded halves |
| Correlation.LoadSerializedEntries | apm-sniffer/apm-agent-core/src/main/java/org/apache/skywalking/apm/agent/core/context/CorrelationContext.java:151-161 | serialised entries for new keys, within the cap, load exactly those pairs |
| Correlation.DeserializeSerialized | apm-sniffer/apm-agent-core/src/main/java/org/apache/skywalking/apm/agent/core/context/CorrelationContext.java:132-162 | round trip: a serialised map that fits the cap, with no empty value, reads back into an empty context as the same map |
| Correlation.CopyBounded | apm-sniffer/apm-agent-core/src/main/java/org/apache/skywalking/apm/agent/core/context/CorrelationContext.java:177-188 | the bounded copy never grows a map past the cap, keeps every key, and takes each value from the source or the original |
| Correlation.CopyBoundedAll | apm-sniffer/apm-agent-core/src/main/java/org/apache/skywalking/apm/agent/core/context/CorrelationContext.java:177-188 | with room for every source entry, the copy is the union with the source's entries winning |
| Correlation.AutoTagPairs | apm-sniffer/apm-agent-core/src/main/java/org/apache/skywalking/apm/agent/core/context/CorrelationContext.java:197-199 | each pair `handle` tags is a listed auto-tag key with its value in the map, and every listed key the map holds yields its pair |
| Correlation.AutoTagPairsConcat | apm-sniffer/apm-agent-core/src/main/java/org/apache/skywalking/apm/agent/core/context/CorrelationContext.java:197-199 | the pairs follow the key list: a concatenated key list gives the first list's pairs, then the second's |
| Correlation.TagPairs | apm-sniffer/apm-agent-core/src/main/java/org/apache/skywalking/apm/agent/core/context/CorrelationContext.java:198 | one (key, value) pair per span tag, in order |
| Correlation.CorrelationContext.constructor | apm-sniffer/apm-agent-core/src/main/java/org/apache/skywalking/apm/agent/core/context/CorrelationContext.java:59-61 | a new context is empty under the given caps and auto-tag keys |
| Correlation.CorrelationContext.Put | apm-sniffer/apm-agent-core/src/main/java/org/apache/skywalking/apm/agent/core/context/CorrelationContext.java:71-111 | each case of `put`: null key, empty value removes, over-long value ignored, present key overwritten even at the cap, new key refused at the cap. The cap is preserved. The active span is tagged only for a newly inserted auto-tag key |
| Correlation.CorrelationContext.Get | apm-sniffer/apm-agent-core/src/main/java/org/apache/skywalking/apm/agent/core/context/CorrelationContext.java:118-124 | a value exactly for a non-null key in the map, and it is the stored value |
| Correlation.CorrelationContext.Serialize | apm-sniffer/apm-agent-core/src/main/java/org/apache/skywalking/apm/agent/core/context/CorrelationContext.java:132-140 | empty exactly when the map is |
| Correlation.CorrelationContext.Deserialize | apm-sniffer/apm-agent-core/src/main/java/org/apache/skywalking/apm/agent/core/context/CorrelationContext.java:146-162 | the loop leaves the map `DeserializeInto` describes (cap kept, keys kept, round trip) |
| Correlation.CorrelationContext.Inject | apm-sniffer/apm-agent-core/src/main/java/org/apache/skywalking/apm/agent/core/context/CorrelationContext.java:169-172 | the target's map gains every entry, with no cap check |
| Correlation.CorrelationContext.Extract | apm-sniffer/apm-agent-core/src/main/java/org/apache/skywalking/apm/agent/core/context/CorrelationContext.java:177-188 | the loop leaves the map `CopyBounded` describes |
| Correlation.CorrelationContext.Handle | apm-sniffer/apm-agent-core/src/main/java/org/apache/skywalking/apm/agent/core/context/CorrelationContext.java:197-199 | the span keeps its tags and gains, in key-list order, one tag per auto-tag key the map holds |
| Correlation.CorrelationContext.Clone | apm-sniffer/apm-agent-core/src/main/java/org/apache/skywalking/apm/agent/core/context/CorrelationContext.java:205-210 | a fresh context with an equal map that `equals` this one |
| Correlation.CorrelationContext.Continued | apm-sniffer/apm-agent-core/src/main/java/org/apache/skywalking/apm/agent/core/context/CorrelationContext.java:218-220 | every captured entry comes in, with no cap check |
| Correlation.CorrelationContext.Equals | apm-sniffer/apm-agent-core/src/main/java/org/apache/skywalking/apm/agent/core/context/CorrelationContext.java:222-231 | a context equals itself, and equals another exactly when the other is non-null and holds an equal map |
| CarrierItems.SW8CorrelationCarrierItem.constructor | apm-sniffer/apm-agent-core/src/main/java/org/apache/skywalking/apm/agent/core/context/SW8CorrelationCarrierItem.java:33-37 | the item's key is `sw8-correlation`; its value is the context serialised now, empty exactly for an empty map |
| CarrierItems.SW8CorrelationCarrierItem.SetHeadValue | apm-sniffer/apm-agent-core/src/main/java/org/apache/skywalking/apm/agent/core/context/SW8CorrelationCarrierItem.java:39-43 | the header value is read into the wrapped context as `deserialize` does |
| Carrier.InitialInvalid | apm-sniffer/apm-agent-core/src/main/java/org/apache/skywalking/apm/agent/core/context/ContextCarrier.java:41-63 | a new carrier is not valid |
| Carrier.Valid | apm-sniffer/apm-agent-core/src/main/java/org/apache/skywalking/apm/agent/core/context/ContextCarrier.java:189-199 | valid exactly when the span id is at least 0 and each of the six string fields is non-null and non-empty |
| Carrier.Assign | apm-sniffer/apm-agent-core/src/main/java/org/apache/skywalking/apm/agent/core/context/ContextCarrier.java:163-174 | after the parts before `n` are read, their fields hold the decoded parts and the span id the parsed part 3; the other fields keep their values |
| Carrier.ApplyHeader | apm-sniffer/apm-agent-core/src/main/java/org/apache/skywalking/apm/agent/core/context/ContextCarrier.java:156-178 | null text and text with fewer than seven dashes change nothing, and every string field is either kept or set to a non-null decoded string |
| Carrier.HeaderParts | apm-sniffer/apm-agent-core/src/main/java/org/apache/skywalking/apm/agent/core/context/ContextCarrier.java:136-146 | eight parts, the first "1", none holding `-`, the last non-empty |
| Carrier.Header | apm-sniffer/apm-agent-core/src/main/java/org/apache/skywalking/apm/agent/core/context/ContextCarrier.java:134-149 | the header is empty exactly for an invalid carrier |
| Carrier.FirstFailure | apm-sniffer/apm-agent-core/src/main/java/org/apache/skywalking/apm/agent/core/context/ContextCarrier.java:163-174 | the first part that does not read; every part before it reads |
| Carrier.ShortHeaderIgnored | apm-sniffer/apm-agent-core/src/main/java/org/apache/skywalking/apm/agent/core/context/ContextCarrier.java:161-162 | text with fewer than seven dashes changes no field |
| Carrier.PartialHeader | apm-sniffer/apm-agent-core/src/main/java/org/apache/skywalking/apm/agent/core/context/ContextCarrier.java:163-174 | a bad part stops the update: the earlier fields are stored, the later ones keep their values |
| Carrier.HeaderSplits | apm-sniffer/apm-agent-core/src/main/java/org/apache/skywalking/apm/agent/core/context/ContextCarrier.java:161 | a valid carrier's header splits back into its eight parts |
| Carrier.HeaderPartsRead | apm-sniffer/apm-agent-core/src/main/java/org/apache/skywalking/apm/agent/core/context/ContextCarrier.java:165-171 | every part of a valid carrier's header reads, and reading them all restores the fields |
| Carrier.HeaderRoundTrip | apm-sniffer/apm-agent-core/src/main/java/org/apache/skywalking/apm/agent/core/context/ContextCarrier.java:134-178 | round trip: reading a valid carrier's header into any carrier gives the original fields, which are valid (fields are strings of Unicode scalar values) |
| Carrier.ContextCarrier.constructor | apm-sniffer/apm-agent-core/src/main/java/org/apache/skywalking/apm/agent/core/context/ContextCarrier.java:41-87 | span id -1, empty parent service and instance, the rest null, and a fresh empty correlation context: not valid |
| Carrier.ContextCarrier.IsValid | apm-sniffer/apm-agent-core/src/main/java/org/apache/skywalking/apm/agent/core/context/ContextCarrier.java:180-199 | the carrier is valid exactly when it serialises to a non-empty header |
| Carrier.ContextCarrier.Serialize | apm-sniffer/apm-agent-core/src/main/java/org/apache/skywalking/apm/agent/core/context/ContextCarrier.java:134-149 | empty exactly when the carrier is not valid |
| Carrier.ContextCarrier.Deserialize | apm-sniffer/apm-agent-core/src/main/java/org/apache/skywalking/apm/agent/core/context/ContextCarrier.java:156-178 | the fields become what `ApplyHeader` describes (short text ignored, partial update on a bad part, round trip); returns this carrier |
| Carrier.ContextCarrier.ReadParts | apm-sniffer/apm-agent-core/src/main/java/org/apache/skywalking/apm/agent/core/context/ContextCarrier.java:162-174 | inside the `try`: the fields are assigned in order and the first part that does not read ends the assignments, leaving the later fields as they were |
| Carrier.ContextCarrier.Items | apm-sniffer/apm-agent-core/src/main/java/org/apache/skywalking/apm/agent/core/context/ContextCarrier.java:93-102 | head, then `sw8`, then a fresh `sw8-correlation` item over this carrier's context, then the extension item, then the end |
| Carrier.ContextCarrier.ExtractCorrelationTo | apm-sniffer/apm-agent-core/src/main/java/org/apache/skywalking/apm/agent/core/context/ContextCarrier.java:123-127 | the tracing context gets the bounded copy of the carrier's entries, and the active span gets the carrier's auto-tag entries |
| SegmentRefs.FromCarrier | apm-sniffer/apm-agent-core/src/main/java/org/apache/skywalking/apm/agent/core/context/trace/TraceSegmentRef.java:74-84 | a cross-process edge holding exactly the carrier's seven fields |
| SegmentRefs.FromSnapshot | apm-sniffer/apm-agent-core/src/main/java/org/apache/skywalking/apm/agent/core/context/trace/TraceSegmentRef.java:86-95 | a cross-thread edge holding the snapshot's ids and endpoint, the agent's own service and instance, and no client address |
| SegmentRefs.Transform | apm-sniffer/apm-agent-core/src/main/java/org/apache/skywalking/apm/agent/core/context/trace/TraceSegmentRef.java:97-115 | CrossProcess exactly for a cross-process edge, the identity fields copied, the peer address set only when the client address is non-null |
| SegmentRefs.Equals | apm-sniffer/apm-agent-core/src/main/java/org/apache/skywalking/apm/agent/core/context/trace/TraceSegmentRef.java:117-129 | a reference equals itself; different span ids are unequal; equal references share their segment id and their hash |
| SegmentRefs.HashCode | apm-sniffer/apm-agent-core/src/main/java/org/apache/skywalking/apm/agent/core/context/trace/TraceSegmentRef.java:131-136 | 31 times the segment id's string hash plus the span id, congruent modulo 2^32 as `int` arithmetic is |
| SegmentRefs.SnapshotRefHasNoPeer | apm-sniffer/apm-agent-core/src/main/java/org/apache/skywalking/apm/agent/core/context/trace/TraceSegmentRef.java:86-115 | a cross-thread edge is reported as CrossThread with no peer address |
| SegmentRefs.EqualsOnlyIds | apm-sniffer/apm-agent-core/src/main/java/org/apache/skywalking/apm/agent/core/context/trace/TraceSegmentRef.java:117-129 | equality means the same span id and segment id, whatever the other fields |
| SegmentRefs.EqualsIsEquivalence | apm-sniffer/apm-agent-core/src/main/java/org/apache/skywalking/apm/agent/core/context/trace/TraceSegmentRef.java:117-136 | reflexive, symmetric and transitive, and equal edges have equal hash codes |
| SegmentRefs.CarrierAndSnapshotRefsAgree | apm-sniffer/apm-agent-core/src/main/java/org/apache/skywalking/apm/agent/core/context/trace/TraceSegmentRef.java:74-129 | a cross-process and a cross-thread edge to the same parent span are of different kinds but equal |
| Boot.Step | apm-sniffer/apm-agent-core/src/main/java/org/apache/skywalking/apm/agent/core/boot/ServiceManager.java:83-118 | one service: throws exactly when a non-default finds its slot taken (by anything, or by a non-default when it overrides); a default whose slot is taken is ignored; anything else is put into its slot |
| Boot.ResolveErrSticks | apm-sniffer/apm-agent-core/src/main/java/org/apache/skywalking/apm/agent/core/boot/ServiceManager.java:100 | once a conflict is thrown, the rest of the list does not matter |
| Boot.ResolveWellFormed | apm-sniffer/apm-agent-core/src/main/java/org/apache/skywalking/apm/agent/core/boot/ServiceManager.java:78-121 | the table lists each key once, and exactly the map's keys |
| Boot.SlotOrderContents | apm-sniffer/apm-agent-core/src/main/java/org/apache/skywalking/apm/agent/core/boot/ServiceManager.java:78 | the first-use order lists exactly the slots some service competes for |
| Boot.StepErrClash | apm-sniffer/apm-agent-core/src/main/java/org/apache/skywalking/apm/agent/core/boot/ServiceManager.java:96-113 | a thrown conflict has two non-default services for one slot behind it |
| Boot.StepOkNoClash | apm-sniffer/apm-agent-core/src/main/java/org/apache/skywalking/apm/agent/core/boot/ServiceManager.java:96-116 | a step that does not throw adds no two non-defaults for one slot |
| Boot.StepOkResolved | apm-sniffer/apm-agent-core/src/main/java/org/apache/skywalking/apm/agent/core/boot/ServiceManager.java:86-116 | a step that does not throw keeps the table equal to the rule's description |
| Boot.ResolveCorrect | apm-sniffer/apm-agent-core/src/main/java/org/apache/skywalking/apm/agent/core/boot/ServiceManager.java:77-122 | loading throws exactly when two non-default services compete for a slot. Otherwise each slot some service competes for holds its non-default service, or its first default, and the keys are in first-use order |
| Boot.NonDefaultWins | apm-sniffer/apm-agent-core/src/main/java/org/apache/skywalking/apm/agent/core/boot/ServiceManager.java:86-116 | a plain or override service ends up in its slot wherever it stands in the list |
| Boot.OverrideEitherOrder | apm-sniffer/apm-agent-core/src/main/java/org/apache/skywalking/apm/agent/core/boot/ServiceManager.java:86-116 | one default and one override of it resolve to the same table, holding the override, in either order |
| Boot.SortByPriorityCorrect | apm-sniffer/apm-agent-core/src/main/java/org/apache/skywalking/apm/agent/core/boot/ServiceManager.java:128 | the phase order lists every service once, puts none before one of strictly lower priority (higher when reversed), and keeps equal priorities in table order |
| Boot.RunPhase | apm-sniffer/apm-agent-core/src/main/java/org/apache/skywalking/apm/agent/core/boot/ServiceManager.java:128-135 | each service of the order is called once, in order, and one that throws does not stop the rest |
| Boot.ServiceManager.constructor | apm-sniffer/apm-agent-core/src/main/java/org/apache/skywalking/apm/agent/core/boot/ServiceManager.java:46 | the booted-service table starts empty |
| Boot.ServiceManager.LoadAllServices | apm-sniffer/apm-agent-core/src/main/java/org/apache/skywalking/apm/agent/core/boot/ServiceManager.java:77-122 | the loop returns the table, or the conflict, that `Resolve` describes, without touching the manager |
| Boot.ServiceManager.Boot | apm-sniffer/apm-agent-core/src/main/java/org/apache/skywalking/apm/agent/core/boot/ServiceManager.java:48-58 | a conflict is thrown with the table unchanged; otherwise the table is stored and prepare, startup and onComplete run in that order |
| Boot.ServiceManager.Prepare | apm-sniffer/apm-agent-core/src/main/java/org/apache/skywalking/apm/agent/core/boot/ServiceManager.java:127-136 | every booted service runs once, in ascending priority |
| Boot.ServiceManager.Startup | apm-sniffer/apm-agent-core/src/main/java/org/apache/skywalking/apm/agent/core/boot/ServiceManager.java:141-150 | every booted service runs once, in ascending priority |
| Boot.ServiceManager.OnComplete | apm-sniffer/apm-agent-core/src/main/java/org/apache/skywalking/apm/agent/core/boot/ServiceManager.java:155-164 | every booted service runs once, in table order |
| Boot.ServiceManager.Shutdown | apm-sniffer/apm-agent-core/src/main/java/org/apache/skywalking/apm/agent/core/boot/ServiceManager.java:63-72 | every booted service runs once, in descending priority |
| Boot.ServiceManager.FindService | apm-sniffer/apm-agent-core/src/main/java/org/apache/skywalking/apm/agent/core/boot/ServiceManager.java:174-176 | the entry stored under the class, or null |

## Left out

- `TracingContext`, the span stack, async spans and `ContextManager` are left
  out, because their implementation is not part of this model.
  `AbstractTracerContext.java` and `AbstractSpan.java` are interfaces. Only
  the span operations the correlation context calls (`tag`, `setLayer`) and
  `LocalSpan`'s own methods are modelled.
- `ExtensionContext`, `ProfileStatusContext`, `DistributedTraceId`,
  `SW8CarrierItem`, `SW8ExtensionCarrierItem` and `CarrierItemHead` are not
  part of this model. The item chain keeps only their position. The snapshot
  keeps the trace id as its string, and its extension and profile contexts
  are left out.
- `ContextCarrier.extensionInjector` and `extractExtensionTo` work on the
  extension context, which is not part of this model.
- `ServiceManager.load`, the annotation reflection, `PluginBootstrap` and
  `DynamicPluginLoader` are class loading and I/O. Each loaded service is
  described by an explicit record: class, default flag, override target and
  priority. The phase bodies of the services are not visible. Which calls
  throw is a parameter, and logging is left out.
- Boot.ResolveCorrect and Boot.NonDefaultWins assume that a class has the same
  `@DefaultImplementor` flag wherever it appears, as reflection guarantees.
  Without this, a default loaded before a plain service of the same class
  would make the plain one throw.
- Concurrency is left out: `ConcurrentHashMap`, thread visibility and the
  static `TAG_PROTOTYPES` cache shared across threads. Maps are plain
  sequential maps. Their iteration order is a parameter constrained only to
  list each key once.
- `ComponentsDefine` and the plugin logback interceptor are not part of the
  propagation core.
- `CorrelationContext.hashCode` (`Objects.hash` of the map) is not modelled,
  because Java's map hash is not needed by any operation here.
- Base64.Decode does not model every leniency of the JDK decoder. It accepts
  exactly the text of whole four-character units, with an optional `=`-padded
  or unpadded last unit. Utf8.Decode replaces each malformed byte by U+FFFD,
  which may differ from the JDK's grouping of malformed sequences.
- Utf8.Encode, Base64.DecodeEncode, Utf8.DecodeEncode and Carrier.HeaderRoundTrip:
  strings are sequences of Unicode scalar values, so unpaired UTF-16
  surrogates are not modelled. A Java string can hold one, and
  `getBytes(UTF_8)` encodes it as `?`, so the round trip fails for such a
  string in Java. JavaText.Utf16Length relies on the same restriction.
- Carrier.ContextCarrier.Deserialize and Carrier.ContextCarrier.IsValid drop
  the `HeaderVersion` parameter. The Java methods act only for `v3`, which is
  the enum's only constant, so no behaviour is lost.
- JavaText.ParseInt accepts an optional sign and ASCII digits in the `int`
  range. The JDK also accepts non-ASCII Unicode digits.
- SegmentRefs.Equals and Correlation.CorrelationContext.Equals compare values.
  The `this == o` shortcut for the same object is covered only where the
  segment id is non-null. `SegmentRefs.Equals` and `HashCode` require a
  non-null segment id, because the source dereferences it.
- SegmentRefs.Transform requires the six identity fields to be non-null,
  because the protocol builder throws on null. The builder's exception is not
  modelled.
- SegmentRefs.FromSnapshot requires a non-null trace id, because the source
  calls `getId()` on it.
- Correlation.CorrelationContext.Inject and Continued take the carrier's
  correlation context, or the snapshot's correlation map, instead of the
  carrier or snapshot itself.
- Tags.TagRegistry.OfKey takes a non-null key. With a null key,
  `computeIfAbsent` throws.
- The agent configuration (`Config.Correlation.*`, `Config.Agent.*`) is passed
  in at construction or as parameters, and is never read from global state.

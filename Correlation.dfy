/**
 * `CorrelationContext`: user key/value data that travels with a trace. A
 * context is a map bounded by a count cap and a value-length cap; it is
 * written as `key:value,key:value` with both sides base64-encoded.
 *
 * The caps and the auto-tag key list come from configuration and are fixed
 * when the context is created. Java's map has no fixed iteration order, so
 * the operations that walk the map take that order as a parameter.
 */
module Correlation {
  import opened Wrappers
  import opened JavaText
  import Base64
  import Tags
  import Spans
  import Snapshots

  /** `order` lists each key of `m` exactly once: one iteration order of the map. */
  ghost predicate Enumerates(order: seq<string>, m: map<string, string>) {
    (forall i, j | 0 <= i < j < |order| :: order[i] != order[j]) &&
    (forall k :: k in m <==> k in order)
  }

  /** A sequence without repetitions has as many distinct elements as it is long. */
  lemma {:induction false} DistinctCount(s: seq<string>)
    requires forall i, j | 0 <= i < j < |s| :: s[i] != s[j]
    ensures |set x | x in s| == |s|
  {
    if s != [] {
      var front := s[..|s| - 1];
      var last := s[|s| - 1];
      DistinctCount(front);
      assert last !in front by {
        forall i | 0 <= i < |front|
          ensures front[i] != last
        {
          assert front[i] == s[i];
        }
      }
      assert (set x | x in s) == (set x | x in front) + {last};
    }
  }

  /** A map has as many entries as any enumeration of it has elements. */
  lemma EnumerationSize(order: seq<string>, m: map<string, string>)
    requires Enumerates(order, m)
    ensures |m| == |order|
  {
    DistinctCount(order);
    assert m.Keys == set x | x in order;
  }

  /** `AUTO_TAG_KEYS`: the configured comma-separated list, or no keys when it is unset or empty. */
  function AutoTagKeys(config: Option<string>): (keys: seq<string>)
    ensures IsEmpty(config) ==> keys == []
    ensures forall i | 0 <= i < |keys| :: ',' !in keys[i]
  {
    if IsEmpty(config) then [] else Split(config.value, ',')
  }

  /** A list of keys written out with commas is read back as that list. */
  lemma AutoTagKeysOfList(keys: seq<string>)
    requires |keys| >= 1 && keys[|keys| - 1] != ""
    requires forall i | 0 <= i < |keys| :: ',' !in keys[i]
    ensures AutoTagKeys(Some(Join(keys, ','))) == keys
  {
    SplitJoin(keys, ',');
    assert |Join(keys, ',')| >= |keys[0]|;
    if |keys| == 1 {
      assert Join(keys, ',') == keys[0];
    }
  }

  /** One serialised entry: the encoded key, `:`, the encoded value. */
  function Entry(key: string, value: string): (e: string)
    ensures ',' !in e && ':' in e
  {
    var k := Base64.Encode(key);
    var v := Base64.Encode(value);
    assert ',' !in k && ',' !in v;
    k + [':'] + v
  }

  /** The entries of `m` in the order `order` lists its keys. */
  function Entries(m: map<string, string>, order: seq<string>): (es: seq<string>)
    requires forall i | 0 <= i < |order| :: order[i] in m
    ensures |es| == |order|
    ensures forall i | 0 <= i < |es| :: ',' !in es[i] && es[i] != ""
  {
    if order == [] then [] else [Entry(order[0], m[order[0]])] + Entries(m, order[1..])
  }

  /** `serialize()`: the entries joined with `,`; empty exactly when the map is. */
  function SerializeMap(m: map<string, string>, order: seq<string>): (s: string)
    requires Enumerates(order, m)
    ensures s == "" <==> |m| == 0
  {
    EnumerationSize(order, m);
    if |m| == 0 then ""
    else
      var es := Entries(m, order);
      assert |Join(es, ',')| >= |es[0]| > 0;
      Join(es, ',')
  }

  /** The state `deserialize` leaves: the map, and false when a decode error escaped part-way. */
  datatype Loaded = Loaded(data: map<string, string>, completed: bool)

  /**
   * The entry loop of `deserialize`: stop once the map holds `cap` entries,
   * skip an entry that does not split into exactly two parts at `:`, put the
   * decoded pair otherwise, and stop with the error when a part does not decode.
   */
  function LoadEntries(data: map<string, string>, entries: seq<string>, cap: nat): (r: Loaded)
    ensures |data| <= cap ==> |r.data| <= cap
    ensures |data| >= cap ==> r == Loaded(data, true)
    ensures data.Keys <= r.data.Keys
    decreases |entries|
  {
    if entries == [] || |data| >= cap then Loaded(data, true)
    else
      var parts := Split(entries[0], ':');
      if |parts| != 2 then LoadEntries(data, entries[1..], cap)
      else
        match (Base64.Decode(parts[0]), Base64.Decode(parts[1]))
        case (Some(k), Some(v)) => LoadEntries(data[k := v], entries[1..], cap)
        case _ => Loaded(data, false)
  }

  /** `deserialize(value)` from map `data`: nothing for a null or empty value. */
  function DeserializeInto(data: map<string, string>, value: Option<string>, cap: nat): (r: Loaded)
    ensures |data| <= cap ==> |r.data| <= cap
    ensures data.Keys <= r.data.Keys
  {
    if IsEmpty(value) then Loaded(data, true) else LoadEntries(data, Split(value.value, ','), cap)
  }

  /** Splitting one serialised entry at `:` gives its two encoded halves, given a non-empty value. */
  lemma SplitEntry(key: string, value: string)
    requires value != ""
    ensures Split(Entry(key, value), ':') == [Base64.Encode(key), Base64.Encode(value)]
  {
    var k := Base64.Encode(key);
    var v := Base64.Encode(value);
    assert ':' !in k && ':' !in v;
    assert Join([k, v], ':') == k + [':'] + v;
    SplitJoin([k, v], ':');
  }

  /** The entries of `m` whose keys `keys` lists. */
  function Pick(m: map<string, string>, keys: seq<string>): map<string, string> {
    map k | k in keys && k in m :: m[k]
  }

  /** The entries of keys not yet in the map load to exactly those pairs while the cap allows. */
  lemma {:induction false} LoadSerializedEntries(data: map<string, string>, m: map<string, string>, rest: seq<string>, cap: nat)
    requires forall i, j | 0 <= i < j < |rest| :: rest[i] != rest[j]
    requires forall i | 0 <= i < |rest| :: rest[i] in m && rest[i] !in data && m[rest[i]] != ""
    requires |data| + |rest| <= cap
    ensures LoadEntries(data, Entries(m, rest), cap) == Loaded(data + Pick(m, rest), true)
    decreases |rest|
  {
    if rest == [] {
      assert Pick(m, rest) == map[];
    } else {
      var k := rest[0];
      var more := rest[1..];
      assert Entries(m, rest) == [Entry(k, m[k])] + Entries(m, more);
      LoadFirstEntry(data, k, m[k], Entries(m, more), cap);
      PutFirstKey(data, m, rest, cap);
      LoadSerializedEntries(data[k := m[k]], m, more, cap);
      UnionStep(data, m, rest);
    }
  }

  /** Once the first listed key is put, the remaining keys still meet the loading conditions. */
  lemma PutFirstKey(data: map<string, string>, m: map<string, string>, rest: seq<string>, cap: nat)
    requires rest != []
    requires forall i, j | 0 <= i < j < |rest| :: rest[i] != rest[j]
    requires forall i | 0 <= i < |rest| :: rest[i] in m && rest[i] !in data && m[rest[i]] != ""
    requires |data| + |rest| <= cap
    ensures var more, d := rest[1..], data[rest[0] := m[rest[0]]];
            (forall i, j | 0 <= i < j < |more| :: more[i] != more[j]) &&
            (forall i | 0 <= i < |more| :: more[i] in m && more[i] !in d && m[more[i]] != "") &&
            |d| + |more| <= cap
  {
    var k, more := rest[0], rest[1..];
    var d := data[k := m[k]];
    assert |d| == |data| + 1;
    forall i | 0 <= i < |more|
      ensures more[i] in m && more[i] !in d && m[more[i]] != ""
    {
      assert more[i] == rest[i + 1] && rest[0] != rest[i + 1];
    }
    forall i, j | 0 <= i < j < |more|
      ensures more[i] != more[j]
    {
      assert more[i] == rest[i + 1] && more[j] == rest[j + 1];
    }
  }

  /** An encoded entry with a non-empty value, loaded below the cap, puts its pair. */
  lemma LoadFirstEntry(data: map<string, string>, key: string, value: string, more: seq<string>, cap: nat)
    requires value != "" && |data| < cap
    ensures LoadEntries(data, [Entry(key, value)] + more, cap) == LoadEntries(data[key := value], more, cap)
  {
    var es := [Entry(key, value)] + more;
    SplitEntry(key, value);
    Base64.DecodeEncode(key);
    Base64.DecodeEncode(value);
    assert es[0] == Entry(key, value) && es[1..] == more;
  }

  /** Putting the first pair and then the rest is putting them all. */
  lemma UnionStep(data: map<string, string>, m: map<string, string>, rest: seq<string>)
    requires rest != [] && forall i | 0 <= i < |rest| :: rest[i] in m
    ensures data[rest[0] := m[rest[0]]] + Pick(m, rest[1..]) == data + Pick(m, rest)
  {
    var k, more := rest[0], rest[1..];
    var p, q := Pick(m, more), Pick(m, rest);
    assert rest == [k] + more;
    assert q == p[k := m[k]] by {
      forall x | x in q
        ensures x in p[k := m[k]]
      {
        assert x == k || x in more;
      }
    }
  }

  /**
   * Round trip: a serialised map read into an empty context whose cap it fits
   * gives the map back, when no value is empty (an entry `key:` with an empty
   * value has only one part and is skipped).
   */
  lemma DeserializeSerialized(m: map<string, string>, order: seq<string>, cap: nat)
    requires Enumerates(order, m)
    requires |m| <= cap
    requires forall k | k in m :: m[k] != ""
    ensures DeserializeInto(map[], Some(SerializeMap(m, order)), cap) == Loaded(m, true)
  {
    EnumerationSize(order, m);
    if |m| == 0 {
      assert m == map[];
    } else {
      var es := Entries(m, order);
      assert SerializeMap(m, order) == Join(es, ',');
      assert es[|es| - 1] != "";
      SplitJoin(es, ',');
      LoadSerializedEntries(map[], m, order, cap);
      PickEnumeration(m, order);
    }
  }

  /** Picking every key of an enumeration picks the whole map. */
  lemma PickEnumeration(m: map<string, string>, order: seq<string>)
    requires Enumerates(order, m)
    ensures map[] + Pick(m, order) == m
  {
    assert Pick(m, order).Keys == m.Keys;
  }

  /** Copies entries of `source` in `order` into `data` until `data` holds `cap` entries. */
  function CopyBounded(data: map<string, string>, source: map<string, string>, order: seq<string>, cap: nat): (r: map<string, string>)
    requires forall i | 0 <= i < |order| :: order[i] in source
    ensures |data| <= cap ==> |r| <= cap
    ensures data.Keys <= r.Keys
    ensures forall k | k in r :: (k in order && r[k] == source[k]) || (k in data && r[k] == data[k])
    decreases |order|
  {
    if order == [] || |data| >= cap then data
    else CopyBounded(data[order[0] := source[order[0]]], source, order[1..], cap)
  }

  /** With room for every entry, the bounded copy copies them all. */
  lemma {:induction false} CopyBoundedAll(data: map<string, string>, source: map<string, string>, order: seq<string>, cap: nat)
    requires forall i | 0 <= i < |order| :: order[i] in source
    requires |data| + |order| <= cap
    ensures CopyBounded(data, source, order, cap) == data + Pick(source, order)
    decreases |order|
  {
    if order == [] {
      assert Pick(source, order) == map[];
    } else {
      var more := order[1..];
      assert forall i | 0 <= i < |more| :: more[i] == order[i + 1];
      CopyBoundedAll(data[order[0] := source[order[0]]], source, more, cap);
      UnionStep(data, source, order);
    }
  }

  /** The (key, value) pairs that `handle` tags a span with: each listed key the map holds, in list order. */
  function AutoTagPairs(keys: seq<string>, data: map<string, string>): (pairs: seq<(string, string)>)
    ensures |pairs| <= |keys|
    ensures forall i | 0 <= i < |pairs| :: pairs[i].0 in data && pairs[i].1 == data[pairs[i].0] && pairs[i].0 in keys
    ensures forall k | k in keys && k in data :: (k, data[k]) in pairs
  {
    if keys == [] then []
    else if keys[0] in data then [(keys[0], data[keys[0]])] + AutoTagPairs(keys[1..], data)
    else AutoTagPairs(keys[1..], data)
  }

  /** The pairs of a concatenated key list are those of the first list followed by those of the second. */
  lemma {:induction false} AutoTagPairsConcat(keys1: seq<string>, keys2: seq<string>, data: map<string, string>)
    ensures AutoTagPairs(keys1 + keys2, data) == AutoTagPairs(keys1, data) + AutoTagPairs(keys2, data)
    decreases |keys1|
  {
    if keys1 != [] {
      assert (keys1 + keys2)[1..] == keys1[1..] + keys2;
      AutoTagPairsConcat(keys1[1..], keys2, data);
    } else {
      assert keys1 + keys2 == keys2;
    }
  }

  /** The (key, value) pairs of a span's tags. */
  function TagPairs(tags: seq<(Tags.StringTag, string)>): (pairs: seq<(string, string)>)
    ensures |pairs| == |tags|
    ensures forall i | 0 <= i < |tags| :: pairs[i] == (tags[i].0.key, tags[i].1)
  {
    if tags == [] then [] else TagPairs(tags[..|tags| - 1]) + [(tags[|tags| - 1].0.key, tags[|tags| - 1].1)]
  }

  lemma TagPairsAppend(tags: seq<(Tags.StringTag, string)>, t: (Tags.StringTag, string))
    ensures TagPairs(tags + [t]) == TagPairs(tags) + [(t.0.key, t.1)]
  {
    assert (tags + [t])[..|tags|] == tags;
  }

  /** Handling key `i` moves its pair, when the map holds the key, from the pairs still to come to the pairs done. */
  lemma AutoTagStep(done: seq<(string, string)>, keys: seq<string>, i: nat, data: map<string, string>)
    requires i < |keys|
    ensures done + AutoTagPairs(keys[i..], data) ==
            (if keys[i] in data then done + [(keys[i], data[keys[i]])] else done) + AutoTagPairs(keys[i + 1..], data)
  {
    assert keys[i..][1..] == keys[i + 1..];
  }

  class CorrelationContext {
    var data: map<string, string>
    /** `Config.Correlation.ELEMENT_MAX_NUMBER`. */
    const maxElements: nat
    /** `Config.Correlation.VALUE_MAX_LENGTH`. */
    const maxValueLength: nat
    /** `AUTO_TAG_KEYS`. */
    const autoTagKeys: seq<string>

    /** `new CorrelationContext()`: an empty map under the configured caps. */
    constructor (maxElements: nat, maxValueLength: nat, autoTagKeys: seq<string>)
      ensures data == map[]
      ensures this.maxElements == maxElements && this.maxValueLength == maxValueLength
      ensures this.autoTagKeys == autoTagKeys
    {
      data := map[];
      this.maxElements := maxElements;
      this.maxValueLength := maxValueLength;
      this.autoTagKeys := autoTagKeys;
    }

    /**
     * `put(key, value)` with the active span of the current context (null when
     * no context is active). Returns the previous value where the source does.
     */
    method Put(key: Option<string>, value: Option<string>, active: Spans.Span?) returns (previous: Option<string>)
      modifies this, active
      // a null key: nothing
      ensures key.None? ==> previous.None? && data == old(data)
      // a null or empty value removes the key and returns what it held
      ensures key.Some? && IsEmpty(value) ==>
        data == old(data) - {key.value} &&
        previous == (if key.value in old(data) then Some(old(data)[key.value]) else None)
      // an over-long value: nothing
      ensures key.Some? && !IsEmpty(value) && Utf16Length(value.value) > maxValueLength ==>
        previous.None? && data == old(data)
      // an acceptable value for a present key overwrites it, even at the cap
      ensures key.Some? && !IsEmpty(value) && Utf16Length(value.value) <= maxValueLength && key.value in old(data) ==>
        previous == Some(old(data)[key.value]) && data == old(data)[key.value := value.value]
      // a new key is refused at the cap and inserted below it
      ensures key.Some? && !IsEmpty(value) && Utf16Length(value.value) <= maxValueLength && key.value !in old(data) ==>
        previous.None? &&
        data == (if |old(data)| >= maxElements then old(data) else old(data)[key.value := value.value])
      ensures |old(data)| <= maxElements ==> |data| <= maxElements
      // only a new insertion of an auto-tag key tags the active span, with that key and value
      ensures active != null ==>
        active.operationName == old(active.operationName) && active.layer == old(active.layer)
      ensures active != null && key.Some? && key.value !in old(data) && key.value in data && key.value in autoTagKeys ==>
        TagPairs(active.tags) == TagPairs(old(active.tags)) + [(key.value, value.value)]
      ensures active != null && !(key.Some? && key.value !in old(data) && key.value in data && key.value in autoTagKeys) ==>
        active.tags == old(active.tags)
    {
      previous := None;
      if key.None? {
        return;
      }
      var k := key.value;
      if IsEmpty(value) {
        if k in data {
          previous := Some(data[k]);
        }
        data := data - {k};
        return;
      }
      var v := value.value;
      if Utf16Length(v) > maxValueLength {
        return;
      }
      if k in data {
        previous := Some(data[k]);
        data := data[k := v];
        return;
      }
      if |data| >= maxElements {
        return;
      }
      if k in autoTagKeys && active != null {
        var tag := new Tags.StringTag(k);
        var _ := active.Tag(tag, v);
      }
      data := data[k := v];
    }

    /** `get(key)`: the value held for a non-null key. */
    function Get(key: Option<string>): (r: Option<string>)
      reads this
      ensures r.Some? <==> key.Some? && key.value in data
      ensures r.Some? ==> r.value == data[key.value]
    {
      if key.None? || key.value !in data then None else Some(data[key.value])
    }

    /** `serialize()`, with the map's iteration order. */
    function Serialize(order: seq<string>): (s: string)
      reads this
      requires Enumerates(order, data)
      ensures s == "" <==> |data| == 0
    {
      SerializeMap(data, order)
    }

    /**
     * `deserialize(value)`. A part that is not valid base64 makes the decoder
     * throw out of the loop: the entries put before it stay and `completed` is false.
     */
    method Deserialize(value: Option<string>) returns (completed: bool)
      modifies this
      ensures Loaded(data, completed) == DeserializeInto(old(data), value, maxElements)
    {
      completed := true;
      if IsEmpty(value) {
        return;
      }
      var entries := Split(value.value, ',');
      for i := 0 to |entries|
        invariant LoadEntries(data, entries[i..], maxElements) == LoadEntries(old(data), entries, maxElements)
      {
        assert entries[i..][1..] == entries[i + 1..];
        if |data| >= maxElements {
          break;
        }
        var parts := Split(entries[i], ':');
        if |parts| != 2 {
          continue;
        }
        var k := Base64.Decode(parts[0]);
        var v := Base64.Decode(parts[1]);
        if k.None? || v.None? {
          completed := false;
          return;
        }
        data := data[k.value := v.value];
      }
    }

    /** `inject(carrier)`: every entry goes into the carrier's context, with no cap check. */
    method Inject(target: CorrelationContext)
      modifies target
      ensures target.data == old(target.data) + old(data)
    {
      target.data := target.data + data;
    }

    /**
     * `extract(carrier)`, given the carrier's context and its iteration order:
     * entries are copied in that order until this map holds `maxElements`.
     */
    method Extract(source: CorrelationContext, order: seq<string>)
      requires Enumerates(order, source.data)
      modifies this
      ensures data == CopyBounded(old(data), old(source.data), order, maxElements)
    {
      var src := source.data;
      for i := 0 to |order|
        invariant CopyBounded(data, src, order[i..], maxElements) == CopyBounded(old(data), src, order, maxElements)
      {
        assert order[i..][1..] == order[i + 1..];
        if |data| >= maxElements {
          break;
        }
        data := data[order[i] := src[order[i]]];
      }
    }

    /** `handle(span)`: for each auto-tag key the map holds, in list order, tag the span with it. */
    method Handle(span: Spans.Span)
      modifies span
      ensures |span.tags| >= |old(span.tags)| && span.tags[..|old(span.tags)|] == old(span.tags)
      ensures TagPairs(span.tags[|old(span.tags)|..]) == AutoTagPairs(autoTagKeys, old(data))
      ensures span.operationName == old(span.operationName) && span.layer == old(span.layer)
    {
      ghost var before := span.tags;
      ghost var added: seq<(Tags.StringTag, string)> := [];
      var d := data;
      for i := 0 to |autoTagKeys|
        invariant span.tags == before + added
        invariant TagPairs(added) + AutoTagPairs(autoTagKeys[i..], d) == AutoTagPairs(autoTagKeys, d)
        invariant span.operationName == old(span.operationName) && span.layer == old(span.layer)
      {
        var key := autoTagKeys[i];
        AutoTagStep(TagPairs(added), autoTagKeys, i, d);
        if key in d {
          var tag := new Tags.StringTag(key);
          var _ := span.Tag(tag, d[key]);
          TagPairsAppend(added, (tag, d[key]));
          added := added + [(tag, d[key])];
        }
      }
      assert span.tags[..|before|] == before && span.tags[|before|..] == added;
    }

    /** `clone()`: a new context holding an equal map. */
    method Clone() returns (c: CorrelationContext)
      ensures fresh(c) && c.data == data && Equals(c)
      ensures c.maxElements == maxElements && c.maxValueLength == maxValueLength && c.autoTagKeys == autoTagKeys
    {
      c := new CorrelationContext(maxElements, maxValueLength, autoTagKeys);
      c.data := c.data + data;
    }

    /** `continued(snapshot)`: every entry captured in the snapshot comes in, with no cap check. */
    method Continued(snapshot: Snapshots.ContextSnapshot)
      modifies this
      ensures data == old(data) + snapshot.correlation
    {
      data := data + snapshot.correlation;
    }

    /** `equals(o)`: another context holding an equal map. */
    predicate Equals(other: CorrelationContext?): (r: bool)
      reads this, other
      ensures other == this ==> r
      ensures r ==> other != null && other.data == data
      ensures other != null && other.data == data ==> r
    {
      other != null && data == other.data
    }
  }
}

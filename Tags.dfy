/**
 * Span tags: the `StringTag` value a span is tagged with, the table of
 * predefined tags, and the `ofKey` intern cache of tags created on demand.
 */
module Tags {
  import opened Wrappers

  /**
   * A string-valued tag. Predefined tags carry a numeric id; a tag created
   * from a bare key has none.
   */
  class StringTag {
    const id: Option<int>
    const key: string

    /** `new StringTag(key)`: a tag without an id. */
    constructor (key: string)
      ensures this.key == key && id.None?
    {
      this.key := key;
      this.id := None;
    }
  }

  /** The (id, key) pairs of the predefined tags, in declaration order. */
  const Predefined: seq<(int, string)> := [
    (1, "url"), (2, "http.status_code"), (3, "db.type"), (4, "db.instance"),
    (5, "db.statement"), (6, "db.bind_vars"), (7, "mq.queue"), (8, "mq.broker"),
    (9, "mq.topic"), (16, "mq_status"), (17, "mybatis.mapper"),
    (15, "transmission.latency"), (18, "rpc.status_code"), (10, "http.method"),
    (11, "http.params"), (13, "http.body"), (14, "http.headers"), (12, "x-le"),
    (15, "cache.type"), (16, "cache.op"), (17, "cache.cmd"), (18, "cache.key"),
    (20, "cache.instance"), (19, "db.sql.parameters"), (21, "lock.name"),
    (22, "lease.time"), (23, "thread.id")
  ]

  /** The ids that two different predefined tags both use. */
  function SharedIds(table: seq<(int, string)>): (ids: set<int>)
    ensures forall x | x in ids :: exists i, j | 0 <= i < j < |table| :: table[i].0 == x && table[j].0 == x
  {
    set i, j | 0 <= i < j < |table| && table[i].0 == table[j].0 :: table[i].0
  }

  /**
   * Ids do not identify the predefined tags: ids 15, 16, 17 and 18 are each
   * given to two tags with different keys.
   */
  lemma PredefinedIdsRepeat()
    ensures 15 in SharedIds(Predefined) && 16 in SharedIds(Predefined)
    ensures 17 in SharedIds(Predefined) && 18 in SharedIds(Predefined)
  {
    var t := Predefined;
    assert t[11].0 == t[18].0 == 15;
    assert t[9].0 == t[19].0 == 16;
    assert t[10].0 == t[20].0 == 17;
    assert t[12].0 == t[21].0 == 18;
  }

  /** `TAG_PROTOTYPES`: the tags created so far by `ofKey`, by key. */
  class TagRegistry {
    var prototypes: map<string, StringTag>

    /** Every cached tag is stored under its own key. */
    ghost predicate Valid()
      reads this
    {
      forall k | k in prototypes :: prototypes[k].key == k
    }

    constructor ()
      ensures prototypes == map[] && Valid()
    {
      prototypes := map[];
    }

    /**
     * `Tags.ofKey(key)`: the cached tag for `key`, created with that key and
     * cached on the first call. Every other entry is left as it was.
     */
    method OfKey(key: string) returns (tag: StringTag)
      requires Valid()
      modifies this
      ensures Valid()
      ensures key in prototypes && prototypes[key] == tag && tag.key == key
      ensures key in old(prototypes) ==> tag == old(prototypes)[key] && prototypes == old(prototypes)
      ensures key !in old(prototypes) ==> fresh(tag) && prototypes == old(prototypes)[key := tag]
      ensures |prototypes| <= |old(prototypes)| + 1
    {
      if key in prototypes {
        tag := prototypes[key];
      } else {
        tag := new StringTag(key);
        prototypes := prototypes[key := tag];
      }
    }

    /** Asking twice for the same key gives the very same tag object. */
    method OfKeyTwice(key: string) returns (first: StringTag, second: StringTag)
      requires Valid()
      modifies this
      ensures first == second && first.key == key
      ensures key in old(prototypes) ==> prototypes == old(prototypes)
      ensures key !in old(prototypes) ==> prototypes == old(prototypes)[key := first]
    {
      first := OfKey(key);
      second := OfKey(key);
    }
  }
}

/**
 * The agent's boot-service manager. The loaded services are resolved into a
 * table keyed by class: default implementors yield, override implementors
 * replace defaults, and two non-default services for one slot are a
 * conflict. The table's services then run their lifecycle phases in
 * priority order, and one service's failure does not stop the others.
 */
module Boot {
  import opened Wrappers
  import opened JavaText

  /** A service class, standing for `Class<? extends BootService>`. */
  type ClassId = string

  /**
   * What the loader learns about one loaded service: its class, whether that
   * class carries `@DefaultImplementor`, the target of its
   * `@OverrideImplementor` if any, and its `priority()`.
   */
  datatype BootService = BootService(cls: ClassId, isDefault: bool, overrideTarget: Option<ClassId>, priority: Int32)

  /** `BootService.priority()` when a service does not override it. */
  const DefaultPriority: Int32 := 0

  /** The slot a service competes for: its own class, or the class it overrides. */
  function Slot(s: BootService): ClassId {
    if s.isDefault then s.cls else s.overrideTarget.GetOr(s.cls)
  }

  /** `ServiceConflictException`. */
  datatype Conflict =
    | DuplicateService(cls: ClassId)
    | OverrideConflict(cls: ClassId, target: ClassId)

  /** A `LinkedHashMap` from class to service: the keys in insertion order and the entries. */
  datatype ServiceTable = ServiceTable(keys: seq<ClassId>, services: map<ClassId, BootService>)

  const Empty: ServiceTable := ServiceTable([], map[])

  /** The keys are listed once each, and they are exactly the map's keys. */
  predicate WellFormed(t: ServiceTable) {
    (forall k :: k in t.keys ==> k in t.services) &&
    (forall k :: k in t.services ==> k in t.keys) &&
    (forall i, j :: 0 <= i < j < |t.keys| ==> t.keys[i] != t.keys[j])
  }

  /** `put`: a new key goes last; replacing an entry keeps its position. */
  function Put(t: ServiceTable, k: ClassId, s: BootService): ServiceTable {
    ServiceTable(if k in t.services then t.keys else t.keys + [k], t.services[k := s])
  }

  /** `values()`: the services in the order their keys were first put. */
  function Values(t: ServiceTable): seq<BootService>
    requires WellFormed(t)
  {
    seq(|t.keys|, i requires 0 <= i < |t.keys| => t.services[t.keys[i]])
  }

  /**
   * One pass of the resolution loop. It fails exactly when a non-default
   * service finds its slot taken, by anything if it overrides nothing, by a
   * non-default if it overrides. Otherwise a default whose slot is taken is
   * ignored, and every other service is put into its slot.
   */
  function Step(t: ServiceTable, s: BootService): (r: Result<ServiceTable, Conflict>)
    ensures r.Err? <==> !s.isDefault && Slot(s) in t.services &&
                        (s.overrideTarget.None? || !t.services[Slot(s)].isDefault)
    ensures r.Ok? && s.isDefault && Slot(s) in t.services ==> r.value == t
    ensures r.Ok? && !(s.isDefault && Slot(s) in t.services) ==> r.value == Put(t, Slot(s), s)
  {
    if s.isDefault then
      if s.cls in t.services then Ok(t) else Ok(Put(t, s.cls, s))
    else if s.overrideTarget.None? then
      if s.cls in t.services then Err(DuplicateService(s.cls)) else Ok(Put(t, s.cls, s))
    else
      var target := s.overrideTarget.value;
      if target in t.services && !t.services[target].isDefault then Err(OverrideConflict(s.cls, target))
      else Ok(Put(t, target, s))
  }

  /** The table `loadAllServices` builds from the services in load order, or the conflict it throws. */
  function Resolve(all: seq<BootService>): Result<ServiceTable, Conflict>
    decreases |all|
  {
    if all == [] then Ok(Empty)
    else match Resolve(all[..|all| - 1])
      case Err(e) => Err(e)
      case Ok(t) => Step(t, all[|all| - 1])
  }

  /** Once the loop has thrown, the rest of the list does not matter. */
  lemma {:induction false} ResolveErrSticks(all: seq<BootService>, i: nat)
    requires i <= |all| && Resolve(all[..i]).Err?
    ensures Resolve(all) == Resolve(all[..i])
    decreases |all| - i
  {
    if i < |all| {
      assert all[..i + 1][..i] == all[..i];
      ResolveErrSticks(all, i + 1);
    } else {
      assert all[..i] == all;
    }
  }

  /** Every table the loop builds is well formed. */
  lemma {:induction false} ResolveWellFormed(all: seq<BootService>)
    ensures Resolve(all).Ok? ==> WellFormed(Resolve(all).value)
    decreases |all|
  {
    if all != [] {
      ResolveWellFormed(all[..|all| - 1]);
    }
  }

  // The resolution rule stated without the loop.

  /** Some service competes for slot `k`. */
  ghost predicate SlotUsed(all: seq<BootService>, k: ClassId) {
    exists i :: 0 <= i < |all| && Slot(all[i]) == k
  }

  /** Two non-default services compete for the same slot. */
  ghost predicate Clash(all: seq<BootService>) {
    exists i, j :: 0 <= i < j < |all| && !all[i].isDefault && !all[j].isDefault && Slot(all[i]) == Slot(all[j])
  }

  /** A class is a default implementor wherever it appears (annotations belong to the class). */
  predicate ConsistentAnnotations(all: seq<BootService>) {
    forall i, j :: 0 <= i < |all| && 0 <= j < |all| && all[i].cls == all[j].cls ==> all[i].isDefault == all[j].isDefault
  }

  /**
   * `all[i]` is the service slot `k` should hold: a non-default competing for
   * `k`, or, when only defaults compete for it, the first of them.
   */
  ghost predicate Chosen(all: seq<BootService>, i: int, k: ClassId) {
    0 <= i < |all| && Slot(all[i]) == k &&
    (!all[i].isDefault ||
     ((forall j :: 0 <= j < |all| && Slot(all[j]) == k ==> all[j].isDefault) &&
      (forall j :: 0 <= j < i ==> Slot(all[j]) != k)))
  }

  /** The slots in the order they are first competed for. */
  ghost function SlotOrder(all: seq<BootService>): seq<ClassId>
    decreases |all|
  {
    if all == [] then []
    else
      var prefix := SlotOrder(all[..|all| - 1]);
      if Slot(all[|all| - 1]) in prefix then prefix else prefix + [Slot(all[|all| - 1])]
  }

  /** What the table built from `all` holds: one entry per slot, the chosen service in it, in first-use order. */
  ghost predicate Resolved(t: ServiceTable, all: seq<BootService>) {
    t.keys == SlotOrder(all) &&
    (forall k :: k in t.services <==> SlotUsed(all, k)) &&
    (forall k :: k in t.services ==> exists i :: Chosen(all, i, k) && t.services[k] == all[i])
  }

  lemma {:induction false} SlotOrderContents(all: seq<BootService>, k: ClassId)
    ensures k in SlotOrder(all) <==> SlotUsed(all, k)
    decreases |all|
  {
    if all != [] {
      var p := all[..|all| - 1];
      SlotOrderContents(p, k);
      if SlotUsed(p, k) {
        var i :| 0 <= i < |p| && Slot(p[i]) == k;
        assert all[i] == p[i];
      }
      if SlotUsed(all, k) {
        var i :| 0 <= i < |all| && Slot(all[i]) == k;
        if i < |p| {
          assert p[i] == all[i];
        }
      }
    }
  }

  /** A thrown conflict always has two non-default services behind it. */
  lemma StepErrClash(all: seq<BootService>, t: ServiceTable)
    requires |all| > 0 && ConsistentAnnotations(all)
    requires Resolved(t, all[..|all| - 1])
    requires Step(t, all[|all| - 1]).Err?
    ensures Clash(all)
  {
    var n := |all|;
    var p := all[..n - 1];
    var s := all[n - 1];
    var k := Slot(s);
    var i :| Chosen(p, i, k) && t.services[k] == p[i];
    assert all[i] == p[i];
    assert s.overrideTarget.None? ==> Slot(all[i]) == s.cls;
    assert !all[i].isDefault && !all[n - 1].isDefault && Slot(all[i]) == Slot(all[n - 1]);
  }

  /** A step that succeeds adds no clash. */
  lemma StepOkNoClash(all: seq<BootService>, t: ServiceTable)
    requires |all| > 0
    requires Resolved(t, all[..|all| - 1]) && !Clash(all[..|all| - 1])
    requires Step(t, all[|all| - 1]).Ok?
    ensures !Clash(all)
  {
    var n := |all|;
    var p := all[..n - 1];
    var s := all[n - 1];
    var k := Slot(s);
    if !s.isDefault {
      if k in t.services {
        var c :| Chosen(p, c, k) && t.services[k] == p[c];
        assert p[c].isDefault;
      } else {
        assert !SlotUsed(p, k);
      }
      assert forall i :: 0 <= i < n - 1 && !p[i].isDefault ==> Slot(p[i]) != k;
    }
    forall i, j | 0 <= i < j < n && !all[i].isDefault && !all[j].isDefault
      ensures Slot(all[i]) != Slot(all[j])
    {
      assert all[i] == p[i];
      if j < n - 1 {
        assert all[j] == p[j];
      }
    }
  }

  /** A choice made on a prefix stands when the next service does not compete for that slot as a non-default. */
  lemma ChosenExtends(all: seq<BootService>, i: int, k: ClassId)
    requires |all| > 0 && Chosen(all[..|all| - 1], i, k)
    requires Slot(all[|all| - 1]) == k ==> all[|all| - 1].isDefault
    ensures Chosen(all, i, k)
  {
    var p := all[..|all| - 1];
    assert all[i] == p[i];
    assert forall j :: 0 <= j < |p| ==> all[j] == p[j];
  }

  /** The last service is the choice for its slot if it is a non-default, or the first default there. */
  lemma ChosenLast(all: seq<BootService>, k: ClassId)
    requires |all| > 0 && Slot(all[|all| - 1]) == k
    requires all[|all| - 1].isDefault ==> !SlotUsed(all[..|all| - 1], k)
    ensures Chosen(all, |all| - 1, k)
  {
    var p := all[..|all| - 1];
    if all[|all| - 1].isDefault {
      assert forall j :: 0 <= j < |p| ==> all[j] == p[j] && Slot(p[j]) != k;
    }
  }

  /** The slots used by a list are those of its prefix and the last service's. */
  lemma SlotUsedStep(all: seq<BootService>, kk: ClassId)
    requires |all| > 0
    ensures SlotUsed(all, kk) <==> SlotUsed(all[..|all| - 1], kk) || kk == Slot(all[|all| - 1])
  {
    var p := all[..|all| - 1];
    if SlotUsed(p, kk) {
      var i :| 0 <= i < |p| && Slot(p[i]) == kk;
      assert all[i] == p[i];
    }
    if SlotUsed(all, kk) && kk != Slot(all[|all| - 1]) {
      var i :| 0 <= i < |all| && Slot(all[i]) == kk;
      assert p[i] == all[i];
    }
    assert Slot(all[|all| - 1]) == Slot(all[|all| - 1]);
  }

  /** After a step that succeeds, each slot of the table holds the service chosen for it. */
  lemma StepChosen(all: seq<BootService>, t: ServiceTable, kk: ClassId)
    requires |all| > 0
    requires Resolved(t, all[..|all| - 1])
    requires Step(t, all[|all| - 1]).Ok? && kk in Step(t, all[|all| - 1]).value.services
    ensures exists i :: Chosen(all, i, kk) && Step(t, all[|all| - 1]).value.services[kk] == all[i]
  {
    var p := all[..|all| - 1];
    var s := all[|all| - 1];
    var t' := Step(t, s).value;
    if kk == Slot(s) && !(s.isDefault && Slot(s) in t.services) {
      ChosenLast(all, kk);
      assert t'.services[kk] == all[|all| - 1];
    } else {
      assert kk in t.services && t'.services[kk] == t.services[kk];
      var i :| Chosen(p, i, kk) && t.services[kk] == p[i];
      ChosenExtends(all, i, kk);
      assert all[i] == p[i];
    }
  }

  /** A step that succeeds keeps the table resolved. */
  lemma StepOkResolved(all: seq<BootService>, t: ServiceTable)
    requires |all| > 0
    requires Resolved(t, all[..|all| - 1])
    requires Step(t, all[|all| - 1]).Ok?
    ensures Resolved(Step(t, all[|all| - 1]).value, all)
  {
    var p := all[..|all| - 1];
    var k := Slot(all[|all| - 1]);
    var t' := Step(t, all[|all| - 1]).value;
    SlotOrderContents(p, k);
    assert t'.keys == SlotOrder(all);
    forall kk
      ensures kk in t'.services <==> SlotUsed(all, kk)
    {
      SlotUsedStep(all, kk);
    }
    forall kk | kk in t'.services
      ensures exists i :: Chosen(all, i, kk) && t'.services[kk] == all[i]
    {
      StepChosen(all, t, kk);
    }
  }

  /**
   * The resolution rule, for services whose annotations belong to their
   * class: loading throws exactly when two non-default services compete for
   * one slot, and otherwise the table has one entry per slot any service
   * competes for, holding that slot's non-default service or, failing one,
   * its first default, with the keys in first-use order.
   */
  lemma {:induction false} ResolveCorrect(all: seq<BootService>)
    requires ConsistentAnnotations(all)
    ensures Resolve(all).Err? <==> Clash(all)
    ensures Resolve(all).Ok? ==> Resolved(Resolve(all).value, all)
    decreases |all|
  {
    if all == [] {
      forall k ensures !SlotUsed(all, k) {}
    } else {
      var n := |all|;
      var p := all[..n - 1];
      PrefixKeepsFacts(all);
      ResolveCorrect(p);
      if Resolve(p).Err? {
        assert Resolve(all) == Resolve(p);
      } else {
        ResolveLast(all, Resolve(p).value);
      }
    }
  }

  /** The last service's step keeps the resolution correct when the rest resolved correctly. */
  lemma ResolveLast(all: seq<BootService>, t: ServiceTable)
    requires all != [] && ConsistentAnnotations(all)
    requires Resolve(all[..|all| - 1]) == Ok(t)
    requires !Clash(all[..|all| - 1]) && Resolved(t, all[..|all| - 1])
    ensures Resolve(all).Err? <==> Clash(all)
    ensures Resolve(all).Ok? ==> Resolved(Resolve(all).value, all)
  {
    assert Resolve(all) == Step(t, all[|all| - 1]);
    if Step(t, all[|all| - 1]).Err? {
      StepErrClash(all, t);
    } else {
      StepOkNoClash(all, t);
      StepOkResolved(all, t);
    }
  }

  /** Dropping the last service keeps the annotations consistent, and a clash among the rest is a clash of all. */
  lemma PrefixKeepsFacts(all: seq<BootService>)
    requires all != [] && ConsistentAnnotations(all)
    ensures ConsistentAnnotations(all[..|all| - 1])
    ensures Clash(all[..|all| - 1]) ==> Clash(all)
  {
    var p := all[..|all| - 1];
    assert forall j :: 0 <= j < |p| ==> p[j] == all[j];
    if Clash(p) {
      var i, j :| 0 <= i < j < |p| && !p[i].isDefault && !p[j].isDefault && Slot(p[i]) == Slot(p[j]);
      assert !all[i].isDefault && !all[j].isDefault && Slot(all[i]) == Slot(all[j]);
    }
  }

  /** A non-default service ends up in its slot wherever it stands in the list. */
  lemma NonDefaultWins(all: seq<BootService>, i: int)
    requires ConsistentAnnotations(all) && Resolve(all).Ok?
    requires 0 <= i < |all| && !all[i].isDefault
    ensures Slot(all[i]) in Resolve(all).value.services
    ensures Resolve(all).value.services[Slot(all[i])] == all[i]
  {
    ResolveCorrect(all);
    var k := Slot(all[i]);
    assert SlotUsed(all, k);
    var j :| Chosen(all, j, k) && Resolve(all).value.services[k] == all[j];
    var a, b := all[i], all[j];
    assert !b.isDefault;
    assert i < j ==> Slot(a) != Slot(b);
    assert j < i ==> Slot(b) != Slot(a);
  }

  /** One default and one override of its class: the override is registered, in either order. */
  lemma OverrideEitherOrder(d: BootService, o: BootService)
    requires d.isDefault && !o.isDefault && o.overrideTarget == Some(d.cls)
    ensures Resolve([d, o]) == Ok(ServiceTable([d.cls], map[d.cls := o]))
    ensures Resolve([o, d]) == Ok(ServiceTable([d.cls], map[d.cls := o]))
  {
    assert [d][..0] == [] && [o][..0] == [];
    assert Resolve([]) == Ok(Empty);
    assert Empty.services == map[] && Empty.keys == [];
    assert Put(Empty, d.cls, d) == ServiceTable([d.cls], map[d.cls := d]);
    assert Step(Empty, d) == Ok(ServiceTable([d.cls], map[d.cls := d]));
    assert Resolve([d]) == Ok(ServiceTable([d.cls], map[d.cls := d]));
    assert Resolve([o]) == Ok(ServiceTable([d.cls], map[d.cls := o]));
    assert [d, o][..1] == [d] && [o, d][..1] == [o];
    assert map[d.cls := d][d.cls := o] == map[d.cls := o];
  }

  // Phase ordering.

  /** `a` comes strictly before `b`: lower priority first, or higher first when the comparator is reversed. */
  predicate Precedes(a: BootService, b: BootService, descending: bool) {
    if descending then a.priority > b.priority else a.priority < b.priority
  }

  predicate SortedBy(s: seq<BootService>, descending: bool) {
    forall i, j :: 0 <= i < j < |s| ==> !Precedes(s[j], s[i], descending)
  }

  /** Inserts `x` after every element it does not strictly precede. */
  function Insert(x: BootService, sorted: seq<BootService>, descending: bool): seq<BootService> {
    if sorted == [] then [x]
    else if Precedes(x, sorted[0], descending) then [x] + sorted
    else [sorted[0]] + Insert(x, sorted[1..], descending)
  }

  /** `stream().sorted(Comparator.comparingInt(BootService::priority))`, or its `reversed()`. */
  function SortByPriority(s: seq<BootService>, descending: bool): seq<BootService>
    decreases |s|
  {
    if s == [] then []
    else Insert(s[|s| - 1], SortByPriority(s[..|s| - 1], descending), descending)
  }

  /** The services of priority `p`, in order. */
  function WithPriority(s: seq<BootService>, p: int): seq<BootService> {
    if s == [] then []
    else (if s[0].priority == p then [s[0]] else []) + WithPriority(s[1..], p)
  }

  lemma {:induction false} WithPriorityAppend(a: seq<BootService>, b: seq<BootService>, p: int)
    ensures WithPriority(a + b, p) == WithPriority(a, p) + WithPriority(b, p)
  {
    if a == [] {
      assert a + b == b;
    } else {
      var head := if a[0].priority == p then [a[0]] else [];
      WithPriorityAppend(a[1..], b, p);
      calc {
        WithPriority(a + b, p);
        { assert a + b == [a[0]] + (a[1..] + b); }
        WithPriority([a[0]] + (a[1..] + b), p);
        { WithPriorityCons(a[0], a[1..] + b, p); }
        head + (WithPriority(a[1..], p) + WithPriority(b, p));
        { ConcatAssoc(head, WithPriority(a[1..], p), WithPriority(b, p)); }
        (head + WithPriority(a[1..], p)) + WithPriority(b, p);
        { WithPriorityCons(a[0], a[1..], p); assert [a[0]] + a[1..] == a; }
        WithPriority(a, p) + WithPriority(b, p);
      }
    }
  }

  lemma ConcatAssoc(x: seq<BootService>, y: seq<BootService>, z: seq<BootService>)
    ensures x + (y + z) == (x + y) + z
  {
  }

  lemma WithPriorityCons(a: BootService, s: seq<BootService>, p: int)
    ensures WithPriority([a] + s, p) == (if a.priority == p then [a] else []) + WithPriority(s, p)
  {
    assert ([a] + s)[1..] == s;
  }

  lemma {:induction false} WithPriorityNone(s: seq<BootService>, p: int)
    requires forall i :: 0 <= i < |s| ==> s[i].priority != p
    ensures WithPriority(s, p) == []
  {
    if s != [] {
      WithPriorityNone(s[1..], p);
    }
  }

  lemma {:induction false} InsertPermutes(x: BootService, r: seq<BootService>, descending: bool)
    ensures multiset(Insert(x, r, descending)) == multiset(r) + multiset{x}
  {
    if r != [] && !Precedes(x, r[0], descending) {
      InsertPermutes(x, r[1..], descending);
      assert r == [r[0]] + r[1..];
    }
  }

  lemma {:induction false} InsertSorted(x: BootService, r: seq<BootService>, descending: bool)
    requires SortedBy(r, descending)
    ensures SortedBy(Insert(x, r, descending), descending)
  {
    if r == [] {
    } else if Precedes(x, r[0], descending) {
      forall i | 0 <= i < |r|
        ensures !Precedes(r[i], x, descending)
      {
        if i > 0 {
          assert !Precedes(r[i], r[0], descending);
        }
      }
      ConsSorted(x, r, descending);
    } else {
      SortedTail(r, descending);
      InsertSorted(x, r[1..], descending);
      InsertNotBeforeHead(x, r, descending);
      ConsSorted(r[0], Insert(x, r[1..], descending), descending);
    }
  }

  /** An element no element of a sorted sequence precedes can go in front of it. */
  lemma ConsSorted(a: BootService, q: seq<BootService>, descending: bool)
    requires SortedBy(q, descending)
    requires forall i | 0 <= i < |q| :: !Precedes(q[i], a, descending)
    ensures SortedBy([a] + q, descending)
  {
    var aq := [a] + q;
    forall i, j | 0 <= i < j < |aq|
      ensures !Precedes(aq[j], aq[i], descending)
    {
      assert aq[j] == q[j - 1];
      if i > 0 {
        assert aq[i] == q[i - 1];
      }
    }
  }

  /** Inserting behind the head of a sorted sequence puts nothing that precedes the head. */
  lemma InsertNotBeforeHead(x: BootService, r: seq<BootService>, descending: bool)
    requires r != [] && SortedBy(r, descending) && !Precedes(x, r[0], descending)
    ensures forall i | 0 <= i < |Insert(x, r[1..], descending)| ::
              !Precedes(Insert(x, r[1..], descending)[i], r[0], descending)
  {
    var q := Insert(x, r[1..], descending);
    InsertPermutes(x, r[1..], descending);
    forall i | 0 <= i < |q|
      ensures !Precedes(q[i], r[0], descending)
    {
      assert q[i] in multiset(q);
      if q[i] != x {
        assert q[i] in multiset(r[1..]);
        var m :| 0 <= m < |r[1..]| && r[1..][m] == q[i];
        assert r[m + 1] == q[i];
      }
    }
  }

  /** A sorted sequence's tail is sorted. */
  lemma SortedTail(r: seq<BootService>, descending: bool)
    requires r != [] && SortedBy(r, descending)
    ensures SortedBy(r[1..], descending)
  {
    forall i, j | 0 <= i < j < |r[1..]|
      ensures !Precedes(r[1..][j], r[1..][i], descending)
    {
      assert r[1..][j] == r[j + 1] && r[1..][i] == r[i + 1];
    }
  }

  /** An element placed in front of a sorted sequence it precedes has no equal-priority element after it. */
  lemma InsertStableFront(x: BootService, r: seq<BootService>, descending: bool, p: int)
    requires r != [] && SortedBy(r, descending) && Precedes(x, r[0], descending)
    ensures WithPriority([x] + r, p) == WithPriority(r, p) + (if x.priority == p then [x] else [])
  {
    if x.priority == p {
      forall i | 0 <= i < |r|
        ensures r[i].priority != p
      {
        if i > 0 {
          assert !Precedes(r[i], r[0], descending);
        }
      }
      WithPriorityNone(r, p);
    }
    WithPriorityAppend([x], r, p);
  }

  lemma {:induction false} InsertStable(x: BootService, r: seq<BootService>, descending: bool, p: int)
    requires SortedBy(r, descending)
    ensures WithPriority(Insert(x, r, descending), p) == WithPriority(r, p) + (if x.priority == p then [x] else [])
  {
    if r == [] {
    } else if Precedes(x, r[0], descending) {
      InsertStableFront(x, r, descending, p);
    } else {
      SortedTail(r, descending);
      InsertStable(x, r[1..], descending, p);
      InsertStableBehind(x, r, descending, p);
    }
  }

  /** Inserting behind the head keeps the order of equal priorities when inserting into the tail does. */
  lemma InsertStableBehind(x: BootService, r: seq<BootService>, descending: bool, p: int)
    requires r != [] && !Precedes(x, r[0], descending)
    requires WithPriority(Insert(x, r[1..], descending), p) == WithPriority(r[1..], p) + (if x.priority == p then [x] else [])
    ensures WithPriority(Insert(x, r, descending), p) == WithPriority(r, p) + (if x.priority == p then [x] else [])
  {
    var ins := Insert(x, r[1..], descending);
    var head := if r[0].priority == p then [r[0]] else [];
    var last := if x.priority == p then [x] else [];
    calc {
      WithPriority(Insert(x, r, descending), p);
      { assert Insert(x, r, descending) == [r[0]] + ins; }
      WithPriority([r[0]] + ins, p);
      { WithPriorityCons(r[0], ins, p); }
      head + (WithPriority(r[1..], p) + last);
      { ConcatAssoc(head, WithPriority(r[1..], p), last); }
      (head + WithPriority(r[1..], p)) + last;
      { WithPriorityCons(r[0], r[1..], p); assert [r[0]] + r[1..] == r; }
      WithPriority(r, p) + last;
    }
  }

  lemma {:induction false} SortSorted(s: seq<BootService>, descending: bool)
    ensures SortedBy(SortByPriority(s, descending), descending)
    decreases |s|
  {
    if s != [] {
      SortSorted(s[..|s| - 1], descending);
      InsertSorted(s[|s| - 1], SortByPriority(s[..|s| - 1], descending), descending);
    }
  }

  lemma {:induction false} SortPermutes(s: seq<BootService>, descending: bool)
    ensures multiset(SortByPriority(s, descending)) == multiset(s)
    decreases |s|
  {
    if s != [] {
      var q := s[..|s| - 1];
      SortPermutes(q, descending);
      InsertPermutes(s[|s| - 1], SortByPriority(q, descending), descending);
      assert s == q + [s[|s| - 1]];
    }
  }

  lemma {:induction false} SortStable(s: seq<BootService>, descending: bool, p: int)
    ensures WithPriority(SortByPriority(s, descending), p) == WithPriority(s, p)
    decreases |s|
  {
    if s != [] {
      var q := s[..|s| - 1];
      var x := s[|s| - 1];
      SortStable(q, descending, p);
      SortSorted(q, descending);
      InsertStable(x, SortByPriority(q, descending), descending, p);
      assert s == q + [x];
      WithPriorityAppend(q, [x], p);
    }
  }

  /**
   * The phase order: a sort by priority that lists every service once,
   * puts none before one of strictly lower priority (higher, when
   * descending), and keeps services of equal priority in their table order.
   */
  lemma SortByPriorityCorrect(s: seq<BootService>, descending: bool, p: int)
    ensures SortedBy(SortByPriority(s, descending), descending)
    ensures multiset(SortByPriority(s, descending)) == multiset(s)
    ensures |SortByPriority(s, descending)| == |s|
    ensures WithPriority(SortByPriority(s, descending), p) == WithPriority(s, p)
  {
    SortSorted(s, descending);
    SortPermutes(s, descending);
    SortStable(s, descending, p);
    assert |SortByPriority(s, descending)| == |multiset(SortByPriority(s, descending))|;
  }

  datatype Phase = Preparing | Starting | Completing | ShuttingDown

  /** One call of a phase method on a service, and whether it threw. */
  datatype Invocation = Invocation(phase: Phase, service: BootService, failed: bool)

  /** Every service of `order` is called in turn; `throwing` says which calls throw. */
  function Log(phase: Phase, order: seq<BootService>, throwing: set<(Phase, BootService)>): seq<Invocation> {
    seq(|order|, i requires 0 <= i < |order| => Invocation(phase, order[i], (phase, order[i]) in throwing))
  }

  /**
   * The `forEach` with its `try`/`catch`: each service is called once, in
   * order, and a call that throws is logged and the loop goes on.
   */
  method RunPhase(phase: Phase, order: seq<BootService>, throwing: set<(Phase, BootService)>) returns (log: seq<Invocation>)
    ensures |log| == |order|
    ensures forall i :: 0 <= i < |order| ==>
              log[i].phase == phase && log[i].service == order[i] && (log[i].failed <==> (phase, order[i]) in throwing)
    ensures log == Log(phase, order, throwing)
  {
    log := [];
    for i := 0 to |order|
      invariant log == Log(phase, order[..i], throwing)
    {
      log := log + [Invocation(phase, order[i], (phase, order[i]) in throwing)];
    }
    assert order[..|order|] == order;
  }

  /** `ServiceManager.INSTANCE`. */
  class ServiceManager {
    var bootedServices: ServiceTable

    ghost predicate Valid()
      reads this
    {
      WellFormed(bootedServices)
    }

    /** The field starts as an empty map. */
    constructor ()
      ensures Valid() && bootedServices == Empty
    {
      bootedServices := Empty;
    }

    /**
     * `loadAllServices()`: the loop over the loaded services, building a
     * fresh table or throwing on the first conflict; it leaves the manager
     * alone.
     */
    method LoadAllServices(all: seq<BootService>) returns (r: Result<ServiceTable, Conflict>)
      ensures r == Resolve(all)
    {
      var t := Empty;
      for i := 0 to |all|
        invariant Resolve(all[..i]) == Ok(t)
      {
        assert all[..i + 1][..i] == all[..i];
        var s := all[i];
        if s.isDefault {
          if s.cls !in t.services {
            t := Put(t, s.cls, s);
          }
        } else if s.overrideTarget.None? {
          if s.cls in t.services {
            ResolveErrSticks(all, i + 1);
            return Err(DuplicateService(s.cls));
          }
          t := Put(t, s.cls, s);
        } else {
          var target := s.overrideTarget.value;
          if target in t.services {
            if t.services[target].isDefault {
              t := Put(t, target, s);
            } else {
              ResolveErrSticks(all, i + 1);
              return Err(OverrideConflict(s.cls, target));
            }
          } else {
            t := Put(t, target, s);
          }
        }
      }
      assert all[..|all|] == all;
      return Ok(t);
    }

    /**
     * `boot()`: loads the table and, when that does not throw, stores it and
     * runs prepare, then startup, then onComplete. A conflict leaves the
     * field as it was and is thrown before any phase runs.
     */
    method Boot(all: seq<BootService>, throwing: set<(Phase, BootService)>) returns (r: Result<seq<Invocation>, Conflict>)
      requires Valid()
      modifies this
      ensures Valid()
      ensures Resolve(all).Err? ==> r == Err(Resolve(all).error) && bootedServices == old(bootedServices)
      ensures Resolve(all).Ok? ==>
                (bootedServices == Resolve(all).value && r.Ok? &&
                 r.value == Log(Preparing, SortByPriority(Values(bootedServices), false), throwing)
                            + Log(Starting, SortByPriority(Values(bootedServices), false), throwing)
                            + Log(Completing, Values(bootedServices), throwing))
    {
      var loaded := LoadAllServices(all);
      if loaded.Err? {
        return Err(loaded.error);
      }
      ResolveWellFormed(all);
      bootedServices := loaded.value;
      var prepared := Prepare(throwing);
      var started := Startup(throwing);
      var completed := OnComplete(throwing);
      return Ok(prepared + started + completed);
    }

    /** `prepare()`: every booted service, in ascending priority, table order among equals. */
    method Prepare(throwing: set<(Phase, BootService)>) returns (log: seq<Invocation>)
      requires Valid()
      ensures log == Log(Preparing, SortByPriority(Values(bootedServices), false), throwing)
      ensures |log| == |Values(bootedServices)|
      ensures forall i, j :: 0 <= i < j < |log| ==> log[i].service.priority <= log[j].service.priority
    {
      var order := SortByPriority(Values(bootedServices), false);
      SortByPriorityCorrect(Values(bootedServices), false, 0);
      log := RunPhase(Preparing, order, throwing);
    }

    /** `startup()`: every booted service, in ascending priority, table order among equals. */
    method Startup(throwing: set<(Phase, BootService)>) returns (log: seq<Invocation>)
      requires Valid()
      ensures log == Log(Starting, SortByPriority(Values(bootedServices), false), throwing)
      ensures |log| == |Values(bootedServices)|
      ensures forall i, j :: 0 <= i < j < |log| ==> log[i].service.priority <= log[j].service.priority
    {
      var order := SortByPriority(Values(bootedServices), false);
      SortByPriorityCorrect(Values(bootedServices), false, 0);
      log := RunPhase(Starting, order, throwing);
    }

    /** `onComplete()`: every booted service, in table order. */
    method OnComplete(throwing: set<(Phase, BootService)>) returns (log: seq<Invocation>)
      requires Valid()
      ensures log == Log(Completing, Values(bootedServices), throwing)
      ensures |log| == |bootedServices.keys|
      ensures forall i :: 0 <= i < |log| ==> log[i].service == bootedServices.services[bootedServices.keys[i]]
    {
      log := RunPhase(Completing, Values(bootedServices), throwing);
    }

    /** `shutdown()`: every booted service, in descending priority, table order among equals. */
    method Shutdown(throwing: set<(Phase, BootService)>) returns (log: seq<Invocation>)
      requires Valid()
      ensures log == Log(ShuttingDown, SortByPriority(Values(bootedServices), true), throwing)
      ensures |log| == |Values(bootedServices)|
      ensures forall i, j :: 0 <= i < j < |log| ==> log[i].service.priority >= log[j].service.priority
    {
      var order := SortByPriority(Values(bootedServices), true);
      SortByPriorityCorrect(Values(bootedServices), true, 0);
      log := RunPhase(ShuttingDown, order, throwing);
    }

    /** `findService(c)`: the entry stored under `c`, or null. */
    method FindService(c: ClassId) returns (r: Option<BootService>)
      ensures c in bootedServices.services ==> r == Some(bootedServices.services[c])
      ensures c !in bootedServices.services ==> r == None
    {
      if c in bootedServices.services {
        r := Some(bootedServices.services[c]);
      } else {
        r := None;
      }
    }
  }
}

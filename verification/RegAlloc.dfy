/** Linear-scan register allocation (Analyzers/regAlloc.cpp:107-239). */
module RegAlloc {
  import opened Util
  import opened Cfg
  import opened Ir
  import opened LiveRanges
  import opened Pools

  /** A pending death: the value of `instr` leaves `place`. */
  datatype Death = Death(instr: Id, place: Place)

  type Events = map<nat, seq<Death>>

  /** The places recorded for each instruction. */
  type Allocation = map<Id, seq<(Interval, Place)>>

  // ---------- the initial pools ----------

  method AddRegister(pool: Pool, reg: Place) returns (more: Pool)
    requires PoolOk(pool) && reg !in FreeIn(pool)
    ensures PoolOk(more) && FreeIn(more) == FreeIn(pool) + {reg}
    ensures forall n :: HasBucket(more, n) <==> HasBucket(pool, n) || n == reg.size
  {
    var i := FindBucket(pool, reg.size);
    if i == |pool| {
      assert pool[..i] == pool && pool[i..] == [];
      InsertBucket(pool, i, reg.size);
      more := pool + [(reg.size, [])];
      assert more == pool[..i] + [(reg.size, [])] + pool[i..];
    } else {
      more := pool;
    }
    ghost var widened := more;
    PutLast(more, i, reg);
    more := more[i := (more[i].0, more[i].1 + [reg])];
    SameSizesBuckets(widened, more);
  }

  /** std::sort by bucket size. */
  function SortPool(pool: Pool): Pool {
    SortBy((b: Bucket) => b.0 as int, pool)
  }

  lemma SortedPoolOk(pool: Pool)
    requires PoolOk(pool)
    ensures PoolOk(SortPool(pool)) && SortedPool(SortPool(pool)) && FreeIn(SortPool(pool)) == FreeIn(pool)
    ensures forall n :: HasBucket(SortPool(pool), n) <==> HasBucket(pool, n)
  {
    var key := (b: Bucket) => b.0 as int;
    var r := SortBy(key, pool);
    assert Distinct(pool);
    SortSorted(key, pool);
    forall i, j | 0 <= i < j < |r| ensures r[i].0 < r[j].0 {
      assert key(r[i]) <= key(r[j]);
      assert r[i] != r[j] && r[i] in pool && r[j] in pool;
      var a, b := FirstIndex(pool, r[i]), FirstIndex(pool, r[j]);
    }
  }

  ghost function RegistersOf(regs: seq<Place>, fp: bool): set<Place> {
    set r | r in regs && r.isFp == fp
  }

  method InitFreePool(regs: seq<Place>) returns (freeInt: Pool, freeFp: Pool)
    requires Distinct(regs)
    ensures PoolOk(freeInt) && SortedPool(freeInt) && FreeIn(freeInt) == RegistersOf(regs, false)
    ensures PoolOk(freeFp) && SortedPool(freeFp) && FreeIn(freeFp) == RegistersOf(regs, true)
    ensures forall r :: r in regs ==> HasBucket(if r.isFp then freeFp else freeInt, r.size)
  {
    freeInt, freeFp := [], [];
    for i := 0 to |regs|
      invariant PoolOk(freeInt) && FreeIn(freeInt) == RegistersOf(regs[..i], false)
      invariant PoolOk(freeFp) && FreeIn(freeFp) == RegistersOf(regs[..i], true)
      invariant forall r :: r in regs[..i] ==> HasBucket(if r.isFp then freeFp else freeInt, r.size)
    {
      DistinctSplit(regs, i, regs[i]);
      assert regs[..i + 1] == regs[..i] + [regs[i]];
      if regs[i].isFp {
        freeFp := AddRegister(freeFp, regs[i]);
      } else {
        freeInt := AddRegister(freeInt, regs[i]);
      }
    }
    assert regs[..|regs|] == regs;
    SortedPoolOk(freeInt);
    SortedPoolOk(freeFp);
    freeInt, freeFp := SortPool(freeInt), SortPool(freeFp);
  }

  // ---------- conservation ----------

  ghost function PlacesOf(ds: seq<Death>): set<Place> {
    set d | d in ds :: d.place
  }

  ghost function Held(events: Events): set<Place> {
    set k, pl | k in events && pl in PlacesOf(events[k]) :: pl
  }

  /** No place waits for two deaths. */
  ghost predicate EventsOk(events: Events) {
    && (forall k :: k in events ==> DeathsApart(events[k]))
    && (forall k: nat, k': nat :: k in events && k' in events && k != k' ==>
        PlacesOf(events[k]) !! PlacesOf(events[k']))
  }

  ghost predicate DeathsApart(ds: seq<Death>) {
    forall i, j :: 0 <= i < j < |ds| ==> ds[i].place != ds[j].place
  }

  /** The pools and the pending events of an allocator at one moment, and the places there are. */
  datatype State = State(freeInt: Pool, freeFp: Pool, freeStack: Pool, events: Events, slots: seq<Place>, nextId: nat)

  function PoolFor(st: State, pl: Place): Pool {
    if !pl.isReg then st.freeStack else if pl.isFp then st.freeFp else st.freeInt
  }

  ghost function Free(st: State): set<Place> {
    FreeIn(st.freeInt) + FreeIn(st.freeFp) + FreeIn(st.freeStack)
  }

  /** Each register and each slot is in exactly one free pool, in the bucket of its size, or held by exactly
      one pending death. */
  ghost predicate Conserved(regs: set<Place>, st: State) {
    && PoolOk(st.freeInt) && PoolOk(st.freeFp) && PoolOk(st.freeStack) && EventsOk(st.events)
    && (forall pl :: pl in FreeIn(st.freeInt) ==> pl.isReg && !pl.isFp)
    && (forall pl :: pl in FreeIn(st.freeFp) ==> pl.isReg && pl.isFp)
    && (forall pl :: pl in FreeIn(st.freeStack) ==> !pl.isReg)
    && Free(st) !! Held(st.events)
    && Free(st) + Held(st.events) == regs + Elems(st.slots)
    && (forall pl :: pl in regs + Elems(st.slots) ==> HasBucket(PoolFor(st, pl), pl.size))
  }

  function SetPool(st: State, pl: Place, pool: Pool): State {
    if !pl.isReg then st.(freeStack := pool) else if pl.isFp then st.(freeFp := pool) else st.(freeInt := pool)
  }

  /** The pending deaths of one position are `ds`. */
  function WithDeaths(events: Events, at: nat, ds: seq<Death>): Events {
    events[at := ds]
  }

  lemma DeathsHead(ds: seq<Death>)
    requires DeathsApart(ds) && ds != []
    ensures DeathsApart(ds[1..]) && ds[0].place in PlacesOf(ds) && PlacesOf(ds[1..]) == PlacesOf(ds) - {ds[0].place}
  {
    assert ds == [ds[0]] + ds[1..];
    forall d | d in ds[1..] ensures d in ds && d.place != ds[0].place {
      var i := FirstIndex(ds[1..], d);
      assert ds[i + 1] == d;
    }
  }

  /** The places held at another position than `at`. */
  lemma HeldElsewhere(events: Events, at: nat, k: nat)
    requires EventsOk(events) && k in events && k != at
    ensures PlacesOf(events[k]) <= Held(events)
    ensures at in events ==> PlacesOf(events[k]) !! PlacesOf(events[at])
  {
  }

  lemma EventsUpdate(events: Events, at: nat, ds: seq<Death>)
    requires EventsOk(events) && DeathsApart(ds)
    requires forall k: nat :: k in events && k != at ==> PlacesOf(events[k]) !! PlacesOf(ds)
    ensures EventsOk(WithDeaths(events, at, ds))
  {
    hide DeathsApart, PlacesOf;
  }

  /** Replacing the deaths of one position. */
  lemma HeldUpdate(events: Events, at: nat, ds: seq<Death>, before: set<Place>)
    requires EventsOk(events) && DeathsApart(ds)
    requires before == if at in events then PlacesOf(events[at]) else {}
    requires PlacesOf(ds) !! (Held(events) - before)
    ensures EventsOk(WithDeaths(events, at, ds)) && before <= Held(events)
    ensures Held(WithDeaths(events, at, ds)) == Held(events) - before + PlacesOf(ds)
  {
    forall k: nat | k in events && k != at
      ensures PlacesOf(events[k]) <= Held(events) - before && PlacesOf(events[k]) !! PlacesOf(ds)
    {
      HeldElsewhere(events, at, k);
    }
    EventsUpdate(events, at, ds);
    hide DeathsApart, PlacesOf, EventsOk;
    var events' := WithDeaths(events, at, ds);
    forall pl ensures pl in Held(events') <==> pl in Held(events) - before + PlacesOf(ds) {
      if pl in Held(events') {
        var k: nat :| k in events' && pl in PlacesOf(events'[k]);
        assert k != at ==> events'[k] == events[k];
      }
      if pl in Held(events) - before {
        var k: nat :| k in events && pl in PlacesOf(events[k]);
        assert k in events' && pl in PlacesOf(events'[k]);
      }
      if pl in PlacesOf(ds) {
        assert at in events' && pl in PlacesOf(events'[at]);
      }
    }
  }

  lemma HeldAtHead(events: Events, at: nat)
    requires EventsOk(events) && at in events && events[at] != []
    ensures EventsOk(WithDeaths(events, at, events[at][1..]))
    ensures events[at][0].place in Held(events)
    ensures Held(WithDeaths(events, at, events[at][1..])) == Held(events) - {events[at][0].place}
  {
    DeathsHead(events[at]);
    hide PlacesOf, DeathsApart;
    HeldUpdate(events, at, events[at][1..], PlacesOf(events[at]));
  }

  lemma ConservedFree(regs: set<Place>, st: State, at: nat, more: Pool)
    requires Conserved(regs, st) && at in st.events && st.events[at] != []
    requires var pl := st.events[at][0].place;
             PoolOk(more) && SameSizes(PoolFor(st, pl), more) && FreeIn(more) == FreeIn(PoolFor(st, pl)) + {pl}
    ensures var pl := st.events[at][0].place;
            Conserved(regs, SetPool(st, pl, more).(events := WithDeaths(st.events, at, st.events[at][1..])))
  {
    hide PoolOk, EventsOk, HasBucket, Held, FreeIn;
    var pl := st.events[at][0].place;
    HeldAtHead(st.events, at);
    hide SameSizes;
    SameSizesBuckets(PoolFor(st, pl), more);
    var st' := SetPool(st, pl, more).(events := WithDeaths(st.events, at, st.events[at][1..]));
    assert Free(st') == Free(st) + {pl};
  }

  /** A pending place can be returned: its bucket exists and does not hold it. */
  lemma CanReturn(regs: set<Place>, st: State, at: nat)
    requires Conserved(regs, st) && at in st.events && st.events[at] != []
    ensures var pl := st.events[at][0].place;
            PoolOk(PoolFor(st, pl)) && HasBucket(PoolFor(st, pl), pl.size) && pl !in FreeIn(PoolFor(st, pl))
  {
    HeldAtHead(st.events, at);
    var pl := st.events[at][0].place;
    assert pl in regs + Elems(st.slots);
    assert FreeIn(PoolFor(st, pl)) <= Free(st);
  }

  lemma HeldErase(events: Events, at: nat)
    requires EventsOk(events) && at in events && events[at] == []
    ensures EventsOk(events - {at}) && Held(events - {at}) == Held(events)
  {
    hide DeathsApart;
    forall pl | pl in Held(events) ensures pl in Held(events - {at}) {
      var k: nat :| k in events && pl in PlacesOf(events[k]);
      assert k in events - {at} && pl in PlacesOf((events - {at})[k]);
    }
  }

  lemma ConservedErase(regs: set<Place>, st: State, at: nat)
    requires Conserved(regs, st) && at in st.events && st.events[at] == []
    ensures Conserved(regs, st.(events := st.events - {at}))
  {
    hide PoolOk, EventsOk, Held, HasBucket, FreeIn;
    HeldErase(st.events, at);
    assert Free(st.(events := st.events - {at})) == Free(st);
  }

  /** Adds a death at position `at`. */
  function AddDeath(events: Events, at: nat, d: Death): Events {
    events[at := (if at in events then events[at] else []) + [d]]
  }

  lemma AddDeathHeld(events: Events, at: nat, d: Death)
    requires EventsOk(events) && d.place !in Held(events)
    ensures EventsOk(AddDeath(events, at, d)) && Held(AddDeath(events, at, d)) == Held(events) + {d.place}
  {
    var before := if at in events then events[at] else [];
    var places := if at in events then PlacesOf(events[at]) else {};
    assert PlacesOf(before) == places;
    assert places <= Held(events);
    DeathsTail(before, d);
    assert WithDeaths(events, at, before + [d]) == AddDeath(events, at, d);
    hide PlacesOf, DeathsApart;
    HeldUpdate(events, at, before + [d], places);
  }

  lemma DeathsTail(ds: seq<Death>, d: Death)
    requires DeathsApart(ds) && d.place !in PlacesOf(ds)
    ensures DeathsApart(ds + [d]) && PlacesOf(ds + [d]) == PlacesOf(ds) + {d.place}
  {
    forall i | 0 <= i < |ds| ensures ds[i].place in PlacesOf(ds) {
    }
    assert forall e :: e in ds + [d] <==> e in ds || e == d;
    assert d in ds + [d];
  }

  /** Taking a free place for a value that dies at `at`. */
  lemma ConservedTake(regs: set<Place>, st: State, pl: Place, rest: Pool, at: nat, v: Id)
    requires Conserved(regs, st) && pl in FreeIn(PoolFor(st, pl))
    requires PoolOk(rest) && SameSizes(PoolFor(st, pl), rest) && FreeIn(rest) == FreeIn(PoolFor(st, pl)) - {pl}
    ensures Conserved(regs, SetPool(st, pl, rest).(events := AddDeath(st.events, at, Death(v, pl))))
  {
    hide PoolOk, EventsOk, HasBucket, Held, FreeIn, SameSizes, AddDeath;
    assert pl in Free(st);
    AddDeathHeld(st.events, at, Death(v, pl));
    SameSizesBuckets(PoolFor(st, pl), rest);
    var st' := SetPool(st, pl, rest).(events := AddDeath(st.events, at, Death(v, pl)));
    assert Free(st') == Free(st) - {pl};
  }

  /** Creating a slot for a value that dies at `at`. */
  lemma ConservedSlot(regs: set<Place>, st: State, pl: Place, more: Pool, at: nat, v: Id)
    requires Conserved(regs, st) && !pl.isReg && pl !in regs && pl !in st.slots
    requires PoolOk(more) && FreeIn(more) == FreeIn(st.freeStack)
    requires forall n :: HasBucket(more, n) <==> HasBucket(st.freeStack, n) || n == pl.size
    ensures Conserved(regs,
                      st.(freeStack := more, slots := st.slots + [pl], events := AddDeath(st.events, at, Death(v, pl))))
  {
    hide PoolOk, EventsOk, HasBucket, Held, FreeIn, AddDeath;
    assert pl !in Elems(st.slots);
    AddDeathHeld(st.events, at, Death(v, pl));
    assert Elems(st.slots + [pl]) == Elems(st.slots) + {pl};
  }

  // ---------- the invariant of the scan ----------

  /** The instructions of the first `k` blocks of the line, in order. */
  function Stream(p: Prog, order: seq<Block>, k: nat): seq<Id>
    requires k <= |order|
  {
    if k == 0 then [] else Stream(p, order, k - 1) + p.Phis(order[k - 1]) + p.Body(order[k - 1])
  }

  function RangeOf(ranges: map<Id, LiveRange>, v: Id): Interval {
    if v in ranges then ranges[v].range else (0, 0)
  }

  function LiveOf(live: map<Id, nat>, v: Id): nat {
    if v in live then live[v] else 0
  }

  /** What the scan is given: each instruction once, at positions that do not fall, with ranges that do not
      start before the instruction's own position. */
  ghost predicate Scannable(live: map<Id, nat>, ranges: map<Id, LiveRange>, stream: seq<Id>) {
    && Distinct(stream)
    && (forall i, j :: 0 <= i < j < |stream| ==> LiveOf(live, stream[i]) <= LiveOf(live, stream[j]))
    && (forall v :: v in stream ==> StartsInTime(live, ranges, v))
  }

  ghost predicate StartsInTime(live: map<Id, nat>, ranges: map<Id, LiveRange>, v: Id) {
    RangeOf(ranges, v).0 != RangeOf(ranges, v).1 ==> LiveOf(live, v) <= RangeOf(ranges, v).0 < RangeOf(ranges, v).1
  }

  /** A place is wide enough for the instruction's type, and of its register class. */
  predicate Suits(p: Prog, v: Id, pl: Place) {
    pl.size >= TypeIdToSize(TypeOf(p, v)) && (pl.isReg ==> pl.isFp == TypeIdIsFloatingPoint(TypeOf(p, v)))
  }

  function TypeOf(p: Prog, v: Id): TypeId {
    if v in p.code then p.code[v].ty else NONE
  }

  predicate Overlap(a: Interval, b: Interval) {
    a.0 < b.1 && b.0 < a.1
  }

  /** Two instructions with the same place have disjoint half-open ranges. */
  ghost predicate NoOverlap(alloc: Allocation) {
    forall v, w :: v in alloc && w in alloc && v != w ==> Apart(alloc[v], alloc[w])
  }

  ghost predicate Apart(a: seq<(Interval, Place)>, b: seq<(Interval, Place)>) {
    forall x, y :: x in a && y in b && x.1 == y.1 ==> !Overlap(x.0, y.0)
  }

  /** Exactly the instructions of `done` with a non-empty range have a place: one each, that suits them. */
  ghost predicate Complete(p: Prog, ranges: map<Id, LiveRange>, places: set<Place>, alloc: Allocation, done: seq<Id>) {
    && (forall v :: v in alloc <==> v in done && RangeOf(ranges, v).0 != RangeOf(ranges, v).1)
    && (forall v :: v in alloc ==> OnePlace(p, ranges, places, v, alloc[v]))
  }

  ghost predicate OnePlace(p: Prog, ranges: map<Id, LiveRange>, places: set<Place>, v: Id, a: seq<(Interval, Place)>) {
    |a| == 1 && a[0].0 == RangeOf(ranges, v) && a[0].1 in places && Suits(p, v, a[0].1)
  }

  /** Whatever has not died by position `cur` waits for its death. */
  ghost predicate Pending(events: Events, alloc: Allocation, cur: nat) {
    forall v, x :: v in alloc && x in alloc[v] ==> Waits(events, v, x, cur)
  }

  ghost predicate Waits(events: Events, v: Id, x: (Interval, Place), cur: nat) {
    x.0.1 <= cur || (x.0.1 in events && Death(v, x.1) in events[x.0.1])
  }

  ghost predicate PoolsSorted(st: State) {
    SortedPool(st.freeInt) && SortedPool(st.freeFp)
  }

  ghost predicate SlotsNumbered(regs: set<Place>, st: State) {
    (forall pl :: pl in regs ==> pl.isReg) && (forall pl :: pl in st.slots ==> !pl.isReg && pl.id < st.nextId)
  }

  ghost function Places(regs: set<Place>, st: State): set<Place> {
    regs + Elems(st.slots)
  }

  /** What holds before and after each instruction of the scan. */
  ghost predicate ScanInv(p: Prog, ranges: map<Id, LiveRange>, regs: set<Place>, st: State, alloc: Allocation,
                          done: seq<Id>, cur: nat) {
    && Conserved(regs, st) && PoolsSorted(st) && SlotsNumbered(regs, st)
    && Complete(p, ranges, Places(regs, st), alloc, done)
    && Pending(st.events, alloc, cur)
    && NoOverlap(alloc)
  }

  /** No instruction after `v` stands at position `k`. */
  ghost predicate NotPassed(live: map<Id, nat>, done: seq<Id>, v: Id, k: nat) {
    forall i, j :: 0 <= i < j < |done| && done[i] == v ==> LiveOf(live, done[j]) != k
  }

  /** `d` is the death of an allocated instruction at the end of its range, which has not been passed. */
  ghost predicate DeathDue(live: map<Id, nat>, alloc: Allocation, done: seq<Id>, k: nat, d: Death) {
    && d.instr in alloc && d.instr in done && |alloc[d.instr]| == 1
    && alloc[d.instr][0].0.1 == k && alloc[d.instr][0].1 == d.place
    && NotPassed(live, done, d.instr, k)
  }

  ghost predicate IsPending(events: Events, k: nat, d: Death) {
    k in events && d in events[k]
  }

  /** Exactly the deaths that are due are pending. */
  ghost predicate DeathsExact(live: map<Id, nat>, events: Events, alloc: Allocation, done: seq<Id>) {
    forall k: nat, d: Death :: IsPending(events, k, d) <==> DeathDue(live, alloc, done, k, d)
  }

  lemma NotPassedNext(live: map<Id, nat>, done: seq<Id>, v: Id, w: Id, k: nat)
    requires v in done
    ensures NotPassed(live, done + [w], v, k) <==> NotPassed(live, done, v, k) && LiveOf(live, w) != k
  {
    var done' := done + [w];
    var m := FirstIndex(done, v);
    assert done'[m] == v && done'[|done|] == w;
    if NotPassed(live, done', v, k) {
      forall i, j | 0 <= i < j < |done| && done[i] == v ensures LiveOf(live, done[j]) != k {
        assert done'[i] == v && done'[j] == done[j];
      }
    }
    if NotPassed(live, done, v, k) && LiveOf(live, w) != k {
      forall i, j | 0 <= i < j < |done'| && done'[i] == v ensures LiveOf(live, done'[j]) != k {
        assert done'[i] == done[i];
      }
    }
  }

  /** The deaths at the position of the next instruction are gone, and no others. */
  lemma DeathsPassed(live: map<Id, nat>, events: Events, alloc: Allocation, done: seq<Id>, w: Id)
    requires DeathsExact(live, events, alloc, done) && w !in alloc && w !in done
    ensures DeathsExact(live, events - {LiveOf(live, w)}, alloc, done + [w])
  {
    hide NotPassed;
    var now := LiveOf(live, w);
    forall k: nat, d: Death ensures IsPending(events - {now}, k, d) <==> DeathDue(live, alloc, done + [w], k, d) {
      assert IsPending(events, k, d) <==> DeathDue(live, alloc, done, k, d);
      if d.instr in done {
        NotPassedNext(live, done, d.instr, w, k);
      }
    }
  }

  lemma LastNotPassed(live: map<Id, nat>, done: seq<Id>, v: Id, k: nat)
    requires v !in done
    ensures v in done + [v] && NotPassed(live, done + [v], v, k)
  {
    assert forall i :: 0 <= i < |done| ==> (done + [v])[i] == done[i] && done[i] in done;
    assert (done + [v])[|done|] == v;
  }

  lemma PendingHeld(events: Events, k: nat, d: Death)
    ensures IsPending(events, k, d) ==> d.place in Held(events)
  {
    assert IsPending(events, k, d) ==> d.place in PlacesOf(events[k]);
  }

  /** The death of a newly allocated instruction is due. */
  lemma DeathAdded(live: map<Id, nat>, events: Events, alloc: Allocation, done: seq<Id>, v: Id, range: Interval,
                   pl: Place)
    requires DeathsExact(live, events, alloc, done + [v]) && v !in alloc && v !in done
    ensures DeathsExact(live, AddDeath(events, range.1, Death(v, pl)), alloc[v := [(range, pl)]], done + [v])
  {
    var done' := done + [v];
    LastNotPassed(live, done, v, range.1);
    hide NotPassed;
    var events', alloc' := AddDeath(events, range.1, Death(v, pl)), alloc[v := [(range, pl)]];
    forall k: nat, d: Death ensures IsPending(events', k, d) <==> DeathDue(live, alloc', done', k, d) {
      assert IsPending(events, k, d) <==> DeathDue(live, alloc, done', k, d);
      AddDeathMembers(events, range.1, Death(v, pl), k, d);
    }
  }

  lemma AddDeathMembers(events: Events, at: nat, e: Death, k: nat, d: Death)
    ensures IsPending(AddDeath(events, at, e), k, d) <==> IsPending(events, k, d) || (k == at && d == e)
  {
  }

  /** Every non-empty range ends at the position of an instruction that comes after the range's own. */
  ghost predicate AllPassed(live: map<Id, nat>, ranges: map<Id, LiveRange>, stream: seq<Id>) {
    forall v :: v in stream && RangeOf(ranges, v).0 != RangeOf(ranges, v).1 ==>
                  !NotPassed(live, stream, v, RangeOf(ranges, v).1)
  }

  lemma NeverPassed(live: map<Id, nat>, ranges: map<Id, LiveRange>, stream: seq<Id>, v: Id)
    requires v in stream && v in ranges && ranges[v].range.0 < ranges[v].range.1
    requires forall w :: w in stream ==> LiveOf(live, w) != ranges[v].range.1
    ensures !AllPassed(live, ranges, stream)
  {
    hide LiveOf;
    assert NotPassed(live, stream, v, RangeOf(ranges, v).1);
  }

  /** Nothing is held at the end exactly when the end of every non-empty range is the position of a later
      instruction. */
  lemma AllFreeExactly(p: Prog, live: map<Id, nat>, ranges: map<Id, LiveRange>, places: set<Place>,
                       events: Events, alloc: Allocation, stream: seq<Id>)
    requires DeathsExact(live, events, alloc, stream) && Complete(p, ranges, places, alloc, stream)
    ensures Held(events) == {} <==> AllPassed(live, ranges, stream)
  {
    hide NotPassed, RangeOf, Suits;
    if Held(events) == {} {
      forall v | v in stream && RangeOf(ranges, v).0 != RangeOf(ranges, v).1
        ensures !NotPassed(live, stream, v, RangeOf(ranges, v).1)
      {
        assert OnePlace(p, ranges, places, v, alloc[v]);
        var k, d := RangeOf(ranges, v).1, Death(v, alloc[v][0].1);
        assert IsPending(events, k, d) <==> DeathDue(live, alloc, stream, k, d);
        PendingHeld(events, k, d);
      }
    }
    if pl :| pl in Held(events) {
      var k: nat :| k in events && pl in PlacesOf(events[k]);
      var d: Death :| d in events[k] && d.place == pl;
      assert IsPending(events, k, d) && DeathDue(live, alloc, stream, k, d);
      assert OnePlace(p, ranges, places, d.instr, alloc[d.instr]);
    }
  }

  /** Events at the current position have been dealt with. */
  lemma PendingLater(events: Events, alloc: Allocation, cur: nat, now: nat)
    requires Pending(events, alloc, cur) && cur <= now
    ensures Pending(events - {now}, alloc, now)
  {
    forall v, x | v in alloc && x in alloc[v] ensures Waits(events - {now}, v, x, now) {
      assert Waits(events, v, x, cur);
    }
  }

  /** The pool of registers the instruction's type calls for. */
  function RegisterPool(st: State, ty: TypeId): Pool {
    if TypeIdIsFloatingPoint(ty) then st.freeFp else st.freeInt
  }

  /** A register is the narrowest free one of its class that is wide enough; a free slot is taken only when there
      is none; a slot is created only when no free slot is wide enough either. */
  ghost predicate WellChosen(st: State, ty: TypeId, pl: Place) {
    var size := TypeIdToSize(ty);
    if pl.isReg then
      && pl in FreeIn(RegisterPool(st, ty)) && pl.size >= size
      && (forall r :: r in FreeIn(RegisterPool(st, ty)) && r.size >= size ==> pl.size <= r.size)
    else
      && (forall r :: r in FreeIn(RegisterPool(st, ty)) ==> r.size < size)
      && if pl in FreeIn(st.freeStack) then pl.size >= size
         else pl == Place(false, false, size, st.nextId) && forall s :: s in FreeIn(st.freeStack) ==> s.size < size
  }

  /** The allocator state once `v` has been given `pl`. */
  ghost predicate Given(regs: set<Place>, ranges: map<Id, LiveRange>, st: State, st': State, v: Id, pl: Place) {
    && Conserved(regs, st') && PoolsSorted(st') && SlotsNumbered(regs, st')
    && st'.events == AddDeath(st.events, RangeOf(ranges, v).1, Death(v, pl))
    && st.slots <= st'.slots && pl in Places(regs, st')
    && pl !in Held(st.events)
  }

  lemma GiveFree(regs: set<Place>, ranges: map<Id, LiveRange>, st: State, pl: Place, rest: Pool, v: Id)
    requires Conserved(regs, st) && PoolsSorted(st) && SlotsNumbered(regs, st)
    requires pl in FreeIn(PoolFor(st, pl))
    requires PoolOk(rest) && SameSizes(PoolFor(st, pl), rest) && FreeIn(rest) == FreeIn(PoolFor(st, pl)) - {pl}
    ensures Given(regs, ranges, st,
                  SetPool(st, pl, rest).(events := AddDeath(st.events, RangeOf(ranges, v).1, Death(v, pl))), v, pl)
  {
    hide PoolOk, EventsOk, HasBucket, Held, FreeIn, SameSizes, AddDeath, SortedPool;
    ConservedTake(regs, st, pl, rest, RangeOf(ranges, v).1, v);
    SameSizesBuckets(PoolFor(st, pl), rest);
    assert pl in Free(st);
  }

  lemma GiveSlot(regs: set<Place>, ranges: map<Id, LiveRange>, st: State, size: nat, more: Pool, v: Id)
    requires Conserved(regs, st) && PoolsSorted(st) && SlotsNumbered(regs, st)
    requires PoolOk(more) && FreeIn(more) == FreeIn(st.freeStack)
    requires forall n :: HasBucket(more, n) <==> HasBucket(st.freeStack, n) || n == size
    ensures var pl := Place(false, false, size, st.nextId);
            Given(regs, ranges, st, st.(freeStack := more, slots := st.slots + [pl], nextId := st.nextId + 1,
                                        events := AddDeath(st.events, RangeOf(ranges, v).1, Death(v, pl))), v, pl)
  {
    hide PoolOk, EventsOk, HasBucket, Held, FreeIn, AddDeath, SortedPool;
    var pl := Place(false, false, size, st.nextId);
    ConservedSlot(regs, st, pl, more, RangeOf(ranges, v).1, v);
    assert pl !in Places(regs, st);
    assert pl in st.slots + [pl];
    var st' := st.(freeStack := more, slots := st.slots + [pl], nextId := st.nextId + 1,
                   events := AddDeath(st.events, RangeOf(ranges, v).1, Death(v, pl)));
    assert Free(st') == Free(st);
  }

  /** A place no pending death holds was last used by ranges that have ended. */
  lemma FreePlaceEnded(events: Events, alloc: Allocation, cur: nat, w: Id, x: (Interval, Place))
    requires Pending(events, alloc, cur) && w in alloc && x in alloc[w] && x.1 !in Held(events)
    ensures x.0.1 <= cur
  {
    assert Waits(events, w, x, cur);
    assert x.0.1 in events && Death(w, x.1) in events[x.0.1] ==> Death(w, x.1).place in PlacesOf(events[x.0.1]);
  }

  lemma CompleteGiven(p: Prog, ranges: map<Id, LiveRange>, places: set<Place>, places': set<Place>,
                      alloc: Allocation, done: seq<Id>, v: Id, pl: Place)
    requires Complete(p, ranges, places, alloc, done) && places <= places' && pl in places' && Suits(p, v, pl)
    requires v !in done && RangeOf(ranges, v).0 != RangeOf(ranges, v).1
    ensures Complete(p, ranges, places', alloc[v := [(RangeOf(ranges, v), pl)]], done + [v])
  {
    hide Suits, RangeOf;
    var alloc' := alloc[v := [(RangeOf(ranges, v), pl)]];
    forall w | w in alloc' ensures OnePlace(p, ranges, places', w, alloc'[w]) {
      assert w != v ==> OnePlace(p, ranges, places, w, alloc[w]);
    }
  }

  lemma PendingGiven(events: Events, alloc: Allocation, cur: nat, v: Id, range: Interval, pl: Place)
    requires Pending(events, alloc, cur)
    ensures Pending(AddDeath(events, range.1, Death(v, pl)), alloc[v := [(range, pl)]], cur)
  {
    hide AddDeath;
    var alloc' := alloc[v := [(range, pl)]];
    AddDeathHas(events, range.1, Death(v, pl));
    forall w, x | w in alloc' && x in alloc'[w] ensures Waits(AddDeath(events, range.1, Death(v, pl)), w, x, cur) {
      assert w != v ==> Waits(events, w, x, cur);
    }
  }

  lemma NoOverlapGiven(events: Events, alloc: Allocation, cur: nat, v: Id, range: Interval, pl: Place)
    requires Pending(events, alloc, cur) && NoOverlap(alloc) && pl !in Held(events)
    requires v !in alloc && cur <= range.0
    ensures NoOverlap(alloc[v := [(range, pl)]])
  {
    hide Held, Pending;
    var alloc' := alloc[v := [(range, pl)]];
    forall w | w in alloc ensures Apart(alloc[w], alloc'[v]) && Apart(alloc'[v], alloc[w]) {
      forall x | x in alloc[w] && x.1 == pl ensures x.0.1 <= cur {
        FreePlaceEnded(events, alloc, cur, w, x);
      }
    }
  }

  /** Giving `v` a place keeps the invariant of the scan. */
  lemma GivenKeeps(p: Prog, live: map<Id, nat>, ranges: map<Id, LiveRange>, regs: set<Place>, st: State, st': State,
                   alloc: Allocation, done: seq<Id>, v: Id, pl: Place)
    requires ScanInv(p, ranges, regs, st, alloc, done, LiveOf(live, v)) && v !in done && StartsInTime(live, ranges, v)
    requires RangeOf(ranges, v).0 != RangeOf(ranges, v).1
    requires Given(regs, ranges, st, st', v, pl) && Suits(p, v, pl)
    ensures ScanInv(p, ranges, regs, st', alloc[v := [(RangeOf(ranges, v), pl)]], done + [v], LiveOf(live, v))
  {
    assert v !in alloc;
    assert Places(regs, st) <= Places(regs, st');
    hide Conserved, PoolsSorted, SlotsNumbered, Held, Suits, AddDeath, Complete, Pending, NoOverlap, RangeOf, LiveOf;
    hide Places;
    CompleteGiven(p, ranges, Places(regs, st), Places(regs, st'), alloc, done, v, pl);
    PendingGiven(st.events, alloc, LiveOf(live, v), v, RangeOf(ranges, v), pl);
    NoOverlapGiven(st.events, alloc, LiveOf(live, v), v, RangeOf(ranges, v), pl);
  }

  lemma AddDeathHas(events: Events, at: nat, d: Death)
    ensures forall k, e :: k in events && e in events[k] ==>
              k in AddDeath(events, at, d) && e in AddDeath(events, at, d)[k]
    ensures at in AddDeath(events, at, d) && d in AddDeath(events, at, d)[at]
  {
  }

  lemma SkippedKeeps(p: Prog, ranges: map<Id, LiveRange>, regs: set<Place>, st: State, alloc: Allocation,
                     done: seq<Id>, v: Id, cur: nat)
    requires ScanInv(p, ranges, regs, st, alloc, done, cur) && RangeOf(ranges, v).0 == RangeOf(ranges, v).1
    ensures ScanInv(p, ranges, regs, st, alloc, done + [v], cur)
  {
    hide Conserved, PoolsSorted, SlotsNumbered, Pending, NoOverlap, OnePlace;
  }

  lemma {:induction false} StreamPrefix(p: Prog, order: seq<Block>, k: nat, n: nat)
    requires k <= n <= |order|
    ensures Stream(p, order, k) <= Stream(p, order, n)
  {
    if k < n {
      StreamPrefix(p, order, k, n - 1);
    }
  }

  // ---------- no place is passed over ----------

  function PlaceOf(alloc: Allocation, v: Id): Option<Place> {
    if v in alloc && alloc[v] != [] then Some(alloc[v][0].1) else None
  }

  /** When the `i`-th instruction is reached, an earlier one has `pl` and its range's end has not been passed. */
  ghost predicate HeldBy(live: map<Id, nat>, ranges: map<Id, LiveRange>, alloc: Allocation, stream: seq<Id>, i: nat,
                         pl: Place)
    requires i < |stream|
  {
    exists w :: w in stream[..i] && PlaceOf(alloc, w) == Some(pl) &&
                NotPassed(live, stream[..i + 1], w, RangeOf(ranges, w).1)
  }

  ghost predicate FirstUse(alloc: Allocation, stream: seq<Id>, i: nat, pl: Place)
    requires i <= |stream|
  {
    forall u :: u in stream[..i] ==> PlaceOf(alloc, u) != Some(pl)
  }

  /** A register of the class that `v` calls for, wide enough, and narrower than the place it has if that is one. */
  ghost predicate BetterRegister(p: Prog, v: Id, pl: Place, r: Place) {
    && r.isFp == TypeIdIsFloatingPoint(TypeOf(p, v)) && r.size >= TypeIdToSize(TypeOf(p, v))
    && (pl.isReg ==> r.size < pl.size)
  }

  /** The `i`-th instruction has been given the best there was: every register that would have been better was held,
      and a new slot has just the size, all earlier slots that are wide enough having been held. */
  ghost predicate ChosenWell(p: Prog, live: map<Id, nat>, ranges: map<Id, LiveRange>, regs: set<Place>,
                             alloc: Allocation, stream: seq<Id>, i: nat)
    requires i < |stream|
  {
    var v, size := stream[i], TypeIdToSize(TypeOf(p, stream[i]));
    PlaceOf(alloc, v).Some? ==>
      var pl := PlaceOf(alloc, v).value;
      && (forall r :: r in regs && BetterRegister(p, v, pl, r) ==> HeldBy(live, ranges, alloc, stream, i, r))
      && (!pl.isReg && FirstUse(alloc, stream, i, pl) ==>
            && pl.size == size
            && forall u, s :: u in stream[..i] && PlaceOf(alloc, u) == Some(s) && !s.isReg && s.size >= size ==>
                                HeldBy(live, ranges, alloc, stream, i, s))
  }

  ghost predicate AllChosenWell(p: Prog, live: map<Id, nat>, ranges: map<Id, LiveRange>, regs: set<Place>,
                                alloc: Allocation, stream: seq<Id>)
  {
    forall i :: 0 <= i < |stream| ==> ChosenWell(p, live, ranges, regs, alloc, stream, i)
  }

  /** Every slot there is has been given to an instruction. */
  ghost predicate SlotsUsed(slots: seq<Place>, alloc: Allocation, done: seq<Id>) {
    forall s :: s in slots ==> exists u :: u in done && PlaceOf(alloc, u) == Some(s)
  }

  lemma HeldIsHeldBy(p: Prog, live: map<Id, nat>, ranges: map<Id, LiveRange>, places: set<Place>, events: Events,
                     alloc: Allocation, alloc': Allocation, done: seq<Id>, v: Id, pl: Place)
    requires DeathsExact(live, events, alloc, done + [v]) && Complete(p, ranges, places, alloc, done) && v !in done
    requires alloc'.Keys == alloc.Keys + {v} && forall w :: w in alloc ==> alloc'[w] == alloc[w]
    requires pl in Held(events)
    ensures HeldBy(live, ranges, alloc', done + [v], |done|, pl)
  {
    hide NotPassed, RangeOf, Suits;
    var k: nat :| k in events && pl in PlacesOf(events[k]);
    var d: Death :| d in events[k] && d.place == pl;
    assert IsPending(events, k, d) && DeathDue(live, alloc, done + [v], k, d);
    assert OnePlace(p, ranges, places, d.instr, alloc[d.instr]);
    assert (done + [v])[..|done|] == done && (done + [v])[..|done| + 1] == done + [v];
    assert d.instr in alloc'.Keys;
  }

  /** Whatever is not free is held. */
  lemma NotFreeIsHeld(regs: set<Place>, st: State, pl: Place)
    requires Conserved(regs, st) && pl in regs + Elems(st.slots)
    requires pl !in FreeIn(PoolFor(st, pl))
    ensures pl in Held(st.events)
  {
    hide PoolOk, EventsOk, HasBucket, Held, FreeIn;
  }

  lemma RegistersHeld(p: Prog, regs: set<Place>, st: State, v: Id, pl: Place, r: Place)
    requires Conserved(regs, st) && WellChosen(st, TypeOf(p, v), pl) && r in regs && r.isReg
    requires BetterRegister(p, v, pl, r)
    ensures r in Held(st.events)
  {
    hide Conserved, FreeIn, Held;
    NotFreeIsHeld(regs, st, r);
  }

  lemma SlotsHeld(p: Prog, ranges: map<Id, LiveRange>, regs: set<Place>, st: State, alloc: Allocation, done: seq<Id>,
                  v: Id, pl: Place, u: Id, s: Place)
    requires Conserved(regs, st) && WellChosen(st, TypeOf(p, v), pl) && !pl.isReg && pl !in FreeIn(st.freeStack)
    requires Complete(p, ranges, Places(regs, st), alloc, done)
    requires PlaceOf(alloc, u) == Some(s) && !s.isReg && s.size >= TypeIdToSize(TypeOf(p, v))
    ensures s in Held(st.events)
  {
    hide Conserved, FreeIn, Held, Suits;
    assert OnePlace(p, ranges, Places(regs, st), u, alloc[u]);
    NotFreeIsHeld(regs, st, s);
  }

  /** A free slot has been used before. */
  lemma FreshSlot(regs: set<Place>, st: State, pl: Place, alloc: Allocation, done: seq<Id>)
    requires Conserved(regs, st) && SlotsNumbered(regs, st) && SlotsUsed(st.slots, alloc, done) && !pl.isReg
    requires forall u :: u in done ==> PlaceOf(alloc, u) != Some(pl)
    ensures pl !in FreeIn(st.freeStack)
  {
    hide PoolOk, EventsOk, HasBucket, Held, FreeIn, PlaceOf;
    assert FreeIn(st.freeStack) <= Free(st);
  }

  lemma SamePlaceOf(alloc: Allocation, alloc': Allocation, v: Id, u: Id)
    requires alloc'.Keys == alloc.Keys + {v} && forall w :: w in alloc ==> w != v && alloc'[w] == alloc[w]
    ensures u != v ==> PlaceOf(alloc', u) == PlaceOf(alloc, u)
  {
    assert u in alloc'.Keys <==> u in alloc.Keys || u == v;
  }

  /** What WellChosen says of the moment, said of the outcome. */
  lemma ChosenNow(p: Prog, live: map<Id, nat>, ranges: map<Id, LiveRange>, regs: set<Place>, st: State,
                  alloc: Allocation, alloc': Allocation, done: seq<Id>, v: Id, pl: Place)
    requires Conserved(regs, st) && SlotsNumbered(regs, st) && WellChosen(st, TypeOf(p, v), pl)
    requires DeathsExact(live, st.events, alloc, done + [v])
    requires Complete(p, ranges, Places(regs, st), alloc, done) && v !in done && SlotsUsed(st.slots, alloc, done)
    requires alloc'.Keys == alloc.Keys + {v} && forall w :: w in alloc ==> w != v && alloc'[w] == alloc[w]
    requires PlaceOf(alloc', v) == Some(pl)
    ensures ChosenWell(p, live, ranges, regs, alloc', done + [v], |done|)
  {
    var stream, places := done + [v], Places(regs, st);
    assert stream[..|done|] == done && stream[|done|] == v;
    forall u | u in done ensures PlaceOf(alloc', u) == PlaceOf(alloc, u) {
      SamePlaceOf(alloc, alloc', v, u);
    }
    forall r | r in regs && BetterRegister(p, v, pl, r) ensures HeldBy(live, ranges, alloc', stream, |done|, r) {
      RegistersHeld(p, regs, st, v, pl, r);
      HeldIsHeldBy(p, live, ranges, places, st.events, alloc, alloc', done, v, r);
    }
    hide Conserved, WellChosen, DeathsExact, Complete, SlotsUsed, HeldBy, PlaceOf, BetterRegister, Held;
    if !pl.isReg && FirstUse(alloc', stream, |done|, pl) {
      FreshSlot(regs, st, pl, alloc, done);
      NewSlotSize(p, st, v, pl);
      forall u, s | u in done && PlaceOf(alloc', u) == Some(s) && !s.isReg && s.size >= TypeIdToSize(TypeOf(p, v))
        ensures HeldBy(live, ranges, alloc', stream, |done|, s)
      {
        SlotsHeld(p, ranges, regs, st, alloc, done, v, pl, u, s);
        HeldIsHeldBy(p, live, ranges, places, st.events, alloc, alloc', done, v, s);
      }
    }
  }

  lemma NewSlotSize(p: Prog, st: State, v: Id, pl: Place)
    requires WellChosen(st, TypeOf(p, v), pl) && !pl.isReg && pl !in FreeIn(st.freeStack)
    ensures pl.size == TypeIdToSize(TypeOf(p, v))
  {
    hide FreeIn;
  }

  /** Later instructions do not change what was there for earlier ones. */
  lemma ChosenStays(p: Prog, live: map<Id, nat>, ranges: map<Id, LiveRange>, regs: set<Place>, alloc: Allocation,
                    alloc': Allocation, done: seq<Id>, v: Id)
    requires AllChosenWell(p, live, ranges, regs, alloc, done) && v !in done
    requires forall u :: u in done ==> PlaceOf(alloc', u) == PlaceOf(alloc, u)
    ensures forall i :: 0 <= i < |done| ==> ChosenWell(p, live, ranges, regs, alloc', done + [v], i)
  {
    hide PlaceOf, BetterRegister, NotPassed;
    var stream := done + [v];
    forall i | 0 <= i < |done| ensures ChosenWell(p, live, ranges, regs, alloc', stream, i) {
      assert stream[..i] == done[..i] && stream[..i + 1] == done[..i + 1] && stream[i] == done[i];
      assert forall u :: u in done[..i] ==> u in done;
      assert ChosenWell(p, live, ranges, regs, alloc, done, i);
      forall pl | HeldBy(live, ranges, alloc, done, i, pl) ensures HeldBy(live, ranges, alloc', stream, i, pl) {
      }
      hide HeldBy;
    }
  }

  /** The scan's choices so far, and the slots they have used. */
  ghost predicate Greedy(p: Prog, live: map<Id, nat>, ranges: map<Id, LiveRange>, regs: set<Place>, slots: seq<Place>,
                         alloc: Allocation, done: seq<Id>)
  {
    AllChosenWell(p, live, ranges, regs, alloc, done) && SlotsUsed(slots, alloc, done)
  }

  lemma NothingChosen(p: Prog, live: map<Id, nat>, ranges: map<Id, LiveRange>, regs: set<Place>)
    ensures Greedy(p, live, ranges, regs, [], map[], [])
  {
  }

  lemma GreedySkip(p: Prog, live: map<Id, nat>, ranges: map<Id, LiveRange>, regs: set<Place>, slots: seq<Place>,
                   alloc: Allocation, done: seq<Id>, v: Id)
    requires Greedy(p, live, ranges, regs, slots, alloc, done) && v !in done && v !in alloc
    ensures Greedy(p, live, ranges, regs, slots, alloc, done + [v])
  {
    ChosenStays(p, live, ranges, regs, alloc, alloc, done, v);
    hide HeldBy, FirstUse, BetterRegister;
    assert (done + [v])[|done|] == v;
    assert PlaceOf(alloc, v).None?;
    assert ChosenWell(p, live, ranges, regs, alloc, done + [v], |done|);
  }

  lemma GreedyNext(p: Prog, live: map<Id, nat>, ranges: map<Id, LiveRange>, regs: set<Place>, st: State,
                   slots: seq<Place>, alloc: Allocation, alloc': Allocation, done: seq<Id>, v: Id, cur: nat)
    requires ScanInv(p, ranges, regs, st, alloc, done, cur) && v !in done
    requires Greedy(p, live, ranges, regs, st.slots, alloc, done) && DeathsExact(live, st.events, alloc, done + [v])
    requires v in alloc' && |alloc'[v]| == 1 && alloc' == alloc[v := alloc'[v]]
    requires WellChosen(st, TypeOf(p, v), alloc'[v][0].1)
    requires slots == st.slots || slots == st.slots + [alloc'[v][0].1]
    ensures Greedy(p, live, ranges, regs, slots, alloc', done + [v])
  {
    hide Conserved, WellChosen, DeathsExact, ChosenWell, NoOverlap, Pending, PoolsSorted, SlotsNumbered, OnePlace;
    assert v !in alloc;
    assert alloc'.Keys == alloc.Keys + {v};
    forall u | u in done ensures PlaceOf(alloc', u) == PlaceOf(alloc, u) {
      SamePlaceOf(alloc, alloc', v, u);
    }
    var pl := alloc'[v][0].1;
    assert PlaceOf(alloc', v) == Some(pl);
    hide Complete;
    ChosenNow(p, live, ranges, regs, st, alloc, alloc', done, v, pl);
    ChosenStays(p, live, ranges, regs, alloc, alloc', done, v);
    hide PlaceOf;
    assert v in done + [v];
    forall s | s in slots ensures exists u :: u in done + [v] && PlaceOf(alloc', u) == Some(s) {
      if s in st.slots {
        var u :| u in done && PlaceOf(alloc, u) == Some(s);
        assert u in done + [v];
      }
    }
  }

  class Allocator {
    const p: Prog
    const order: seq<Block>
    const live: map<Id, nat>
    const ranges: map<Id, LiveRange>
    const registers: seq<Place>

    var freeInt: Pool
    var freeFp: Pool
    var freeStack: Pool
    var events: Events
    var slots: seq<Place>
    var nextId: nat
    var alloc: Allocation

    constructor (p: Prog, order: seq<Block>, live: map<Id, nat>, ranges: map<Id, LiveRange>, registers: seq<Place>,
                 nextId: nat)
      ensures this.p == p && this.order == order && this.live == live && this.ranges == ranges
      ensures this.registers == registers
      ensures St() == State([], [], [], map[], [], nextId) && alloc == map[]
    {
      this.p, this.order, this.live, this.ranges, this.registers := p, order, live, ranges, registers;
      freeInt, freeFp, freeStack, events, slots, alloc := [], [], [], map[], [], map[];
      this.nextId := nextId;
    }

    ghost function St(): (st: State)
      reads this
      ensures st == State(freeInt, freeFp, freeStack, events, slots, nextId)
    {
      State(freeInt, freeFp, freeStack, events, slots, nextId)
    }

    ghost function Regs(): (r: set<Place>)
      ensures r == Elems(registers)
    {
      Elems(registers)
    }

    method FreeMemPlace(pl: Place)
      requires PoolOk(PoolFor(St(), pl)) && HasBucket(PoolFor(St(), pl), pl.size) && pl !in FreeIn(PoolFor(St(), pl))
      modifies this`freeInt, this`freeFp, this`freeStack
      ensures St() == SetPool(old(St()), pl, PoolFor(St(), pl))
      ensures PoolOk(PoolFor(St(), pl)) && SameSizes(old(PoolFor(St(), pl)), PoolFor(St(), pl))
      ensures FreeIn(PoolFor(St(), pl)) == old(FreeIn(PoolFor(St(), pl))) + {pl}
    {
      hide PoolOk, HasBucket, FreeIn, SameSizes;
      if !pl.isReg {
        freeStack := ReturnMemPlace(freeStack, pl);
      } else if pl.isFp {
        freeFp := ReturnMemPlace(freeFp, pl);
      } else {
        freeInt := ReturnMemPlace(freeInt, pl);
      }
    }

    /** Frees the places of everything that dies at the current position. */
    method ProcessCurrentEvents(currentLive: nat)
      requires Conserved(Regs(), St()) && PoolsSorted(St())
      modifies this`freeInt, this`freeFp, this`freeStack, this`events
      ensures Conserved(Regs(), St()) && PoolsSorted(St())
      ensures events == old(events) - {currentLive}
    {
      hide Conserved, PoolsSorted;
      if currentLive !in events {
        assert events == events - {currentLive};
        return;
      }
      var dying := events[currentLive];
      ghost var before := events;
      assert WithDeaths(events, currentLive, dying[0..]) == events;
      assert St().(events := WithDeaths(before, currentLive, dying[0..])) == St();
      for i := 0 to |dying|
        invariant Conserved(Regs(), St().(events := WithDeaths(before, currentLive, dying[i..])))
        invariant PoolsSorted(St())
        invariant events == before && slots == old(slots) && nextId == old(nextId) && alloc == old(alloc)
      {
        ghost var st := St().(events := WithDeaths(before, currentLive, dying[i..]));
        CanReturn(Regs(), st, currentLive);
        ghost var was := St();
        FreeMemPlace(dying[i].place);
        ConservedFree(Regs(), st, currentLive, PoolFor(St(), dying[i].place));
        SortedStays(was, St(), dying[i].place);
        assert dying[i..][1..] == dying[i + 1..];
        WithDeathsTwice(before, currentLive, dying[i..], dying[i + 1..]);
      }
      ConservedErase(Regs(), St().(events := WithDeaths(before, currentLive, dying[|dying|..])), currentLive);
      events := events - {currentLive};
      assert events == WithDeaths(before, currentLive, []) - {currentLive};
      SortedDespite(St().(events := before), events);
    }

    /** Records a place for an instruction and the death at which it is freed. */
    method AddAllocationRange(v: Id, range: Interval, pl: Place)
      modifies this`alloc, this`events
      ensures alloc == old(alloc)[v := (if v in old(alloc) then old(alloc)[v] else []) + [(range, pl)]]
      ensures events == AddDeath(old(events), range.1, Death(v, pl))
    {
      alloc := alloc[v := (if v in alloc then alloc[v] else []) + [(range, pl)]];
      events := AddDeath(events, range.1, Death(v, pl));
    }

    /** Creates a slot, and the bucket of its size if there is none. */
    method AllocateStackSlot(size: nat) returns (slot: Place)
      requires PoolOk(freeStack)
      modifies this`freeStack, this`slots, this`nextId
      ensures slot == Place(false, false, size, old(nextId)) && nextId == old(nextId) + 1
      ensures slots == old(slots) + [slot]
      ensures PoolOk(freeStack) && FreeIn(freeStack) == old(FreeIn(freeStack))
      ensures forall n :: HasBucket(freeStack, n) <==> old(HasBucket(freeStack, n)) || n == size
      ensures freeStack == if old(HasBucket(freeStack, size)) then old(freeStack) else WithBucket(old(freeStack), size)
    {
      hide *;
      slot := Place(false, false, size, nextId);
      nextId := nextId + 1;
      slots := slots + [slot];
      freeStack := EnsureBucket(freeStack, size);
    }

    /** Gives an instruction a register, a free slot or a new slot. */
    method AllocateFor(v: Id, ghost done: seq<Id>)
      requires ScanInv(p, ranges, Regs(), St(), alloc, done, LiveOf(live, v)) && v !in done
      requires StartsInTime(live, ranges, v)
      requires RangeOf(ranges, v).0 != RangeOf(ranges, v).1 && DeathsExact(live, events, alloc, done + [v])
      modifies this
      ensures ScanInv(p, ranges, Regs(), St(), alloc, done + [v], LiveOf(live, v))
      ensures DeathsExact(live, events, alloc, done + [v])
      ensures v in alloc && |alloc[v]| == 1 && alloc == old(alloc)[v := alloc[v]]
      ensures WellChosen(old(St()), TypeOf(p, v), alloc[v][0].1)
      ensures slots == old(slots) || (slots == old(slots) + [alloc[v][0].1] && alloc[v][0].1 !in old(FreeIn(freeStack)))
    {
      hide *;
      var range, ty := RangeOf(ranges, v), TypeOf(p, v);
      var size, isFp := TypeIdToSize(ty), TypeIdIsFloatingPoint(ty);
      ghost var st := St();
      ScanFacts(p, ranges, Regs(), st, alloc, done, LiveOf(live, v), v);
      RegisterPoolIs(st, ty);
      var pool := if isFp then freeFp else freeInt;
      assert pool == RegisterPool(st, ty);
      var register, restRegs := TryGetMemPlace(pool, size);
      if register.Some? {
        RegisterChosen(Regs(), st, p, v, register.value);
        GiveFree(Regs(), ranges, st, register.value, restRegs, v);
        GivenKeeps(p, live, ranges, Regs(), st,
                   SetPool(st, register.value, restRegs)
                     .(events := AddDeath(st.events, range.1, Death(v, register.value))),
                   alloc, done, v, register.value);
        if isFp {
          freeFp := restRegs;
        } else {
          freeInt := restRegs;
        }
        DeathAdded(live, events, alloc, done, v, range, register.value);
        AddAllocationRange(v, range, register.value);
        SetRegisterPool(st, register.value, restRegs);
        assert St() == SetPool(st, register.value, restRegs)
                         .(events := AddDeath(st.events, range.1, Death(v, register.value)));
        assert alloc[v] == [(range, register.value)];
        return;
      }
      var slot, restSlots := TryGetMemPlace(freeStack, size);
      if slot.Some? {
        SlotChosen(Regs(), st, p, v, slot.value);
        GiveFree(Regs(), ranges, st, slot.value, restSlots, v);
        GivenKeeps(p, live, ranges, Regs(), st,
                   SetPool(st, slot.value, restSlots).(events := AddDeath(st.events, range.1, Death(v, slot.value))),
                   alloc, done, v, slot.value);
        freeStack := restSlots;
        DeathAdded(live, events, alloc, done, v, range, slot.value);
        AddAllocationRange(v, range, slot.value);
        SetSlotPool(st, slot.value, restSlots);
        assert St() == SetPool(st, slot.value, restSlots)
                         .(events := AddDeath(st.events, range.1, Death(v, slot.value)));
        assert alloc[v] == [(range, slot.value)];
        return;
      }
      var created := AllocateStackSlot(size);
      NewSlotChosen(Regs(), st, p, v);
      GiveSlot(Regs(), ranges, st, size, freeStack, v);
      GivenKeeps(p, live, ranges, Regs(), st, St().(events := AddDeath(st.events, range.1, Death(v, created))), alloc,
                 done, v, created);
      DeathAdded(live, events, alloc, done, v, range, created);
      AddAllocationRange(v, range, created);
      assert alloc[v] == [(range, created)];
    }

    /** Walks the line once, freeing and allocating as it goes. */
    method IterateThroughInstructions()
      requires Scannable(live, ranges, Stream(p, order, |order|))
      requires ScanInv(p, ranges, Regs(), St(), alloc, [], 0) && DeathsExact(live, events, alloc, [])
      requires slots == [] && alloc == map[]
      modifies this
      ensures exists cur :: ScanInv(p, ranges, Regs(), St(), alloc, Stream(p, order, |order|), cur)
      ensures DeathsExact(live, events, alloc, Stream(p, order, |order|))
      ensures AllChosenWell(p, live, ranges, Regs(), alloc, Stream(p, order, |order|))
    {
      hide *;
      ghost var cur: nat := 0;
      ghost var stream := Stream(p, order, |order|);
      StreamStart(p, order);
      NothingChosen(p, live, ranges, Regs());
      for k := 0 to |order|
        invariant ScanInv(p, ranges, Regs(), St(), alloc, Stream(p, order, k), cur)
        invariant DeathsExact(live, events, alloc, Stream(p, order, k))
        invariant Greedy(p, live, ranges, Regs(), slots, alloc, Stream(p, order, k))
        invariant Reached(live, stream, |Stream(p, order, k)|, cur)
      {
        var instrs := p.Phis(order[k]) + p.Body(order[k]);
        StreamStep(p, order, k);
        assert instrs[..0] == [] && Stream(p, order, k) + [] == Stream(p, order, k);
        for j := 0 to |instrs|
          invariant ScanInv(p, ranges, Regs(), St(), alloc, Stream(p, order, k) + instrs[..j], cur)
          invariant DeathsExact(live, events, alloc, Stream(p, order, k) + instrs[..j])
          invariant Greedy(p, live, ranges, Regs(), slots, alloc, Stream(p, order, k) + instrs[..j])
          invariant Reached(live, stream, |Stream(p, order, k)| + j, cur)
        {
          var v := instrs[j];
          ghost var done := Stream(p, order, k) + instrs[..j];
          NextInStream(live, ranges, stream, Stream(p, order, k), instrs, j, cur);
          ScanFacts(p, ranges, Regs(), St(), alloc, done, cur, v);
          ghost var st := St();
          DeathsPassed(live, events, alloc, done, v);
          ProcessCurrentEvents(LiveOf(live, v));
          EventsDone(p, ranges, Regs(), st, St(), alloc, done, cur, LiveOf(live, v));
          cur := LiveOf(live, v);
          assert instrs[..j + 1] == instrs[..j] + [v];
          assert done + [v] == Stream(p, order, k) + instrs[..j + 1];
          if RangeOf(ranges, v).0 == RangeOf(ranges, v).1 {
            SkippedKeeps(p, ranges, Regs(), St(), alloc, done, v, cur);
            GreedySkip(p, live, ranges, Regs(), slots, alloc, done, v);
            continue;
          }
          ghost var ready, before := St(), alloc;
          AllocateFor(v, done);
          GreedyNext(p, live, ranges, Regs(), ready, slots, before, alloc, done, v, cur);
        }
        assert instrs[..|instrs|] == instrs;
      }
      GreedyOutcome(p, live, ranges, Regs(), slots, alloc, stream);
    }

    method Allocate()
      requires order != [] && Distinct(registers) && (forall r :: r in registers ==> r.isReg)
      requires Scannable(live, ranges, Stream(p, order, |order|))
      requires St() == State([], [], [], map[], [], nextId) && alloc == map[]
      modifies this
      ensures Complete(p, ranges, Places(Regs(), St()), alloc, Stream(p, order, |order|))
      ensures NoOverlap(alloc) && Conserved(Regs(), St())
      ensures DeathsExact(live, events, alloc, Stream(p, order, |order|))
      ensures Held(events) == {} <==> AllPassed(live, ranges, Stream(p, order, |order|))
      ensures AllChosenWell(p, live, ranges, Regs(), alloc, Stream(p, order, |order|))
    {
      freeInt, freeFp := InitFreePool(registers);
      InitialInv(p, ranges, registers, St());
      hide *;
      IterateThroughInstructions();
      ghost var cur :| ScanInv(p, ranges, Regs(), St(), alloc, Stream(p, order, |order|), cur);
      ScanOutcome(p, ranges, Regs(), St(), alloc, Stream(p, order, |order|), cur);
      AllFreeExactly(p, live, ranges, Places(Regs(), St()), events, alloc, Stream(p, order, |order|));
    }
  }

  lemma GreedyOutcome(p: Prog, live: map<Id, nat>, ranges: map<Id, LiveRange>, regs: set<Place>, slots: seq<Place>,
                      alloc: Allocation, stream: seq<Id>)
    requires Greedy(p, live, ranges, regs, slots, alloc, stream)
    ensures AllChosenWell(p, live, ranges, regs, alloc, stream)
  {
    hide ChosenWell;
  }

  lemma WithDeathsTwice(events: Events, at: nat, a: seq<Death>, b: seq<Death>)
    ensures WithDeaths(WithDeaths(events, at, a), at, b) == WithDeaths(events, at, b)
    ensures at in WithDeaths(events, at, a) && WithDeaths(events, at, a)[at] == a
  {
  }

  lemma SortedStays(was: State, now: State, pl: Place)
    requires PoolsSorted(was) && now == SetPool(was, pl, PoolFor(now, pl))
    requires SameSizes(PoolFor(was, pl), PoolFor(now, pl))
    ensures PoolsSorted(now)
  {
  }

  lemma SortedDespite(st: State, events: Events)
    requires PoolsSorted(st)
    ensures PoolsSorted(st.(events := events))
  {
  }

  lemma ScanFacts(p: Prog, ranges: map<Id, LiveRange>, regs: set<Place>, st: State, alloc: Allocation, done: seq<Id>,
                  cur: nat, v: Id)
    requires ScanInv(p, ranges, regs, st, alloc, done, cur)
    ensures Conserved(regs, st) && PoolsSorted(st) && SlotsNumbered(regs, st)
    ensures PoolOk(st.freeInt) && PoolOk(st.freeFp) && PoolOk(st.freeStack)
    ensures SortedPool(st.freeInt) && SortedPool(st.freeFp)
    ensures v !in done ==> v !in alloc
  {
    hide NoOverlap, Pending, SortedPool, PoolOk, EventsOk, HasBucket, OnePlace;
  }

  lemma RegisterPoolIs(st: State, ty: TypeId)
    requires PoolOk(st.freeInt) && PoolOk(st.freeFp) && SortedPool(st.freeInt) && SortedPool(st.freeFp)
    ensures RegisterPool(st, ty) == if TypeIdIsFloatingPoint(ty) then st.freeFp else st.freeInt
    ensures PoolOk(RegisterPool(st, ty)) && SortedPool(RegisterPool(st, ty))
  {
  }

  lemma RegisterChosen(regs: set<Place>, st: State, p: Prog, v: Id, pl: Place)
    requires Conserved(regs, st)
    requires pl in FreeIn(RegisterPool(st, TypeOf(p, v))) && pl.size >= TypeIdToSize(TypeOf(p, v))
    requires forall r :: r in FreeIn(RegisterPool(st, TypeOf(p, v))) && r.size >= TypeIdToSize(TypeOf(p, v)) ==>
               pl.size <= r.size
    ensures pl.isReg && pl.isFp == TypeIdIsFloatingPoint(TypeOf(p, v))
    ensures PoolFor(st, pl) == RegisterPool(st, TypeOf(p, v))
    ensures Suits(p, v, pl) && WellChosen(st, TypeOf(p, v), pl)
  {
    hide PoolOk, EventsOk, HasBucket, Held, FreeIn;
  }

  lemma SlotChosen(regs: set<Place>, st: State, p: Prog, v: Id, pl: Place)
    requires Conserved(regs, st)
    requires pl in FreeIn(st.freeStack) && pl.size >= TypeIdToSize(TypeOf(p, v))
    requires forall r :: r in FreeIn(RegisterPool(st, TypeOf(p, v))) ==> r.size < TypeIdToSize(TypeOf(p, v))
    ensures !pl.isReg && PoolFor(st, pl) == st.freeStack
    ensures Suits(p, v, pl) && WellChosen(st, TypeOf(p, v), pl)
  {
    hide PoolOk, EventsOk, HasBucket, Held, FreeIn;
  }

  lemma NewSlotChosen(regs: set<Place>, st: State, p: Prog, v: Id)
    requires Conserved(regs, st) && SlotsNumbered(regs, st)
    requires forall r :: r in FreeIn(RegisterPool(st, TypeOf(p, v))) ==> r.size < TypeIdToSize(TypeOf(p, v))
    requires forall r :: r in FreeIn(st.freeStack) ==> r.size < TypeIdToSize(TypeOf(p, v))
    ensures var pl := Place(false, false, TypeIdToSize(TypeOf(p, v)), st.nextId);
            Suits(p, v, pl) && WellChosen(st, TypeOf(p, v), pl) && pl !in FreeIn(st.freeStack)
  {
    hide PoolOk, EventsOk, HasBucket, Held, FreeIn;
  }

  lemma SetRegisterPool(st: State, pl: Place, rest: Pool)
    requires pl.isReg
    ensures SetPool(st, pl, rest) == if pl.isFp then st.(freeFp := rest) else st.(freeInt := rest)
  {
  }

  lemma SetSlotPool(st: State, pl: Place, rest: Pool)
    requires PoolFor(st, pl) == st.freeStack && !pl.isReg
    ensures SetPool(st, pl, rest) == st.(freeStack := rest)
  {
  }

  /** `n` instructions of the stream have been passed, none at a position beyond `cur`, and none to come before it. */
  ghost predicate Reached(live: map<Id, nat>, stream: seq<Id>, n: nat, cur: nat) {
    forall j :: n <= j < |stream| ==> cur <= LiveOf(live, stream[j])
  }

  lemma StreamStart(p: Prog, order: seq<Block>)
    ensures Stream(p, order, 0) == []
    ensures forall live, stream, n :: Reached(live, stream, n, 0)
  {
  }

  lemma StreamStep(p: Prog, order: seq<Block>, k: nat)
    requires k < |order|
    ensures Stream(p, order, k + 1) == Stream(p, order, k) + (p.Phis(order[k]) + p.Body(order[k]))
    ensures Stream(p, order, k) + (p.Phis(order[k]) + p.Body(order[k])) <= Stream(p, order, |order|)
  {
    StreamPrefix(p, order, k + 1, |order|);
  }

  lemma NextInStream(live: map<Id, nat>, ranges: map<Id, LiveRange>, stream: seq<Id>, before: seq<Id>, instrs: seq<Id>,
                     j: nat, cur: nat)
    requires Scannable(live, ranges, stream) && before + instrs <= stream && j < |instrs|
    requires Reached(live, stream, |before| + j, cur)
    ensures cur <= LiveOf(live, instrs[j]) && instrs[j] !in before + instrs[..j]
    ensures StartsInTime(live, ranges, instrs[j])
    ensures Reached(live, stream, |before| + (j + 1), LiveOf(live, instrs[j]))
  {
    hide StartsInTime;
    var n := |before| + j;
    assert stream[n] == (before + instrs)[n] == instrs[j];
    assert before + instrs[..j] == (before + instrs)[..n] == stream[..n];
    DistinctSplit(stream, n, instrs[j]);
  }

  lemma EventsDone(p: Prog, ranges: map<Id, LiveRange>, regs: set<Place>, st: State, st': State, alloc: Allocation,
                   done: seq<Id>, cur: nat, now: nat)
    requires ScanInv(p, ranges, regs, st, alloc, done, cur) && cur <= now
    requires Conserved(regs, st') && PoolsSorted(st')
    requires st'.events == st.events - {now} && st'.slots == st.slots && st'.nextId == st.nextId
    ensures ScanInv(p, ranges, regs, st', alloc, done, now)
  {
    hide Conserved, PoolsSorted, NoOverlap, Complete, Pending;
    PendingLater(st.events, alloc, cur, now);
  }

  lemma InitialInv(p: Prog, ranges: map<Id, LiveRange>, registers: seq<Place>, st: State)
    requires forall r :: r in registers ==> r.isReg
    requires PoolOk(st.freeInt) && SortedPool(st.freeInt) && FreeIn(st.freeInt) == RegistersOf(registers, false)
    requires PoolOk(st.freeFp) && SortedPool(st.freeFp) && FreeIn(st.freeFp) == RegistersOf(registers, true)
    requires forall r :: r in registers ==> HasBucket(if r.isFp then st.freeFp else st.freeInt, r.size)
    requires st.freeStack == [] && st.events == map[] && st.slots == []
    ensures ScanInv(p, ranges, Elems(registers), st, map[], [], 0)
    ensures forall live :: DeathsExact(live, st.events, map[], [])
  {
    hide PoolOk, HasBucket, SortedPool;
    assert FreeIn(st.freeStack) == {};
    assert PoolOk([]) by {
      EmptyPool();
    }
  }

  lemma EmptyPool()
    ensures PoolOk([])
  {
  }

  lemma ScanOutcome(p: Prog, ranges: map<Id, LiveRange>, regs: set<Place>, st: State, alloc: Allocation, done: seq<Id>,
                    cur: nat)
    requires ScanInv(p, ranges, regs, st, alloc, done, cur)
    ensures Complete(p, ranges, Places(regs, st), alloc, done) && NoOverlap(alloc) && Conserved(regs, st)
  {
    hide Complete, NoOverlap, Conserved, PoolsSorted, SlotsNumbered, Pending;
  }
}

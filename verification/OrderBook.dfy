/** The live order book of src/sources/Source.hpp as a state machine: orders are appended per id,
    ids are marked deleted, and a second thread prunes the orders of deleted ids that have left
    the time window. The clock is not protected by the lock on an id, so it may move between two
    comparisons of one prune. */
module OrderBook {
  import opened Models

  /** The cleanup thread: idle, or comparing the orders of one locked id. `since` is the clock at
      the moment the id was locked. */
  datatype Scan = Idle | Scan(id: nat, next: nat, survivors: seq<Order>, since: real)

  /** `log` is every order ever appended, per id; the other fields are those of the original. */
  datatype Book = Book(last: real, threshold: real, orders: map<nat, seq<Order>>, deleted: set<nat>,
                       scan: Scan, log: map<nat, seq<Order>>)

  const ZERO_ORDER: Order := Order(0, 0.0, 0.0, WAIT, 0.0)

  function Fresh(threshold: real): Book {
    Book(0.0, threshold, map[], {}, Idle, map[])
  }

  // ----- what the original does -----

  function Touch(b: Book, timestamp: real): Book {
    if timestamp > b.last then b.(last := timestamp) else b
  }

  function ListOf(orders: map<nat, seq<Order>>, id: nat): seq<Order> {
    if id in orders then orders[id] else []
  }

  function Current(b: Book, id: nat): seq<Order> {
    ListOf(b.orders, id)
  }

  function Log(b: Book, id: nat): seq<Order> {
    ListOf(b.log, id)
  }

  function Append(b: Book, o: Order): Book {
    b.(orders := b.orders[o.id := Current(b, o.id) + [o]], log := b.log[o.id := Log(b, o.id) + [o]])
  }

  function Mark(b: Book, id: nat): Book {
    b.(deleted := b.deleted + {id})
  }

  function Bound(b: Book): real {
    b.last - b.threshold
  }

  /** Inside the window kept by the cleanup. */
  predicate Recent(b: Book, timestamp: real) {
    timestamp > Bound(b)
  }

  predicate Locks(b: Book, id: nat) {
    b.scan.Scan? && b.scan.id == id
  }

  function Lock(b: Book, id: nat): Book {
    b.(scan := Scan(id, 0, [], b.last))
  }

  /** One comparison of the cleanup loop, against the clock as it is now. */
  function Compare(b: Book): Book
    requires b.scan.Scan? && b.scan.next < |Current(b, b.scan.id)|
  {
    var o := Current(b, b.scan.id)[b.scan.next];
    b.(scan := b.scan.(next := b.scan.next + 1,
                       survivors := if Recent(b, o.timestamp) then b.scan.survivors + [o] else b.scan.survivors))
  }

  function Release(b: Book): Book
    requires b.scan.Scan?
  {
    var id, left := b.scan.id, b.scan.survivors;
    b.(scan := Idle, orders := if left == [] then b.orders - {id} else b.orders[id := left])
  }

  /** The latest order at or before a time; among equal timestamps the first one appended. */
  function Latest(os: seq<Order>, timestamp: real): Order {
    if os == [] then ZERO_ORDER
    else
      var best := Latest(os[..|os| - 1], timestamp);
      var o := os[|os| - 1];
      if o.timestamp > best.timestamp && o.timestamp <= timestamp then o else best
  }

  function Retrieve(b: Book, id: nat, timestamp: real): Order {
    Latest(Current(b, id), timestamp)
  }

  /** The answer that a book which never forgot anything would give. */
  function RetrieveFromLog(b: Book, id: nat, timestamp: real): Order {
    Latest(Log(b, id), timestamp)
  }

  /** The orders newer than a bound, in their order. */
  function Newer(os: seq<Order>, bound: real): seq<Order> {
    if os == [] then []
    else Newer(os[..|os| - 1], bound) + if os[|os| - 1].timestamp > bound then [os[|os| - 1]] else []
  }

  // ----- runs -----

  /** The atomic steps of all threads. `feed(Order)` is Touched then Appended, `feed(Trade)` is
      Touched, `puke` is possibly a feed and then Marked, and the cleanup of an id is Locked, one
      Compared per order it holds, and Released. */
  datatype Step =
    | Touched(timestamp: real)
    | Appended(order: Order)
    | Marked(id: nat)
    | Locked(id: nat)
    | Compared
    | Released

  /** An order is appended after its own timestamp reached the clock, and not to a locked id; an id
      is marked once it is in the book; the cleanup locks a deleted id that is in the book. */
  predicate Enabled(b: Book, s: Step) {
    match s
    case Touched(_) => true
    case Appended(o) => o.timestamp <= b.last && !Locks(b, o.id)
    case Marked(id) => id in b.orders || id in b.deleted
    case Locked(id) => b.scan.Idle? && id in b.deleted && id in b.orders
    case Compared => b.scan.Scan? && b.scan.next < |Current(b, b.scan.id)|
    case Released => b.scan.Scan? && b.scan.next == |Current(b, b.scan.id)|
  }

  function Apply(b: Book, s: Step): Book
    requires Enabled(b, s)
  {
    match s
    case Touched(t) => Touch(b, t)
    case Appended(o) => Append(b, o)
    case Marked(id) => Mark(b, id)
    case Locked(id) => Lock(b, id)
    case Compared => Compare(b)
    case Released => Release(b)
  }

  ghost predicate IsRun(b: Book, steps: seq<Step>)
    decreases |steps|
  {
    steps != [] ==> Enabled(b, steps[0]) && IsRun(Apply(b, steps[0]), steps[1..])
  }

  ghost function Run(b: Book, steps: seq<Step>): Book
    requires IsRun(b, steps)
    decreases |steps|
  {
    if steps == [] then b else Run(Apply(b, steps[0]), steps[1..])
  }

  /** The orders that a step appends for an id. */
  function AppendedBy(s: Step, id: nat): seq<Order> {
    if s.Appended? && s.order.id == id then [s.order] else []
  }

  /** The orders that a run appends for an id, in order. */
  function AllAppended(steps: seq<Step>, id: nat): seq<Order>
    decreases |steps|
  {
    if steps == [] then [] else AppendedBy(steps[0], id) + AllAppended(steps[1..], id)
  }

  lemma {:induction false} RunConcat(b: Book, s1: seq<Step>, s2: seq<Step>)
    requires IsRun(b, s1) && IsRun(Run(b, s1), s2)
    ensures IsRun(b, s1 + s2) && Run(b, s1 + s2) == Run(Run(b, s1), s2)
    decreases |s1|
  {
    hide Enabled, Apply;
    if s1 == [] {
      assert s1 + s2 == s2;
    } else {
      assert (s1 + s2)[1..] == s1[1..] + s2;
      RunConcat(Apply(b, s1[0]), s1[1..], s2);
    }
  }

  lemma RunOne(b: Book, s: Step)
    requires Enabled(b, s)
    ensures IsRun(b, [s]) && Run(b, [s]) == Apply(b, s)
  {
    assert [s][1..] == [];
  }

  lemma RunSnoc(b: Book, steps: seq<Step>, s: Step)
    requires IsRun(b, steps) && Enabled(Run(b, steps), s)
    ensures IsRun(b, steps + [s]) && Run(b, steps + [s]) == Apply(Run(b, steps), s)
  {
    RunOne(Run(b, steps), s);
    RunConcat(b, steps, [s]);
  }

  lemma {:induction false} AppendedConcat(s1: seq<Step>, s2: seq<Step>, id: nat)
    ensures AllAppended(s1 + s2, id) == AllAppended(s1, id) + AllAppended(s2, id)
    decreases |s1|
  {
    if s1 == [] {
      assert s1 + s2 == s2;
    } else {
      assert (s1 + s2)[1..] == s1[1..] + s2;
      AppendedConcat(s1[1..], s2, id);
    }
  }

  /** The log really is everything that was appended, whatever else happened in between. */
  lemma {:induction false} LogIsComplete(b: Book, steps: seq<Step>, id: nat)
    requires IsRun(b, steps)
    ensures Log(Run(b, steps), id) == Log(b, id) + AllAppended(steps, id)
    decreases |steps|
  {
    if steps != [] {
      var b' := Apply(b, steps[0]);
      LogIsComplete(b', steps[1..], id);
      assert Log(b', id) == Log(b, id) + AppendedBy(steps[0], id);
    }
  }

  /** The clock shows the latest timestamp fed, and the deleted ids are exactly those marked. */
  lemma {:induction false} ClockAndMarks(b: Book, steps: seq<Step>)
    requires IsRun(b, steps)
    ensures var b' := Run(b, steps);
            && (forall s :: s in steps && s.Touched? ==> s.timestamp <= b'.last)
            && b.last <= b'.last && (b'.last == b.last || Touched(b'.last) in steps)
            && (forall id :: id in b'.deleted <==> id in b.deleted || Marked(id) in steps)
            && b'.threshold == b.threshold
    decreases |steps|
  {
    if steps != [] {
      ClockAndMarks(Apply(b, steps[0]), steps[1..]);
      assert forall s :: s in steps <==> s == steps[0] || s in steps[1..];
    }
  }

  // ----- filtering by age -----

  lemma NewerLast(os: seq<Order>, o: Order, bound: real)
    ensures Newer(os + [o], bound) == Newer(os, bound) + if o.timestamp > bound then [o] else []
  {
    assert (os + [o])[..|os|] == os;
  }

  lemma {:induction false} NewerTwice(os: seq<Order>, bound: real, bound': real)
    ensures Newer(Newer(os, bound), bound') == Newer(os, if bound > bound' then bound else bound')
  {
    if os != [] {
      var front, o := os[..|os| - 1], os[|os| - 1];
      NewerTwice(front, bound, bound');
      if o.timestamp > bound {
        NewerLast(Newer(front, bound), o, bound');
      } else {
        assert Newer(front, bound) + [] == Newer(front, bound);
      }
    }
  }

  lemma {:induction false} NewerMembers(os: seq<Order>, bound: real)
    ensures forall o :: o in Newer(os, bound) <==> o in os && o.timestamp > bound
  {
    if os != [] {
      NewerMembers(os[..|os| - 1], bound);
      assert os == os[..|os| - 1] + [os[|os| - 1]];
    }
  }

  lemma {:induction false} NewerOfAll(os: seq<Order>, bound: real)
    requires forall o :: o in os ==> o.timestamp > bound
    ensures Newer(os, bound) == os
  {
    if os != [] {
      NewerOfAll(os[..|os| - 1], bound);
      assert os[|os| - 1] in os;
      assert os == os[..|os| - 1] + [os[|os| - 1]];
    }
  }

  lemma {:induction false} NewerOfNone(os: seq<Order>, bound: real)
    requires forall o :: o in os ==> o.timestamp <= bound
    ensures Newer(os, bound) == []
  {
    if os != [] {
      NewerOfNone(os[..|os| - 1], bound);
      assert os[|os| - 1] in os;
    }
  }

  // ----- subsequences -----

  /** Order-preserving subsequence. */
  ghost predicate IsSubsequence(a: seq<Order>, b: seq<Order>) {
    if a == [] then true
    else if b == [] then false
    else if a[|a| - 1] == b[|b| - 1] then IsSubsequence(a[..|a| - 1], b[..|b| - 1])
    else IsSubsequence(a, b[..|b| - 1])
  }

  lemma SubsequenceBoth(a: seq<Order>, b: seq<Order>, o: Order)
    requires IsSubsequence(a, b)
    ensures IsSubsequence(a + [o], b + [o])
  {
    assert (a + [o])[..|a|] == a && (b + [o])[..|b|] == b;
  }

  lemma {:induction false} SubsequenceOfMore(a: seq<Order>, b: seq<Order>, o: Order)
    requires IsSubsequence(a, b)
    ensures IsSubsequence(a, b + [o])
    ensures a != [] ==> IsSubsequence(a[..|a| - 1], b)
    decreases |b|
  {
    assert (b + [o])[..|b|] == b;
    if a != [] {
      var front, last := b[..|b| - 1], b[|b| - 1];
      assert b == front + [last];
      if a[|a| - 1] == last {
        SubsequenceOfMore(a[..|a| - 1], front, last);
      } else {
        SubsequenceOfMore(a, front, last);
        SubsequenceOfMore(a[..|a| - 1], front, last);
      }
    }
  }

  lemma {:induction false} SubsequenceTransitive(a: seq<Order>, b: seq<Order>, c: seq<Order>)
    requires IsSubsequence(a, b) && IsSubsequence(b, c)
    ensures IsSubsequence(a, c)
    decreases |b| + |c|
  {
    if a != [] {
      var b', c', last := b[..|b| - 1], c[..|c| - 1], c[|c| - 1];
      assert c == c' + [last];
      if b[|b| - 1] == last {
        if a[|a| - 1] == last {
          SubsequenceTransitive(a[..|a| - 1], b', c');
        } else {
          SubsequenceTransitive(a, b', c');
        }
      } else {
        SubsequenceTransitive(a, b, c');
        SubsequenceOfMore(a, c', last);
      }
    }
  }

  // ----- the invariant -----

  /** What the book holds for an id, against everything that was appended for it. */
  ghost predicate Held(held: seq<Order>, all: seq<Order>, isDeleted: bool, bound: real) {
    && (!isDeleted ==> held == all)
    && IsSubsequence(held, all)
    && Newer(held, bound) == Newer(all, bound)
  }

  /** A prune in progress: what survived so far, of the orders compared so far. */
  ghost predicate Survived(survivors: seq<Order>, compared: seq<Order>, bound: real, lockBound: real) {
    && lockBound <= bound
    && IsSubsequence(survivors, compared)
    && Newer(survivors, bound) == Newer(compared, bound)
    && (forall o :: o in survivors ==> o.timestamp > lockBound)
  }

  ghost predicate ScanInv(b: Book) {
    b.scan.Scan? ==>
      && b.scan.id in b.orders && b.scan.id in b.deleted && b.scan.next <= |b.orders[b.scan.id]|
      && Survived(b.scan.survivors, b.orders[b.scan.id][..b.scan.next], Bound(b), b.scan.since - b.threshold)
      && (forall o :: o in Log(b, b.scan.id) ==> o.timestamp <= b.scan.since)
  }

  ghost predicate Consistent(b: Book, id: nat) {
    && Held(Current(b, id), Log(b, id), id in b.deleted, Bound(b))
    && (id in b.orders ==> b.orders[id] != [])
    && (forall o :: o in Log(b, id) ==> o.timestamp <= b.last)
  }

  ghost predicate Inv(b: Book) {
    ScanInv(b) && forall id: nat :: Consistent(b, id)
  }

  lemma FreshInv(threshold: real)
    ensures Inv(Fresh(threshold))
  {
  }

  lemma HeldLater(held: seq<Order>, all: seq<Order>, isDeleted: bool, bound: real, bound': real)
    requires Held(held, all, isDeleted, bound) && bound <= bound'
    ensures Held(held, all, isDeleted, bound')
  {
    NewerTwice(held, bound, bound');
    NewerTwice(all, bound, bound');
  }

  lemma HeldMore(held: seq<Order>, all: seq<Order>, isDeleted: bool, bound: real, o: Order)
    requires Held(held, all, isDeleted, bound)
    ensures Held(held + [o], all + [o], isDeleted, bound)
  {
    SubsequenceBoth(held, all, o);
    NewerLast(held, o, bound);
    NewerLast(all, o, bound);
  }

  lemma HeldPruned(survivors: seq<Order>, held: seq<Order>, all: seq<Order>, bound: real, lockBound: real)
    requires Held(held, all, true, bound) && Survived(survivors, held, bound, lockBound)
    ensures Held(survivors, all, true, bound)
  {
    SubsequenceTransitive(survivors, held, all);
  }

  lemma SurvivedLater(survivors: seq<Order>, compared: seq<Order>, bound: real, lockBound: real, bound': real)
    requires Survived(survivors, compared, bound, lockBound) && bound <= bound'
    ensures Survived(survivors, compared, bound', lockBound)
  {
    NewerTwice(survivors, bound, bound');
    NewerTwice(compared, bound, bound');
  }

  lemma SurvivedMore(survivors: seq<Order>, compared: seq<Order>, bound: real, lockBound: real, o: Order)
    requires Survived(survivors, compared, bound, lockBound)
    ensures Survived(if o.timestamp > bound then survivors + [o] else survivors, compared + [o], bound, lockBound)
  {
    NewerLast(survivors, o, bound);
    NewerLast(compared, o, bound);
    SubsequenceBoth(survivors, compared, o);
    SubsequenceOfMore(survivors, compared, o);
  }

  lemma HeldDeleted(held: seq<Order>, all: seq<Order>, isDeleted: bool, bound: real)
    requires Held(held, all, isDeleted, bound)
    ensures Held(held, all, true, bound)
  {
  }

  lemma TouchKeeps(b: Book, t: real, id: nat)
    requires Inv(b)
    ensures ScanInv(Touch(b, t)) && Consistent(Touch(b, t), id)
  {
    hide Held, Survived, IsSubsequence, Newer;
    assert Consistent(b, id);
    HeldLater(Current(b, id), Log(b, id), id in b.deleted, Bound(b), Bound(Touch(b, t)));
    if b.scan.Scan? {
      SurvivedLater(b.scan.survivors, b.orders[b.scan.id][..b.scan.next], Bound(b), b.scan.since - b.threshold,
                    Bound(Touch(b, t)));
    }
  }

  lemma AppendKeeps(b: Book, o: Order, id: nat)
    requires Inv(b) && Enabled(b, Appended(o))
    ensures ScanInv(Append(b, o)) && Consistent(Append(b, o), id)
  {
    hide Held, Survived, IsSubsequence, Newer;
    assert Consistent(b, id);
    if id == o.id {
      HeldMore(Current(b, id), Log(b, id), id in b.deleted, Bound(b), o);
    }
  }

  lemma MarkKeeps(b: Book, m: nat, id: nat)
    requires Inv(b)
    ensures ScanInv(Mark(b, m)) && Consistent(Mark(b, m), id)
  {
    hide Held, Survived, IsSubsequence, Newer;
    assert Consistent(b, id);
    HeldDeleted(Current(b, id), Log(b, id), id in b.deleted, Bound(b));
  }

  lemma LockKeeps(b: Book, l: nat, id: nat)
    requires Inv(b) && Enabled(b, Locked(l))
    ensures ScanInv(Lock(b, l)) && Consistent(Lock(b, l), id)
  {
    hide Held;
    assert Consistent(b, id) && Consistent(b, l);
    assert b.orders[l][..0] == [];
  }

  lemma CompareKeeps(b: Book, id: nat)
    requires Inv(b) && Enabled(b, Compared)
    ensures ScanInv(Compare(b)) && Consistent(Compare(b), id)
  {
    hide Held, Survived, IsSubsequence, Newer;
    assert Consistent(b, id);
    var held, n := b.orders[b.scan.id], b.scan.next;
    assert held[..n + 1] == held[..n] + [held[n]];
    SurvivedMore(b.scan.survivors, held[..n], Bound(b), b.scan.since - b.threshold, held[n]);
  }

  lemma ReleaseKeeps(b: Book, id: nat)
    requires Inv(b) && Enabled(b, Released)
    ensures ScanInv(Release(b)) && Consistent(Release(b), id)
  {
    hide Held, Survived, IsSubsequence, Newer;
    assert Consistent(b, id);
    if id == b.scan.id {
      assert b.orders[id][..b.scan.next] == b.orders[id];
      HeldPruned(b.scan.survivors, b.orders[id], Log(b, id), Bound(b), b.scan.since - b.threshold);
    }
  }

  lemma ConsistentKept(b: Book, s: Step, id: nat)
    requires Inv(b) && Enabled(b, s)
    ensures ScanInv(Apply(b, s)) && Consistent(Apply(b, s), id)
  {
    hide Inv, ScanInv, Consistent;
    match s
    case Touched(t) => TouchKeeps(b, t, id);
    case Appended(o) => AppendKeeps(b, o, id);
    case Marked(m) => MarkKeeps(b, m, id);
    case Locked(l) => LockKeeps(b, l, id);
    case Compared => CompareKeeps(b, id);
    case Released => ReleaseKeeps(b, id);
  }

  /** Every atomic step of every thread keeps the invariant. */
  lemma StepKeeps(b: Book, s: Step)
    requires Inv(b) && Enabled(b, s)
    ensures Inv(Apply(b, s))
  {
    hide ScanInv, Consistent, Enabled, Apply;
    ConsistentKept(b, s, 0);
    forall id: nat ensures Consistent(Apply(b, s), id) {
      ConsistentKept(b, s, id);
    }
  }

  lemma {:induction false} RunKeeps(b: Book, steps: seq<Step>)
    requires Inv(b) && IsRun(b, steps)
    ensures Inv(Run(b, steps))
    decreases |steps|
  {
    hide Inv, Enabled, Apply;
    if steps != [] {
      StepKeeps(b, steps[0]);
      RunKeeps(Apply(b, steps[0]), steps[1..]);
    }
  }

  /** On every interleaving: an id that is not deleted keeps its full list; a deleted one keeps an
      order-preserving subsequence that has every order of the window. */
  lemma NothingRecentIsLost(threshold: real, steps: seq<Step>, id: nat)
    requires IsRun(Fresh(threshold), steps)
    ensures var b := Run(Fresh(threshold), steps);
            Log(b, id) == AllAppended(steps, id) && Held(Current(b, id), Log(b, id), id in b.deleted, Bound(b))
  {
    FreshInv(threshold);
    RunKeeps(Fresh(threshold), steps);
    LogIsComplete(Fresh(threshold), steps, id);
    hide Held, IsRun, Run, AllAppended;
    assert [] + AllAppended(steps, id) == AllAppended(steps, id);
    assert Consistent(Run(Fresh(threshold), steps), id);
  }

  // ----- lookups -----

  /** What a lookup answers: among the orders at or before the time, one with the greatest timestamp,
      and the first appended of those; the zero order if none has a positive timestamp. */
  lemma {:induction false} LatestIsFirst(os: seq<Order>, t: real) returns (i: int)
    ensures i == -1 ==> Latest(os, t) == ZERO_ORDER && forall o :: o in os ==> !(0.0 < o.timestamp <= t)
    ensures i != -1 ==>
              && 0 <= i < |os| && Latest(os, t) == os[i] && 0.0 < os[i].timestamp <= t
              && (forall j :: 0 <= j < |os| && os[j].timestamp <= t ==> os[j].timestamp <= os[i].timestamp)
              && (forall j :: 0 <= j < i && os[j].timestamp <= t ==> os[j].timestamp < os[i].timestamp)
    ensures -1 <= i
  {
    if os == [] {
      i := -1;
    } else {
      var front, o := os[..|os| - 1], os[|os| - 1];
      i := LatestIsFirst(front, t);
      assert os == front + [o];
      if o.timestamp > Latest(front, t).timestamp && o.timestamp <= t {
        i := |os| - 1;
      }
    }
  }

  lemma LatestLast(os: seq<Order>, o: Order, t: real)
    ensures Latest(os + [o], t) ==
            if o.timestamp > Latest(os, t).timestamp && o.timestamp <= t then o else Latest(os, t)
  {
    assert (os + [o])[..|os|] == os;
  }

  /** A lookup among the orders newer than a bound: the lookup among all of them, if that is newer
      than the bound itself, and the zero order otherwise. */
  lemma {:induction false} LatestOfNewer(os: seq<Order>, t: real, bound: real)
    ensures Latest(Newer(os, bound), t) == if Latest(os, t).timestamp > bound then Latest(os, t) else ZERO_ORDER
    ensures Latest(os, t).timestamp >= 0.0
  {
    if os != [] {
      var front, o := os[..|os| - 1], os[|os| - 1];
      LatestOfNewer(front, t, bound);
      assert os == front + [o];
      LatestLast(front, o, t);
      NewerLast(front, o, bound);
      LatestLast(Newer(front, bound), o, t);
      hide Latest, Newer;
      assert Newer(front, bound) + [] == Newer(front, bound);
    }
  }

  lemma LookupHeld(held: seq<Order>, all: seq<Order>, isDeleted: bool, bound: real, t: real)
    requires Held(held, all, isDeleted, bound)
    ensures var r, q := Latest(all, t), Latest(held, t);
            && (!isDeleted ==> q == r)
            && (r.timestamp > bound <==> q.timestamp > bound)
            && (q.timestamp > bound ==> q == r)
  {
    LatestOfNewer(held, t, bound);
    LatestOfNewer(all, t, bound);
  }

  /** Cleanup is invisible inside the window, on every interleaving: a lookup gives the answer of
      the full log, with the same choice among equal timestamps, whenever the id is not deleted or
      the answer is inside the window; and the caller can tell, because the answer it gets is inside
      the window exactly when the right one is. So a right answer is only ever withheld for an id
      that is deleted, and outside the window. */
  lemma CleanupInvisible(threshold: real, steps: seq<Step>, id: nat, t: real)
    requires IsRun(Fresh(threshold), steps)
    ensures var b := Run(Fresh(threshold), steps);
            var r, q := Latest(AllAppended(steps, id), t), Retrieve(b, id, t);
            && (Recent(b, r.timestamp) <==> Recent(b, q.timestamp))
            && (q != r ==> id in b.deleted && !Recent(b, r.timestamp) && !Recent(b, q.timestamp))
  {
    NothingRecentIsLost(threshold, steps, id);
    hide Held, IsRun, Run, AllAppended, Latest;
    var b := Run(Fresh(threshold), steps);
    LookupHeld(Current(b, id), Log(b, id), id in b.deleted, Bound(b), t);
  }

  /** A prune during which the clock stood still leaves exactly the orders of the window. */
  lemma PrunedExactly(survivors: seq<Order>, held: seq<Order>, all: seq<Order>, bound: real, t: real)
    requires Held(held, all, true, bound) && Survived(survivors, held, bound, bound)
    ensures survivors == Newer(all, bound)
    ensures Latest(survivors, t) == if Latest(all, t).timestamp > bound then Latest(all, t) else ZERO_ORDER
  {
    NewerOfAll(survivors, bound);
    LatestOfNewer(all, t, bound);
  }

  /** When a prune of an id ends, every order the book keeps for it was inside the window when the
      prune began, every order inside the window now is kept, and if the clock did not move in
      between, the book is exact: it holds the orders of the window and no others, and answers with
      the zero order outside it. */
  ghost predicate Pruned(b: Book, b': Book, id: nat, t: real)
    requires b.scan.Scan?
  {
    var r := RetrieveFromLog(b, id, t);
    && (forall o :: o in Current(b', id) ==> o.timestamp > b.scan.since - b.threshold)
    && Newer(Current(b', id), Bound(b')) == Newer(Log(b, id), Bound(b'))
    && (b.last == b.scan.since ==>
          && Current(b', id) == Newer(Log(b, id), Bound(b'))
          && Retrieve(b', id, t) == if Recent(b', r.timestamp) then r else ZERO_ORDER)
  }

  lemma ReleasePrunes(b: Book, t: real)
    requires Inv(b) && Enabled(b, Released)
    ensures Pruned(b, Release(b), b.scan.id, t)
  {
    hide Latest, IsSubsequence, Newer;
    var id, survivors := b.scan.id, b.scan.survivors;
    assert Consistent(b, id);
    assert b.orders[id][..b.scan.next] == b.orders[id];
    assert Current(Release(b), id) == survivors;
    if b.last == b.scan.since {
      PrunedExactly(survivors, b.orders[id], Log(b, id), Bound(b), t);
    }
  }

  /** So it is after every prune of every run. */
  lemma AfterCleanup(threshold: real, steps: seq<Step>, t: real)
    requires IsRun(Fresh(threshold), steps) && Enabled(Run(Fresh(threshold), steps), Released)
    ensures var b := Run(Fresh(threshold), steps);
            Log(b, b.scan.id) == AllAppended(steps, b.scan.id) && Pruned(b, Release(b), b.scan.id, t)
  {
    hide Inv, Pruned, IsRun, Run, AllAppended;
    var b := Run(Fresh(threshold), steps);
    FreshInv(threshold);
    RunKeeps(Fresh(threshold), steps);
    ReleasePrunes(b, t);
    LogIsComplete(Fresh(threshold), steps, b.scan.id);
    assert [] + AllAppended(steps, b.scan.id) == AllAppended(steps, b.scan.id);
  }
}

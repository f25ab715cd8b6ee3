/** Milestone rows, the released amounts of their orders, and the payouts made, over every run of service calls. */
module MilestoneAccounting {
  import opened Common
  import opened Sums

  type MilestoneId = string
  type OrderId = string

  datatype Status = Pending | Approved | Released | Rejected | Disputed | Cancelled

  datatype Milestone = Milestone(orderId: OrderId, amount: int, status: Status, autoRelease: bool, releaseAt: Option<int>)

  datatype Order = Order(total: int, released: int, remaining: int)

  // The payouts are the milestones for which a transfer was created, in order.
  datatype Book = Book(milestones: map<MilestoneId, Milestone>, orders: map<OrderId, Order>, payouts: seq<MilestoneId>)

  datatype Error = OrderNotFound | MilestoneNotFound | ExceedsTotal | WrongStatus

  datatype Draft = Draft(id: MilestoneId, amount: int, autoRelease: bool, releaseAt: Option<int>)

  datatype Step =
    | Create(orderId: OrderId, drafts: seq<Draft>)
    | Approve(id: MilestoneId)
    | Reject(id: MilestoneId)
    | Release(id: MilestoneId)
    | AutoRelease(now: int)

  // ---------------------------------------------------------------- calls

  function DraftTotal(drafts: seq<Draft>): int {
    if drafts == [] then 0 else DraftTotal(drafts[..|drafts| - 1]) + drafts[|drafts| - 1].amount
  }

  function AddDrafts(ms: map<MilestoneId, Milestone>, o: OrderId, drafts: seq<Draft>): map<MilestoneId, Milestone> {
    if drafts == [] then ms
    else
      var d := drafts[|drafts| - 1];
      AddDrafts(ms, o, drafts[..|drafts| - 1])[d.id := Milestone(o, d.amount, Pending, d.autoRelease, d.releaseAt)]
  }

  function CreateMilestones(b: Book, o: OrderId, drafts: seq<Draft>): Result<Book, Error> {
    if o !in b.orders then Err(OrderNotFound)
    else if DraftTotal(drafts) > b.orders[o].total then Err(ExceedsTotal)
    else Ok(b.(milestones := AddDrafts(b.milestones, o, drafts)))
  }

  predicate Open(s: Status) {
    s == Pending || s == Approved
  }

  function SetStatus(b: Book, id: MilestoneId, s: Status): Book
    requires id in b.milestones
  {
    b.(milestones := b.milestones[id := b.milestones[id].(status := s)])
  }

  // What a release leaves behind, and the error it threw, if any.
  datatype Reply = Reply(book: Book, error: Option<Error>)

  // The status is saved first. When the milestone's order is gone, the transfer cannot be made and the call throws.
  function ReleaseMilestone(b: Book, id: MilestoneId): Reply {
    if id !in b.milestones then Reply(b, Some(MilestoneNotFound))
    else
      var m := b.milestones[id];
      if !Open(m.status) then Reply(b, Some(WrongStatus))
      else
        var t := SetStatus(b, id, Released);
        if m.orderId !in b.orders then Reply(t, Some(OrderNotFound))
        else
          var order := b.orders[m.orderId];
          var released := order.released + m.amount;
          Reply(t.(payouts := b.payouts + [id],
                   orders := b.orders[m.orderId := order.(released := released, remaining := order.total - released)]), None)
  }

  function ApproveMilestone(b: Book, id: MilestoneId): Result<Book, Error> {
    if id !in b.milestones then Err(MilestoneNotFound)
    else if b.milestones[id].status != Pending then Err(WrongStatus)
    else Ok(SetStatus(b, id, Approved))
  }

  function RejectMilestone(b: Book, id: MilestoneId): Result<Book, Error> {
    if id !in b.milestones then Err(MilestoneNotFound)
    else if !Open(b.milestones[id].status) then Err(WrongStatus)
    else Ok(SetStatus(b, id, Rejected))
  }

  predicate Due(m: Milestone, now: int) {
    m.status == Pending && m.autoRelease && m.releaseAt.Some? && m.releaseAt.value < now
  }

  function DueSet(b: Book, now: int): set<MilestoneId> {
    set id | id in b.milestones && Due(b.milestones[id], now)
  }

  lemma ReleaseShrinksDue(b: Book, id: MilestoneId, now: int)
    requires id in DueSet(b, now)
    ensures DueSet(ReleaseMilestone(b, id).book, now) == DueSet(b, now) - {id}
  {}

  function OrSame(r: Result<Book, Error>, b: Book): Book {
    match r
    case Ok(t) => t
    case Err(_) => b
  }

  // The automatic run releases the due milestones one after the other, in some order; an error does not stop it.
  predicate ReleasesInOrder(b: Book, ids: seq<MilestoneId>, t: Book)
    decreases |ids|
  {
    if ids == [] then t == b
    else ReleasesInOrder(ReleaseMilestone(b, ids[0]).book, ids[1..], t)
  }

  // Those of the milestones whose order exists, and so can be paid out.
  function Payable(b: Book, ids: seq<MilestoneId>): seq<MilestoneId> {
    if ids == [] then []
    else
      var rest, last := Payable(b, ids[..|ids| - 1]), ids[|ids| - 1];
      if last in b.milestones && b.milestones[last].orderId in b.orders then rest + [last] else rest
  }

  ghost predicate Next(b: Book, step: Step, t: Book) {
    match step
    case Create(o, drafts) => t == OrSame(CreateMilestones(b, o, drafts), b)
    case Approve(id) => t == OrSame(ApproveMilestone(b, id), b)
    case Reject(id) => t == OrSame(RejectMilestone(b, id), b)
    case Release(id) => t == ReleaseMilestone(b, id).book
    case AutoRelease(now) =>
      exists ids :: (set id | id in ids) == DueSet(b, now) && ReleasesInOrder(b, ids, t)
  }

  // ---------------------------------------------------------------- the invariant

  function Selected(ms: map<MilestoneId, Milestone>, o: OrderId, onlyReleased: bool): map<MilestoneId, int> {
    map id | id in ms && ms[id].orderId == o && (onlyReleased ==> ms[id].status == Released) :: ms[id].amount
  }

  ghost function ReleasedSum(b: Book, o: OrderId): int {
    Sum(Selected(b.milestones, o, true))
  }

  ghost function PlannedSum(b: Book, o: OrderId): int {
    Sum(Selected(b.milestones, o, false))
  }

  // An order's accounts match its released milestones, which were each paid out once.
  ghost predicate OrderInv(b: Book, o: OrderId) {
    && o in b.orders
    && b.orders[o].released == ReleasedSum(b, o)
    && b.orders[o].remaining == b.orders[o].total - b.orders[o].released
    && PlannedSum(b, o) <= b.orders[o].total
  }

  ghost predicate Inv(b: Book) {
    && (forall o :: o in b.orders ==> OrderInv(b, o))
    && (forall id :: id in b.milestones ==> b.milestones[id].orderId in b.orders && 0 <= b.milestones[id].amount)
    && NoRepeats(b.payouts)
    && (forall id :: id in b.payouts <==> id in b.milestones && b.milestones[id].status == Released)
  }

  // Orders as they are created, before any milestone.
  predicate Start(b: Book) {
    && b.milestones == map[] && b.payouts == []
    && forall o :: o in b.orders ==> b.orders[o].released == 0 && b.orders[o].remaining == b.orders[o].total >= 0
  }

  lemma StartHolds(b: Book)
    requires Start(b)
    ensures Inv(b)
  {
    forall o | o in b.orders
      ensures OrderInv(b, o)
    {
      assert Selected(b.milestones, o, true) == map[] && Selected(b.milestones, o, false) == map[];
    }
  }

  // Ids are fresh and distinct, amounts are not negative, and new milestones fit beside those the order has.
  ghost predicate Allowed(b: Book, step: Step) {
    match step
    case Create(o, drafts) =>
      && (forall i, j :: 0 <= i < j < |drafts| ==> drafts[i].id != drafts[j].id)
      && (forall i :: 0 <= i < |drafts| ==> drafts[i].id !in b.milestones && 0 <= drafts[i].amount)
      && (o in b.orders ==> PlannedSum(b, o) + DraftTotal(drafts) <= b.orders[o].total)
    case _ => true
  }

  predicate Counts(m: Milestone, o: OrderId, onlyReleased: bool) {
    m.orderId == o && (onlyReleased ==> m.status == Released)
  }

  // Writing one row moves the sum by what the row counted before and counts now.
  lemma PutSum(ms: map<MilestoneId, Milestone>, id: MilestoneId, m: Milestone, o: OrderId, onlyReleased: bool)
    ensures Sum(Selected(ms[id := m], o, onlyReleased))
         == Sum(Selected(ms, o, onlyReleased))
            - (if id in ms && Counts(ms[id], o, onlyReleased) then ms[id].amount else 0)
            + (if Counts(m, o, onlyReleased) then m.amount else 0)
  {
    var before, after := Selected(ms, o, onlyReleased), Selected(ms[id := m], o, onlyReleased);
    if Counts(m, o, onlyReleased) {
      SumUpdate(before, id, m.amount);
      assert after == before[id := m.amount];
    } else if id in before {
      SumSplit(before, id);
      assert after == before - {id};
    } else {
      assert after == before;
    }
  }

  lemma StatusChangeSums(b: Book, id: MilestoneId, s: Status, o: OrderId)
    requires id in b.milestones && b.milestones[id].status != Released
    ensures PlannedSum(SetStatus(b, id, s), o) == PlannedSum(b, o)
    ensures ReleasedSum(SetStatus(b, id, s), o)
         == ReleasedSum(b, o) + (if s == Released && b.milestones[id].orderId == o then b.milestones[id].amount else 0)
  {
    PutSum(b.milestones, id, b.milestones[id].(status := s), o, true);
    PutSum(b.milestones, id, b.milestones[id].(status := s), o, false);
  }

  lemma StatusChangeKeepsInv(b: Book, id: MilestoneId, s: Status)
    requires Inv(b) && id in b.milestones && Open(b.milestones[id].status) && s != Released
    ensures Inv(SetStatus(b, id, s))
  {
    var t := SetStatus(b, id, s);
    forall o | o in t.orders
      ensures OrderInv(t, o)
    {
      assert OrderInv(b, o);
      StatusChangeSums(b, id, s, o);
    }
    assert id !in b.payouts;
  }

  lemma ReleaseKeepsInv(b: Book, id: MilestoneId)
    requires Inv(b)
    ensures Inv(ReleaseMilestone(b, id).book)
  {
    if ReleaseMilestone(b, id).error == None {
      var t := ReleaseMilestone(b, id).book;
      forall o | o in t.orders
        ensures OrderInv(t, o)
      {
        assert OrderInv(b, o);
        StatusChangeSums(b, id, Released, o);
        assert ReleasedSum(t, o) == ReleasedSum(SetStatus(b, id, Released), o);
        assert PlannedSum(t, o) == PlannedSum(SetStatus(b, id, Released), o);
      }
      assert id !in b.payouts;
      forall a
        ensures a in t.payouts <==> a in t.milestones && t.milestones[a].status == Released
      {
        assert a in t.payouts <==> a in b.payouts || a == id;
      }
    }
  }

  /** An open milestone ends RELEASED in any case, and is paid out exactly when its order exists. */
  lemma ReleasedButPaidExactlyWhen(b: Book, id: MilestoneId)
    requires id in b.milestones && Open(b.milestones[id].status)
    ensures
      var r := ReleaseMilestone(b, id);
      && id in r.book.milestones && r.book.milestones[id].status == Released
      && (r.book.payouts == b.payouts + [id] <==> b.milestones[id].orderId in b.orders)
      && (r.error == None <==> b.milestones[id].orderId in b.orders)
      && (r.error.Some? ==> r.book.payouts == b.payouts && r.book.orders == b.orders)
  {}

  lemma {:induction false} AddDraftsSums(ms: map<MilestoneId, Milestone>, o: OrderId, drafts: seq<Draft>, a: OrderId)
    requires forall i, j :: 0 <= i < j < |drafts| ==> drafts[i].id != drafts[j].id
    requires forall i :: 0 <= i < |drafts| ==> drafts[i].id !in ms
    ensures Sum(Selected(AddDrafts(ms, o, drafts), a, true)) == Sum(Selected(ms, a, true))
    ensures Sum(Selected(AddDrafts(ms, o, drafts), a, false))
         == Sum(Selected(ms, a, false)) + (if a == o then DraftTotal(drafts) else 0)
  {
    if drafts != [] {
      var init, d := drafts[..|drafts| - 1], drafts[|drafts| - 1];
      AddDraftsSums(ms, o, init, a);
      AddDraftsKeys(ms, o, init);
      var m := Milestone(o, d.amount, Pending, d.autoRelease, d.releaseAt);
      PutSum(AddDrafts(ms, o, init), d.id, m, a, true);
      PutSum(AddDrafts(ms, o, init), d.id, m, a, false);
      assert d.id !in AddDrafts(ms, o, init);
    }
  }

  lemma {:induction false} AddDraftsKeys(ms: map<MilestoneId, Milestone>, o: OrderId, drafts: seq<Draft>)
    ensures forall id :: id in AddDrafts(ms, o, drafts) <==> id in ms || exists i :: 0 <= i < |drafts| && drafts[i].id == id
  {
    if drafts != [] {
      AddDraftsKeys(ms, o, drafts[..|drafts| - 1]);
      assert forall i :: 0 <= i < |drafts| - 1 ==> drafts[..|drafts| - 1][i] == drafts[i];
    }
  }

  lemma {:induction false} AddDraftsRows(ms: map<MilestoneId, Milestone>, o: OrderId, drafts: seq<Draft>)
    requires forall i :: 0 <= i < |drafts| ==> drafts[i].id !in ms && 0 <= drafts[i].amount
    ensures forall id :: id in AddDrafts(ms, o, drafts) ==>
              if id in ms then AddDrafts(ms, o, drafts)[id] == ms[id]
              else AddDrafts(ms, o, drafts)[id].orderId == o && AddDrafts(ms, o, drafts)[id].status == Pending
                   && 0 <= AddDrafts(ms, o, drafts)[id].amount
    ensures ms.Keys <= AddDrafts(ms, o, drafts).Keys
  {
    if drafts != [] {
      AddDraftsRows(ms, o, drafts[..|drafts| - 1]);
    }
  }

  lemma CreateKeepsInv(b: Book, o: OrderId, drafts: seq<Draft>)
    requires Inv(b) && Allowed(b, Create(o, drafts)) && CreateMilestones(b, o, drafts).Ok?
    ensures Inv(CreateMilestones(b, o, drafts).value)
  {
    var t := CreateMilestones(b, o, drafts).value;
    AddDraftsRows(b.milestones, o, drafts);
    forall a | a in t.orders
      ensures OrderInv(t, a)
    {
      assert OrderInv(b, a);
      AddDraftsSums(b.milestones, o, drafts, a);
    }
  }

  lemma {:induction false} ReleasesKeepInv(b: Book, ids: seq<MilestoneId>, t: Book)
    requires Inv(b) && ReleasesInOrder(b, ids, t)
    ensures Inv(t)
    decreases |ids|
  {
    if ids != [] {
      ReleaseKeepsInv(b, ids[0]);
      ReleasesKeepInv(ReleaseMilestone(b, ids[0]).book, ids[1..], t);
    }
  }

  lemma NextKeepsInv(b: Book, step: Step, t: Book)
    requires Inv(b) && Allowed(b, step) && Next(b, step, t)
    ensures Inv(t)
  {
    match step
    case Create(o, drafts) => if CreateMilestones(b, o, drafts).Ok? { CreateKeepsInv(b, o, drafts); }
    case Approve(id) => if ApproveMilestone(b, id).Ok? { StatusChangeKeepsInv(b, id, Approved); }
    case Reject(id) => if RejectMilestone(b, id).Ok? { StatusChangeKeepsInv(b, id, Rejected); }
    case Release(id) => ReleaseKeepsInv(b, id);
    case AutoRelease(now) =>
      var ids :| (set id | id in ids) == DueSet(b, now) && ReleasesInOrder(b, ids, t);
      ReleasesKeepInv(b, ids, t);
  }

  // A run as the books after each step, the first being the one it starts from.
  ghost predicate IsRun(books: seq<Book>, steps: seq<Step>) {
    && |books| == |steps| + 1
    && forall i :: 0 <= i < |steps| ==> Allowed(books[i], steps[i]) && Next(books[i], steps[i], books[i + 1])
  }

  lemma {:induction false} RunKeepsInv(books: seq<Book>, steps: seq<Step>, i: nat)
    requires IsRun(books, steps) && Inv(books[0]) && i < |books|
    ensures Inv(books[i])
  {
    if i > 0 {
      RunKeepsInv(books, steps, i - 1);
      NextKeepsInv(books[i - 1], steps[i - 1], books[i]);
    }
  }

  lemma {:induction false} SumMonotone<K>(small: map<K, int>, large: map<K, int>)
    requires forall k :: k in small ==> k in large && large[k] == small[k]
    requires forall k :: k in large ==> 0 <= large[k]
    ensures Sum(small) <= Sum(large)
    decreases |large|
  {
    if large == map[] {
      assert small == map[];
    } else {
      var k :| k in large;
      SumSplit(large, k);
      CardinalityDrop(large, k);
      SumMonotone(small - {k}, large - {k});
      if k in small {
        SumSplit(small, k);
      } else {
        assert small - {k} == small;
      }
    }
  }

  /** At every moment of every run: an order's released amount is the sum of its RELEASED milestones, is its total less
      the remaining amount, never exceeds the total, and no milestone was paid out twice. */
  lemma ReleasedNeverExceedsTotal(books: seq<Book>, steps: seq<Step>, i: nat, o: OrderId)
    requires IsRun(books, steps) && Inv(books[0]) && i < |books| && o in books[i].orders
    ensures
      var order := books[i].orders[o];
      && order.released == ReleasedSum(books[i], o) == order.total - order.remaining
      && order.released <= order.total
      && NoRepeats(books[i].payouts)
  {
    RunKeepsInv(books, steps, i);
    assert OrderInv(books[i], o);
    SumMonotone(Selected(books[i].milestones, o, true), Selected(books[i].milestones, o, false));
  }

  /** Creating milestones checks the new ones alone against the order's total: the planned amounts stay within it
      exactly when the new ones fit beside those already planned. */
  lemma SecondCreateFitsExactlyWhen(b: Book, o: OrderId, drafts: seq<Draft>)
    requires Inv(b) && o in b.orders && DraftTotal(drafts) <= b.orders[o].total
    requires forall i, j :: 0 <= i < j < |drafts| ==> drafts[i].id != drafts[j].id
    requires forall i :: 0 <= i < |drafts| ==> drafts[i].id !in b.milestones
    ensures CreateMilestones(b, o, drafts).Ok?
    ensures PlannedSum(CreateMilestones(b, o, drafts).value, o) <= b.orders[o].total
       <==> PlannedSum(b, o) + DraftTotal(drafts) <= b.orders[o].total
  {
    AddDraftsSums(b.milestones, o, drafts, o);
  }

  /** An order of 100 takes two creations of 60 each, and after both are released shows 120 released and -20 left. */
  lemma SecondCreationOverspends()
    ensures
      var b0 := Book(map[], map["o" := Order(100, 0, 100)], []);
      var b1 := OrSame(CreateMilestones(b0, "o", [Draft("m", 60, false, None)]), b0);
      var b2 := OrSame(CreateMilestones(b1, "o", [Draft("n", 60, false, None)]), b1);
      var b3 := ReleaseMilestone(b2, "m").book;
      Start(b0) && ReleaseMilestone(b3, "n").book.orders == map["o" := Order(100, 120, -20)]
  {
    var b0 := Book(map[], map["o" := Order(100, 0, 100)], []);
    var m, n := [Draft("m", 60, false, None)], [Draft("n", 60, false, None)];
    assert m[..0] == [] && n[..0] == [];
    assert DraftTotal(m) == DraftTotal(m[..0]) + 60 && DraftTotal(n) == DraftTotal(n[..0]) + 60;
    assert AddDrafts(b0.milestones, "o", m) == map["m" := Milestone("o", 60, Pending, false, None)];
    var b1 := CreateMilestones(b0, "o", m).value;
    assert AddDrafts(b1.milestones, "o", n) == b1.milestones["n" := Milestone("o", 60, Pending, false, None)];
    var b2 := CreateMilestones(b1, "o", n).value;
    var b3 := ReleaseMilestone(b2, "m").book;
    assert b3.orders == map["o" := Order(100, 60, 40)];
  }

  // ----- what each call needs and leaves -----

  /** Drafts are saved PENDING exactly when the order exists and they sum to no more than its total. */
  lemma CreatedExactlyWhen(b: Book, o: OrderId, drafts: seq<Draft>)
    ensures CreateMilestones(b, o, drafts).Ok? <==> o in b.orders && DraftTotal(drafts) <= b.orders[o].total
    ensures CreateMilestones(b, o, drafts).Ok? ==>
              var t := CreateMilestones(b, o, drafts).value;
              && t.orders == b.orders && t.payouts == b.payouts
              && forall id :: id in t.milestones <==> id in b.milestones || exists i :: 0 <= i < |drafts| && drafts[i].id == id
  {
    AddDraftsKeys(b.milestones, o, drafts);
  }

  /** One draft becomes a PENDING milestone with its amount, trigger and date. */
  lemma DraftBecomesMilestone(b: Book, o: OrderId, d: Draft)
    requires o in b.orders && d.amount <= b.orders[o].total
    ensures CreateMilestones(b, o, [d]) ==
              Ok(b.(milestones := b.milestones[d.id := Milestone(o, d.amount, Pending, d.autoRelease, d.releaseAt)]))
  {
    assert [d][..0] == [];
    assert DraftTotal([d][..0]) == 0;
    assert AddDrafts(b.milestones, o, [d][..0]) == b.milestones;
  }

  /** Exactly a PENDING milestone is approved, and exactly a PENDING or APPROVED one rejected; nothing else about it changes. */
  lemma ApprovedOrRejectedExactlyWhen(b: Book, id: MilestoneId)
    requires id in b.milestones
    ensures
      var m := b.milestones[id];
      && ApproveMilestone(b, id) == (if m.status == Pending
           then Ok(b.(milestones := b.milestones[id := Milestone(m.orderId, m.amount, Approved, m.autoRelease, m.releaseAt)]))
           else Err(WrongStatus))
      && RejectMilestone(b, id) == (if m.status == Pending || m.status == Approved
           then Ok(b.(milestones := b.milestones[id := Milestone(m.orderId, m.amount, Rejected, m.autoRelease, m.releaseAt)]))
           else Err(WrongStatus))
  {}

  /** Exactly a PENDING or APPROVED milestone is released, and its order's figures then move by its amount. */
  lemma ReleasedExactlyWhen(b: Book, id: MilestoneId)
    requires id in b.milestones && b.milestones[id].orderId in b.orders
    ensures
      var m, r := b.milestones[id], ReleaseMilestone(b, id);
      var order := b.orders[m.orderId];
      && (r.error == None <==> m.status == Pending || m.status == Approved)
      && (r.error.Some? ==> r.book == b)
      && (r.error == None ==>
            && r.book.milestones == b.milestones[id := Milestone(m.orderId, m.amount, Released, m.autoRelease, m.releaseAt)]
            && r.book.orders == b.orders[m.orderId := Order(order.total, order.released + m.amount,
                                                            order.total - order.released - m.amount)]
            && r.book.payouts == b.payouts + [id])
  {}

  /** Due are exactly the PENDING milestones set to release by themselves whose date has passed. */
  lemma DueExactlyWhen(b: Book, now: int, id: MilestoneId)
    ensures id in DueSet(b, now)
       <==> && id in b.milestones && b.milestones[id].status == Pending && b.milestones[id].autoRelease
            && b.milestones[id].releaseAt.Some? && now > b.milestones[id].releaseAt.value
  {}
}

/** The milestone service over its tables. */
module MilestoneServices {
  import opened Common
  import opened Sums
  import opened MilestoneAccounting

  class MilestonesService {
    var milestones: map<MilestoneId, Milestone>
    var orders: map<OrderId, Order>
    var payouts: seq<MilestoneId>

    ghost function State(): Book
      reads this
    {
      Book(milestones, orders, payouts)
    }

    constructor (orders: map<OrderId, Order>)
      ensures State() == Book(map[], orders, [])
    {
      this.milestones, this.orders, payouts := map[], orders, [];
    }

    method CreateAll(o: OrderId, drafts: seq<Draft>) returns (error: Option<Error>)
      modifies this`milestones
      ensures error == None ==> CreateMilestones(old(State()), o, drafts) == Ok(State())
      ensures error.Some? ==> CreateMilestones(old(State()), o, drafts) == Err(error.value) && State() == old(State())
    {
      if o !in orders { return Some(OrderNotFound); }
      var total := 0;
      for i := 0 to |drafts|
        invariant total == DraftTotal(drafts[..i])
      {
        assert drafts[..i + 1][..i] == drafts[..i];
        total := total + drafts[i].amount;
      }
      assert drafts[..|drafts|] == drafts;
      if total > orders[o].total { return Some(ExceedsTotal); }
      for i := 0 to |drafts|
        invariant orders == old(orders) && payouts == old(payouts)
        invariant milestones == AddDrafts(old(milestones), o, drafts[..i])
      {
        assert drafts[..i + 1][..i] == drafts[..i];
        var d := drafts[i];
        milestones := milestones[d.id := Milestone(o, d.amount, Pending, d.autoRelease, d.releaseAt)];
      }
      return None;
    }

    method ReleaseOne(id: MilestoneId) returns (error: Option<Error>)
      modifies this
      ensures Reply(State(), error) == ReleaseMilestone(old(State()), id)
    {
      if id !in milestones { return Some(MilestoneNotFound); }
      var m := milestones[id];
      if m.status != Pending && m.status != Approved { return Some(WrongStatus); }
      m := m.(status := Released);
      milestones := milestones[id := m];
      if m.orderId !in orders { return Some(OrderNotFound); }
      payouts := payouts + [id];
      var order := orders[m.orderId];
      order := order.(released := order.released + m.amount);
      order := order.(remaining := order.total - order.released);
      orders := orders[m.orderId := order];
      return None;
    }

    method ApproveOne(id: MilestoneId) returns (error: Option<Error>)
      modifies this`milestones
      ensures error == None ==> ApproveMilestone(old(State()), id) == Ok(State())
      ensures error.Some? ==> ApproveMilestone(old(State()), id) == Err(error.value) && State() == old(State())
    {
      if id !in milestones { return Some(MilestoneNotFound); }
      if milestones[id].status != Pending { return Some(WrongStatus); }
      milestones := milestones[id := milestones[id].(status := Approved)];
      return None;
    }

    method RejectOne(id: MilestoneId) returns (error: Option<Error>)
      modifies this`milestones
      ensures error == None ==> RejectMilestone(old(State()), id) == Ok(State())
      ensures error.Some? ==> RejectMilestone(old(State()), id) == Err(error.value) && State() == old(State())
    {
      if id !in milestones { return Some(MilestoneNotFound); }
      var m := milestones[id];
      if m.status != Pending && m.status != Approved { return Some(WrongStatus); }
      milestones := milestones[id := m.(status := Rejected)];
      return None;
    }

    /** Releases exactly the due milestones and pays out those whose order exists; the others' errors are logged. */
    method ProcessAutomaticReleases(now: int) returns (ghost ids: seq<MilestoneId>)
      modifies this
      ensures Next(old(State()), AutoRelease(now), State())
      ensures (set id | id in ids) == DueSet(old(State()), now) && NoRepeats(ids)
      ensures payouts == old(payouts) + Payable(old(State()), ids)
      ensures DueSet(State(), now) == {}
    {
      var todo := set id | id in milestones && Due(milestones[id], now);
      ghost var before := State();
      ids := [];
      while todo != {}
        invariant Underway(before, now, todo, ids, State())
        decreases todo
      {
        var id :| id in todo;
        OneMoreReleased(before, now, todo, ids, State(), id);
        var error := ReleaseOne(id);
        todo := todo - {id};
        ids := ids + [id];
      }
    }

    method TotalReleased(o: OrderId) returns (total: int)
      ensures total == ReleasedSum(State(), o)
    {
      total := 0;
      var todo := set id | id in milestones && milestones[id].orderId == o && milestones[id].status == Released;
      ghost var all := Selected(milestones, o, true);
      ghost var done: map<MilestoneId, int> := map[];
      while todo != {}
        invariant todo <= all.Keys && done == all - todo && total == Sum(done)
        decreases todo
      {
        var id :| id in todo;
        todo := todo - {id};
        SumUpdate(done, id, milestones[id].amount);
        done := done[id := milestones[id].amount];
        assert done == all - todo;
        total := total + milestones[id].amount;
      }
      assert done == all;
    }
  }

  // The automatic run has released the ids in order and still has to release the others that were due.
  ghost predicate Underway(b: Book, now: int, todo: set<MilestoneId>, ids: seq<MilestoneId>, t: Book) {
    && todo == DueSet(t, now) && NoRepeats(ids) && (forall id :: id in ids ==> id !in todo)
    && (forall id :: id in DueSet(b, now) <==> id in todo || id in ids)
    && ReleasesInOrder(b, ids, t) && t.payouts == b.payouts + Payable(b, ids) && SameOrders(b, t)
  }

  lemma OneMoreReleased(b: Book, now: int, todo: set<MilestoneId>, ids: seq<MilestoneId>, t: Book, id: MilestoneId)
    requires Underway(b, now, todo, ids, t) && id in todo
    ensures Underway(b, now, todo - {id}, ids + [id], ReleaseMilestone(t, id).book)
  {
    ReleaseShrinksDue(t, id, now);
    ReleasesAppend(b, ids, t, id);
    PayableAppend(b, ids, id);
  }

  // The same orders, and each milestone of the same order.
  ghost predicate SameOrders(b: Book, t: Book) {
    && t.orders.Keys == b.orders.Keys && t.milestones.Keys == b.milestones.Keys
    && forall id :: id in b.milestones ==> t.milestones[id].orderId == b.milestones[id].orderId
  }

  lemma PayableAppend(b: Book, ids: seq<MilestoneId>, id: MilestoneId)
    ensures Payable(b, ids + [id])
         == Payable(b, ids) + (if id in b.milestones && b.milestones[id].orderId in b.orders then [id] else [])
  {
    assert (ids + [id])[..|ids|] == ids;
  }

  lemma {:induction false} ReleasesAppend(b: Book, ids: seq<MilestoneId>, t: Book, id: MilestoneId)
    requires ReleasesInOrder(b, ids, t)
    ensures ReleasesInOrder(b, ids + [id], ReleaseMilestone(t, id).book)
    decreases |ids|
  {
    if ids == [] {
      assert (ids + [id])[1..] == [];
    } else {
      assert (ids + [id])[1..] == ids[1..] + [id];
      ReleasesAppend(ReleaseMilestone(b, ids[0]).book, ids[1..], t, id);
    }
  }
}

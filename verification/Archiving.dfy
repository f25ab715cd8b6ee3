/** Moving old completed rows to the archive in batches, each batch inside one transaction. */
module Archiving {

  type RowId = string

  datatype Row = Row(completed: bool, updatedAt: int, content: string)

  type Table = map<RowId, Row>

  const BATCH_SIZE: nat := 1000

  predicate Eligible(r: Row, threshold: int) {
    r.completed && r.updatedAt < threshold
  }

  function EligibleIds(t: Table, threshold: int): set<RowId> {
    set id | id in t && Eligible(t[id], threshold)
  }

  function Only(t: Table, ids: set<RowId>): Table {
    map id | id in t && id in ids :: t[id]
  }

  lemma SizeOfPart<T>(part: set<T>, whole: set<T>)
    requires part <= whole
    ensures |whole - part| == |whole| - |part|
  {
    assert whole == part + (whole - part);
  }

  /** The archiving service for one kind of row: the primary table and its archive. */
  class ArchivingService {
    var primary: Table
    var archive: Table

    // No row is in both tables.
    ghost predicate Valid()
      reads this
    {
      primary.Keys !! archive.Keys
    }

    ghost function Everything(): Table
      reads this
    {
      primary + archive
    }

    constructor (rows: Table)
      ensures Valid() && primary == rows && archive == map[]
    {
      primary, archive := rows, map[];
    }

    // The database returns some eligible ids, as many as fit a batch.
    method FindIds(threshold: int) returns (ids: set<RowId>)
      ensures ids <= EligibleIds(primary, threshold)
      ensures |ids| == if |EligibleIds(primary, threshold)| < BATCH_SIZE then |EligibleIds(primary, threshold)| else BATCH_SIZE
    {
      var left := EligibleIds(primary, threshold);
      ids := {};
      while left != {} && |ids| < BATCH_SIZE
        invariant ids !! left && ids + left == EligibleIds(primary, threshold)
        invariant |ids| <= BATCH_SIZE
        decreases left
      {
        var id :| id in left;
        ids, left := ids + {id}, left - {id};
      }
      SizeOfPart(ids, EligibleIds(primary, threshold));
    }

    /** One batch: all its rows move or, when the transaction fails, none does. */
    method MoveBatch(threshold: int, commits: bool) returns (moved: nat, ghost ids: set<RowId>)
      requires Valid()
      modifies this
      ensures Valid() && Everything() == old(Everything())
      ensures ids <= EligibleIds(old(primary), threshold) && moved == |ids| <= BATCH_SIZE
      ensures primary == old(primary) - ids && archive == old(archive) + Only(old(primary), ids)
      ensures commits ==> moved == BATCH_SIZE || ids == EligibleIds(old(primary), threshold)
      ensures !commits ==> ids == {}
    {
      var found := FindIds(threshold);
      if |found| == 0 || !commits {
        ids, moved := {}, 0;
        assert archive + Only(primary, {}) == archive;
        return;
      }
      ids, moved := found, |found|;
      var fullData := Only(primary, found);
      archive := archive + fullData;
      primary := primary - found;
      SizeOfPart(found, EligibleIds(old(primary), threshold));
    }

    /** Batches are moved until one comes back short. Every row stays in exactly one table throughout; the archive
        gains only eligible rows; and unless a transaction fails it gains all of them, after one batch more than the
        eligible rows fill. */
    method ArchiveAll(threshold: int, failsAt: nat) returns (totalMoved: nat, failed: bool, ghost batches: nat, ghost all: set<RowId>)
      requires Valid()
      modifies this
      ensures Valid() && Everything() == old(Everything())
      ensures Moved(old(primary), old(archive), primary, archive, all, threshold) && totalMoved == |all|
      ensures !failed ==> all == EligibleIds(old(primary), threshold) && EligibleIds(primary, threshold) == {}
      // The archive gains exactly the completed rows last updated before the threshold, and the primary table keeps the rest.
      ensures !failed ==> forall id :: id in archive <==>
                id in old(archive) || (id in old(primary) && old(primary)[id].completed && old(primary)[id].updatedAt < threshold)
      ensures !failed ==> forall id :: id in primary <==>
                id in old(primary) && !(old(primary)[id].completed && old(primary)[id].updatedAt < threshold)
      ensures !failed ==> batches == |EligibleIds(old(primary), threshold)| / 1000 + 1
      ensures failed <==> failsAt <= |EligibleIds(old(primary), threshold)| / 1000
      ensures failed ==> batches == failsAt && totalMoved == failsAt * 1000
    {
      totalMoved, failed, batches, all := 0, false, 0, {};
      var hasMore := true;
      var count := 0;
      ghost var n := |EligibleIds(primary, threshold)|;
      NothingMoved(primary, archive, threshold);
      while hasMore
        invariant Valid() && Everything() == old(Everything())
        invariant Moved(old(primary), old(archive), primary, archive, all, threshold)
        invariant totalMoved == |all| && count == batches
        invariant |EligibleIds(primary, threshold)| == n - totalMoved
        invariant hasMore ==> totalMoved == batches * BATCH_SIZE && batches <= failsAt
        invariant !hasMore ==> EligibleIds(primary, threshold) == {} && 0 < batches <= failsAt
        invariant !hasMore ==> (batches - 1) * BATCH_SIZE <= n < batches * BATCH_SIZE
        decreases |EligibleIds(primary, threshold)|, hasMore
      {
        ghost var p, a := primary, archive;
        var moved;
        ghost var ids;
        moved, ids := MoveBatch(threshold, count != failsAt);
        MovedMore(old(primary), old(archive), p, a, all, ids, threshold);
        all := all + ids;
        if count == failsAt {
          failed := true;
          BatchesBefore(n, batches);
          return;
        }
        totalMoved := totalMoved + moved;
        hasMore := moved == BATCH_SIZE;
        count, batches := count + 1, batches + 1;
      }
      Quotient(n, batches - 1);
      NoneLeft(old(primary), old(archive), primary, archive, all, threshold);
    }
  }

  /** From the tables (p0, a0), exactly the rows in `all`, each of them eligible, have moved to the archive. */
  ghost predicate Moved(p0: Table, a0: Table, p: Table, a: Table, all: set<RowId>, threshold: int) {
    all <= EligibleIds(p0, threshold) && p == p0 - all && a == a0 + Only(p0, all)
  }

  lemma NothingMoved(p: Table, a: Table, threshold: int)
    ensures Moved(p, a, p, a, {}, threshold)
  {
    assert Only(p, {}) == map[];
  }

  lemma LeftAfter(p0: Table, all: set<RowId>, threshold: int)
    requires all <= EligibleIds(p0, threshold)
    ensures EligibleIds(p0 - all, threshold) == EligibleIds(p0, threshold) - all
    ensures |EligibleIds(p0 - all, threshold)| == |EligibleIds(p0, threshold)| - |all|
  {
    SizeOfPart(all, EligibleIds(p0, threshold));
  }

  lemma OnlyTwice(t: Table, a: set<RowId>, b: set<RowId>)
    ensures Only(t, a) + Only(t - a, b) == Only(t, a + b)
  {}

  lemma AddTwice(t: Table, a: Table, b: Table)
    ensures t + a + b == t + (a + b)
  {}

  // Moving another batch on top of what has moved amounts to having moved both at once.
  lemma MovedMore(p0: Table, a0: Table, p: Table, a: Table, all: set<RowId>, ids: set<RowId>, threshold: int)
    requires Moved(p0, a0, p, a, all, threshold)
    requires ids <= EligibleIds(p, threshold)
    ensures Moved(p0, a0, p - ids, a + Only(p, ids), all + ids, threshold)
    ensures |all + ids| == |all| + |ids|
    ensures |EligibleIds(p - ids, threshold)| == |EligibleIds(p, threshold)| - |ids|
    ensures ids == EligibleIds(p, threshold) ==> EligibleIds(p - ids, threshold) == {}
  {
    LeftAfter(p, ids, threshold);
    SizeOfPart(all, all + ids);
    assert all + ids - all == ids;
    assert p - ids == p0 - (all + ids);
    OnlyTwice(p0, all, ids);
    AddTwice(a0, Only(p0, all), Only(p, ids));
  }

  lemma NoneLeft(p0: Table, a0: Table, p: Table, a: Table, all: set<RowId>, threshold: int)
    requires Moved(p0, a0, p, a, all, threshold)
    requires EligibleIds(p, threshold) == {}
    ensures all == EligibleIds(p0, threshold)
  {
    LeftAfter(p0, all, threshold);
  }

  lemma Quotient(n: nat, q: nat)
    requires q * BATCH_SIZE <= n < (q + 1) * BATCH_SIZE
    ensures n / BATCH_SIZE == q
  {}

  lemma BatchesBefore(n: nat, q: nat)
    requires q * BATCH_SIZE <= n
    ensures q <= n / BATCH_SIZE
  {}
}

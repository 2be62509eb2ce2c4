/**
  The data migration that prepares the manifest table for a uniqueness
  constraint on (service_date, ship, sign): for every key held by more
  than one row it keeps one row — a final one if there is one, then the
  latest printing date, then the highest id — and deletes the others, all
  in one transaction.
*/
module Dedupe {
  import opened Seqs
  import opened Models
  import opened Serializers

  /** `When(status="final", ...)`: an exact, case-sensitive comparison. */
  predicate IsFinal(x: CruiseRow) {
    x.fields.status == "final"
  }

  /** `a` sorts before `b` under `order_by("final_first", "-printing_date", "-id")`. */
  predicate Outranks(a: CruiseRow, b: CruiseRow) {
    || (IsFinal(a) && !IsFinal(b))
    || (IsFinal(a) == IsFinal(b) &&
        (a.printingDate > b.printingDate || (a.printingDate == b.printingDate && a.id > b.id)))
  }

  /** `qs.first()` under that ordering: a row no other row of the group sorts before. */
  function Best(g: seq<CruiseRow>): (b: CruiseRow)
    requires g != []
    ensures b in g
    ensures forall x :: x in g ==> !Outranks(x, b)
  {
    if |g| == 1 then g[0]
    else
      var r := Best(g[1..]);
      assert forall x :: x in g ==> x == g[0] || x in g[1..];
      if Outranks(r, g[0]) then r else g[0]
  }

  /** The kept row is final whenever its group holds a final row. */
  lemma BestPrefersFinal(g: seq<CruiseRow>, x: CruiseRow)
    requires g != [] && x in g && IsFinal(x)
    ensures IsFinal(Best(g))
  {
  }

  /**
    Among rows of the same finality, the kept row has the latest printing
    date, and the highest id among those printed at that time.
  */
  lemma BestIsLatest(g: seq<CruiseRow>, x: CruiseRow)
    requires g != [] && x in g && IsFinal(x) == IsFinal(Best(g))
    ensures x.printingDate <= Best(g).printingDate
    ensures x.printingDate == Best(g).printingDate ==> x.id <= Best(g).id
  {
  }

  /** The stored rows with one key, in table order. */
  function SelectSign(rows: seq<CruiseRow>, k: SignKey): (r: seq<CruiseRow>)
    ensures |r| == CountWithKey(rows, k)
    ensures forall x :: x in r ==> x in rows && SignKeyOf(x.fields) == k
  {
    if rows == [] then []
    else (if SignKeyOf(rows[0].fields) == k then [rows[0]] else []) + SelectSign(rows[1..], k)
  }

  function SignKeys(rows: seq<CruiseRow>): (ks: seq<SignKey>)
    ensures |ks| == |rows| && forall i :: 0 <= i < |rows| ==> ks[i] == SignKeyOf(rows[i].fields)
  {
    seq(|rows|, i requires 0 <= i < |rows| => SignKeyOf(rows[i].fields))
  }

  lemma {:induction false} CountPositive(rows: seq<CruiseRow>, k: SignKey)
    ensures CountWithKey(rows, k) > 0 <==> k in SignKeys(rows)
  {
    if rows != [] {
      CountPositive(rows[1..], k);
      assert SignKeys(rows) == [SignKeyOf(rows[0].fields)] + SignKeys(rows[1..]);
    }
  }

  /** The keys whose count is above one. */
  function Repeated(ks: seq<SignKey>, rows: seq<CruiseRow>): (r: seq<SignKey>)
    ensures forall k :: k in r <==> k in ks && CountWithKey(rows, k) > 1
  {
    if ks == [] then []
    else (if CountWithKey(rows, ks[0]) > 1 then [ks[0]] else []) + Repeated(ks[1..], rows)
  }

  /** `values(...).annotate(n=Count("id")).filter(n__gt=1)`: each duplicated key once. */
  function DupKeys(rows: seq<CruiseRow>): (r: seq<SignKey>)
    ensures NoDup(r)
    ensures forall k :: k in r <==> CountWithKey(rows, k) > 1
  {
    var ks := Repeated(SignKeys(rows), rows);
    forall k | CountWithKey(rows, k) > 1
      ensures k in ks
    {
      CountPositive(rows, k);
    }
    Dedup(ks)
  }

  /** A row survives when its key is not among the processed ones, or it is the row kept for its key. */
  predicate Survives(x: CruiseRow, rows0: seq<CruiseRow>, done: set<SignKey>) {
    var k := SignKeyOf(x.fields);
    k !in done || (SelectSign(rows0, k) != [] && x.id == Best(SelectSign(rows0, k)).id)
  }

  /** The rows of `rs` that survive once the keys in `done` have been processed. */
  function Survivors(rs: seq<CruiseRow>, rows0: seq<CruiseRow>, done: set<SignKey>): (r: seq<CruiseRow>)
    ensures |r| <= |rs|
    ensures forall x :: x in r ==> x in rs
  {
    if rs == [] then []
    else (if Survives(rs[0], rows0, done) then [rs[0]] else []) + Survivors(rs[1..], rows0, done)
  }

  /** The keys of a list, as a set. */
  function KeySet(ks: seq<SignKey>): set<SignKey> {
    set k | k in ks
  }

  /** The table the migration leaves: every duplicated key processed. */
  function Deduplicated(rows: seq<CruiseRow>): seq<CruiseRow> {
    Survivors(rows, rows, KeySet(DupKeys(rows)))
  }

  /** With no key processed every row survives. */
  lemma {:induction false} SurvivorsNone(rs: seq<CruiseRow>, rows0: seq<CruiseRow>)
    ensures Survivors(rs, rows0, {}) == rs
  {
    if rs != [] {
      SurvivorsNone(rs[1..], rows0);
      assert [rs[0]] + rs[1..] == rs;
    }
  }

  /** `qs.exclude(id=keep.id).delete()` for one key. */
  function PruneKey(rs: seq<CruiseRow>, k: SignKey, keepId: nat): (r: seq<CruiseRow>)
    ensures forall x :: x in r ==> x in rs
  {
    if rs == [] then []
    else (if SignKeyOf(rs[0].fields) != k || rs[0].id == keepId then [rs[0]] else []) + PruneKey(rs[1..], k, keepId)
  }

  /** Pruning one more key, keeping its best row, is processing that key. */
  lemma {:induction false} PruneStep(rs: seq<CruiseRow>, rows0: seq<CruiseRow>, done: set<SignKey>, k: SignKey)
    requires SelectSign(rows0, k) != []
    ensures PruneKey(Survivors(rs, rows0, done), k, Best(SelectSign(rows0, k)).id) == Survivors(rs, rows0, done + {k})
  {
    if rs != [] {
      PruneStep(rs[1..], rows0, done, k);
      var keepId := Best(SelectSign(rows0, k)).id;
      var rest := Survivors(rs[1..], rows0, done);
      if Survives(rs[0], rows0, done) {
        assert Survivors(rs, rows0, done) == [rs[0]] + rest;
        assert ([rs[0]] + rest)[0] == rs[0];
        assert ([rs[0]] + rest)[1..] == rest;
      } else {
        assert Survivors(rs, rows0, done) == rest;
      }
    }
  }

  /** Processing other keys leaves the rows of an unprocessed key in place. */
  lemma {:induction false} SelectUnprocessed(rs: seq<CruiseRow>, rows0: seq<CruiseRow>, done: set<SignKey>, k: SignKey)
    requires k !in done
    ensures SelectSign(Survivors(rs, rows0, done), k) == SelectSign(rs, k)
  {
    if rs != [] {
      SelectUnprocessed(rs[1..], rows0, done, k);
      var head := if Survives(rs[0], rows0, done) then [rs[0]] else [];
      SelectAppendSign(head, Survivors(rs[1..], rows0, done), k);
    }
  }

  lemma {:induction false} SelectAppendSign(a: seq<CruiseRow>, b: seq<CruiseRow>, k: SignKey)
    ensures SelectSign(a + b, k) == SelectSign(a, k) + SelectSign(b, k)
  {
    if a != [] {
      SelectAppendSign(a[1..], b, k);
      assert (a + b)[0] == a[0];
      assert (a + b)[1..] == a[1..] + b;
      var head := if SignKeyOf(a[0].fields) == k then [a[0]] else [];
      assert head + (SelectSign(a[1..], k) + SelectSign(b, k)) == (head + SelectSign(a[1..], k)) + SelectSign(b, k);
    } else {
      assert a + b == b;
    }
  }

  /** The rows with key `k` whose id is `id`. */
  function WithId(xs: seq<CruiseRow>, id: nat): seq<CruiseRow> {
    if xs == [] then [] else (if xs[0].id == id then [xs[0]] else []) + WithId(xs[1..], id)
  }

  /** For a processed key only the row carrying the kept id survives. */
  lemma {:induction false} SelectProcessed(rs: seq<CruiseRow>, rows0: seq<CruiseRow>, done: set<SignKey>, k: SignKey)
    requires k in done && SelectSign(rows0, k) != []
    ensures SelectSign(Survivors(rs, rows0, done), k) == WithId(SelectSign(rs, k), Best(SelectSign(rows0, k)).id)
  {
    if rs != [] {
      var keepId := Best(SelectSign(rows0, k)).id;
      var x := rs[0];
      var rest := Survivors(rs[1..], rows0, done);
      SelectProcessed(rs[1..], rows0, done, k);
      var head := if Survives(x, rows0, done) then [x] else [];
      assert Survivors(rs, rows0, done) == head + rest;
      SelectAppendSign(head, rest, k);
      if SignKeyOf(x.fields) == k {
        assert Survives(x, rows0, done) <==> x.id == keepId;
        assert SelectSign(head, k) == head;
        var sel := SelectSign(rs[1..], k);
        assert SelectSign(rs, k) == [x] + sel;
        assert ([x] + sel)[0] == x && ([x] + sel)[1..] == sel;
        assert WithId([x] + sel, keepId) == head + WithId(sel, keepId);
      } else {
        assert SelectSign(head, k) == [];
        assert SelectSign(rs, k) == SelectSign(rs[1..], k);
      }
    }
  }

  lemma {:induction false} WithIdAbsent(xs: seq<CruiseRow>, id: nat)
    requires forall x :: x in xs ==> x.id != id
    ensures WithId(xs, id) == []
  {
    if xs != [] {
      WithIdAbsent(xs[1..], id);
    }
  }

  /** Among rows with distinct ids, selecting the id of one of them gives that row alone. */
  lemma {:induction false} WithIdSingle(xs: seq<CruiseRow>, b: CruiseRow)
    requires DistinctIds(xs) && b in xs
    ensures WithId(xs, b.id) == [b]
  {
    if xs[0] == b {
      forall x | x in xs[1..]
        ensures x.id != b.id
      {
        var j :| 0 <= j < |xs[1..]| && xs[1..][j] == x;
        assert xs[j + 1] == x;
      }
      WithIdAbsent(xs[1..], b.id);
    } else {
      assert b in xs[1..];
      if xs[0].id == b.id {
        assert false;
      }
      WithIdSingle(xs[1..], b);
    }
  }

  /** A subsequence of rows with distinct ids has distinct ids. */
  lemma {:induction false} SelectSignDistinct(rows: seq<CruiseRow>, k: SignKey)
    requires DistinctIds(rows)
    ensures DistinctIds(SelectSign(rows, k))
  {
    if rows != [] {
      SelectSignDistinct(rows[1..], k);
      forall x | x in SelectSign(rows[1..], k)
        ensures x.id != rows[0].id
      {
        var j :| 0 <= j < |rows[1..]| && rows[1..][j] == x;
        assert rows[j + 1] == x;
      }
    }
  }

  lemma {:induction false} SurvivorsDistinct(rs: seq<CruiseRow>, rows0: seq<CruiseRow>, done: set<SignKey>)
    requires DistinctIds(rs)
    ensures DistinctIds(Survivors(rs, rows0, done))
  {
    if rs != [] {
      SurvivorsDistinct(rs[1..], rows0, done);
      forall x | x in Survivors(rs[1..], rows0, done)
        ensures x.id != rs[0].id
      {
        var j :| 0 <= j < |rs[1..]| && rs[1..][j] == x;
        assert rs[j + 1] == x;
      }
    }
  }

  /**
    What the migration leaves for each key: the single kept row when the
    key was duplicated, and the stored rows unchanged otherwise (so every
    key keeps exactly one row and no key disappears).
  */
  lemma KeptRowsOfKey(rows: seq<CruiseRow>, k: SignKey)
    requires DistinctIds(rows)
    ensures SelectSign(Deduplicated(rows), k) ==
      if CountWithKey(rows, k) > 1 then [Best(SelectSign(rows, k))] else SelectSign(rows, k)
  {
    var done := KeySet(DupKeys(rows));
    if CountWithKey(rows, k) > 1 {
      assert k in done;
      SelectProcessed(rows, rows, done, k);
      SelectSignDistinct(rows, k);
      WithIdSingle(SelectSign(rows, k), Best(SelectSign(rows, k)));
    } else {
      SelectUnprocessed(rows, rows, done, k);
    }
  }

  /** After the migration every key of the table is held by exactly one row. */
  lemma OneRowPerKey(rows: seq<CruiseRow>, k: SignKey)
    requires DistinctIds(rows) && k in SignKeys(rows)
    ensures CountWithKey(Deduplicated(rows), k) == 1
  {
    KeptRowsOfKey(rows, k);
    CountPositive(rows, k);
  }

  /** The migration only deletes rows, and leaves the same set of keys. */
  lemma DedupSubsetSameKeys(rows: seq<CruiseRow>, k: SignKey)
    requires DistinctIds(rows)
    ensures forall x :: x in Deduplicated(rows) ==> x in rows
    ensures k in SignKeys(Deduplicated(rows)) <==> k in SignKeys(rows)
  {
    KeptRowsOfKey(rows, k);
    CountPositive(rows, k);
    CountPositive(Deduplicated(rows), k);
  }

  /** One pass of the migration's loop: the next duplicated key, found unprocessed, pruned to its best row. */
  lemma DedupStep(rows0: seq<CruiseRow>, dups: seq<SignKey>, i: nat)
    requires NoDup(dups) && i < |dups| && CountWithKey(rows0, dups[i]) > 1
    ensures var cur := Survivors(rows0, rows0, KeySet(dups[..i]));
      && SelectSign(cur, dups[i]) == SelectSign(rows0, dups[i]) != []
      && PruneKey(cur, dups[i], Best(SelectSign(rows0, dups[i])).id) == Survivors(rows0, rows0, KeySet(dups[..i + 1]))
  {
    var d := dups[i];
    var done := KeySet(dups[..i]);
    NotYetProcessed(dups, i);
    SelectUnprocessed(rows0, rows0, done, d);
    PruneStep(rows0, rows0, done, d);
    KeySetSnoc(dups, i);
  }

  lemma NotYetProcessed(dups: seq<SignKey>, i: nat)
    requires NoDup(dups) && i < |dups|
    ensures dups[i] !in KeySet(dups[..i])
  {
  }

  lemma KeySetSnoc(ks: seq<SignKey>, i: nat)
    requires i < |ks|
    ensures KeySet(ks[..i + 1]) == KeySet(ks[..i]) + {ks[i]}
  {
    assert ks[..i + 1] == ks[..i] + [ks[i]];
  }

  /** The migration keeps primary keys distinct and below the next key. */
  lemma DedupValid(rows0: seq<CruiseRow>, done: set<SignKey>, next: nat, orders: seq<Order>, nextOrder: nat)
    requires KeysValid(rows0, next, orders, nextOrder)
    ensures KeysValid(Survivors(rows0, rows0, done), next, orders, nextOrder)
  {
    SurvivorsDistinct(rows0, rows0, done);
    var r := Survivors(rows0, rows0, done);
    forall i | 0 <= i < |r|
      ensures r[i].id < next
    {
      assert r[i] in rows0;
    }
  }

  /**
    `deduplicate`: for every duplicated key, keep the best row and delete
    the others; the table it leaves is `Deduplicated` of the one it found.
  */
  method Deduplicate(db: Database)
    requires db.Valid()
    modifies db`cruises
    ensures db.cruises == Deduplicated(old(db.cruises))
    ensures db.Valid()
  {
    var kept := PruneDuplicates(db.cruises);
    DedupValid(db.cruises, KeySet(DupKeys(db.cruises)), db.nextCruiseId, db.orders, db.nextOrderId);
    db.cruises := kept;
  }

  /** The loop over the duplicated keys, on the rows as read at the start. */
  method PruneDuplicates(rows0: seq<CruiseRow>) returns (cur: seq<CruiseRow>)
    ensures cur == Deduplicated(rows0)
  {
    var dups := DupKeys(rows0);
    cur := rows0;
    var i := 0;
    SurvivorsNone(rows0, rows0);
    assert KeySet(dups[..0]) == {};
    while i < |dups|
      invariant 0 <= i <= |dups|
      invariant cur == Survivors(rows0, rows0, KeySet(dups[..i]))
    {
      var d := dups[i];
      DedupStep(rows0, dups, i);
      var group := SelectSign(cur, d);
      var keep := Best(group);
      cur := PruneKey(cur, d, keep.id);
      i := i + 1;
    }
    assert dups[..|dups|] == dups;
  }
}

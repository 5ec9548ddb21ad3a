/** Keyset pagination: the store returns the first `limit` matching documents whose id is greater than
    the last one seen, in the order of their ids. Every paging loop of the program is this one. */
module Paging {

  /** A document with its id. Ids are ordered; 0 stands for the empty id before the first page. */
  datatype Row<T> = Row(id: nat, value: T)

  predicate Keyed<T(==)>(rows: set<Row<T>>) {
    (forall r <- rows :: r.id > 0) && (forall r, s | r in rows && s in rows :: r.id == s.id ==> r == s)
  }

  function Seen<T(==)>(rows: set<Row<T>>, afterId: nat): set<Row<T>> {
    set r | r in rows && r.id <= afterId
  }

  function Elements<T(==)>(page: seq<Row<T>>): set<Row<T>> {
    set r | r in page
  }

  /** `page` is the sorted list of the `limit` smallest rows beyond `afterId`, or all of them. */
  predicate IsPage<T(==)>(rows: set<Row<T>>, afterId: nat, limit: nat, page: seq<Row<T>>) {
    && |page| <= limit
    && (forall i :: 0 <= i < |page| ==> page[i] in rows && page[i].id > afterId)
    && (forall i, j :: 0 <= i < j < |page| ==> page[i].id < page[j].id)
    && (forall r <- rows :: r.id > afterId ==>
          r in page || (|page| == limit && forall i :: 0 <= i < |page| ==> page[i].id < r.id))
  }

  /** A full page moves the cursor strictly forward and everything up to the new cursor was returned. */
  lemma FullPage<T>(rows: set<Row<T>>, afterId: nat, limit: nat, page: seq<Row<T>>)
    requires IsPage(rows, afterId, limit, page) && |page| == limit > 0
    ensures page[limit - 1].id > afterId && rows - Seen(rows, page[limit - 1].id) < rows - Seen(rows, afterId)
    ensures Seen(rows, page[limit - 1].id) == Seen(rows, afterId) + Elements(page)
    ensures Seen(rows, afterId) * Elements(page) == {}
  {
    var next := page[limit - 1].id;
    forall r | r in rows && afterId < r.id <= next ensures r in page {
      assert r in page || next < r.id;
    }
    forall r | r in page ensures r.id <= next {
      var i :| 0 <= i < |page| && page[i] == r;
    }
    assert page[limit - 1] in rows - Seen(rows, afterId);
  }

  /** A short page is the last one: nothing is left. */
  lemma ShortPage<T>(rows: set<Row<T>>, afterId: nat, limit: nat, page: seq<Row<T>>)
    requires IsPage(rows, afterId, limit, page) && |page| < limit
    ensures rows == Seen(rows, afterId) + Elements(page)
    ensures Seen(rows, afterId) * Elements(page) == {}
  {
  }

  function Smallest<T(==)>(rows: set<Row<T>>): (r: Row<T>)
    requires Keyed(rows) && rows != {}
    ensures r in rows && forall s <- rows - {r} :: r.id < s.id
  {
    HasSmallest(rows);
    var r :| r in rows && forall s <- rows :: r.id <= s.id;
    r
  }

  lemma {:induction false} HasSmallest<T>(rows: set<Row<T>>)
    requires rows != {}
    ensures exists r <- rows :: forall s <- rows :: r.id <= s.id
  {
    var r :| r in rows;
    if rows != {r} {
      HasSmallest(rows - {r});
      var q :| q in rows - {r} && forall s <- rows - {r} :: q.id <= s.id;
      var least := if r.id <= q.id then r else q;
      assert least in rows && forall s <- rows :: least.id <= s.id;
    }
  }

  function Rest<T(==)>(rows: set<Row<T>>, afterId: nat, page: seq<Row<T>>): set<Row<T>> {
    set r | r in rows && r.id > afterId && r !in page
  }

  lemma PageGrows<T>(rows: set<Row<T>>, afterId: nat, page: seq<Row<T>>, next: Row<T>)
    requires IsPage(rows, afterId, |page|, page) && next in Rest(rows, afterId, page)
    requires forall r <- Rest(rows, afterId, page) - {next} :: next.id < r.id
    ensures IsPage(rows, afterId, |page| + 1, page + [next])
  {
    forall r <- rows | r.id > afterId ensures r in page + [next] || next.id < r.id {
      assert r in page || r == next || r in Rest(rows, afterId, page) - {next};
    }
  }

  /** One query for a page. */
  method Fetch<T(==)>(rows: set<Row<T>>, afterId: nat, limit: nat) returns (page: seq<Row<T>>)
    requires Keyed(rows)
    ensures IsPage(rows, afterId, limit, page)
  {
    page := [];
    while |page| < limit && Rest(rows, afterId, page) != {}
      invariant |page| <= limit && IsPage(rows, afterId, |page|, page)
    {
      var next := Smallest(Rest(rows, afterId, page));
      PageGrows(rows, afterId, page, next);
      page := page + [next];
    }
    if |page| < limit {
      forall r <- rows | r.id > afterId ensures r in page {
        assert r !in Rest(rows, afterId, page);
      }
    }
  }

  lemma PagesJoin<T>(listed: seq<Row<T>>, page: seq<Row<T>>, rows: set<Row<T>>, afterId: nat, limit: nat)
    requires IsPage(rows, afterId, limit, page) && Elements(listed) == Seen(rows, afterId)
    requires forall i, j :: 0 <= i < j < |listed| ==> listed[i].id < listed[j].id
    ensures Elements(listed + page) == Seen(rows, afterId) + Elements(page)
    ensures forall i, j :: 0 <= i < j < |listed + page| ==> (listed + page)[i].id < (listed + page)[j].id
  {
    forall i | 0 <= i < |listed| ensures listed[i].id <= afterId {
      assert listed[i] in Elements(listed);
    }
  }

  /** Appending page after page lists every row once, also when the last page is exactly full; the
      cursor always advances. */
  method ListAll<T(==)>(rows: set<Row<T>>, limit: nat) returns (listed: seq<Row<T>>)
    requires Keyed(rows) && limit > 0
    ensures Elements(listed) == rows
    ensures forall i, j :: 0 <= i < j < |listed| ==> listed[i].id < listed[j].id
  {
    hide IsPage, Keyed;
    var afterId := 0;
    listed := [];
    NothingSeen(rows);
    while true
      invariant Elements(listed) == Seen(rows, afterId)
      invariant forall i, j :: 0 <= i < j < |listed| ==> listed[i].id < listed[j].id
      decreases rows - Seen(rows, afterId)
    {
      var page := Fetch(rows, afterId, limit);
      PagesJoin(listed, page, rows, afterId, limit);
      listed := listed + page;
      if |page| < limit {
        ShortPage(rows, afterId, limit, page);
        return;
      }
      FullPage(rows, afterId, limit, page);
      afterId := page[limit - 1].id;
    }
  }

  lemma PageWithin<T>(rows: set<Row<T>>, afterId: nat, limit: nat, page: seq<Row<T>>)
    requires IsPage(rows, afterId, limit, page)
    ensures |page| <= limit && Elements(page) <= rows && Seen(rows, afterId) <= rows
    ensures Seen(rows, afterId) * Elements(page) == {}
    ensures forall i, j :: 0 <= i < j < |page| ==> page[i].id < page[j].id
  {
  }

  /** The first rows of a page are all there is up to the next one. */
  lemma PageUpTo<T>(rows: set<Row<T>>, afterId: nat, limit: nat, page: seq<Row<T>>, k: nat)
    requires IsPage(rows, afterId, limit, page) && k < |page|
    ensures page[k] in rows && page[k].id > afterId
    ensures Seen(rows, page[k].id - 1) == Seen(rows, afterId) + Elements(page[..k])
  {
    forall r: Row<T> ensures r in page[..k] <==> r in rows && afterId < r.id < page[k].id {
      if r in page {
        var i :| 0 <= i < |page| && page[i] == r;
        if i < k {
          assert page[..k][i] == r;
        }
      }
    }
  }

  lemma NothingSeen<T>(rows: set<Row<T>>)
    requires Keyed(rows)
    ensures Seen(rows, 0) == {}
  {
  }
}

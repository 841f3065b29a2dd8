/** Paging through stored runs: the filtered listing, and reconciliation of abandoned runs while the
    listing is being reordered under the scan. */
module RunListing {

  const PAGE_SIZE: nat := 100

  function Min(a: nat, b: nat): nat { if a < b then a else b }

  /** How many rows the store returns at most: the limit, or twenty for none, within 1 to 100. */
  function NormalizedLimit(limit: nat): nat {
    if limit == 0 then 20 else Min(limit, 100)
  }

  lemma LimitIs(limit: nat)
    ensures 1 <= NormalizedLimit(limit) <= 100
    ensures 1 <= limit <= 100 ==> NormalizedLimit(limit) == limit
    ensures limit > 100 ==> NormalizedLimit(limit) == 100
    ensures NormalizedLimit(0) == 20
  {
  }

  function Page<T>(listing: seq<T>, limit: nat, offset: nat): seq<T> {
    if offset >= |listing| then [] else listing[offset..Min(offset + NormalizedLimit(limit), |listing|)]
  }

  // ------------------------------------------------------------------- filtered listing

  function Kept<T>(rows: seq<T>, keep: T -> bool): seq<T> {
    if rows == [] then []
    else Kept(rows[..|rows| - 1], keep) + if keep(rows[|rows| - 1]) then [rows[|rows| - 1]] else []
  }

  function First<T>(rows: seq<T>, n: nat): seq<T> { rows[..Min(n, |rows|)] }

  lemma {:induction false} KeptAppend<T>(a: seq<T>, b: seq<T>, keep: T -> bool)
    ensures Kept(a + b, keep) == Kept(a, keep) + Kept(b, keep)
  {
    if b == [] {
      assert a + b == a;
    } else {
      assert (a + b)[..|a + b| - 1] == a + b[..|b| - 1];
      KeptAppend(a, b[..|b| - 1], keep);
    }
  }

  lemma {:induction false} KeptAll<T(!new)>(rows: seq<T>, keep: T -> bool)
    requires forall x :: keep(x)
    ensures Kept(rows, keep) == rows
  {
    if rows != [] {
      KeptAll(rows[..|rows| - 1], keep);
    }
  }

  /** Reading on from where a page ended. */
  lemma PageShape<T>(listing: seq<T>, offset: nat, page: seq<T>)
    requires offset <= |listing| && page == Page(listing, PAGE_SIZE, offset)
    ensures offset + |page| <= |listing| && (|page| < PAGE_SIZE ==> offset + |page| == |listing|) && |page| <= PAGE_SIZE
    ensures page == listing[offset..offset + |page|]
  {
  }

  lemma PageExtends<T>(listing: seq<T>, offset: nat, page: seq<T>, keep: T -> bool)
    requires offset <= |listing| && page == Page(listing, PAGE_SIZE, offset)
    ensures offset + |page| <= |listing| && (|page| < PAGE_SIZE ==> offset + |page| == |listing|)
    ensures Kept(listing[..offset + |page|], keep) == Kept(listing[..offset], keep) + Kept(page, keep)
  {
    PageShape(listing, offset, page);
    assert listing[..offset + |page|] == listing[..offset] + page;
    KeptAppend(listing[..offset], page, keep);
  }

  lemma PrefixDecides<T>(listing: seq<T>, offset: nat, limit: nat, keep: T -> bool)
    requires offset <= |listing| && (offset == |listing| || |Kept(listing[..offset], keep)| >= limit)
    ensures First(Kept(listing[..offset], keep), limit) == First(Kept(listing, keep), limit)
  {
    assert listing == listing[..offset] + listing[offset..];
    KeptAppend(listing[..offset], listing[offset..], keep);
  }

  lemma FirstPage<T>(listing: seq<T>, limit: nat)
    ensures Page(listing, limit, 0) == First(listing, NormalizedLimit(limit))
    ensures |Page(listing, limit, 0)| <= |listing| && Page(listing, limit, 0) == listing[..|Page(listing, limit, 0)|]
  {
  }

  /** Without a filter the one page that is read is enough, up to the store's own limit. */
  lemma OnePage<T>(listing: seq<T>, limit: nat)
    ensures limit <= PAGE_SIZE || |listing| <= PAGE_SIZE ==>
              First(Page(listing, limit, 0), limit) == First(listing, limit)
    ensures limit > PAGE_SIZE ==> First(Page(listing, limit, 0), limit) == First(listing, PAGE_SIZE)
  {
    FirstPage(listing, limit);
  }

  /** The payload's rows are the first `limit` of the filtered full listing.  Without a filter only
      one page is read, so a limit above the store's own is cut to it. */
  method BuildRunsPayload<T(!new)>(listing: seq<T>, keep: T -> bool, filtered: bool, limit: nat) returns (items: seq<T>)
    requires filtered || forall x :: keep(x)
    ensures filtered || limit <= PAGE_SIZE || |listing| <= PAGE_SIZE ==> items == First(Kept(listing, keep), limit)
    ensures !filtered && limit > PAGE_SIZE ==> items == First(listing, PAGE_SIZE)
  {
    var fetchLimit := if filtered then PAGE_SIZE else limit;
    var page := Page(listing, fetchLimit, 0);
    items := Kept(page, keep);
    if filtered {
      FirstPage(listing, fetchLimit);
      items := FetchMore(listing, keep, limit, items, |page|);
    } else {
      OnePage(listing, limit);
      KeptAll(listing, keep);
      KeptAll(page, keep);
    }
    items := First(items, limit);
  }

  /** The paging loop: page after page until there are enough rows or no more. */
  method FetchMore<T>(listing: seq<T>, keep: T -> bool, limit: nat, first: seq<T>, firstCount: nat)
    returns (items: seq<T>)
    requires firstCount == Min(PAGE_SIZE, |listing|) && first == Kept(listing[..firstCount], keep)
    ensures First(items, limit) == First(Kept(listing, keep), limit)
  {
    items := first;
    var fetched, offset := firstCount, firstCount;
    while |items| < limit && fetched == PAGE_SIZE
      invariant offset <= |listing| && fetched <= PAGE_SIZE && (fetched < PAGE_SIZE ==> offset == |listing|)
      invariant items == Kept(listing[..offset], keep)
      decreases |listing| - offset, fetched
    {
      var page := Page(listing, PAGE_SIZE, offset);
      PageShape(listing, offset, page);
      PageExtends(listing, offset, page, keep);
      fetched := |page|;
      offset := offset + fetched;
      items := items + Kept(page, keep);
      if fetched < PAGE_SIZE { break; }
    }
    PrefixDecides(listing, offset, limit, keep);
  }

  // -------------------------------------------------------------------- reconciliation

  datatype RunStatus = Running | ResumeRunning | Failed | Other(name: string)

  datatype Snap = Snap(id: string, status: RunStatus, updatedAt: real)

  predicate DistinctIds(listing: seq<Snap>) { forall i, j :: 0 <= i < j < |listing| ==> listing[i].id != listing[j].id }

  /** Unfinished, and not heard of for long enough. */
  predicate Abandoned(s: Snap, now: real, staleSeconds: real) {
    (s.status == Running || s.status == ResumeRunning) && now - s.updatedAt >= staleSeconds
  }

  /** Only a running diagnosis or resume is ever taken for abandoned, and only when at least the stale
      time has passed since its last save. */
  lemma AbandonedIff(s: Snap, now: real, staleSeconds: real)
    ensures Abandoned(s, now, staleSeconds) <==>
              s.status in {Running, ResumeRunning} && s.updatedAt + staleSeconds <= now
  {
  }

  /** The stored snapshots, most recently updated first; updating one moves it to the front. */
  class SnapshotStore {
    var listing: seq<Snap>

    constructor (listing: seq<Snap>)
      ensures this.listing == listing
    {
      this.listing := listing;
    }

    method TransitionIfStatus(id: string, status: RunStatus, expected: RunStatus, now: real) returns (updated: bool)
      requires DistinctIds(listing)
      modifies this
      ensures updated <==> exists i :: 0 <= i < |old(listing)| && old(listing)[i].id == id
                                       && old(listing)[i].status == expected
      ensures forall i :: 0 <= i < |old(listing)| && old(listing)[i].id == id && old(listing)[i].status == expected ==>
                listing == [Snap(id, status, now)] + old(listing)[..i] + old(listing)[i + 1..]
      ensures !updated ==> listing == old(listing)
    {
      updated := false;
      var i := 0;
      while i < |listing|
        invariant 0 <= i <= |listing| && listing == old(listing)
        invariant forall k :: 0 <= k < i ==> listing[k].id != id
      {
        if listing[i].id == id {
          if listing[i].status == expected {
            updated := true;
            listing := [Snap(id, status, now)] + listing[..i] + listing[i + 1..];
          }
          return;
        }
        i := i + 1;
      }
    }
  }

  /** The listing after scanning `s`: what was abandoned comes first, latest first, and the rest keeps
      its order.  `clock` tells when each position is looked at. */
  function Scanned(s: seq<Snap>, clock: nat -> real, staleSeconds: real): seq<Snap> {
    if s == [] then []
    else
      var n := |s| - 1;
      var scanned := Scanned(s[..n], clock, staleSeconds);
      if Abandoned(s[n], clock(n), staleSeconds) then [Snap(s[n].id, Failed, clock(n))] + scanned else scanned + [s[n]]
  }

  function CountAbandoned(s: seq<Snap>, clock: nat -> real, staleSeconds: real): nat {
    if s == [] then 0
    else CountAbandoned(s[..|s| - 1], clock, staleSeconds) + if Abandoned(s[|s| - 1], clock(|s| - 1), staleSeconds)
                                                             then 1 else 0
  }

  lemma {:induction false} ScannedIds(s: seq<Snap>, clock: nat -> real, staleSeconds: real)
    ensures |Scanned(s, clock, staleSeconds)| == |s|
    ensures forall x :: x in Scanned(s, clock, staleSeconds) ==> exists i :: 0 <= i < |s| && s[i].id == x.id
  {
    if s != [] {
      var n := |s| - 1;
      ScannedIds(s[..n], clock, staleSeconds);
      forall x | x in Scanned(s, clock, staleSeconds) ensures exists i :: 0 <= i < |s| && s[i].id == x.id {
        if x in Scanned(s[..n], clock, staleSeconds) {
          var i :| 0 <= i < n && s[..n][i].id == x.id;
          assert s[i].id == x.id;
        } else {
          assert s[n].id == x.id;
        }
      }
    }
  }

  lemma {:induction false} ScannedDistinct(s: seq<Snap>, clock: nat -> real, staleSeconds: real)
    requires DistinctIds(s)
    ensures DistinctIds(Scanned(s, clock, staleSeconds))
  {
    if s != [] {
      var n := |s| - 1;
      ScannedDistinct(s[..n], clock, staleSeconds);
      NotScannedYet(s, n, clock, staleSeconds);
    }
  }

  lemma NotScannedYet(s: seq<Snap>, k: nat, clock: nat -> real, staleSeconds: real)
    requires DistinctIds(s) && k < |s|
    ensures forall i :: 0 <= i < |Scanned(s[..k], clock, staleSeconds)| ==>
                          Scanned(s[..k], clock, staleSeconds)[i].id != s[k].id
  {
    var scanned := Scanned(s[..k], clock, staleSeconds);
    ScannedIds(s[..k], clock, staleSeconds);
    forall i | 0 <= i < |scanned| ensures scanned[i].id != s[k].id {
      var j :| 0 <= j < k && s[..k][j].id == scanned[i].id;
      assert s[j].id == scanned[i].id;
    }
  }

  /** The state of the scan after `k` snapshots: only the part already scanned has been permuted. */
  function Midway(s: seq<Snap>, k: nat, clock: nat -> real, staleSeconds: real): seq<Snap>
    requires k <= |s|
  {
    Scanned(s[..k], clock, staleSeconds) + s[k..]
  }

  lemma MidwayAt(s: seq<Snap>, k: nat, clock: nat -> real, staleSeconds: real)
    requires DistinctIds(s) && k <= |s|
    ensures |Midway(s, k, clock, staleSeconds)| == |s| && Midway(s, k, clock, staleSeconds)[k..] == s[k..]
    ensures DistinctIds(Midway(s, k, clock, staleSeconds))
  {
    var scanned := Scanned(s[..k], clock, staleSeconds);
    ScannedIds(s[..k], clock, staleSeconds);
    ScannedDistinct(s[..k], clock, staleSeconds);
    forall j | k <= j < |s| ensures forall i :: 0 <= i < k ==> scanned[i].id != s[j].id {
      forall i | 0 <= i < k ensures scanned[i].id != s[j].id {
        var m :| 0 <= m < k && s[..k][m].id == scanned[i].id;
        assert s[m].id == scanned[i].id;
      }
    }
  }

  lemma Joined<T>(scanned: seq<T>, s: seq<T>, k: nat)
    requires k < |s| && |scanned| == k
    ensures
      var before := scanned + s[k..];
      && |before| == |s| && before[k] == s[k] && before[..k] == scanned && before[k + 1..] == s[k + 1..]
      && (scanned + [s[k]]) + s[k + 1..] == before
  {
    assert s[k..] == [s[k]] + s[k + 1..];
  }

  lemma MidwayStep(s: seq<Snap>, k: nat, clock: nat -> real, staleSeconds: real)
    requires k < |s|
    ensures
      var before := Midway(s, k, clock, staleSeconds);
      |before| == |s| && before[k] == s[k] &&
      Midway(s, k + 1, clock, staleSeconds) ==
        if Abandoned(s[k], clock(k), staleSeconds)
        then [Snap(s[k].id, Failed, clock(k))] + before[..k] + before[k + 1..]
        else before
  {
    var scanned := Scanned(s[..k], clock, staleSeconds);
    ScannedIds(s[..k], clock, staleSeconds);
    Joined(scanned, s, k);
    assert s[..k + 1][..k] == s[..k];
    assert Scanned(s[..k + 1], clock, staleSeconds) ==
           if Abandoned(s[k], clock(k), staleSeconds) then [Snap(s[k].id, Failed, clock(k))] + scanned
           else scanned + [s[k]];
  }

  lemma CountStep(s: seq<Snap>, k: nat, clock: nat -> real, staleSeconds: real)
    requires k < |s|
    ensures CountAbandoned(s[..k + 1], clock, staleSeconds) ==
            CountAbandoned(s[..k], clock, staleSeconds) + if Abandoned(s[k], clock(k), staleSeconds) then 1 else 0
  {
    assert s[..k + 1][..k] == s[..k];
  }

  /** The listing after the snapshot at position `k` has been looked at. */
  function Visited(listing: seq<Snap>, k: nat, clock: nat -> real, staleSeconds: real): (r: seq<Snap>)
    requires k < |listing|
    ensures |r| == |listing|
  {
    if Abandoned(listing[k], clock(k), staleSeconds)
    then [Snap(listing[k].id, Failed, clock(k))] + listing[..k] + listing[k + 1..] else listing
  }

  /** The listing after the first `k` positions have been looked at, one after the other. */
  function AfterVisits(s: seq<Snap>, k: nat, clock: nat -> real, staleSeconds: real): (r: seq<Snap>)
    requires k <= |s|
    ensures |r| == |s|
  {
    if k == 0 then s else Visited(AfterVisits(s, k - 1, clock, staleSeconds), k - 1, clock, staleSeconds)
  }

  function Closed(s: seq<Snap>, k: nat, clock: nat -> real, staleSeconds: real): nat
    requires k <= |s|
  {
    if k == 0 then 0
    else Closed(s, k - 1, clock, staleSeconds) + if Abandoned(s[k - 1], clock(k - 1), staleSeconds) then 1 else 0
  }

  lemma {:induction false} VisitsAreMidway(s: seq<Snap>, k: nat, clock: nat -> real, staleSeconds: real)
    requires k <= |s|
    ensures AfterVisits(s, k, clock, staleSeconds) == Midway(s, k, clock, staleSeconds)
    ensures Closed(s, k, clock, staleSeconds) == CountAbandoned(s[..k], clock, staleSeconds)
  {
    if k == 0 {
      MidwayEnds(s, clock, staleSeconds);
    } else {
      VisitsAreMidway(s, k - 1, clock, staleSeconds);
      MidwayStep(s, k - 1, clock, staleSeconds);
      CountStep(s, k - 1, clock, staleSeconds);
    }
  }

  /** What has not been looked at yet is where it was. */
  lemma VisitsKeepRest(s: seq<Snap>, k: nat, clock: nat -> real, staleSeconds: real)
    requires DistinctIds(s) && k <= |s|
    ensures AfterVisits(s, k, clock, staleSeconds)[k..] == s[k..] && DistinctIds(AfterVisits(s, k, clock, staleSeconds))
  {
    VisitsAreMidway(s, k, clock, staleSeconds);
    MidwayAt(s, k, clock, staleSeconds);
  }

  /** One snapshot of a page, as it was when the page was read. */
  method Visit(store: SnapshotStore, snapshot: Snap, k: nat, clock: nat -> real, staleSeconds: real, ghost s: seq<Snap>)
    returns (closed: nat)
    requires DistinctIds(s) && k < |s| && snapshot == s[k]
    requires store.listing == AfterVisits(s, k, clock, staleSeconds)
    modifies store
    ensures store.listing == AfterVisits(s, k + 1, clock, staleSeconds)
    ensures Closed(s, k + 1, clock, staleSeconds) == Closed(s, k, clock, staleSeconds) + closed
  {
    VisitsKeepRest(s, k, clock, staleSeconds);
    assert store.listing[k] == store.listing[k..][0] == s[k];
    closed := 0;
    if Abandoned(snapshot, clock(k), staleSeconds) {
      var updated := store.TransitionIfStatus(snapshot.id, Failed, snapshot.status, clock(k));
      if updated {
        closed := 1;
      }
    }
  }

  method VisitPage(store: SnapshotStore, page: seq<Snap>, offset: nat, clock: nat -> real, staleSeconds: real,
                   ghost s: seq<Snap>)
    returns (reconciled: nat)
    requires DistinctIds(s) && offset + |page| <= |s| && (forall i :: 0 <= i < |page| ==> page[i] == s[offset + i])
    requires store.listing == AfterVisits(s, offset, clock, staleSeconds)
    modifies store
    ensures store.listing == AfterVisits(s, offset + |page|, clock, staleSeconds)
    ensures Closed(s, offset + |page|, clock, staleSeconds) == Closed(s, offset, clock, staleSeconds) + reconciled
  {
    reconciled := 0;
    for i := 0 to |page|
      invariant store.listing == AfterVisits(s, offset + i, clock, staleSeconds)
      invariant Closed(s, offset + i, clock, staleSeconds) == Closed(s, offset, clock, staleSeconds) + reconciled
    {
      var closed := Visit(store, page[i], offset + i, clock, staleSeconds, s);
      reconciled := reconciled + closed;
    }
  }

  /** Reads the page at `offset` of the listing as it is now and visits it. */
  method ReconcilePage(store: SnapshotStore, offset: nat, clock: nat -> real, staleSeconds: real, ghost s: seq<Snap>)
    returns (page: seq<Snap>, reconciled: nat)
    requires DistinctIds(s) && offset <= |s| && store.listing == AfterVisits(s, offset, clock, staleSeconds)
    modifies store
    ensures |page| <= PAGE_SIZE && offset + |page| <= |s| && (|page| < PAGE_SIZE ==> offset + |page| == |s|)
    ensures s[..offset + |page|] == s[..offset] + page
    ensures store.listing == AfterVisits(s, offset + |page|, clock, staleSeconds)
    ensures Closed(s, offset + |page|, clock, staleSeconds) == Closed(s, offset, clock, staleSeconds) + reconciled
  {
    VisitsKeepRest(s, offset, clock, staleSeconds);
    page := Page(store.listing, PAGE_SIZE, offset);
    PageOfMidway(s, store.listing, offset);
    reconciled := VisitPage(store, page, offset, clock, staleSeconds, s);
  }

  method ReconcilePages(store: SnapshotStore, clock: nat -> real, staleSeconds: real, ghost s: seq<Snap>)
    returns (reconciled: nat, ghost visited: seq<Snap>)
    requires DistinctIds(s) && store.listing == s
    modifies store
    ensures visited == s && store.listing == AfterVisits(s, |s|, clock, staleSeconds)
            && reconciled == Closed(s, |s|, clock, staleSeconds)
  {
    reconciled, visited := 0, [];
    var offset := 0;
    while true
      invariant 0 <= offset <= |s| && visited == s[..offset]
      invariant store.listing == AfterVisits(s, offset, clock, staleSeconds)
                && reconciled == Closed(s, offset, clock, staleSeconds)
      decreases |s| - offset
    {
      var page, closed := ReconcilePage(store, offset, clock, staleSeconds, s);
      visited := visited + page;
      reconciled := reconciled + closed;
      offset := offset + |page|;
      if |page| < PAGE_SIZE { break; }
    }
  }

  /** Every snapshot is visited exactly once, in the order and state of the listing as it was, although
      each transition moves its snapshot to the front. */
  method ReconcileIncompleteRuns(store: SnapshotStore, clock: nat -> real, staleSeconds: real)
    returns (reconciled: nat, ghost visited: seq<Snap>)
    requires DistinctIds(store.listing)
    modifies store
    ensures visited == old(store.listing)
    ensures store.listing == Scanned(old(store.listing), clock, staleSeconds)
    ensures reconciled == CountAbandoned(old(store.listing), clock, staleSeconds)
  {
    ghost var s := store.listing;
    reconciled, visited := ReconcilePages(store, clock, staleSeconds, s);
    VisitsAreMidway(s, |s|, clock, staleSeconds);
    MidwayEnds(s, clock, staleSeconds);
  }

  lemma MidwayEnds(s: seq<Snap>, clock: nat -> real, staleSeconds: real)
    ensures Midway(s, 0, clock, staleSeconds) == s
            && Midway(s, |s|, clock, staleSeconds) == Scanned(s, clock, staleSeconds)
    ensures s[..|s|] == s
  {
    assert s[..|s|] == s && s[|s|..] == [] && s[0..] == s;
  }

  lemma PageOfMidway(s: seq<Snap>, listing: seq<Snap>, offset: nat)
    requires offset <= |s| && |listing| == |s| && listing[offset..] == s[offset..]
    ensures
      var page := Page(listing, PAGE_SIZE, offset);
      && offset + |page| <= |s| && page == s[offset..offset + |page|]
      && (|page| < PAGE_SIZE ==> offset + |page| == |s|)
  {
    var page := Page(listing, PAGE_SIZE, offset);
    if offset < |s| {
      assert page == listing[offset..][..|page|] == s[offset..][..|page|];
    }
  }

  /** What the scan does to one snapshot: abandoned runs fail, the others stay. */
  lemma {:induction false} ScannedHas(s: seq<Snap>, clock: nat -> real, staleSeconds: real, i: nat)
    requires i < |s|
    ensures (if Abandoned(s[i], clock(i), staleSeconds) then Snap(s[i].id, Failed, clock(i))
             else s[i]) in Scanned(s, clock, staleSeconds)
  {
    var n := |s| - 1;
    if i < n {
      ScannedHas(s[..n], clock, staleSeconds, i);
    }
  }
}

/** Billing records: direct insertion and the per-user and per-resource queries. */
module BillingService {
  import opened Models
  import Seqs

  function BilledTo(userId: string): BillingRecord -> bool
  {
    (b: BillingRecord) => b.userId == userId
  }

  function ForResource(resourceId: int): BillingRecord -> bool
  {
    (b: BillingRecord) => b.resourceId == resourceId
  }

  function TotalCost(b: BillingRecord): real
  {
    b.totalCost
  }

  /** Inserts one billing record with the given fields under the next id. */
  function CreateBillingRecord(st: Store, usageSessionId: int, resourceId: int, userId: string,
                               durationMinutes: real, pricePerMinute: real, totalCost: real)
    : (r: Reply<BillingRecord>)
    ensures r.store.billing == st.billing + [r.body]
    ensures r.body == BillingRecord(st.nextBillingId, usageSessionId, resourceId, userId,
                                    durationMinutes, pricePerMinute, totalCost)
    ensures r.store.(billing := st.billing, nextBillingId := st.nextBillingId) == st
    ensures r.store.nextBillingId == st.nextBillingId + 1
  {
    var b := BillingRecord(st.nextBillingId, usageSessionId, resourceId, userId,
                           durationMinutes, pricePerMinute, totalCost);
    Reply(st.(billing := st.billing + [b], nextBillingId := st.nextBillingId + 1), b)
  }

  function GetBillingRecords(st: Store): seq<BillingRecord>
  {
    st.billing
  }

  /** Every billing record of a user. */
  function GetBillingByUser(st: Store, userId: string): (r: seq<BillingRecord>)
    ensures forall j :: 0 <= j < |r| ==> r[j] in st.billing && r[j].userId == userId
    ensures forall i :: 0 <= i < |st.billing| && st.billing[i].userId == userId ==> st.billing[i] in r
    ensures multiset(r) <= multiset(st.billing)
  {
    Seqs.FilterSubMultiset(st.billing, BilledTo(userId));
    Seqs.Filter(st.billing, BilledTo(userId))
  }

  /** Every billing record of a resource. */
  function GetBillingByResource(st: Store, resourceId: int): (r: seq<BillingRecord>)
    ensures forall j :: 0 <= j < |r| ==> r[j] in st.billing && r[j].resourceId == resourceId
    ensures forall i :: 0 <= i < |st.billing| && st.billing[i].resourceId == resourceId ==> st.billing[i] in r
    ensures multiset(r) <= multiset(st.billing)
  {
    Seqs.FilterSubMultiset(st.billing, ForResource(resourceId));
    Seqs.Filter(st.billing, ForResource(resourceId))
  }

  /** Sum of `total_cost` over the user's billing records. */
  function GetUserTotalSpent(st: Store, userId: string): (total: real)
    ensures (forall i :: 0 <= i < |st.billing| ==> st.billing[i].userId != userId) ==> total == 0.0
  {
    var mine := GetBillingByUser(st, userId);
    assert |mine| > 0 ==> mine[0] in mine;
    Seqs.Sum(mine, TotalCost)
  }

  /** Appending a record raises exactly its own user's total, by exactly its cost. */
  lemma TotalSpentAfterAppend(st: Store, b: BillingRecord, userId: string)
    ensures GetUserTotalSpent(st.(billing := st.billing + [b]), userId)
         == GetUserTotalSpent(st, userId) + (if b.userId == userId then b.totalCost else 0.0)
  {
    var p := BilledTo(userId);
    Seqs.FilterAppend(st.billing, [b], p);
    assert [b][1..] == [];
    Seqs.SumAppend(Seqs.Filter(st.billing, p), Seqs.Filter([b], p), TotalCost);
    assert Seqs.Filter([b], p) == (if b.userId == userId then [b] else []);
  }
}

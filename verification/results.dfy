/**
 * Per-row processing results returned by the service, and the summary
 * counts the page derives from them.
 */
module Results {
  import opened Wrappers

  /** One row of the service's report. `status` is whatever text the service
      sent; the page treats exactly "success" as a success. */
  datatype ResultRecord = ResultRecord(
    consignmentNumber: string,
    status: string,
    message: string,
    trackingUrl: Option<string>,
    pdfUrl: Option<string>,
    screenshotUrl: Option<string>)

  datatype Stats = Stats(total: nat, success: nat, failed: nat)

  /** The page's initial counts. */
  const NoStats: Stats := Stats(0, 0, 0)

  predicate IsSuccess(r: ResultRecord) {
    r.status == "success"
  }

  /** The length of `results.filter(r => r.status === 'success')`. */
  function SuccessCount(rs: seq<ResultRecord>): (n: nat)
    ensures n <= |rs|
    ensures n == |rs| <==> forall k :: 0 <= k < |rs| ==> IsSuccess(rs[k])
    ensures n == 0 <==> forall k :: 0 <= k < |rs| ==> !IsSuccess(rs[k])
  {
    if rs == [] then 0
    else
      var front := rs[..|rs| - 1];
      assert forall k :: 0 <= k < |rs| - 1 ==> rs[k] == front[k];
      SuccessCount(front) + (if IsSuccess(rs[|rs| - 1]) then 1 else 0)
  }

  /** The number of rows whose status is anything other than "success". */
  function NonSuccessCount(rs: seq<ResultRecord>): nat {
    if rs == [] then 0
    else NonSuccessCount(rs[..|rs| - 1]) + (if IsSuccess(rs[|rs| - 1]) then 0 else 1)
  }

  /** Every row is counted once: as a success or as a non-success. */
  lemma {:induction false} CountsPartition(rs: seq<ResultRecord>)
    ensures SuccessCount(rs) + NonSuccessCount(rs) == |rs|
  {
    if rs != [] {
      CountsPartition(rs[..|rs| - 1]);
    }
  }

  /** The summary set after a successful response: total rows, rows with
      status "success", and the rest. */
  function DeriveStats(rs: seq<ResultRecord>): (st: Stats)
    ensures st.total == |rs|
    ensures st.success + st.failed == st.total
    ensures st.success <= st.total && st.failed <= st.total
    ensures st.failed == NonSuccessCount(rs)
    ensures st.failed == 0 <==> forall k :: 0 <= k < |rs| ==> IsSuccess(rs[k])
  {
    var n := SuccessCount(rs);
    CountsPartition(rs);
    Stats(|rs|, n, |rs| - n)
  }

  /** Whether the page shows the three stat cards (`stats.total > 0`). */
  predicate ShowsStats(st: Stats) {
    st.total > 0
  }

  /** Whether the page shows the results list (`results.length > 0`). */
  predicate ShowsResults(rs: seq<ResultRecord>) {
    |rs| > 0
  }

  /** With counts derived from the list, the stat cards and the results list
      are shown together or not at all; an empty list derives the initial counts. */
  lemma PanelsAgree(rs: seq<ResultRecord>)
    ensures ShowsStats(DeriveStats(rs)) <==> ShowsResults(rs)
    ensures rs == [] <==> DeriveStats(rs) == NoStats
  {
  }
}

/**
 * The decision `periodic_check_job` takes for one tracked product: given the
 * stored `last_status` and a fresh check result, whether to send the
 * "back in stock" alert and what `last_status` becomes. Also the laws of a
 * run of such steps over successive checks of one product.
 */
module Polling {
  import opened StockCheck

  /** A check result together with whether the alert, if one is sent, got through. */
  datatype Observed = Observed(data: CheckResult, delivered: bool)

  /** The alert condition: a successful check that moves out_of_stock to in_stock. */
  predicate Notifies(last: Availability, data: CheckResult)
    ensures Notifies(last, data) ==> data.status == Success && data.availability != last
  {
    data.status == Success && last == OutOfStock && data.availability == InStock
  }

  /**
   * Whether the write of the new availability is reached: error results are
   * skipped, and a failed send raises before the write.
   */
  predicate Records(last: Availability, ob: Observed)
    ensures ob.data.status == Error ==> !Records(last, ob)
    ensures Records(last, ob) && Notifies(last, ob.data) ==> ob.delivered
  {
    ob.data.status == Success && (ob.delivered || !Notifies(last, ob.data))
  }

  /** The stored `last_status` after one step. */
  function After(last: Availability, ob: Observed): (next: Availability)
    ensures ob.data.status == Error ==> next == last
    ensures next == last || next == ob.data.availability
  {
    if Records(last, ob) then ob.data.availability else last
  }

  /** An error result sends nothing and keeps the stored status. */
  lemma ErrorIsInert(last: Availability, ob: Observed)
    requires ob.data.status == Error
    ensures !Notifies(last, ob.data) && After(last, ob) == last
  {
  }

  /** A successful step with no failed send records exactly the new availability. */
  lemma SuccessRecords(last: Availability, ob: Observed)
    requires ob.data.status == Success && (ob.delivered || !Notifies(last, ob.data))
    ensures After(last, ob) == ob.data.availability
  {
  }

  /** An alert that could not be sent is tried again on the next in-stock result. */
  lemma FailedAlertIsRetried(last: Availability, first: Observed, second: Observed)
    requires Notifies(last, first.data) && !first.delivered
    requires second.data.status == Success && second.data.availability == InStock
    ensures Notifies(After(last, first), second.data)
  {
  }

  /** The stored status after a run of steps over successive checks of one product. */
  function Run(init: Availability, obs: seq<Observed>): (last: Availability)
    ensures last == init
            || exists i :: 0 <= i < |obs| && obs[i].data.status == Success && last == obs[i].data.availability
  {
    if obs == [] then init else After(Run(init, obs[..|obs| - 1]), obs[|obs| - 1])
  }

  /** Whether step `i` of the run sends an alert. */
  predicate AlertAt(init: Availability, obs: seq<Observed>, i: int)
    requires 0 <= i < |obs|
  {
    Notifies(Run(init, obs[..i]), obs[i].data)
  }

  /** Every alert that is sent gets through. */
  predicate AllDelivered(obs: seq<Observed>) {
    forall i :: 0 <= i < |obs| ==> obs[i].delivered
  }

  /** The availability of the latest successful check, or `init` when there is none. */
  function LastSuccess(init: Availability, obs: seq<Observed>): Availability
  {
    if obs == [] then init
    else if obs[|obs| - 1].data.status == Success then obs[|obs| - 1].data.availability
    else LastSuccess(init, obs[..|obs| - 1])
  }

  /** When alerts get through, the stored status is the latest successful check's: errors are transparent. */
  lemma {:induction false} RunIsLastSuccess(init: Availability, obs: seq<Observed>)
    requires AllDelivered(obs)
    ensures Run(init, obs) == LastSuccess(init, obs)
    decreases |obs|
  {
    if obs != [] {
      var n := |obs| - 1;
      assert AllDelivered(obs[..n]) by {
        forall i | 0 <= i < n ensures obs[..n][i].delivered { assert obs[..n][i] == obs[i]; }
      }
      RunIsLastSuccess(init, obs[..n]);
    }
  }

  /**
   * The edge-trigger law: step `i` alerts exactly when it is a successful
   * in-stock check and the latest earlier successful check (or the status
   * recorded at registration) was out of stock.
   */
  lemma AlertIsRisingEdge(init: Availability, obs: seq<Observed>, i: int)
    requires AllDelivered(obs) && 0 <= i < |obs|
    ensures AlertAt(init, obs, i) <==>
              && obs[i].data.status == Success
              && obs[i].data.availability == InStock
              && LastSuccess(init, obs[..i]) == OutOfStock
  {
    assert AllDelivered(obs[..i]) by {
      forall j | 0 <= j < i ensures obs[..i][j].delivered { assert obs[..i][j] == obs[j]; }
    }
    RunIsLastSuccess(init, obs[..i]);
  }

  /** If the latest success before `j` was out of stock but `i < j` was an in-stock success, some success in between was out of stock. */
  lemma {:induction false} OutOfStockBetween(init: Availability, obs: seq<Observed>, i: int, j: int)
    requires 0 <= i < j <= |obs|
    requires obs[i].data.status == Success && obs[i].data.availability == InStock
    requires LastSuccess(init, obs[..j]) == OutOfStock
    ensures exists k :: i < k < j && obs[k].data.status == Success && obs[k].data.availability == OutOfStock
    decreases j
  {
    var pre := obs[..j];
    assert pre[..j - 1] == obs[..j - 1];
    assert pre[j - 1] == obs[j - 1];
    if obs[j - 1].data.status == Success {
      assert j - 1 != i;
    } else {
      OutOfStockBetween(init, obs, i, j - 1);
    }
  }

  /**
   * No repeated alerts: between two alerts of a run there is a successful
   * out-of-stock check. Consecutive in-stock results therefore never alert
   * twice, and each return to stock alerts again.
   */
  lemma AlertsAreSeparated(init: Availability, obs: seq<Observed>, i: int, j: int)
    requires AllDelivered(obs) && 0 <= i < j < |obs|
    requires AlertAt(init, obs, i) && AlertAt(init, obs, j)
    ensures exists k :: i < k < j && obs[k].data.status == Success && obs[k].data.availability == OutOfStock
  {
    AlertIsRisingEdge(init, obs, i);
    AlertIsRisingEdge(init, obs, j);
    OutOfStockBetween(init, obs, i, j);
  }

  /** A successful check with the given availability, alert delivered. */
  function Seen(a: Availability): Observed {
    Observed(CheckResult(Success, DefaultName, DefaultPrice, if a == InStock then ["M"] else [], a), true)
  }

  /** out, in, in, out, in after registering out of stock: alerts at steps 1 and 4 only. */
  lemma TwoAlertsInCycle()
    ensures var obs := [Seen(OutOfStock), Seen(InStock), Seen(InStock), Seen(OutOfStock), Seen(InStock)];
            && !AlertAt(OutOfStock, obs, 0) && AlertAt(OutOfStock, obs, 1) && !AlertAt(OutOfStock, obs, 2)
            && !AlertAt(OutOfStock, obs, 3) && AlertAt(OutOfStock, obs, 4)
  {
  }
}

/** The admin orders page (app/admin/orders/page.tsx): the list of orders, the action
    buttons each row offers, and the local update after a status change is saved. */
module Orders {
  import opened Wrappers
  import opened Seqs

  /** `Order['status']`: the only four values an order's status can take. */
  datatype Status = Pending | Confirmed | Completed | Cancelled

  datatype Order = Order(
    id: string,
    customerName: string,
    customerEmail: string,
    customerPhone: string,
    totalAmount: real,
    status: Status,
    createdAt: string,
    updatedAt: string)

  /** The statuses a row's buttons move the order to: "Confirm" and "Complete" only
      while the order is neither completed nor cancelled (and then only from pending,
      respectively confirmed), "Cancel" whenever it is not cancelled. */
  function OfferedActions(s: Status): (r: set<Status>)
    ensures s == Pending ==> r == {Confirmed, Cancelled}
    ensures s == Confirmed ==> r == {Completed, Cancelled}
    ensures s == Completed ==> r == {Cancelled}
    ensures s == Cancelled ==> r == {}
  {
    (if s != Completed && s != Cancelled then
       (if s == Pending then {Confirmed} else {}) + (if s == Confirmed then {Completed} else {})
     else {})
    + (if s != Cancelled then {Cancelled} else {})
  }

  /** No button ever leads back to pending. */
  lemma NoActionLeadsToPending(s: Status)
    ensures Pending !in OfferedActions(s)
  {
  }

  /** Position of a status along the workflow. */
  function Rank(s: Status): nat {
    match s
    case Pending => 0
    case Confirmed => 1
    case Completed => 2
    case Cancelled => 3
  }

  /** Every offered action moves the order strictly forward. */
  lemma ActionsMoveForward(s: Status, t: Status)
    requires t in OfferedActions(s)
    ensures Rank(s) < Rank(t)
  {
  }

  /** A sequence of statuses an order can pass through by pressing offered buttons. */
  predicate IsRun(run: seq<Status>) {
    forall i :: 0 <= i < |run| - 1 ==> run[i + 1] in OfferedActions(run[i])
  }

  /** Along a run each step is strictly further than the start, so a run visits at
      most four statuses, never returns to pending, and nothing follows cancelled. */
  lemma {:induction false} RunMovesForward(run: seq<Status>)
    requires IsRun(run) && |run| >= 1
    ensures forall i :: 0 < i < |run| ==> Rank(run[0]) + i <= Rank(run[i])
    ensures |run| <= 4 - Rank(run[0])
    ensures forall i :: 0 < i < |run| ==> run[i] != Pending
    ensures run[0] == Cancelled ==> |run| == 1
  {
    if |run| > 1 {
      var rest := run[1..];
      assert IsRun(rest) by {
        forall i | 0 <= i < |rest| - 1 ensures rest[i + 1] in OfferedActions(rest[i]) {
          assert rest[i] == run[i + 1] && rest[i + 1] == run[i + 2];
        }
      }
      RunMovesForward(rest);
      ActionsMoveForward(run[0], run[1]);
      forall i | 0 < i < |run| ensures Rank(run[0]) + i <= Rank(run[i]) {
        if i > 1 {
          assert run[i] == rest[i - 1];
        }
      }
      forall i | 0 < i < |run| ensures run[i] != Pending {
        NoActionLeadsToPending(run[i - 1]);
      }
    }
  }

  /** The order list after a saved status change: the orders with that id take the
      new status; every other order, every other field, the length and the order of
      the list are as before. */
  function WithStatus(orders: seq<Order>, orderId: string, newStatus: Status): (r: seq<Order>)
    ensures |r| == |orders|
    ensures forall i :: 0 <= i < |orders| ==>
              r[i] == if orders[i].id == orderId then orders[i].(status := newStatus) else orders[i]
  {
    MapWhere(orders, (o: Order) => o.id == orderId, (o: Order) => o.(status := newStatus))
  }

  /** Changing the status of an id twice is the same as changing it once, to the
      second status. */
  lemma WithStatusTwice(orders: seq<Order>, orderId: string, s1: Status, s2: Status)
    ensures WithStatus(WithStatus(orders, orderId, s1), orderId, s2) == WithStatus(orders, orderId, s2)
  {
  }

  /** An id with no order leaves the list unchanged. */
  lemma WithStatusAbsent(orders: seq<Order>, orderId: string, s: Status)
    requires forall i :: 0 <= i < |orders| ==> orders[i].id != orderId
    ensures WithStatus(orders, orderId, s) == orders
  {
  }

  class OrdersPage {
    var orders: seq<Order>

    constructor (fetched: seq<Order>)
      ensures orders == fetched
    {
      orders := fetched;
    }

    /** `updateOrderStatus(orderId, newStatus)`: the database update is a parameter,
        `dbError`; on an error the list is left alone, otherwise only the matching
        orders' statuses change. The local copy keeps its old `updatedAt`. */
    method UpdateOrderStatus(orderId: string, newStatus: Status, dbError: Option<string>)
      modifies this
      ensures dbError.Some? ==> orders == old(orders)
      ensures dbError.None? ==> orders == WithStatus(old(orders), orderId, newStatus)
    {
      if dbError.None? {
        orders := WithStatus(orders, orderId, newStatus);
      }
    }
  }
}

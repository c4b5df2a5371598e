/** The fulfilment status of an order: the fixed five-value enumeration
    (server/src/routes/order.routes.js:177, repeated on the client at
    client/src/pages/AdminOrders.jsx:81). */
module OrderStatus {
  import opened Common

  datatype Status = Pending | Paid | Shipped | Completed | Cancelled

  /** The wire name of a status. */
  function Name(st: Status): string {
    match st
    case Pending => "pending"
    case Paid => "paid"
    case Shipped => "shipped"
    case Completed => "completed"
    case Cancelled => "cancelled"
  }

  /** The list of accepted status names, in the source's order. */
  const Allowed: seq<string> := ["pending", "paid", "shipped", "completed", "cancelled"]

  /** The `allowed.includes(status)` test of the status update, together
      with the conversion of an accepted name to the enumeration. */
  function Parse(s: string): (r: Option<Status>)
    ensures r.Some? <==> s in Allowed
    ensures r.Some? ==> Name(r.value) == s
  {
    if s == "pending" then Some(Pending)
    else if s == "paid" then Some(Paid)
    else if s == "shipped" then Some(Shipped)
    else if s == "completed" then Some(Completed)
    else if s == "cancelled" then Some(Cancelled)
    else None
  }

  /** Every status is accepted under its own name, and `Allowed` lists the
      names of the statuses in declaration order. */
  lemma ParseName(st: Status)
    ensures Parse(Name(st)) == Some(st)
    ensures Name(st) in Allowed
    ensures Allowed == [Name(Pending), Name(Paid), Name(Shipped), Name(Completed), Name(Cancelled)]
  {
  }

  /** The five names are pairwise distinct. */
  lemma AllowedDistinct()
    ensures forall i, j :: 0 <= i < j < |Allowed| ==> Allowed[i] != Allowed[j]
  {
  }
}

/**
 * The labels and colours the transaction list shows for a token
 * transaction's numeric status.
 */
module TokenStatus {

  /** The status codes with a name of their own: 0 to 5. */
  predicate IsKnownStatus(status: int) {
    0 <= status <= 5
  }

  /** `getStatusText`. The explicit `case 10` gives the same text as the default. */
  function StatusText(status: int): (r: string)
    ensures r == "Unknown" <==> !IsKnownStatus(status)
  {
    match status
    case 0 => "Started"
    case 1 => "Signed"
    case 2 => "Finalized"
    case 3 => "Started Cancelled"
    case 4 => "Signed Cancelled"
    case 5 => "Revealed"
    case 10 => "Unknown"
    case _ => "Unknown"
  }

  const Green := "#4CAF50"
  const Orange := "#FF9800"
  const Red := "#F44336"
  const Blue := "#2196F3"
  const Gray := "#666"

  /** `getStatusColor`. */
  function StatusColor(status: int): (r: string)
    ensures r == Gray <==> !IsKnownStatus(status)
    ensures r in {Green, Orange, Red, Blue, Gray}
  {
    match status
    case 2 => Green
    case 1 => Orange
    case 5 => Orange
    case 3 => Red
    case 4 => Red
    case 0 => Blue
    case _ => Gray
  }

  /** The colour belonging to each label. */
  function ColorOfText(text: string): (r: string)
  {
    if text == "Finalized" then Green
    else if text == "Signed" || text == "Revealed" then Orange
    else if text == "Started Cancelled" || text == "Signed Cancelled" then Red
    else if text == "Started" then Blue
    else Gray
  }

  /** The colour is a function of the label: the two tables agree on every code. */
  lemma ColorFollowsText(status: int)
    ensures StatusColor(status) == ColorOfText(StatusText(status))
  {
  }

  /** Green is shown exactly for "Finalized". */
  lemma GreenIffFinalized(status: int)
    ensures StatusColor(status) == Green <==> StatusText(status) == "Finalized"
  {
  }

  /** Red is shown exactly for the two cancelled states. */
  lemma RedIffCancelled(status: int)
    ensures StatusColor(status) == Red <==> (StatusText(status) == "Started Cancelled" || StatusText(status) == "Signed Cancelled")
  {
  }

  /** The six named statuses have six distinct labels. */
  lemma StatusTextInjective(a: int, b: int)
    requires IsKnownStatus(a) && IsKnownStatus(b)
    requires StatusText(a) == StatusText(b)
    ensures a == b
  {
  }
}

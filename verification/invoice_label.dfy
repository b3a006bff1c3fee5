/**
 * The invoice label: a long invoice is shown shortened around an ellipsis,
 * while a tap copies the invoice itself.
 */
module InvoiceLabel {
  import opened Strings
  import Decimal

  /** The longest invoice shown in full. */
  const MaxShown: nat := 50

  /** The characters kept from each end of a longer invoice. */
  const Kept: nat := 25

  const Ellipsis := "..."

  /** `displayInvoice`. */
  function DisplayInvoice(invoice: string): (r: string)
    ensures |invoice| <= MaxShown ==> r == invoice
    ensures |invoice| > MaxShown ==> |r| == 2 * Kept + |Ellipsis| && r[Kept..Kept + |Ellipsis|] == Ellipsis
    ensures StartsWith(r, invoice[..Decimal.Min(Kept, |invoice|)])
    ensures EndsWith(r, invoice[|invoice| - Decimal.Min(Kept, |invoice|)..])
  {
    if |invoice| > MaxShown then
      var r := invoice[..Kept] + Ellipsis + invoice[|invoice| - Kept..];
      assert r[..Kept] == invoice[..Kept];
      assert r[|r| - Kept..] == invoice[|invoice| - Kept..];
      assert r[Kept..Kept + |Ellipsis|] == Ellipsis;
      r
    else
      assert invoice[..|invoice|] == invoice;
      invoice
  }

  /** Shortening a shortened invoice changes nothing. */
  lemma DisplayIdempotent(invoice: string)
    ensures DisplayInvoice(DisplayInvoice(invoice)) == DisplayInvoice(invoice)
  {
    var d := DisplayInvoice(invoice);
    if |invoice| > MaxShown {
      var dd := DisplayInvoice(d);
      assert dd[..Kept] == d[..Kept];
      assert dd[Kept..Kept + 3] == Ellipsis;
      assert dd[|dd| - Kept..] == d[|d| - Kept..];
      assert dd == dd[..Kept] + dd[Kept..Kept + 3] + dd[|dd| - Kept..];
      assert d == d[..Kept] + d[Kept..Kept + 3] + d[|d| - Kept..];
    }
  }

  /** A shortened invoice differs from the original unless it had exactly that length. */
  lemma LongInvoiceShortened(invoice: string)
    requires |invoice| > MaxShown && |invoice| != 2 * Kept + |Ellipsis|
    ensures DisplayInvoice(invoice) != invoice
  {
  }

  /** What the label shows and what a tap copies. */
  datatype Label = Label(shown: string, copied: string)

  /** The rendered label: shortened text, full invoice on the clipboard. */
  function RenderLabel(invoice: string): (r: Label)
    ensures r.copied == invoice
    ensures r.shown == DisplayInvoice(invoice)
    ensures |invoice| > MaxShown + 3 ==> |r.shown| < |r.copied|
  {
    Label(DisplayInvoice(invoice), invoice)
  }
}

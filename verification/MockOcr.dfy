/**
  The placeholder text the OCR step returns when its libraries are
  missing, and what the extractor makes of it: the known vendor's name is
  the first line, so the vendor's invoice-number and date patterns are the
  ones used.
 */
module MockOcr {
  import opened Text
  import opened Patterns
  import opened LineItems
  import opened Invoice

  /** Everything after the first line of the placeholder text. */
  const MockOcrTail :=
    "123 Main St, Anytown, USA\n"
    + "Invoice No: ACME-INV-45678\n"
    + "Date: 01/01/2024\n"
    + "GSTIN: 22AAAAA0000A1Z5\n"
    + "ITEM QTY RATE TOTAL\n"
    + "1. Consulting Service 1 500.00 500.00\n"
    + "2. Software License 2 150.00 300.00\n"
    + "Subtotal: 800.00\n"
    + "TAX (10%): 80.00\n"
    + "GRAND TOTAL: 880.00"

  /** The placeholder text. */
  const MockOcrText := "Acme Corp\n" + MockOcrTail

  lemma MockOcrIsKnownVendor()
    ensures IsKnownVendor(MockOcrText, KnownVendorTemplate)
  {
    assert MockOcrText == "Acme Corp" + "\n" + MockOcrTail;
    assert OccursAt(UpperStr("Acme Corp"), UpperStr(KnownVendorTemplate.vendorName), 0);
    SignatureOnFirstLine("Acme Corp", MockOcrTail, KnownVendorTemplate);
  }

  /**
    On the placeholder text, whatever the searches find, the invoice number
    and the date come from the vendor's patterns, while the vendor name
    keeps its base pattern.
   */
  lemma MockOcrInvoice(invoiceId: string, search: Search, itemSearch: ItemSearch)
    ensures ParseInvoice(invoiceId, MockOcrText, search, itemSearch).invoiceNumber
         == CapturedText(search, AcmeInvoiceNumberPattern, MockOcrText)
    ensures ParseInvoice(invoiceId, MockOcrText, search, itemSearch).date
         == CapturedText(search, AcmeDatePattern, MockOcrText)
    ensures ParseInvoice(invoiceId, MockOcrText, search, itemSearch).vendorName
         == CapturedText(search, VendorNamePattern, MockOcrText)
  {
    MockOcrIsKnownVendor();
    ParseInvoiceFields(invoiceId, MockOcrText, search, itemSearch);
  }
}

/**
  Invoice assembly (`parse_invoice_data`): detect the known vendor in the
  leading lines, overlay its patterns on the base table, run every header
  pattern over the whole text, and gather the captures, the line items and
  the caller's identifier into a `ParsedInvoice`.
 */
module Invoice {
  import opened Wrappers
  import opened Text
  import opened Numbers
  import opened Patterns
  import opened LineItems

  /**
    The regular-expression search of a header pattern in the whole text,
    case-insensitive and multi-line: `Some(group1)` on a match, `None`
    otherwise.
   */
  type Search = (string, string) -> Option<string>

  /** `ParsedInvoice`: absent header fields are `None`. */
  datatype ParsedInvoice = ParsedInvoice(
    invoiceId: string,
    vendorName: Option<string>,
    invoiceNumber: Option<string>,
    date: Option<string>,
    totalAmount: Option<real>,
    taxAmount: Option<real>,
    gstNumber: Option<string>,
    lineItems: seq<LineItem>,
    rawText: string)

  /** How many leading lines are searched for the vendor signature. */
  const LeadingLineCount := 5

  /** `"\n".join(raw_text.split('\n')[:5])`. */
  function LeadingLines(rawText: string): string
  {
    var lines := Split(rawText, '\n');
    Join(lines[..if |lines| < LeadingLineCount then |lines| else LeadingLineCount], "\n")
  }

  /** `vendor_name.upper() in first_lines.upper()`. */
  predicate IsKnownVendor(rawText: string, vendor: VendorTemplate)
  {
    Contains(UpperStr(LeadingLines(rawText)), UpperStr(vendor.vendorName))
  }

  /** `INVOICE_CONFIG.copy()`, updated with the overrides when the vendor is detected. */
  function EffectivePatterns(base: Table, vendor: VendorTemplate, rawText: string): Table
  {
    if IsKnownVendor(rawText, vendor) then Update(base, vendor.regexOverrides) else base
  }

  /**
    The vendor is detected exactly when its signature, compared in upper
    case, lies wholly inside one of the first five lines: joining the lines
    back cannot make a signature without a line break straddle two lines.
   */
  lemma VendorDetectionLeadingLines(rawText: string, vendor: VendorTemplate)
    requires '\n' !in vendor.vendorName
    ensures IsKnownVendor(rawText, vendor) <==>
      exists i :: 0 <= i < |Split(rawText, '\n')| && i < LeadingLineCount
        && Contains(UpperStr(Split(rawText, '\n')[i]), UpperStr(vendor.vendorName))
  {
    var lines := Split(rawText, '\n');
    var lead := lines[..if |lines| < LeadingLineCount then |lines| else LeadingLineCount];
    var sig := UpperStr(vendor.vendorName);
    UpperKeepsNonLetter(vendor.vendorName, '\n');
    ContainsInUpperJoin(lead, '\n', sig);
    assert LeadingLines(rawText) == Join(lead, "\n");
    if exists i :: 0 <= i < |lines| && i < LeadingLineCount && Contains(UpperStr(lines[i]), sig) {
      var i :| 0 <= i < |lines| && i < LeadingLineCount && Contains(UpperStr(lines[i]), sig);
      assert lead[i] == lines[i];
      assert Contains(UpperStr(lead[i]), sig);
    }
    if IsKnownVendor(rawText, vendor) {
      var i :| 0 <= i < |lead| && Contains(UpperStr(lead[i]), sig);
      assert i < |lines| && i < LeadingLineCount && lead[i] == lines[i];
      assert 0 <= i < |Split(rawText, '\n')| && i < LeadingLineCount
        && Contains(UpperStr(Split(rawText, '\n')[i]), UpperStr(vendor.vendorName));
    }
  }

  /** A signature on the first line is detected, whatever follows it. */
  lemma SignatureOnFirstLine(first: string, rest: string, vendor: VendorTemplate)
    requires '\n' !in first && '\n' !in vendor.vendorName
    requires Contains(UpperStr(first), UpperStr(vendor.vendorName))
    ensures IsKnownVendor(first + "\n" + rest, vendor)
  {
    SplitPeel(first, '\n', rest);
    VendorDetectionLeadingLines(first + "\n" + rest, vendor);
    assert Split(first + "\n" + rest, '\n')[0] == first;
  }

  /** The value stored for a header field: amounts go through `parse_float`, the rest is the stripped capture. */
  datatype FieldValue = TextValue(text: string) | AmountValue(amount: Option<real>)

  function FieldValueOf(field: string, capture: string): FieldValue
  {
    if field == TotalAmountKey || field == TaxAmountKey
    then AmountValue(ParseFloat(Strip(capture)))
    else TextValue(Strip(capture))
  }

  /** `parsed_data`: the fields captured so far, in insertion order. */
  type Extracted = seq<(string, FieldValue)>

  /** `parsed_data.get(field)`. */
  function FieldLookup(parsed: Extracted, field: string): Option<FieldValue>
  {
    if |parsed| == 0 then None
    else if parsed[0].0 == field then Some(parsed[0].1)
    else FieldLookup(parsed[1..], field)
  }

  /** The loop over `patterns.items()`: every pattern but the line-item one is searched for. */
  function ExtractFields(patterns: Table, rawText: string, search: Search): (parsed: Extracted)
    ensures |parsed| <= |patterns|
    ensures forall i :: 0 <= i < |parsed| ==> parsed[i].0 != LineItemKey && HasKey(patterns, parsed[i].0)
    decreases |patterns|
  {
    if |patterns| == 0 then []
    else
      var rest := ExtractFields(patterns[1..], rawText, search);
      var (field, pattern) := patterns[0];
      if field == LineItemKey then rest
      else match search(pattern, rawText)
        case None => rest
        case Some(capture) =>
          var parsed := [(field, FieldValueOf(field, capture))] + rest;
          assert forall i :: 0 < i < |parsed| ==> parsed[i] == rest[i - 1];
          parsed
  }

  /**
    What ends up under a field: nothing for the line-item pattern, for a
    field without a pattern, or when its pattern does not match; otherwise
    the value of its capture.
   */
  function CapturedField(patterns: Table, rawText: string, search: Search, field: string): Option<FieldValue>
  {
    if field == LineItemKey then None
    else match Lookup(patterns, field)
      case None => None
      case Some(pattern) =>
        match search(pattern, rawText)
        case None => None
        case Some(capture) => Some(FieldValueOf(field, capture))
  }

  /** A field is only ever filled from the entry of the table that carries it. */
  lemma {:induction false} ExtractFieldsLookup(patterns: Table, rawText: string, search: Search, field: string)
    requires DistinctKeys(patterns)
    ensures FieldLookup(ExtractFields(patterns, rawText, search), field)
         == CapturedField(patterns, rawText, search, field)
    decreases |patterns|
  {
    if |patterns| > 0 {
      ExtractFieldsLookup(patterns[1..], rawText, search, field);
      if patterns[0].0 != field {
        var rest := ExtractFields(patterns[1..], rawText, search);
        var parsed := ExtractFields(patterns, rawText, search);
        assert parsed == rest || parsed[1..] == rest;
      } else if field != LineItemKey {
        assert !HasKey(patterns[1..], field);
      }
    }
  }

  /** `match.group(1).strip()` of a text field, when the pattern matches. */
  function CapturedText(search: Search, pattern: string, rawText: string): Option<string>
  {
    match search(pattern, rawText)
    case None => None
    case Some(capture) => Some(Strip(capture))
  }

  /** `parse_float(match.group(1).strip())` of an amount field; `None` without a match. */
  function CapturedAmount(search: Search, pattern: string, rawText: string): Option<real>
  {
    match search(pattern, rawText)
    case None => None
    case Some(capture) => ParseFloat(Strip(capture))
  }

  function AsText(v: Option<FieldValue>): Option<string>
  {
    match v
    case Some(TextValue(s)) => Some(s)
    case _ => None
  }

  function AsAmount(v: Option<FieldValue>): Option<real>
  {
    match v
    case Some(AmountValue(x)) => x
    case _ => None
  }

  /**
    `parse_invoice_data(raw_text)`, with the identifier and the two regular
    expression searches given by the caller.
   */
  function ParseInvoice(invoiceId: string, rawText: string, search: Search, itemSearch: ItemSearch): (r: ParsedInvoice)
  {
    ConfigWellFormed();
    var parsed := ExtractFields(Effective(rawText), rawText, search);
    ParsedInvoice(
      invoiceId,
      AsText(FieldLookup(parsed, VendorNameKey)),
      AsText(FieldLookup(parsed, InvoiceNumberKey)),
      AsText(FieldLookup(parsed, DateKey)),
      AsAmount(FieldLookup(parsed, TotalAmountKey)),
      AsAmount(FieldLookup(parsed, TaxAmountKey)),
      AsText(FieldLookup(parsed, GstNumberKey)),
      ParseLineItems(rawText, Lookup(InvoiceConfig, LineItemKey).value, itemSearch),
      rawText)
  }

  /** The pattern table `parse_invoice_data` works with on this text. */
  function Effective(rawText: string): Table
  {
    EffectivePatterns(InvoiceConfig, KnownVendorTemplate, rawText)
  }

  /** A text field of the invoice is the stripped capture of the pattern in force for it. */
  lemma TextFieldOf(rawText: string, search: Search, field: string, pattern: string)
    requires field != TotalAmountKey && field != TaxAmountKey && field != LineItemKey
    requires Lookup(Effective(rawText), field) == Some(pattern)
    ensures AsText(FieldLookup(ExtractFields(Effective(rawText), rawText, search), field))
         == CapturedText(search, pattern, rawText)
  {
    ConfigWellFormed();
    ExtractFieldsLookup(Effective(rawText), rawText, search, field);
  }

  /** An amount field of the invoice is `parse_float` of the stripped capture of its pattern. */
  lemma AmountFieldOf(rawText: string, search: Search, field: string, pattern: string)
    requires field == TotalAmountKey || field == TaxAmountKey
    requires Lookup(Effective(rawText), field) == Some(pattern)
    ensures AsAmount(FieldLookup(ExtractFields(Effective(rawText), rawText, search), field))
         == CapturedAmount(search, pattern, rawText)
  {
    ConfigWellFormed();
    ExtractFieldsLookup(Effective(rawText), rawText, search, field);
  }

  /**
    A text whose first five lines do not carry the vendor's signature is
    read with the base patterns, wherever else the signature appears.
   */
  lemma LateSignatureIgnored(rawText: string)
    requires forall i :: 0 <= i < |Split(rawText, '\n')| && i < LeadingLineCount ==>
      !Contains(UpperStr(Split(rawText, '\n')[i]), UpperStr(KnownVendorTemplate.vendorName))
    ensures Effective(rawText) == InvoiceConfig
  {
    ConfigWellFormed();
    VendorDetectionLeadingLines(rawText, KnownVendorTemplate);
  }

  /** The invoice-number pattern in force: the vendor's when it is detected, the base one otherwise. */
  function InvoiceNumberPatternFor(rawText: string): string
  {
    if IsKnownVendor(rawText, KnownVendorTemplate) then AcmeInvoiceNumberPattern else InvoiceNumberPattern
  }

  /** The date pattern in force: the vendor's when it is detected, the base one otherwise. */
  function DatePatternFor(rawText: string): string
  {
    if IsKnownVendor(rawText, KnownVendorTemplate) then AcmeDatePattern else DatePattern
  }

  /** The pattern in force for every field: the known vendor overrides only two of them. */
  lemma EffectivePatternOf(rawText: string)
    ensures Lookup(Effective(rawText), InvoiceNumberKey) == Some(InvoiceNumberPatternFor(rawText))
    ensures Lookup(Effective(rawText), DateKey) == Some(DatePatternFor(rawText))
    ensures forall k :: k != InvoiceNumberKey && k != DateKey ==>
      Lookup(Effective(rawText), k) == Lookup(InvoiceConfig, k)
  {
    ConfigWellFormed();
    KnownVendorOverlay();
    LookupAt(InvoiceConfig, 0);
    LookupAt(InvoiceConfig, 1);
  }

  /**
    What `parse_invoice_data` returns, field by field: the identifier and
    the text are kept verbatim; the invoice number and the date are the
    stripped captures of the vendor's patterns exactly when the vendor is
    detected and of the base patterns otherwise; the vendor name and the
    GST number are the stripped captures of their base patterns; the two
    amounts are `parse_float` of theirs; the line items always use the
    base line-item pattern.
   */
  lemma ParseInvoiceFields(invoiceId: string, rawText: string, search: Search, itemSearch: ItemSearch)
    ensures ParseInvoice(invoiceId, rawText, search, itemSearch).invoiceId == invoiceId
    ensures ParseInvoice(invoiceId, rawText, search, itemSearch).rawText == rawText
    ensures ParseInvoice(invoiceId, rawText, search, itemSearch).invoiceNumber
         == CapturedText(search, InvoiceNumberPatternFor(rawText), rawText)
    ensures ParseInvoice(invoiceId, rawText, search, itemSearch).date
         == CapturedText(search, DatePatternFor(rawText), rawText)
    ensures ParseInvoice(invoiceId, rawText, search, itemSearch).vendorName
         == CapturedText(search, VendorNamePattern, rawText)
    ensures ParseInvoice(invoiceId, rawText, search, itemSearch).gstNumber
         == CapturedText(search, GstNumberPattern, rawText)
    ensures ParseInvoice(invoiceId, rawText, search, itemSearch).totalAmount
         == CapturedAmount(search, TotalAmountPattern, rawText)
    ensures ParseInvoice(invoiceId, rawText, search, itemSearch).taxAmount
         == CapturedAmount(search, TaxAmountPattern, rawText)
    ensures ParseInvoice(invoiceId, rawText, search, itemSearch).lineItems
         == ParseLineItems(rawText, LineItemPattern, itemSearch)
  {
    ConfigWellFormed();
    EffectivePatternOf(rawText);
    LookupAt(InvoiceConfig, 2);
    LookupAt(InvoiceConfig, 3);
    LookupAt(InvoiceConfig, 4);
    LookupAt(InvoiceConfig, 5);
    TextFieldOf(rawText, search, InvoiceNumberKey, InvoiceNumberPatternFor(rawText));
    TextFieldOf(rawText, search, DateKey, DatePatternFor(rawText));
    TextFieldOf(rawText, search, VendorNameKey, VendorNamePattern);
    TextFieldOf(rawText, search, GstNumberKey, GstNumberPattern);
    AmountFieldOf(rawText, search, TotalAmountKey, TotalAmountPattern);
    AmountFieldOf(rawText, search, TaxAmountKey, TaxAmountPattern);
  }
}

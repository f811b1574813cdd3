/**
  The pattern configuration: the base table `INVOICE_CONFIG`, the one
  vendor template `KNOWN_VENDOR_TEMPLATE`, and the Python `dict`
  operations applied to them (`copy`, `update`). A dict is its list of
  entries in insertion order.
 */
module Patterns {
  import opened Wrappers

  /** A Python dict from field name to regular-expression source. */
  type Table = seq<(string, string)>

  /** `list(d.keys())`. */
  function Keys(t: Table): seq<string>
  {
    if |t| == 0 then [] else [t[0].0] + Keys(t[1..])
  }

  /** `k in d`. */
  predicate HasKey(t: Table, k: string)
  {
    |t| > 0 && (t[0].0 == k || HasKey(t[1..], k))
  }

  /** What every dict satisfies: no key appears twice. */
  predicate DistinctKeys(t: Table)
  {
    |t| == 0 || (!HasKey(t[1..], t[0].0) && DistinctKeys(t[1..]))
  }

  /** `d.get(k)`: the value of the entry for `k`, if there is one. */
  function Lookup(t: Table, k: string): (r: Option<string>)
    ensures r.Some? <==> HasKey(t, k)
    decreases |t|
  {
    if |t| == 0 then None
    else if t[0].0 == k then Some(t[0].1)
    else Lookup(t[1..], k)
  }

  /**
    `d[k] = v`: an existing key keeps its position and gets the new value;
    a new key is appended. No other key's value changes.
   */
  function Assign(t: Table, k: string, v: string): (r: Table)
    ensures Lookup(r, k) == Some(v)
    ensures forall k' :: k' != k ==> Lookup(r, k') == Lookup(t, k')
    ensures forall k' :: HasKey(r, k') <==> k' == k || HasKey(t, k')
    ensures HasKey(t, k) ==> Keys(r) == Keys(t)
    ensures !HasKey(t, k) ==> Keys(r) == Keys(t) + [k]
    ensures DistinctKeys(t) ==> DistinctKeys(r)
    decreases |t|
  {
    if |t| == 0 then [(k, v)]
    else if t[0].0 == k then
      var r := [(k, v)] + t[1..];
      assert r[1..] == t[1..];
      r
    else
      var rest := Assign(t[1..], k, v);
      var r := [t[0]] + rest;
      assert r[1..] == rest;
      r
  }

  /**
    `d.update(o)`: the entries of `o` are assigned in order. A key of `o`
    ends up with its value in `o`; every other key keeps its value; when
    every key of `o` is already present, the key order is unchanged.
   */
  function Update(t: Table, o: Table): (r: Table)
    ensures DistinctKeys(t) ==> DistinctKeys(r)
    ensures DistinctKeys(o) ==>
      forall k :: Lookup(r, k) == (if HasKey(o, k) then Lookup(o, k) else Lookup(t, k))
    ensures (forall k :: HasKey(o, k) ==> HasKey(t, k)) ==> Keys(r) == Keys(t)
    decreases |o|
  {
    if |o| == 0 then t
    else
      var t' := Assign(t, o[0].0, o[0].1);
      Update(t', o[1..])
  }

  const InvoiceNumberKey := "invoice_number"
  const DateKey := "date"
  const TotalAmountKey := "total_amount"
  const TaxAmountKey := "tax_amount"
  const VendorNameKey := "vendor_name"
  const GstNumberKey := "gst_number"
  const LineItemKey := "line_item_pattern"

  const InvoiceNumberPattern := @"(?:Invoice No\.|Invoice|Bill)\s*[:#-]\s*(\w+)"
  const DatePattern := @"(?:Invoice Date|DATED|Date)\s*[:#-]\s*(\d{2}[-/]\d{2}[-/]\d{2,4})"
  const TotalAmountPattern :=
    @"(?:PAYABLE AMOUNT|GRAND TOTAL|TOTAL|AMOUNT DUE|BALANCE)\s*(?:[A-Z]{3}|\$|"
    + "\U{20AC}|\U{00A3}|" + @"Rs\.\s*)?\s*([\d,\.]+)"
  const TaxAmountPattern := @"(?:TAX|GST|VAT|SGST|CGST)\s*RATE\s*@\s*\d+%?\s*Rs\.\s*([\d,\.]+)"
  const VendorNamePattern := @"(S\.K\.P\.S DIGITAL)"
  const GstNumberPattern := @"(?:GSTIN|VAT ID|Tax ID)\s*[:#]\s*(\w+)"
  const LineItemPattern := @"ITEM NAME \d\s+Rs\.\s*([\d,\.]+)\s+Rs\.\s*([\d,\.]+)"

  /** `INVOICE_CONFIG`, in its declaration order. */
  const InvoiceConfig: Table := [
    (InvoiceNumberKey, InvoiceNumberPattern),
    (DateKey, DatePattern),
    (TotalAmountKey, TotalAmountPattern),
    (TaxAmountKey, TaxAmountPattern),
    (VendorNameKey, VendorNamePattern),
    (GstNumberKey, GstNumberPattern),
    (LineItemKey, LineItemPattern)
  ]

  /** A vendor overlay: the signature looked for in the leading lines, and its pattern overrides. */
  datatype VendorTemplate = VendorTemplate(vendorName: string, regexOverrides: Table)

  const AcmeInvoiceNumberPattern := @"ACME-INV-(\d+)"
  const AcmeDatePattern := @"Billing Date:\s*(\d{4}-\d{2}-\d{2})"

  /** `KNOWN_VENDOR_TEMPLATE`. */
  const KnownVendorTemplate := VendorTemplate(
    "Acme Corp",
    [(InvoiceNumberKey, AcmeInvoiceNumberPattern), (DateKey, AcmeDatePattern)])

  /** A key is present exactly when some entry carries it. */
  lemma {:induction false} HasKeyAt(t: Table, k: string)
    ensures HasKey(t, k) <==> exists i :: 0 <= i < |t| && t[i].0 == k
    decreases |t|
  {
    if |t| > 0 {
      HasKeyAt(t[1..], k);
      if exists i :: 0 <= i < |t| && t[i].0 == k {
        var i :| 0 <= i < |t| && t[i].0 == k;
        if i > 0 {
          assert t[1..][i - 1].0 == k;
        }
      }
    }
  }

  /** Pairwise different keys make a table whose keys are distinct. */
  lemma {:induction false} DistinctByIndex(t: Table)
    requires forall i, j :: 0 <= i < j < |t| ==> t[i].0 != t[j].0
    ensures DistinctKeys(t)
    decreases |t|
  {
    if |t| > 0 {
      HasKeyAt(t[1..], t[0].0);
      DistinctByIndex(t[1..]);
    }
  }

  /** In a table with distinct keys, looking up the key of an entry finds that entry's value. */
  lemma {:induction false} LookupAt(t: Table, i: nat)
    requires DistinctKeys(t) && i < |t|
    ensures Lookup(t, t[i].0) == Some(t[i].1)
    decreases |t|
  {
    if i > 0 {
      HasKeyAt(t[1..], t[0].0);
      assert t[1..][i - 1] == t[i];
      LookupAt(t[1..], i - 1);
    }
  }

  lemma ConfigWellFormed()
    ensures DistinctKeys(InvoiceConfig)
    ensures DistinctKeys(KnownVendorTemplate.regexOverrides)
    ensures Lookup(InvoiceConfig, LineItemKey) == Some(LineItemPattern)
    ensures '\n' !in KnownVendorTemplate.vendorName
  {
    DistinctByIndex(InvoiceConfig);
    DistinctByIndex(KnownVendorTemplate.regexOverrides);
    LookupAt(InvoiceConfig, 6);
  }

  /**
    Applying the known vendor's overrides to the base table replaces
    exactly the invoice-number and date patterns, in place: the key order
    is that of the base table and every other field, the vendor name and
    line-item patterns included, keeps its base pattern.
   */
  lemma KnownVendorOverlay()
    ensures Keys(Update(InvoiceConfig, KnownVendorTemplate.regexOverrides)) == Keys(InvoiceConfig)
    ensures Lookup(Update(InvoiceConfig, KnownVendorTemplate.regexOverrides), InvoiceNumberKey)
         == Some(AcmeInvoiceNumberPattern)
    ensures Lookup(Update(InvoiceConfig, KnownVendorTemplate.regexOverrides), DateKey)
         == Some(AcmeDatePattern)
    ensures forall k :: k != InvoiceNumberKey && k != DateKey ==>
      Lookup(Update(InvoiceConfig, KnownVendorTemplate.regexOverrides), k) == Lookup(InvoiceConfig, k)
  {
    var o := KnownVendorTemplate.regexOverrides;
    ConfigWellFormed();
    forall k | HasKey(o, k)
      ensures HasKey(InvoiceConfig, k)
    {
      HasKeyAt(o, k);
      HasKeyAt(InvoiceConfig, k);
      assert k == InvoiceConfig[0].0 || k == InvoiceConfig[1].0;
    }
    LookupAt(o, 0);
    LookupAt(o, 1);
    forall k | k != InvoiceNumberKey && k != DateKey
      ensures !HasKey(o, k)
    {
      HasKeyAt(o, k);
    }
  }
}

# Invoice text extraction, modelled in Dafny

This project models the text-to-record half of an OCR invoice extractor
(`backend/invoice_ocr_api.py`). Once OCR has produced a string, the
extractor works in five steps:

- it cleans and converts captured amounts (`parse_float`);
- it looks for a known vendor's signature in the first five lines and, on
  a hit, overlays that vendor's regular expressions on the base pattern
  table (`INVOICE_CONFIG`, `KNOWN_VENDOR_TEMPLATE`);
- it runs every header pattern over the whole text, strips the captures,
  and converts the two amounts;
- it rebuilds line items from the lines that follow the first
  `ITEM NAME <digit>` marker, skipping summary lines and recovering the
  quantity as `round(total / rate)` (`parse_line_items`);
- it lays the record out as CSV rows (`generate_csv_string`).

The model is purely functional. A Python dict is an association list in
insertion order. Floats are reals. The two regular-expression searches are
function parameters:

- `Invoice.Search` gives group 1 of a header pattern in the whole text;
- `LineItems.ItemSearch` gives groups 1 and 2 of the line-item pattern in one line.

The section-marker test and the summary-keyword test are modelled
concretely, as case-insensitive substring tests. The invoice identifier
(`uuid4` in the code) is also a parameter.

Files:

- `Wrappers.dfy`: `Option`.
- `Text.dfy`: the `str` operations used by the extractor. These are
  `isspace`, ASCII upper-casing, `in` on strings, `split('\n')`,
  `'\n'.join`, `split()` and `strip()`. `split('\n')` and `join` are
  proved inverse to each other. `split()` is characterised by the
  whitespace layout of its input, and `strip()` as a slice with only
  whitespace outside it.
- `Numbers.dfy`: `parse_float`, covering Python `float()` syntax (sign,
  digits, one point, exponent), a decimal reference value for amount
  captures, and round-half-even.
- `Patterns.dfy`: dict lookup, assignment and `update`, and the two
  configuration constants.
- `Collections.dfy`: a generic order-preserving filter-map, with its
  origin map.
- `LineItems.dfy`: `LineItem` and `parse_line_items`.
- `Invoice.dfy`: `ParsedInvoice`, vendor detection, the pattern overlay,
  the field loop and record assembly.
- `MockOcr.dfy`: the placeholder OCR text, used as a fixture.
- `Csv.dfy`: the CSV export as rows of cells, and a reader that inverts it.

A line item's quantity is `float(round(line_total / unit_price))` when
both amounts are non-zero and the rate is positive, and `1.0` otherwise.
The rounded value is `0.0` whenever the total is below half the rate
(`LineItems.QuantityCanBeZero`), so a quantity is not always positive.

## Model

| member | source | states |
|---|---|---|
| Numbers.ParseFloat | backend/invoice_ocr_api.py:186-195 | An empty input gives `None`, and a value is only ever produced from an input that holds a digit; failures are `None`, never an error |
| Numbers.DecimalCapture | backend/invoice_ocr_api.py:186-195 | On any input made of digits, `,` and `.`: the result is a value exactly when there is a digit and at most one `.`. The value is then the decimal those digits denote, commas ignored |
| Numbers.RemoveSymbols | backend/invoice_ocr_api.py:191 | The cleaned text holds none of `$ , € £ ( )`, and a text without them is returned unchanged |
| Numbers.ParenthesesDoNotNegate | backend/invoice_ocr_api.py:191 | Parentheses are deleted rather than read as a minus sign: `"(" + s + ")"` converts exactly like `s` |
| Numbers.RoundHalfEven | backend/invoice_ocr_api.py:231 | `round` gives an integer within one half of the ratio, and on a tie the even one |
| Text.Split | backend/invoice_ocr_api.py:201 | `split('\n')` gives at least one piece, no piece holds a line break, and joining the pieces with line breaks gives back the text |
| Text.SplitJoin | backend/invoice_ocr_api.py:260 | Splitting a join of break-free lines gives back those lines |
| Text.Strip | backend/invoice_ocr_api.py:224 | `strip()` gives a contiguous slice of the text with only whitespace cut off before and after it. The slice neither starts nor ends with whitespace, so inner whitespace is kept. An already-trimmed string is left alone |
| Text.Words | backend/invoice_ocr_api.py:221 | `split()` gives non-empty whitespace-free words whose concatenation is the text's non-whitespace characters in order |
| Text.WordsLayout | backend/invoice_ocr_api.py:221 | Every text is its `split()` words interleaved with whitespace runs, with a non-empty run between any two words |
| Text.WordsOfLayout | backend/invoice_ocr_api.py:221 | For any words interleaved with whitespace runs (non-empty between words), `split()` gives back exactly those words. So the words are the maximal whitespace-free runs, and `split()[2]` is the third of them |
| Text.UpperStr | backend/invoice_ocr_api.py:260 | `upper()` keeps the length, leaves no ASCII lower-case letter, turns each `a`..`z` into its capital and changes nothing else |
| Text.UpperStrIdempotent | backend/invoice_ocr_api.py:260 | Upper-casing twice is upper-casing once |
| Text.ContainsInUpperJoin | backend/invoice_ocr_api.py:260-262 | A break-free signature occurs in the upper-cased join of some lines exactly when it occurs in one of those lines |
| Patterns.Lookup | backend/invoice_ocr_api.py:291 | Reading a key of a pattern table, as in `INVOICE_CONFIG["line_item_pattern"]`, finds a value exactly when the key is present |
| Patterns.Assign | backend/invoice_ocr_api.py:268 | `d[k] = v` gives `k` the value `v` and changes no other key's value. An existing key keeps its position; a new key is appended. Keys stay distinct |
| Patterns.Update | backend/invoice_ocr_api.py:266-268 | After `update`, keys of the overrides have the override value and all other keys keep theirs. When every override key already exists, the key order is unchanged. Keys stay distinct |
| Patterns.ConfigWellFormed | backend/invoice_ocr_api.py:41-67 | Both pattern tables have distinct keys, the base line-item pattern is the `ITEM NAME \d … Rs. … Rs. …` one, and the vendor signature holds no line break |
| Patterns.KnownVendorOverlay | backend/invoice_ocr_api.py:61-67 | The known vendor's overlay replaces exactly the invoice-number and date patterns, in place. Every other field, the vendor name and line items included, keeps its base pattern |
| Collections.FilterMapOrigins | backend/invoice_ocr_api.py:213-239 | Keeping the defined per-line results gives them in line order, one per contributing line, none lost, each from the line named by a strictly increasing index map |
| LineItems.Quantity | backend/invoice_ocr_api.py:227-231 | The quantity is a whole number rounding `total / rate` half-to-even when both amounts are present, non-zero and the rate positive; otherwise it is 1.0 |
| LineItems.QuantityOfExactMultiple | backend/invoice_ocr_api.py:229-231 | A total that is a non-zero whole multiple `n` of a positive rate gives quantity `n` |
| LineItems.QuantityCanBeZero | backend/invoice_ocr_api.py:229-231 | Rate 100 and total 30 give quantity 0.0, so the quantity is not always positive |
| LineItems.LineToItem | backend/invoice_ocr_api.py:215-241 | A summary-keyword line never gives an item. A line gives one exactly when it has no keyword, the pattern matches, and it has at least three words. The prices are `parse_float` of the stripped captures, the quantity follows the quantity rule, and the description is `ITEM NAME ` followed by the line's third word |
| LineItems.SectionHeaderAsSearch | backend/invoice_ocr_api.py:207 | A line is a marker line exactly when `ITEM NAME ` followed by some digit occurs in it, ignoring case |
| LineItems.SectionHeaderIgnoresCase | backend/invoice_ocr_api.py:207 | Upper-casing a line does not change whether it is a marker line |
| LineItems.SummaryKeywordIgnoresCase | backend/invoice_ocr_api.py:215 | Upper-casing a line does not change whether it is a summary line |
| LineItems.FirstSectionLine | backend/invoice_ocr_api.py:205-209 | The index found carries the section marker and no earlier line does; with no index, no line does |
| LineItems.ParseLineItems | backend/invoice_ocr_api.py:197-245 | Without a section-marker line there are no items, and there are never more items than lines |
| LineItems.LineItemsProvenance | backend/invoice_ocr_api.py:201-245 | Items are exactly the per-line results from the first marker line on, in line order, at most one per line, none lost. Lines before the first marker contribute nothing |
| LineItems.ItemLinesAreItemRows | backend/invoice_ocr_api.py:213-239 | Every item comes from a line with no summary keyword, at least three words and a pattern match |
| Invoice.VendorDetectionLeadingLines | backend/invoice_ocr_api.py:259-264 | The vendor is detected exactly when its signature, compared in upper case, lies inside one of the first five lines |
| Invoice.SignatureOnFirstLine | backend/invoice_ocr_api.py:259-264 | A signature on the first line is detected whatever follows |
| Invoice.LateSignatureIgnored | backend/invoice_ocr_api.py:259-268 | If none of the first five lines carries the signature, the patterns in force are the base table, whatever later lines hold |
| Invoice.EffectivePatternOf | backend/invoice_ocr_api.py:266-268 | The patterns in force are the vendor's invoice-number and date patterns exactly when the vendor is detected; every other field keeps its base pattern |
| Invoice.ExtractFields | backend/invoice_ocr_api.py:270-288 | The field loop stores at most one entry per pattern. Every stored field has a pattern in the table and is not the line-item pattern |
| Invoice.ExtractFieldsLookup | backend/invoice_ocr_api.py:270-288 | After the field loop, a field holds a value exactly when it is not the line-item pattern, has a pattern, and that pattern matched. Amounts hold `parse_float` of the stripped capture; every other field holds the stripped capture |
| Invoice.TextFieldOf | backend/invoice_ocr_api.py:276-284 | A text field of the record is the stripped capture of the pattern in force for it, and absent without a match |
| Invoice.AmountFieldOf | backend/invoice_ocr_api.py:276-279 | An amount field of the record is `parse_float` of the stripped capture, and absent without a match |
| Invoice.ParseInvoiceFields | backend/invoice_ocr_api.py:247-301 | `parse_invoice_data` is `Invoice.ParseInvoice`; this lemma states its result field by field. The record keeps the identifier and the text verbatim. Invoice number and date come from the vendor's patterns exactly when the vendor is detected. The vendor name, GST number and amounts always come from base patterns, never from the detected vendor. Line items always use the base line-item pattern |
| MockOcr.MockOcrIsKnownVendor | backend/invoice_ocr_api.py:163-173 | The placeholder OCR text is detected as the known vendor's |
| MockOcr.MockOcrInvoice | backend/invoice_ocr_api.py:163-173 | On the placeholder text, whatever the searches find, the invoice number and date come from the vendor's patterns and the vendor name from the base one |
| Csv.ItemRows | backend/invoice_ocr_api.py:333-340 | One row per item, in item order |
| Csv.CsvRows | backend/invoice_ocr_api.py:305-342 | The export has exactly 11 + n rows in the fixed layout (title, seven labelled rows in order, empty row, items title, column header), followed by the item rows in order |
| Csv.HeaderCellsOf | backend/invoice_ocr_api.py:313-325 | Each labelled row's value cell holds its field, `None` as an empty cell |
| Csv.ReadItemRows | backend/invoice_ocr_api.py:333-340 | Reading back the item rows gives the items |
| Csv.CsvRoundTrip | backend/invoice_ocr_api.py:305-342 | Reading an export back gives the invoice, raw text aside, provided no optional text field is the empty string |
| Csv.EmptyTextIsMissing | backend/invoice_ocr_api.py:313-325 | An empty vendor name and a missing one give the same export |

## Left out

- Image preprocessing (`preprocess_image`, lines 89-151) is left out. It is OpenCV and PIL image numerics in foreign libraries.
- OCR (`extract_text_tesseract`, lines 156-181) is an external engine call and is left out. Its placeholder text appears only as a fixture.
- The regular-expression engine is left out. Both searches are parameters, so the model says which pattern is searched where, not what it matches.
- The `IndexError` handler for `group(1)` (lines 285-286) is left out. Every pattern has a mandatory first group, so the header search returns that group directly.
- The log messages printed for unmatched fields (lines 286-288) are left out. They are output only.
- Invoice.ParseInvoice: the identifier from `uuid4` (line 253) is a parameter, because it is nondeterministic. Parsing the same text with the same identifier gives the same record because the model is a function.
- Numbers.ParseFloat: `float()` spellings other than sign, digits, one point and exponent are `None` here, though Python accepts them. These are `inf`, `nan`, `_` digit grouping and non-ASCII digits.
- Numbers.ParseFloat: amounts are reals, so IEEE-754 rounding, overflow to infinity and the `OverflowError` of `round(inf)` are not modelled. That last one is the generic `except` at lines 242-243, which is unreachable on reals.
- Text.UpperStr: upper-casing and case-insensitive matching change only ASCII letters. Python's Unicode case mapping (for example `ß` becoming `SS`) is not modelled.
- LineItems.IsSectionHeader: `\d` in the section marker is an ASCII digit here. Python's `re` also accepts other Unicode decimal digits.
- The `if description:` test (line 233) is always true, since the description starts with `ITEM NAME `, so it has no model.
- CSV text serialisation by `csv.writer` is left out: quoting, `\r\n` line ends and `str(float)` formatting all happen in a foreign library. The model stops at rows of cells.
- The FastAPI endpoints, CORS, the MIME whitelist, HTTP status mapping and `MOCK_DATABASE` are left out as HTTP plumbing.
- Pydantic validation of `ParsedInvoice` and `LineItem` is left out. Every value handed to it already has its declared type.
- The Streamlit front end is not part of this model.

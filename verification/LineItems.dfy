/**
  Line-item reconstruction (`parse_line_items`): find the first line
  carrying the `ITEM NAME <digit>` section marker, then turn every later
  line that is not a summary line and that the line-item pattern matches
  into a `LineItem`.
 */
module LineItems {
  import opened Wrappers
  import opened Text
  import opened Numbers
  import opened Collections

  /** `LineItem`: quantity is always set by the extractor, prices may be absent. */
  datatype LineItem = LineItem(
    quantity: real,
    description: string,
    unitPrice: Option<real>,
    lineTotal: Option<real>)

  /**
    The regular-expression search of the line-item pattern in one line,
    case-insensitive: `Some((group1, group2))` on a match, `None` otherwise.
   */
  type ItemSearch = (string, string) -> Option<(string, string)>

  /** The literal part of the section marker `ITEM NAME \d`. */
  const SectionMarker := "ITEM NAME "

  /** `re.search(r'ITEM NAME \d', line, re.IGNORECASE)`. */
  predicate IsSectionHeader(line: string)
  {
    exists i :: 0 <= i < |line| - |SectionMarker|
      && OccursAt(UpperStr(line), SectionMarker, i)
      && IsDigit(line[i + |SectionMarker|])
  }

  /**
    The marker test is the search for `ITEM NAME ` followed by a digit,
    ignoring case: some digit `d` makes `ITEM NAME d` occur in the
    upper-cased line.
   */
  lemma SectionHeaderAsSearch(line: string)
    ensures IsSectionHeader(line) <==>
      exists d :: IsDigit(d) && Contains(UpperStr(line), SectionMarker + [d])
  {
    var u := UpperStr(line);
    var m := |SectionMarker|;
    if IsSectionHeader(line) {
      var i :| 0 <= i < |line| - m && OccursAt(u, SectionMarker, i) && IsDigit(line[i + m]);
      var d := line[i + m];
      assert u[i + m] == d;
      assert u[i..i + m + 1] == u[i..i + m] + [u[i + m]];
      assert OccursAt(u, SectionMarker + [d], i);
    }
    if exists d :: IsDigit(d) && Contains(u, SectionMarker + [d]) {
      var d :| IsDigit(d) && Contains(u, SectionMarker + [d]);
      var i :| 0 <= i <= |u| - (m + 1) && OccursAt(u, SectionMarker + [d], i);
      assert u[i..i + m] == u[i..i + m + 1][..m];
      assert u[i + m] == u[i..i + m + 1][m] == d;
      assert IsDigit(line[i + m]);
      assert OccursAt(u, SectionMarker, i);
    }
  }

  /** The marker test ignores case: an upper-cased line is a marker line exactly when the line is. */
  lemma SectionHeaderIgnoresCase(line: string)
    ensures IsSectionHeader(UpperStr(line)) <==> IsSectionHeader(line)
  {
    SectionHeaderAsSearch(line);
    SectionHeaderAsSearch(UpperStr(line));
    UpperStrIdempotent(line);
  }

  /** The alternatives of `(SUBTOTAL|TAX|TOTAL|BALANCE|GST|PAYABLE)`. */
  const SummaryKeywords: seq<string> := ["SUBTOTAL", "TAX", "TOTAL", "BALANCE", "GST", "PAYABLE"]

  /** The case-insensitive keyword search that marks a summary line. */
  predicate HasSummaryKeyword(line: string)
  {
    exists k :: 0 <= k < |SummaryKeywords| && Contains(UpperStr(line), SummaryKeywords[k])
  }

  /** The summary-keyword test ignores case: an upper-cased line is a summary line exactly when the line is. */
  lemma SummaryKeywordIgnoresCase(line: string)
    ensures HasSummaryKeyword(UpperStr(line)) <==> HasSummaryKeyword(line)
  {
    UpperStrIdempotent(line);
  }

  /**
    The guard `unit_price and line_total and unit_price > 0`: both amounts
    parsed, neither is zero, and the unit price is positive.
   */
  predicate QuantityRecoverable(unitPrice: Option<real>, lineTotal: Option<real>)
  {
    && unitPrice.Some? && lineTotal.Some?
    && unitPrice.value != 0.0 && lineTotal.value != 0.0
    && unitPrice.value > 0.0
  }

  /**
    The quantity of an item: the whole number nearest to total / rate,
    ties to even, when that ratio can be formed; 1.0 otherwise.
   */
  function Quantity(unitPrice: Option<real>, lineTotal: Option<real>): (q: real)
    ensures QuantityRecoverable(unitPrice, lineTotal) ==>
      q == q.Floor as real && IsRoundHalfEven(lineTotal.value / unitPrice.value, q.Floor)
    ensures !QuantityRecoverable(unitPrice, lineTotal) ==> q == 1.0
  {
    if QuantityRecoverable(unitPrice, lineTotal)
    then RoundHalfEven(lineTotal.value / unitPrice.value) as real
    else 1.0
  }

  /** When the total is a non-zero whole multiple of a positive rate, that multiple is the quantity. */
  lemma QuantityOfExactMultiple(rate: real, total: real, n: int)
    requires rate > 0.0 && n != 0 && total == n as real * rate
    ensures Quantity(Some(rate), Some(total)) == n as real
  {
    assert total / rate == n as real;
    var q := Quantity(Some(rate), Some(total));
    RoundHalfEvenUnique(total / rate, q.Floor, n);
  }

  /**
    The reconstructed quantity is not always positive: a line total below
    half the rate rounds to zero.
   */
  lemma QuantityCanBeZero()
    ensures Quantity(Some(100.0), Some(30.0)) == 0.0
  {
    var q := Quantity(Some(100.0), Some(30.0));
    assert IsRoundHalfEven(0.3, q.Floor);
    RoundHalfEvenUnique(0.3, q.Floor, 0);
  }

  /**
    One line of the section: summary lines and lines the pattern does not
    match give nothing; a matching line with fewer than three words is
    skipped (the `IndexError` branch); otherwise the item is described by
    its third word and priced by the two captures.
   */
  function LineToItem(line: string, pattern: string, search: ItemSearch): (r: Option<LineItem>)
    ensures HasSummaryKeyword(line) ==> r == None
    ensures r.Some? <==>
      !HasSummaryKeyword(line) && search(pattern, line).Some? && |Words(line)| >= 3
    ensures r.Some? ==>
      && r.value.unitPrice == ParseFloat(Strip(search(pattern, line).value.0))
      && r.value.lineTotal == ParseFloat(Strip(search(pattern, line).value.1))
      && r.value.quantity == Quantity(r.value.unitPrice, r.value.lineTotal)
    ensures r.Some? ==> r.value.description == SectionMarker + Words(line)[2]
  {
    if HasSummaryKeyword(line) then None
    else match search(pattern, line)
      case None => None
      case Some((rate, total)) =>
        var words := Words(line);
        if |words| < 3 then None
        else
          var unitPrice := ParseFloat(Strip(rate));
          var lineTotal := ParseFloat(Strip(total));
          Some(LineItem(Quantity(unitPrice, lineTotal), SectionMarker + words[2], unitPrice, lineTotal))
  }

  /** `LineToItem` for a fixed pattern and search, as a function of the line alone. */
  function ItemReader(pattern: string, search: ItemSearch): string -> Option<LineItem>
  {
    line => LineToItem(line, pattern, search)
  }

  /** Index of the first section-marker line at or after `from`. */
  function FirstSectionLine(lines: seq<string>, from: nat): (r: Option<nat>)
    requires from <= |lines|
    ensures r.Some? ==> from <= r.value < |lines| && IsSectionHeader(lines[r.value])
    ensures r.Some? ==> forall j :: from <= j < r.value ==> !IsSectionHeader(lines[j])
    ensures r.None? ==> forall j :: from <= j < |lines| ==> !IsSectionHeader(lines[j])
    decreases |lines| - from
  {
    if from == |lines| then None
    else if IsSectionHeader(lines[from]) then Some(from)
    else FirstSectionLine(lines, from + 1)
  }

  /** `parse_line_items(raw_text, pattern)`. */
  function ParseLineItems(rawText: string, pattern: string, search: ItemSearch): (items: seq<LineItem>)
    ensures (forall i :: 0 <= i < |Split(rawText, '\n')| ==> !IsSectionHeader(Split(rawText, '\n')[i]))
      ==> items == []
    ensures |items| <= |Split(rawText, '\n')|
  {
    var lines := Split(rawText, '\n');
    match FirstSectionLine(lines, 0)
    case None => []
    case Some(s) => FilterMap(lines[s..], ItemReader(pattern, search))
  }

  /**
    What `parse_line_items` returns, line by line. `start` is the first
    line carrying the section marker (the number of lines when none does);
    the items are the results of `LineToItem` on the lines from `start`
    on, in line order, at most one per line, none of them lost; with no
    marker line there are no items.
   */
  lemma LineItemsProvenance(rawText: string, pattern: string, search: ItemSearch)
    returns (start: nat, idx: seq<nat>)
    ensures start <= |Split(rawText, '\n')|
    ensures start < |Split(rawText, '\n')| ==> IsSectionHeader(Split(rawText, '\n')[start])
    ensures forall j :: 0 <= j < start ==> !IsSectionHeader(Split(rawText, '\n')[j])
    ensures IsOriginMap(Split(rawText, '\n'), start, ItemReader(pattern, search),
                        ParseLineItems(rawText, pattern, search), idx)
  {
    var lines := Split(rawText, '\n');
    match FirstSectionLine(lines, 0)
    case None =>
      start, idx := |lines|, [];
    case Some(s) =>
      start := s;
      idx := FilterMapOrigins(lines, s, ItemReader(pattern, search));
  }

  /** An item never comes from a summary line, and always from a line with at least three words. */
  lemma ItemLinesAreItemRows(rawText: string, pattern: string, search: ItemSearch, k: nat)
    requires k < |ParseLineItems(rawText, pattern, search)|
    ensures exists i ::
      && 0 <= i < |Split(rawText, '\n')|
      && !HasSummaryKeyword(Split(rawText, '\n')[i])
      && |Words(Split(rawText, '\n')[i])| >= 3
      && search(pattern, Split(rawText, '\n')[i]).Some?
      && LineToItem(Split(rawText, '\n')[i], pattern, search) == Some(ParseLineItems(rawText, pattern, search)[k])
  {
    var start, idx := LineItemsProvenance(rawText, pattern, search);
    var i := idx[k];
    assert ItemReader(pattern, search)(Split(rawText, '\n')[i]) == LineToItem(Split(rawText, '\n')[i], pattern, search);
  }
}

/**
 * The `data-*` options of the tag feed container (omglol-theme/tag.js):
 * `data-tag`, `data-show-status`, `data-batch-size` (or `data-per-page`)
 * and `data-concurrent`. An attribute is `None` when the element lacks it.
 */
module TagOptions {
  import opened Wrappers
  import opened Strings
  import opened JsNumbers

  /** A `data-*` value is truthy when present and not empty. */
  predicate Truthy(attr: Option<string>) {
    attr.Some? && attr.value != ""
  }

  predicate AllDigits(s: string) {
    forall i :: 0 <= i < |s| ==> IsDigit(s[i])
  }

  /**
   * `Number(s)` on the numerals the model reads: surrounding whitespace is
   * dropped, blank text is 0, and an optionally signed run of decimal digits is
   * its value. Everything else is `NaN` here.
   */
  function ToNumber(s: string): JsNumber {
    var t := Trim(s);
    if t == [] then Num(0)
    else if AllDigits(t) then Num(DecimalValue(t))
    else if |t| > 1 && t[0] == '-' && AllDigits(t[1..]) then Num(0 - DecimalValue(t[1..]) as int)
    else if |t| > 1 && t[0] == '+' && AllDigits(t[1..]) then Num(DecimalValue(t[1..]))
    else NaN
  }

  /** Reading a printed count back gives the count. */
  lemma ToNumberOfDecimal(n: nat)
    ensures ToNumber(NatToDecimal(n)) == Num(n)
  {
    var d := NatToDecimal(n);
    assert !IsSpace(d[0]) && !IsSpace(d[|d| - 1]);
    TrimNoSpaceAtEnds(d);
    DecimalRoundTrip(n);
  }

  /** `Math.max(1, n)`: a `NaN` argument makes the result `NaN`. */
  function MaxOne(n: JsNumber): JsNumber {
    match n
    case NaN => NaN
    case Num(v) => Num(if v < 1 then 1 else v)
  }

  /** `Number(first || second || fallback)`. */
  function OptionNumber(first: Option<string>, second: Option<string>, fallback: nat): JsNumber {
    if Truthy(first) then ToNumber(first.value)
    else if Truthy(second) then ToNumber(second.value)
    else Num(fallback)
  }

  /** The batch size as the script computes it (tag.js line 36), for the numerals `ToNumber` reads. */
  function BatchSizeAsWritten(batchAttr: Option<string>, perPageAttr: Option<string>): JsNumber {
    MaxOne(OptionNumber(batchAttr, perPageAttr, 10))
  }

  /** The concurrency cap as the script computes it (tag.js line 43), for the numerals `ToNumber` reads. */
  function ConcurrencyAsWritten(concurrentAttr: Option<string>): JsNumber {
    MaxOne(OptionNumber(concurrentAttr, None, 4))
  }

  /** `Math.max(1, n)` with an unreadable number replaced by the default. */
  function AtLeastOne(n: JsNumber, fallback: nat): (r: nat)
    requires fallback >= 1
    ensures r >= 1
    ensures n.Num? ==> MaxOne(n) == Num(r)
    ensures n.NaN? ==> r == fallback
  {
    match n
    case NaN => fallback
    case Num(v) => if v < 1 then 1 else v
  }

  /**
   * The batch size the model uses: at least 1, equal to the script's value
   * whenever `ToNumber` reads the attribute as a number, and the default 10
   * when neither attribute is set or `ToNumber` reads `NaN`.
   */
  function BatchSize(batchAttr: Option<string>, perPageAttr: Option<string>): (r: nat)
    ensures r >= 1
    ensures BatchSizeAsWritten(batchAttr, perPageAttr).Num? ==> BatchSizeAsWritten(batchAttr, perPageAttr) == Num(r)
    ensures !Truthy(batchAttr) && !Truthy(perPageAttr) ==> r == 10
    ensures OptionNumber(batchAttr, perPageAttr, 10).NaN? ==> r == 10
  {
    AtLeastOne(OptionNumber(batchAttr, perPageAttr, 10), 10)
  }

  /** The concurrency cap the model uses: at least 1, the script's value when `ToNumber` reads a number, else 4. */
  function Concurrency(concurrentAttr: Option<string>): (r: nat)
    ensures r >= 1
    ensures ConcurrencyAsWritten(concurrentAttr).Num? ==> ConcurrencyAsWritten(concurrentAttr) == Num(r)
    ensures !Truthy(concurrentAttr) ==> r == 4
    ensures OptionNumber(concurrentAttr, None, 4).NaN? ==> r == 4
  {
    AtLeastOne(OptionNumber(concurrentAttr, None, 4), 4)
  }

  /** A non-numeric `data-batch-size` makes every batch empty: the cursor never moves. */
  lemma BatchSizeNaNStalls(total: nat, next: nat)
    requires next < total
    ensures BatchSizeAsWritten(Some("ten"), None) == NaN
    ensures SliceLength(total, next, JsAdd(next, BatchSizeAsWritten(Some("ten"), None))) == 0
  {
    assert Trim("ten") == "ten";
    assert !IsDigit('t');
  }

  /** A non-numeric `data-concurrent` makes `inFlight < MAX_CONCURRENT_FETCHES` false: no load ever starts. */
  lemma ConcurrencyNaNBlocks()
    ensures ConcurrencyAsWritten(Some("four")) == NaN
    ensures !JsLess(0, ConcurrencyAsWritten(Some("four")))
  {
    assert Trim("four") == "four";
    assert !IsDigit('f');
  }

  /** With the batch size of the model, a batch with posts left is never empty. */
  lemma BatchSizeProgress(batchAttr: Option<string>, perPageAttr: Option<string>, total: nat, next: nat)
    requires next < total
    ensures SliceLength(total, next, JsAdd(next, Num(BatchSize(batchAttr, perPageAttr)))) >= 1
  {
  }

  /** `(showStatus ?? "true").toLowerCase() !== "false"`. */
  function ShowStatus(attr: Option<string>): (show: bool)
    ensures !show <==> attr.Some? && |attr.value| == 5 && forall i :: 0 <= i < 5 ==> LowerChar(attr.value[i]) == "false"[i]
  {
    ToLower(attr.GetOr("true")) != "false"
  }

  /** `el.dataset.tag?.trim()`, with a missing or blank tag read as `None`. */
  function TagName(attr: Option<string>): (r: Option<string>)
    ensures r.None? <==> attr.None? || Trim(attr.value) == ""
    ensures r.Some? ==> r.value == Trim(attr.value) && r.value != "" && NoSpaceAtEnds(r.value)
  {
    if attr.None? || Trim(attr.value) == "" then None else Some(Trim(attr.value))
  }
}

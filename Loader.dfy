/**
 * The transaction table: the raw CSV records, their cleaning (`dropna`) and
 * the derived `TotalPrice` column (app.py, `load_data`).
 */
module Loader {
  import opened Wrappers
  import opened TableOps

  /** An `InvoiceDate` after parsing: a day number and the second within that day. */
  datatype Timestamp = Timestamp(day: int, secondOfDay: nat)

  /** One CSV line; every cell may be empty. */
  datatype RawRow = RawRow(
    invoiceNo: Option<string>,
    description: Option<string>,
    quantity: Option<int>,
    invoiceDate: Option<Timestamp>,
    unitPrice: Option<real>,
    customerId: Option<nat>,
    country: Option<string>)

  /** One loaded line item: every cell present, plus the derived `TotalPrice`. */
  datatype Row = Row(
    invoiceNo: string,
    description: string,
    quantity: int,
    invoiceDate: Timestamp,
    unitPrice: real,
    customerId: nat,
    country: string,
    totalPrice: real)

  /** No cell of the record is missing. */
  predicate Complete(x: RawRow)
  {
    && x.invoiceNo.Some? && x.description.Some? && x.quantity.Some?
    && x.invoiceDate.Some? && x.unitPrice.Some? && x.customerId.Some? && x.country.Some?
  }

  /** The line revenue of a record: `Quantity * UnitPrice`. */
  predicate Priced(r: Row)
  {
    r.totalPrice == r.quantity as real * r.unitPrice
  }

  /** `dropna()`: the complete records, every copy of each, in file order. */
  function DropMissing(raw: seq<RawRow>): (r: seq<RawRow>)
    ensures forall i :: 0 <= i < |r| ==> Complete(r[i])
    ensures forall i :: 0 <= i < |raw| && Complete(raw[i]) ==> raw[i] in r
    ensures SubsequenceOf(r, raw)
    ensures forall x :: multiset(r)[x] == if Complete(x) then multiset(raw)[x] else 0
  {
    FilterSound(raw, Complete);
    FilterComplete(raw, Complete);
    FilterOrder(raw, Complete);
    FilterCounts(raw, Complete);
    Filter(raw, Complete)
  }

  /** A complete record as a row, with `TotalPrice` derived from quantity and price. */
  function ToRow(x: RawRow): (r: Row)
    requires Complete(x)
    ensures Priced(r)
  {
    Row(x.invoiceNo.value, x.description.value, x.quantity.value, x.invoiceDate.value,
        x.unitPrice.value, x.customerId.value, x.country.value,
        x.quantity.value as real * x.unitPrice.value)
  }

  /** A row with its derived column dropped, as the record it came from. */
  function ToRaw(r: Row): (x: RawRow)
    ensures Complete(x)
  {
    RawRow(Some(r.invoiceNo), Some(r.description), Some(r.quantity), Some(r.invoiceDate),
           Some(r.unitPrice), Some(r.customerId), Some(r.country))
  }

  /** Loading and then forgetting `TotalPrice` gives back the record. */
  lemma RowRoundTrip(x: RawRow)
    requires Complete(x)
    ensures ToRaw(ToRow(x)) == x
  {
  }

  /**
   * `load_data`: drop incomplete records and add `TotalPrice` to the rest.
   * Every loaded row is priced, and the rows are exactly the complete
   * records, in file order.
   */
  function LoadData(raw: seq<RawRow>): (t: seq<Row>)
    ensures forall i :: 0 <= i < |t| ==> Priced(t[i])
    ensures |t| == |DropMissing(raw)|
    ensures forall i :: 0 <= i < |t| ==> ToRaw(t[i]) == DropMissing(raw)[i]
    ensures forall i :: 0 <= i < |raw| && Complete(raw[i]) ==> ToRow(raw[i]) in t
  {
    var d := DropMissing(raw);
    var t := seq(|d|, i requires 0 <= i < |d| => ToRow(d[i]));
    assert forall i :: 0 <= i < |raw| && Complete(raw[i]) ==> ToRow(raw[i]) in t by {
      forall i | 0 <= i < |raw| && Complete(raw[i])
        ensures ToRow(raw[i]) in t
      {
        var j :| 0 <= j < |d| && d[j] == raw[i];
        assert t[j] == ToRow(raw[i]);
      }
    }
    t
  }
}

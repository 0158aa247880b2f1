/**
 * One stock check of a product page (`check_zara_stock_selenium`). The
 * browser is replaced by the observation the code branches on: whether the
 * page loaded, what the name and price lookups returned, and what the size
 * panel showed. The result record starts from the defaults and is updated
 * field by field along the branch that is taken.
 */
module StockCheck {
  import opened Text

  datatype Option<T> = None | Some(value: T)

  /** `'success'` or `'error'` */
  datatype Status = Success | Error

  /** `'in_stock'` or `'out_of_stock'` */
  datatype Availability = InStock | OutOfStock

  /** The result dict of one check: status, name, price, sizes, availability. */
  datatype CheckResult = CheckResult(
    status: Status,
    name: string,
    price: string,
    sizes: seq<string>,
    availability: Availability)

  /** Placeholders the result dict starts with. */
  const DefaultName: string := "Zara Ürünü"
  const DefaultPrice: string := "?"

  /** The CSS class fragments that mark a size row as not purchasable. */
  const Disabled: string := "is-disabled"
  const OutOfStockClass: string := "out-of-stock"

  /**
   * One `li.size-selector-list__item`: its `class` attribute (None when the
   * lookup raises or yields no string) and the text of its label element
   * (None when the label lookup raises).
   */
  datatype SizeRow = SizeRow(classes: Option<string>, labelText: Option<string>)

  /** What the size step found after the page was loaded. */
  datatype Panel =
    | SoldOutMarker              // a "show similar products" button exists
    | AddOrModalTimeout          // add button not clickable, or size modal not shown, in time
    | SizeRows(rows: seq<SizeRow>)
    | PanelCrash                 // any other exception after the page loaded

  /** What the browser showed. */
  datatype Page =
    | NavigationCrash            // driver start or navigation raised
    | Loaded(name: Option<string>, price: Option<string>, panel: Panel)

  /** A row is kept when its classes mark it neither disabled nor out of stock and its label can be read. */
  predicate Keeps(row: SizeRow) {
    && row.classes.Some?
    && !Contains(row.classes.value, Disabled)
    && !Contains(row.classes.value, OutOfStockClass)
    && row.labelText.Some?
  }

  /** The labels of the kept rows, in row order. */
  function AvailableSizes(rows: seq<SizeRow>): (sizes: seq<string>)
    ensures |sizes| <= |rows|
  {
    if rows == [] then []
    else AvailableSizes(rows[..|rows| - 1])
         + (var row := rows[|rows| - 1]; if Keeps(row) then [row.labelText.value] else [])
  }

  /** The size filter distributes over concatenation, so it keeps row order. */
  lemma {:induction false} AvailableSizesAppend(a: seq<SizeRow>, b: seq<SizeRow>)
    ensures AvailableSizes(a + b) == AvailableSizes(a) + AvailableSizes(b)
    decreases |b|
  {
    if b == [] {
      assert a + b == a;
    } else {
      var n := |b| - 1;
      assert (a + b)[..|a + b| - 1] == a + b[..n];
      assert (a + b)[|a + b| - 1] == b[n];
      AvailableSizesAppend(a, b[..n]);
    }
  }

  /** One row contributes its label exactly when it is kept. */
  lemma AvailableSizesSingle(row: SizeRow)
    ensures AvailableSizes([row]) == if Keeps(row) then [row.labelText.value] else []
  {
  }

  /** Every reported size is the label of a kept row. */
  lemma {:induction false} AvailableSizesSound(rows: seq<SizeRow>, k: int)
    requires 0 <= k < |AvailableSizes(rows)|
    ensures exists i :: 0 <= i < |rows| && Keeps(rows[i]) && rows[i].labelText.value == AvailableSizes(rows)[k]
    decreases |rows|
  {
    var n := |rows| - 1;
    var front := AvailableSizes(rows[..n]);
    if k < |front| {
      AvailableSizesSound(rows[..n], k);
      var i :| 0 <= i < n && Keeps(rows[..n][i]) && rows[..n][i].labelText.value == front[k];
      assert rows[i] == rows[..n][i];
    } else {
      assert Keeps(rows[n]) && rows[n].labelText.value == AvailableSizes(rows)[k];
    }
  }

  /** The size list is empty exactly when no row is kept. */
  lemma {:induction false} AvailableSizesEmptyIff(rows: seq<SizeRow>)
    ensures AvailableSizes(rows) == [] <==> forall i :: 0 <= i < |rows| ==> !Keeps(rows[i])
    decreases |rows|
  {
    if rows != [] {
      var n := |rows| - 1;
      var front := rows[..n];
      AvailableSizesEmptyIff(front);
      assert AvailableSizes(rows) == AvailableSizes(front) + if Keeps(rows[n]) then [rows[n].labelText.value] else [];
      if AvailableSizes(rows) == [] {
        forall i | 0 <= i < |rows| ensures !Keeps(rows[i]) {
          if i < n { assert front[i] == rows[i]; }
        }
      } else if !Keeps(rows[n]) {
        var i :| 0 <= i < n && Keeps(front[i]);
        assert front[i] == rows[i];
      }
    }
  }

  /** The loop over the size rows, appending each kept label. */
  method CollectSizes(rows: seq<SizeRow>) returns (sizes: seq<string>)
    ensures sizes == AvailableSizes(rows)
  {
    sizes := [];
    var i := 0;
    while i < |rows|
      invariant 0 <= i <= |rows|
      invariant sizes == AvailableSizes(rows[..i])
    {
      var row := rows[i];
      assert rows[..i + 1][..i] == rows[..i];
      if row.classes.Some? {
        var classes := row.classes.value;
        if !Contains(classes, Disabled) && !Contains(classes, OutOfStockClass) {
          if row.labelText.Some? {
            sizes := sizes + [row.labelText.value];
          }
        }
      }
      i := i + 1;
    }
    assert rows[..i] == rows;
  }

  /**
   * One check. Only a crash yields status Error, and then the availability is
   * OutOfStock with no sizes; the sold-out marker and a timeout are successful
   * out-of-stock results; otherwise the sizes are the kept labels and the
   * product is in stock exactly when there is at least one.
   */
  method CheckStock(page: Page) returns (result: CheckResult)
    ensures result.status == Error <==> page.NavigationCrash? || page.panel.PanelCrash?
    ensures result.availability == InStock <==> result.sizes != []
    ensures result.status == Error ==> result.availability == OutOfStock && result.sizes == []
    ensures page.Loaded? && (page.panel.SoldOutMarker? || page.panel.AddOrModalTimeout?) ==>
              result.status == Success && result.availability == OutOfStock && result.sizes == []
    ensures page.Loaded? && page.panel.SizeRows? ==> result.sizes == AvailableSizes(page.panel.rows)
    ensures result.name == if page.Loaded? && page.name.Some? then page.name.value else DefaultName
    ensures result.price ==
              if page.Loaded? && page.name.Some? && page.price.Some? then page.price.value else DefaultPrice
  {
    result := CheckResult(Error, DefaultName, DefaultPrice, [], OutOfStock);
    match page
    case NavigationCrash =>
      return;
    case Loaded(name, price, panel) =>
      // name first, then price, inside one try: a failed name lookup skips the price
      if name.Some? {
        result := result.(name := name.value);
        if price.Some? {
          result := result.(price := price.value);
        }
      }
      match panel
      case SoldOutMarker =>
        result := result.(status := Success, availability := OutOfStock);
        return;
      case AddOrModalTimeout =>
        result := result.(status := Success);
      case SizeRows(rows) =>
        var sizes := CollectSizes(rows);
        result := result.(sizes := sizes);
        result := result.(availability := if sizes != [] then InStock else OutOfStock);
        result := result.(status := Success);
      case PanelCrash =>
        return;
  }
}

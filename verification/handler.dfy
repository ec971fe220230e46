/**
 * The `/scrape` form handler: validate the submitted URL, scrape the page,
 * and either show an error or show the product with its one-row CSV table.
 */
module Handler {
  import opened Wrappers
  import opened Text
  import opened Html
  import opened Extractor

  const MissingUrlMessage := "Please enter a product URL."
  const LoadFailurePrefix := "Failed to load page: "

  /** The CSV columns, in order; also the keys of the product dictionary. */
  const FieldNames := ["title", "price", "description", "image_url", "source_url"]

  /** What the HTTP client yields for a URL: the parsed page, or the text of
      the exception raised by a connection error, a timeout or a non-success
      status. */
  datatype FetchResult = Loaded(page: Document) | Failed(reason: string)

  /** The product as the dictionary the scraper returns. */
  function AsDict(r: ProductRecord): (d: map<string, string>)
    ensures d.Keys == set f | f in FieldNames
  {
    map[
      "title" := r.title,
      "price" := r.price,
      "description" := r.description,
      "image_url" := r.imageUrl,
      "source_url" := r.sourceUrl]
  }

  /** The scraper: load `url` and extract its product, or return a dictionary
      whose only key is "error". */
  function ScrapeProduct(url: string, fetch: string -> FetchResult): (d: map<string, string>)
    ensures "error" in d <==> fetch(url).Failed?
    ensures "error" in d ==> d.Keys == {"error"} && d["error"] == LoadFailurePrefix + fetch(url).reason
    ensures "error" !in d ==> d == AsDict(Extract(fetch(url).page, url))
  {
    match fetch(url)
    case Failed(reason) =>
      map["error" := LoadFailurePrefix + reason]
    case Loaded(page) =>
      var d := AsDict(Extract(page, url));
      assert "error" !in FieldNames;
      d
  }

  /** `csv.DictWriter.writerow`: the dictionary's values in `fields` order,
      "" for a missing key. */
  function DictRow(d: map<string, string>, fields: seq<string>): (row: seq<string>)
    ensures |row| == |fields|
    ensures forall i :: 0 <= i < |fields| ==> row[i] == if fields[i] in d then d[fields[i]] else ""
  {
    if |fields| == 0 then []
    else [if fields[0] in d then d[fields[0]] else ""] + DictRow(d, fields[1..])
  }

  /** The CSV written for a product: the header row, then one data row. */
  function CsvTable(product: map<string, string>): (table: seq<seq<string>>)
    ensures |table| == 2 && table[0] == FieldNames && |table[1]| == |FieldNames|
  {
    [FieldNames, DictRow(product, FieldNames)]
  }

  /** The header names each column of the data row, and the data row holds the
      record's fields in the fixed column order. */
  lemma CsvColumnOrder(r: ProductRecord)
    ensures
      var table := CsvTable(AsDict(r));
      && |table| == 2 && |table[0]| == |table[1]| == 5
      && (forall i :: 0 <= i < 5 ==> table[1][i] == AsDict(r)[table[0][i]])
      && table == [
        ["title", "price", "description", "image_url", "source_url"],
        [r.title, r.price, r.description, r.imageUrl, r.sourceUrl]]
  {
    var d := AsDict(r);
    var row := DictRow(d, FieldNames);
    assert row[0] == d["title"] == r.title;
    assert row[1] == d["price"] == r.price;
    assert row[2] == d["description"] == r.description;
    assert row[3] == d["image_url"] == r.imageUrl;
    assert row[4] == d["source_url"] == r.sourceUrl;
    assert row == [r.title, r.price, r.description, r.imageUrl, r.sourceUrl];
  }

  /** The page the handler renders: an error message, or the product with
      its CSV table. */
  datatype Page = ErrorPage(error: string) | ProductPage(product: map<string, string>, csv: seq<seq<string>>)

  /** The rendered page, and the URLs the scraper was asked to load. */
  datatype Response = Response(page: Page, requested: seq<string>)

  /** The submitted URL: the form's `url` field ("" when missing), trimmed. */
  function FormUrl(form: Option<string>): (url: string)
    ensures url == "" <==> form.None? || AllSpace(form.value)
    ensures url == [] || (!IsSpace(url[0]) && !IsSpace(url[|url| - 1]))
  {
    var raw := form.GetOr("");
    StripEmptyIff(raw);
    Strip(raw)
  }

  /** The `/scrape` handler. */
  function HandleScrape(form: Option<string>, fetch: string -> FetchResult): (r: Response)
    ensures FormUrl(form) == "" ==> r == Response(ErrorPage(MissingUrlMessage), [])
    ensures FormUrl(form) != "" ==> r.requested == [FormUrl(form)]
    ensures r.page.ErrorPage? && FormUrl(form) != "" ==>
      fetch(FormUrl(form)).Failed? && LoadFailurePrefix <= r.page.error
    ensures r.page.ProductPage? ==>
      var url := FormUrl(form);
      && fetch(url).Loaded?
      && var record := Extract(fetch(url).page, url);
      && r.page.product == AsDict(record)
      && r.page.csv == [FieldNames, [record.title, record.price, record.description, record.imageUrl, record.sourceUrl]]
  {
    var url := FormUrl(form);
    if url == "" then
      Response(ErrorPage(MissingUrlMessage), [])
    else
      var product := ScrapeProduct(url, fetch);
      if "error" in product then
        Response(ErrorPage(product["error"]), [url])
      else
        CsvColumnOrder(Extract(fetch(url).page, url));
        Response(ProductPage(product, CsvTable(product)), [url])
  }

  /** A submission that is missing or all whitespace is rejected without any
      page being requested, whatever the network would have answered. */
  lemma BlankUrlIsRejected(form: Option<string>, fetch: string -> FetchResult)
    requires form.None? || AllSpace(form.value)
    ensures HandleScrape(form, fetch) == Response(ErrorPage(MissingUrlMessage), [])
  {
  }

  /** A failed load is reported as "Failed to load page: " followed by the
      failure text, with no product and no CSV. */
  lemma LoadFailureIsReported(form: Option<string>, fetch: string -> FetchResult)
    requires FormUrl(form) != "" && fetch(FormUrl(form)).Failed?
    ensures HandleScrape(form, fetch).page == ErrorPage(LoadFailurePrefix + fetch(FormUrl(form)).reason)
  {
  }
}

/**
 * Field extraction from a product page: title, price, image URL and
 * description, each defaulting to "N/A", plus the requested URL.
 */
module Extractor {
  import opened Wrappers
  import opened Text
  import opened Html

  /** The sentinel for a field that could not be resolved. */
  const NotAvailable := "N/A"

  const PriceAmount := Query(Property, "og:price:amount")
  const PriceCurrency := Query(Property, "og:price:currency")
  const SecureImage := Query(Property, "og:image:secure_url")
  const PlainImage := Query(Property, "og:image")
  const OpenGraphDescription := Query(Property, "og:description")
  const HtmlDescription := Query(Name, "description")

  datatype ProductRecord = ProductRecord(
    title: string,
    price: string,
    description: string,
    imageUrl: string,
    sourceUrl: string)

  /** The title: the page title up to its first `|`, trimmed. */
  function ExtractTitle(doc: Document): (r: string)
    ensures doc.title.None? ==> r == NotAvailable
    ensures doc.title.Some? ==>
      var t := doc.title.value;
      forall k :: FirstSeparatorAt(t, '|', k) ==> r == Strip(t[..k])
  {
    match doc.title
    case None => NotAvailable
    case Some(fullTitle) =>
      assert forall k :: FirstSeparatorAt(fullTitle, '|', k) ==> BeforeFirst(fullTitle, '|') == fullTitle[..k] by {
        forall k | FirstSeparatorAt(fullTitle, '|', k) {
          BeforeFirstAt(fullTitle, '|', k);
        }
      }
      Strip(Split(fullTitle, '|')[0])
  }

  /** `tag.get('content', '').strip()`: a missing `content` reads as "". */
  function TrimmedContent(tag: MetaTag): (r: string)
    ensures r == "" <==> tag.content.None? || AllSpace(tag.content.value)
  {
    var c := tag.content.GetOr("");
    StripEmptyIff(c);
    Strip(c)
  }

  /** The price: "<amount> <currency>" when both tags are found and both
      trimmed contents are non-empty, otherwise "N/A". */
  function ExtractPrice(doc: Document): (r: string)
    ensures r != NotAvailable <==>
      && Find(doc, PriceAmount).Some?
      && Find(doc, PriceCurrency).Some?
      && TrimmedContent(Find(doc, PriceAmount).value) != ""
      && TrimmedContent(Find(doc, PriceCurrency).value) != ""
    ensures r != NotAvailable ==>
      r == TrimmedContent(Find(doc, PriceAmount).value) + " " + TrimmedContent(Find(doc, PriceCurrency).value)
    ensures r != ""
  {
    var amountTag := Find(doc, PriceAmount);
    var currencyTag := Find(doc, PriceCurrency);
    if amountTag.Some? && currencyTag.Some? then
      var amount := TrimmedContent(amountTag.value);
      var currency := TrimmedContent(currencyTag.value);
      if amount != "" && currency != "" then
        var price := amount + " " + currency;
        assert price[|amount|] == ' ';
        assert ' ' !in NotAvailable;
        price
      else
        NotAvailable
    else
      NotAvailable
  }

  /** The field read from the tag found by `primary`, or, only when no tag
      matches `primary`, from the tag found by `fallback`. A found tag whose
      `content` is missing or "" gives "N/A"; otherwise its content, trimmed. */
  function PreferredContent(doc: Document, primary: Query, fallback: Query): (r: string)
    ensures Find(doc, primary).None? && Find(doc, fallback).None? ==> r == NotAvailable
    ensures Find(doc, primary).Some? ==>
      var c := Find(doc, primary).value.content;
      r == if c.None? || c.value == "" then NotAvailable else Strip(c.value)
    ensures Find(doc, primary).None? && Find(doc, fallback).Some? ==>
      var c := Find(doc, fallback).value.content;
      r == if c.None? || c.value == "" then NotAvailable else Strip(c.value)
  {
    var tag := Find(doc, primary).Or(Find(doc, fallback));
    if tag.Some? && tag.value.content.GetOr("") != "" then Strip(tag.value.content.value)
    else NotAvailable
  }

  /** The image URL: from `og:image:secure_url`, or `og:image` when the page
      has no secure tag at all. */
  function ExtractImage(doc: Document): (r: string)
    ensures r != NotAvailable ==>
      exists m :: m in doc.metas && (Matches(m, SecureImage) || Matches(m, PlainImage))
        && m.content.Some? && r == Strip(m.content.value)
  {
    PreferredContent(doc, SecureImage, PlainImage)
  }

  /** The description: from `property="og:description"`, or
      `name="description"` when the page has no Open Graph description. */
  function ExtractDescription(doc: Document): (r: string)
    ensures r != NotAvailable ==>
      exists m :: m in doc.metas && (Matches(m, OpenGraphDescription) || Matches(m, HtmlDescription))
        && m.content.Some? && r == Strip(m.content.value)
  {
    PreferredContent(doc, OpenGraphDescription, HtmlDescription)
  }

  /** The record for a successfully loaded page at `url`. */
  function Extract(doc: Document, url: string): (r: ProductRecord)
    ensures r.sourceUrl == url
    ensures r.price != ""
  {
    ProductRecord(
      title := ExtractTitle(doc),
      price := ExtractPrice(doc),
      description := ExtractDescription(doc),
      imageUrl := ExtractImage(doc),
      sourceUrl := url)
  }

  /** The queries a field's value is read through. */
  const PriceQueries := [PriceAmount, PriceCurrency]
  const ImageQueries := [SecureImage, PlainImage]
  const DescriptionQueries := [OpenGraphDescription, HtmlDescription]

  /** `m` is not found by any of `qs`. */
  predicate Unrelated(m: MetaTag, qs: seq<Query>) {
    forall q :: q in qs ==> !Matches(m, q)
  }

  /** Whenever a page has an `og:image:secure_url` tag, editing a tag that is
      not a secure image tag into another tag that is not one either (an
      `og:image` tag included) leaves the image URL unchanged. */
  lemma SecureImageWins(doc: Document, i: nat, m: MetaTag)
    requires Find(doc, SecureImage).Some?
    requires i < |doc.metas|
    requires !Matches(doc.metas[i], SecureImage) && !Matches(m, SecureImage)
    ensures ExtractImage(doc.(metas := doc.metas[i := m])) == ExtractImage(doc)
  {
    FindUnchangedByEdit(doc, i, m, SecureImage);
  }

  /** Whenever a page has a `property="og:description"` tag, editing a tag
      that is not an Open Graph description tag into another tag that is not
      one either (a `name="description"` tag included) leaves the description
      unchanged. */
  lemma OpenGraphDescriptionWins(doc: Document, i: nat, m: MetaTag)
    requires Find(doc, OpenGraphDescription).Some?
    requires i < |doc.metas|
    requires !Matches(doc.metas[i], OpenGraphDescription) && !Matches(m, OpenGraphDescription)
    ensures ExtractDescription(doc.(metas := doc.metas[i := m])) == ExtractDescription(doc)
  {
    FindUnchangedByEdit(doc, i, m, OpenGraphDescription);
  }

  /** The fallback is taken only when the preferred tag is absent: when the
      first secure image tag has missing or empty `content`, the image is
      "N/A", whatever `og:image` tags the page also has. */
  lemma EmptySecureImageBlocksFallback(doc: Document)
    requires Find(doc, SecureImage).Some? && Find(doc, SecureImage).value.content.GetOr("") == ""
    ensures ExtractImage(doc) == NotAvailable
  {
  }

  /** A found description whose content is non-empty but all whitespace
      passes the truthiness test and strips to "": fields other than the
      price can come out empty. */
  lemma WhitespaceDescriptionIsEmpty(doc: Document)
    requires Find(doc, OpenGraphDescription).Some?
    requires
      var c := Find(doc, OpenGraphDescription).value.content;
      c.Some? && c.value != "" && AllSpace(c.value)
    ensures ExtractDescription(doc) == ""
  {
  }

  /** A title that starts with `|`, such as "| Brand", yields "". */
  lemma LeadingBarTitleIsEmpty(doc: Document)
    requires doc.title.Some? && |doc.title.value| > 0 && doc.title.value[0] == '|'
    ensures ExtractTitle(doc) == ""
  {
  }

  /** Editing a tag that neither the amount nor the currency query finds,
      into another such tag, leaves the price unchanged. */
  lemma PriceEditLocality(doc: Document, i: nat, m: MetaTag)
    requires i < |doc.metas|
    requires Unrelated(doc.metas[i], PriceQueries) && Unrelated(m, PriceQueries)
    ensures ExtractPrice(doc.(metas := doc.metas[i := m])) == ExtractPrice(doc)
  {
    FindUnchangedByEdit(doc, i, m, PriceAmount);
    FindUnchangedByEdit(doc, i, m, PriceCurrency);
  }

  /** Inserting a tag that neither the amount nor the currency query finds
      leaves the price unchanged. */
  lemma PriceInsertLocality(doc: Document, i: nat, m: MetaTag)
    requires i <= |doc.metas|
    requires Unrelated(m, PriceQueries)
    ensures ExtractPrice(doc.(metas := doc.metas[..i] + [m] + doc.metas[i..])) == ExtractPrice(doc)
  {
    FindUnchangedByInsert(doc, i, m, PriceAmount);
    FindUnchangedByInsert(doc, i, m, PriceCurrency);
  }

  /** Editing a tag that neither query of a preferred/fallback field finds,
      into another such tag, leaves that field unchanged. */
  lemma PreferredEditLocality(doc: Document, i: nat, m: MetaTag, primary: Query, fallback: Query)
    requires i < |doc.metas|
    requires Unrelated(doc.metas[i], [primary, fallback]) && Unrelated(m, [primary, fallback])
    ensures PreferredContent(doc.(metas := doc.metas[i := m]), primary, fallback)
         == PreferredContent(doc, primary, fallback)
  {
    FindUnchangedByEdit(doc, i, m, primary);
    FindUnchangedByEdit(doc, i, m, fallback);
  }

  /** Inserting a tag that neither query of a preferred/fallback field finds
      leaves that field unchanged. */
  lemma PreferredInsertLocality(doc: Document, i: nat, m: MetaTag, primary: Query, fallback: Query)
    requires i <= |doc.metas|
    requires Unrelated(m, [primary, fallback])
    ensures PreferredContent(doc.(metas := doc.metas[..i] + [m] + doc.metas[i..]), primary, fallback)
         == PreferredContent(doc, primary, fallback)
  {
    FindUnchangedByInsert(doc, i, m, primary);
    FindUnchangedByInsert(doc, i, m, fallback);
  }

  /** Each field depends only on its own tags: editing tag `i` into `m`
      leaves the title and source URL unchanged, and leaves every other
      field unchanged whose queries match neither the old nor the new tag. */
  lemma EditLocality(doc: Document, url: string, i: nat, m: MetaTag)
    requires i < |doc.metas|
    ensures
      var before := Extract(doc, url);
      var after := Extract(doc.(metas := doc.metas[i := m]), url);
      && after.title == before.title
      && after.sourceUrl == before.sourceUrl
      && (Unrelated(doc.metas[i], PriceQueries) && Unrelated(m, PriceQueries) ==> after.price == before.price)
      && (Unrelated(doc.metas[i], ImageQueries) && Unrelated(m, ImageQueries) ==> after.imageUrl == before.imageUrl)
      && (Unrelated(doc.metas[i], DescriptionQueries) && Unrelated(m, DescriptionQueries) ==>
            after.description == before.description)
  {
    var previous := doc.metas[i];
    if Unrelated(previous, PriceQueries) && Unrelated(m, PriceQueries) {
      PriceEditLocality(doc, i, m);
    }
    if Unrelated(previous, ImageQueries) && Unrelated(m, ImageQueries) {
      PreferredEditLocality(doc, i, m, SecureImage, PlainImage);
    }
    if Unrelated(previous, DescriptionQueries) && Unrelated(m, DescriptionQueries) {
      PreferredEditLocality(doc, i, m, OpenGraphDescription, HtmlDescription);
    }
  }

  /** Inserting a tag anywhere leaves the title and source URL unchanged, and
      leaves every field unchanged whose queries do not match it. */
  lemma InsertLocality(doc: Document, url: string, i: nat, m: MetaTag)
    requires i <= |doc.metas|
    ensures
      var before := Extract(doc, url);
      var after := Extract(doc.(metas := doc.metas[..i] + [m] + doc.metas[i..]), url);
      && after.title == before.title
      && after.sourceUrl == before.sourceUrl
      && (Unrelated(m, PriceQueries) ==> after.price == before.price)
      && (Unrelated(m, ImageQueries) ==> after.imageUrl == before.imageUrl)
      && (Unrelated(m, DescriptionQueries) ==> after.description == before.description)
  {
    if Unrelated(m, PriceQueries) {
      PriceInsertLocality(doc, i, m);
    }
    if Unrelated(m, ImageQueries) {
      PreferredInsertLocality(doc, i, m, SecureImage, PlainImage);
    }
    if Unrelated(m, DescriptionQueries) {
      PreferredInsertLocality(doc, i, m, OpenGraphDescription, HtmlDescription);
    }
  }

  /** Non-empty, and neither starts nor ends with whitespace. */
  predicate Trimmed(s: string) {
    |s| > 0 && !IsSpace(s[0]) && !IsSpace(s[|s| - 1])
  }

  /** Content without surrounding whitespace is kept as it is. */
  lemma StripKeeps(s: string)
    requires Trimmed(s)
    ensures Strip(s) == s
  {
  }

  /** A minimal product page: a title, then the amount, currency, secure
      image and Open Graph description tags. */
  function TypicalPage(title: string, amount: string, currency: string, image: string, description: string): (doc: Document) {
    Document(Some(title), [
      MetaTag(Some("og:price:amount"), None, Some(amount)),
      MetaTag(Some("og:price:currency"), None, Some(currency)),
      MetaTag(Some("og:image:secure_url"), None, Some(image)),
      MetaTag(Some("og:description"), None, Some(description))])
  }

  /** On a typical page titled "<name> | <brand>", every field is read from
      its own tag, and the record holds exactly those values. */
  lemma TypicalPageRecord(name: string, brand: string, amount: string, currency: string,
                          image: string, description: string, url: string)
    requires Trimmed(name) && '|' !in name
    requires Trimmed(amount) && Trimmed(currency) && Trimmed(image) && Trimmed(description)
    ensures Extract(TypicalPage(name + " | " + brand, amount, currency, image, description), url)
      == ProductRecord(name, amount + " " + currency, description, image, url)
  {
    var doc := TypicalPage(name + " | " + brand, amount, currency, image, description);
    BrandedTitle(doc, name, brand);
    TypicalPageTags(doc);
    TypicalPrice(doc, amount, currency);
    TypicalPreferred(doc, SecureImage, PlainImage, image);
    TypicalPreferred(doc, OpenGraphDescription, HtmlDescription, description);
  }

  /** A trimmed value in the first primary tag is the field's value. */
  lemma TypicalPreferred(doc: Document, primary: Query, fallback: Query, value: string)
    requires Trimmed(value)
    requires Find(doc, primary).Some? && Find(doc, primary).value.content == Some(value)
    ensures PreferredContent(doc, primary, fallback) == value
  {
    StripKeeps(value);
  }

  /** Trimmed amount and currency tags, found first, give "<amount> <currency>". */
  lemma TypicalPrice(doc: Document, amount: string, currency: string)
    requires Trimmed(amount) && Trimmed(currency)
    requires Find(doc, PriceAmount).Some? && Find(doc, PriceAmount).value.content == Some(amount)
    requires Find(doc, PriceCurrency).Some? && Find(doc, PriceCurrency).value.content == Some(currency)
    ensures ExtractPrice(doc) == amount + " " + currency
  {
    StripKeeps(amount);
    StripKeeps(currency);
  }

  /** A title "<name> | <brand>" yields the name. */
  lemma BrandedTitle(doc: Document, name: string, brand: string)
    requires Trimmed(name) && '|' !in name
    requires doc.title == Some(name + " | " + brand)
    ensures ExtractTitle(doc) == name
  {
    var t := name + " | " + brand;
    var head := name + " ";
    assert t[..|head|] == head;
    assert FirstSeparatorAt(t, '|', |head|);
    StripUnique(head, 0, |name|);
    assert head[0..|name|] == name;
  }

  /** Each tag of a typical page is the first one found by its query. */
  lemma TypicalPageTags(doc: Document)
    requires |doc.metas| == 4
    requires doc.metas[0].property == Some("og:price:amount")
    requires doc.metas[1].property == Some("og:price:currency")
    requires doc.metas[2].property == Some("og:image:secure_url")
    requires doc.metas[3].property == Some("og:description")
    ensures Find(doc, PriceAmount) == Some(doc.metas[0])
    ensures Find(doc, PriceCurrency) == Some(doc.metas[1])
    ensures Find(doc, SecureImage) == Some(doc.metas[2])
    ensures Find(doc, OpenGraphDescription) == Some(doc.metas[3])
  {
  }

  /** A sample page: "Red Jacket | BrandX", 49.99 USD, a secure image and
      a description. */
  lemma SamplePageRecord(url: string)
    ensures Extract(TypicalPage("Red Jacket | BrandX", "49.99", "USD", "https://x/img.jpg", "A jacket"), url)
      == ProductRecord(
        title := "Red Jacket",
        price := "49.99 USD",
        description := "A jacket",
        imageUrl := "https://x/img.jpg",
        sourceUrl := url)
  {
    assert "Red Jacket" + " | " + "BrandX" == "Red Jacket | BrandX";
    assert "49.99" + " " + "USD" == "49.99 USD";
    TypicalPageRecord("Red Jacket", "BrandX", "49.99", "USD", "https://x/img.jpg", "A jacket", url);
  }
}

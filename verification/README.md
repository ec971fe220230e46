# Shopify product scraper — Dafny model

This project models the core of a small Flask application that scrapes a single
Shopify product page. The core has two parts:

- the **extractor** (`scrape_your_shopify_product`), which reads five fields from
  the page's `<title>` and `<meta>` tags: title, price, description, image URL
  and source URL. Any field it cannot resolve is the sentinel `"N/A"`;
- the **`/scrape` handler**, which checks the submitted URL, routes load failures
  to an error page, and lays the product out as a one-row CSV table.

The parsed page is abstract (`Html.Document`). It holds the text of the first
`<title>` element, as `get_text(strip=True)` would give it, and the `<meta>`
tags in document order. Each tag has optional `property`, `name` and `content`
attributes. `soup.find` becomes "the first tag in document order whose attribute
equals the key" (`Html.Find`). Python's `str.strip()` is modelled with the
`str.isspace()` character set (`Text.IsSpace`), and `str.split` with a
one-character separator, as app.py:29 uses it (`Text.Split`). The HTTP client is a parameter `fetch: string -> FetchResult`
that yields either a parsed page or the failure text.

Modules: `Wrappers` (Option), `Text` (strip, split), `Html` (abstract
document, tag lookup), `Extractor` (field rules, record), `Handler` (scraper
result dictionary, `/scrape` handler, CSV layout).

Two consequences of the code that are easy to miss:

- At app.py:43 the `or` falls back to `og:image` only when no secure tag exists.
  A found tag is always truthy, so a secure tag with empty `content` gives
  `"N/A"` (`Extractor.EmptySecureImageBlocksFallback`).
- The title, image URL and description can be `""`: content that is non-empty
  but all whitespace passes the check at app.py:44/50 and strips to `""`, and a
  title beginning with a vertical bar gives `""`
  (`Extractor.WhitespaceDescriptionIsEmpty`, `Extractor.LeadingBarTitleIsEmpty`).
  Only the price is never empty.

## Model

| member | source | states |
|---|---|---|
| `Text.IsSpace` | app.py:29 | the `str.isspace()` character set: the ASCII controls 9-13 and 28-31, space, U+0085, U+00A0 and the Unicode separators; characterised below U+0100 by `Text.IsSpaceLatin1` |
| `Text.IsSpaceLatin1` | app.py:29 | below U+0100 a character is whitespace exactly when it is one of tab, line feed, vertical tab, form feed, carriage return, U+001C-U+001F, space, U+0085 or U+00A0 |
| `Text.SkipSpace` | app.py:29 | the position reached from the left lies past only whitespace and is the end or a non-whitespace character |
| `Text.SkipSpaceBack` | app.py:29 | the position reached from the right lies before only whitespace and follows a non-whitespace character unless it is the lower bound |
| `Text.StripBounds` | app.py:29 | `strip()` yields a slice `s[i..j]` with only whitespace outside it, and that slice starts and ends with non-whitespace when non-empty |
| `Text.StripUnique` | app.py:29 | any such whitespace/core/whitespace split of a string has exactly `Strip` as its core |
| `Text.StripEmptyIff` | app.py:36-38 | a stripped value is empty exactly when the original is all whitespace |
| `Text.Strip` | app.py:29 | `str.strip()`, also applied at app.py:36-37, 45, 51 and 67: the result is no longer than the input and, when non-empty, starts and ends with non-whitespace; `Text.StripBounds` and `Text.StripUnique` show it is exactly the input without its surrounding whitespace |
| `Text.StripScan` | app.py:29 | the left-then-right index scan that CPython's `strip()` performs gives the same string as `Strip` |
| `Text.BeforeFirst` | app.py:29 | the result is a prefix without the separator, and it is followed by the separator unless it is the whole string |
| `Text.BeforeFirstAt` | app.py:29 | the text before the first separator is the prefix up to the separator's first position |
| `Text.Split` | app.py:29 | splitting on the vertical bar gives at least one piece, no piece contains the vertical bar, and piece 0 is the text before the first vertical bar |
| `Text.JoinSplit` | app.py:29 | joining the pieces of `split(sep)` with `sep` gives back the original string |
| `Html.Matches` | app.py:32-33 | a tag matches `attrs={attribute: key}`, here and at app.py:49, when that attribute is present and equals the key; by `Html.MatchesReadsOneAttribute` the content and the other attribute play no part |
| `Html.MatchesReadsOneAttribute` | app.py:32-33 | two tags that agree on the queried attribute agree on whether they match |
| `Html.FindIndex` | app.py:32-33 | the position found matches the query and no earlier tag does; no position means no tag matches |
| `Html.Find` | app.py:32-33 | a tag is found exactly when some tag matches; the tag found is the page's first matching tag in document order |
| `Html.FindIndexUnique` | app.py:32-33 | the first match is unique: any first-match answer equals `FindIndex` |
| `Html.FindScan` | app.py:32-33 | a document-order scan that stops at the first match gives the same answer as `FindIndex` |
| `Html.FindUnchangedByEdit` | app.py:32-33 | replacing a tag, when neither the old nor the new tag matches the query, does not change what `find` returns |
| `Html.FindUnchangedByInsert` | app.py:32-33 | inserting a non-matching tag anywhere does not change what `find` returns |
| `Extractor.ExtractTitle` | app.py:24-29 | no title element gives exactly "N/A"; otherwise the title is the trimmed text before the first vertical bar, or the whole trimmed text when there is no vertical bar |
| `Extractor.TrimmedContent` | app.py:36-37 | a tag's `content` read with default "" and stripped; it is "" exactly when the attribute is missing or all whitespace |
| `Extractor.ExtractPrice` | app.py:32-39 | the price differs from "N/A" exactly when both tags are found and both trimmed contents are non-empty, with a missing `content` read as ""; it is then "amount currency"; it is never "" |
| `Extractor.PreferredContent` | app.py:42-45 | the primary query's first tag decides whenever one exists; the fallback is used only when it is absent; a chosen tag whose content is missing or "" gives "N/A", otherwise the trimmed content |
| `Extractor.ExtractImage` | app.py:42-45 | a value other than "N/A" is the trimmed content of some `og:image:secure_url` or `og:image` tag of the page |
| `Extractor.ExtractDescription` | app.py:48-51 | a value other than "N/A" is the trimmed content of some `property="og:description"` or `name="description"` tag of the page |
| `Extractor.Extract` | app.py:53-59 | the record's source URL is the input URL verbatim and its price is never empty |
| `Extractor.SecureImageWins` | app.py:43 | when a secure image tag exists, editing a tag that is not a secure image tag into another tag that is not one either, `og:image` tags included, leaves the image URL unchanged |
| `Extractor.OpenGraphDescriptionWins` | app.py:49 | when an `og:description` tag exists, editing a tag that is not an `og:description` tag into another tag that is not one either, `name="description"` tags included, leaves the description unchanged |
| `Extractor.EmptySecureImageBlocksFallback` | app.py:43-45 | whenever the first secure image tag has missing or empty content, the image is "N/A", whatever `og:image` tags the page also has |
| `Extractor.WhitespaceDescriptionIsEmpty` | app.py:50-51 | a found description whose content is non-empty but all whitespace yields "" |
| `Extractor.LeadingBarTitleIsEmpty` | app.py:29 | a title that starts with the vertical bar yields "" |
| `Extractor.PriceEditLocality` | app.py:32-39 | editing a tag that neither price query finds, into another such tag, leaves the price unchanged |
| `Extractor.PriceInsertLocality` | app.py:32-39 | inserting a tag that neither price query finds, anywhere in the page, leaves the price unchanged |
| `Extractor.PreferredEditLocality` | app.py:42-51 | editing a tag that neither the primary nor the fallback query finds, into another such tag, leaves the image URL or description unchanged |
| `Extractor.PreferredInsertLocality` | app.py:42-51 | inserting a tag that neither the primary nor the fallback query finds leaves the image URL or description unchanged |
| `Extractor.EditLocality` | app.py:24-58 | editing one meta tag never changes the title or source URL, and leaves each field unchanged when its tags are not touched by the edit |
| `Extractor.InsertLocality` | app.py:24-58 | inserting a meta tag never changes the title or source URL, and leaves each field unchanged when the new tag is not one of its tags |
| `Extractor.StripKeeps` | app.py:36-37 | content with no surrounding whitespace is kept unchanged by `strip()` |
| `Extractor.BrandedTitle` | app.py:27-29 | a title of the form name, space, vertical bar, space, brand yields exactly the name when the name has no vertical bar and no surrounding whitespace |
| `Extractor.TypicalPageTags` | app.py:32-49 | on a page whose four tags are amount, currency, secure image and Open Graph description, each lookup finds its own tag |
| `Extractor.TypicalPrice` | app.py:32-39 | trimmed amount and currency contents in the first tags found give exactly "amount currency" |
| `Extractor.TypicalPreferred` | app.py:42-51 | a trimmed content in the primary query's first tag is the field's value |
| `Extractor.TypicalPageRecord` | app.py:23-59 | on such a page with trimmed, non-empty contents, the record is exactly the name, "amount currency", the description, the image URL and the source URL |
| `Extractor.SamplePageRecord` | app.py:23-59 | the page titled "Red Jacket", a vertical bar, then "BrandX", with amount 49.99, currency USD, image https://x/img.jpg and description "A jacket" gives exactly that record with price "49.99 USD" |
| `Handler.AsDict` | app.py:53-59 | the product dictionary has exactly the five CSV field names as keys |
| `Handler.ScrapeProduct` | app.py:15-21 | the result has an "error" key exactly when the load fails; it then has only that key, holding "Failed to load page: " and the failure text; otherwise it is the extracted record's dictionary, with the URL as source |
| `Handler.DictRow` | app.py:80 | the written row has one cell per field name, holding the dictionary's value for that name, or "" when the name is not a key |
| `Handler.CsvTable` | app.py:79-80 | the table has two rows: the header, which is exactly the field names in order, and a data row with one cell per field name |
| `Handler.CsvColumnOrder` | app.py:77-80 | the table is the header row title, price, description, image_url, source_url, then one row with the record's fields in that order, each under its own header |
| `Handler.FormUrl` | app.py:67 | the form's `url` field, "" when missing, stripped: "" exactly when missing or all whitespace, and otherwise without surrounding whitespace |
| `Handler.HandleScrape` | app.py:67-80 | a trimmed-empty URL gives the validation error and requests nothing; otherwise the trimmed URL is requested once; an error page then means the load failed; a product page holds the extracted record and its CSV table |
| `Handler.BlankUrlIsRejected` | app.py:67-69 | a missing or all-whitespace URL is rejected with "Please enter a product URL." without requesting any page, whatever the network would answer |
| `Handler.LoadFailureIsReported` | app.py:71-73 | a failed load shows "Failed to load page: " followed by the failure text, with no product and no CSV |

## Left out

- The HTTP request (`requests.get` with the browser User-Agent, the 10-second timeout and `raise_for_status`, app.py:12-17) is network I/O. It is the `fetch` parameter, whose failure text stands for `str(e)`.
- HTML parsing by BeautifulSoup with lxml (app.py:21), and how `get_text(strip=True)` joins text, belong to a foreign library. The abstract `Document` replaces them, keeping only the first title's text and the meta tags.
- CSV quoting, line endings and encoding from `csv.DictWriter`, and the temporary-file write and `csv_download` link (app.py:76, 81, 86) are library and file I/O. Only the table's rows and column order are modelled.
- `DictWriter`'s check for keys outside the field names raises only on extra keys. `Handler.AsDict` proves the product dictionary has exactly the field names, so that check never fires and is not modelled.
- Template rendering (app.py:69, 73, 83-87) is reduced to the `Page` datatype.
- The `index` and `download_file` routes, `send_file` and `os.path.exists` (app.py:61-63, 89-94) are UI and filesystem plumbing.
- The unused `urljoin` import and `app.run` (app.py:7, 96-97) have no behaviour to model.

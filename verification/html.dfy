/**
 * The parsed page, abstracted to what the extractor asks of it: the text of
 * the first `<title>` element (already passed through `get_text(strip=True)`)
 * and the `<meta>` elements in document order.
 */
module Html {
  import opened Wrappers

  /** A `<meta>` element's `property`, `name` and `content` attributes, each of
      which may be missing. */
  datatype MetaTag = MetaTag(property: Option<string>, name: Option<string>, content: Option<string>)

  datatype Document = Document(title: Option<string>, metas: seq<MetaTag>)

  /** The attribute a lookup matches on. */
  datatype Attr = Property | Name

  /** A lookup query: `soup.find('meta', property=key)` or
      `soup.find('meta', attrs={'name': key})`. */
  datatype Query = Query(attr: Attr, key: string)

  predicate Matches(m: MetaTag, q: Query) {
    match q.attr
    case Property => m.property == Some(q.key)
    case Name => m.name == Some(q.key)
  }

  /** A query looks at one attribute only: two tags that agree on it agree on
      the match, whatever their content and other attribute. */
  lemma MatchesReadsOneAttribute(m: MetaTag, m': MetaTag, q: Query)
    requires q.attr.Property? ==> m.property == m'.property
    requires q.attr.Name? ==> m.name == m'.name
    ensures Matches(m, q) <==> Matches(m', q)
  {
  }

  /** Position of the first tag matching `q`, if any. */
  function FindIndex(metas: seq<MetaTag>, q: Query): (r: Option<nat>)
    ensures r.Some? ==> r.value < |metas| && Matches(metas[r.value], q)
    ensures r.Some? ==> forall j :: 0 <= j < r.value ==> !Matches(metas[j], q)
    ensures r.None? ==> forall j :: 0 <= j < |metas| ==> !Matches(metas[j], q)
  {
    if |metas| == 0 then None
    else if Matches(metas[0], q) then Some(0)
    else
      match FindIndex(metas[1..], q)
      case None => None
      case Some(k) => Some(k + 1)
  }

  /** `soup.find`: the first tag in document order that matches `q`. */
  function Find(doc: Document, q: Query): (r: Option<MetaTag>)
    ensures r.Some? <==> exists j :: 0 <= j < |doc.metas| && Matches(doc.metas[j], q)
    ensures r.Some? ==> Matches(r.value, q)
    ensures r.Some? ==>
      exists j :: 0 <= j < |doc.metas| && r.value == doc.metas[j]
        && forall k :: 0 <= k < j ==> !Matches(doc.metas[k], q)
  {
    match FindIndex(doc.metas, q)
    case None => None
    case Some(i) => Some(doc.metas[i])
  }

  /** Any answer that is the first match is the one `FindIndex` gives. */
  lemma FindIndexUnique(metas: seq<MetaTag>, q: Query, r: Option<nat>)
    requires r.Some? ==> r.value < |metas| && Matches(metas[r.value], q)
    requires r.Some? ==> forall j :: 0 <= j < r.value ==> !Matches(metas[j], q)
    requires r.None? ==> forall j :: 0 <= j < |metas| ==> !Matches(metas[j], q)
    ensures FindIndex(metas, q) == r
  {
  }

  /** A scan over the tags in document order, as `soup.find` performs it. */
  method FindScan(metas: seq<MetaTag>, q: Query) returns (r: Option<nat>)
    ensures r == FindIndex(metas, q)
  {
    var i := 0;
    while i < |metas|
      invariant 0 <= i <= |metas|
      invariant forall j :: 0 <= j < i ==> !Matches(metas[j], q)
    {
      if Matches(metas[i], q) {
        FindIndexUnique(metas, q, Some(i));
        return Some(i);
      }
      i := i + 1;
    }
    FindIndexUnique(metas, q, None);
    r := None;
  }

  /** Replacing a tag by another, when neither matches `q`, does not change
      which tag `q` finds. */
  lemma FindUnchangedByEdit(doc: Document, i: nat, m: MetaTag, q: Query)
    requires i < |doc.metas|
    requires !Matches(doc.metas[i], q) && !Matches(m, q)
    ensures Find(doc.(metas := doc.metas[i := m]), q) == Find(doc, q)
  {
    var metas' := doc.metas[i := m];
    var r := FindIndex(doc.metas, q);
    FindIndexUnique(metas', q, r);
  }

  /** Inserting a tag that does not match `q` anywhere does not change which
      tag `q` finds. */
  lemma FindUnchangedByInsert(doc: Document, i: nat, m: MetaTag, q: Query)
    requires i <= |doc.metas|
    requires !Matches(m, q)
    ensures Find(doc.(metas := doc.metas[..i] + [m] + doc.metas[i..]), q) == Find(doc, q)
  {
    var metas' := doc.metas[..i] + [m] + doc.metas[i..];
    assert forall j :: 0 <= j < i ==> metas'[j] == doc.metas[j];
    assert forall j :: i < j < |metas'| ==> metas'[j] == doc.metas[j - 1];
    match FindIndex(doc.metas, q)
    case None =>
      FindIndexUnique(metas', q, None);
    case Some(k) =>
      if k < i {
        FindIndexUnique(metas', q, Some(k));
      } else {
        FindIndexUnique(metas', q, Some(k + 1));
      }
  }
}

/** One raw article normalised to the flat record written as one CSV row:
    the rules `NYTArticleExtractor.process_article` applies, as functions of
    the article, the field catalog and the required-field list. */
module ArticleRecords {
  import opened Wrappers
  import opened JsonData
  import JsonText
  import JsonRoundTrip
  import opened PyStrings
  import opened FieldPaths

  /** A raw article: the members of the decoded JSON object. */
  type Article = Members

  /** A flat record; Python's None is JNull. */
  type Record = map<string, Json>

  /** The exceptions that leave `process_article`. */
  datatype Error =
    | FieldMissingError(field: string, articleId: Json)
    | AttributeError(name: string)

  /** The catalog `self.all_fields`. */
  const AllFields: seq<string> := [
    "_id", "headline", "byline", "abstract", "snippet", "source", "print_page", "multimedia",
    "document_type", "web_url",
    "pub_date", "news_desk", "section_name", "subsection_name", "type_of_material",
    "word_count", "uri",
    "keywords", "print_section"
  ]

  /** Catalog entries with a dedicated rule, never copied from the article. */
  const Excluded: seq<string> := ["headline", "byline", "multimedia", "keywords"]

  /** Keys written by the dedicated rules. */
  const FixedKeys: set<string> :=
    {"headline", "headline_kicker", "headline_print", "byline", "image_url", "keywords"}

  /** The required fields a newly built extractor enforces. */
  const DefaultRequired: seq<string> := ["_id", "headline", "pub_date"]

  /** `article.get('_id', 'unknown')`, reported with a missing field. */
  function ArticleId(article: Article): Json
  {
    Lookup(article, "_id").GetOr(JStr("unknown"))
  }

  /** `kw.get('value', '')` as `','.join` takes it: None when `kw` is not a
      dict (AttributeError) or what `get` returns is not a string
      (TypeError). */
  function KeywordOf(kw: Json): (r: Option<string>)
    ensures r.Some? <==> kw.JObj? && Lookup(kw.members, "value").GetOr(JStr("")).JStr?
    ensures r.Some? ==> JStr(r.value) == Lookup(kw.members, "value").GetOr(JStr(""))
  {
    if !kw.JObj? then None
    else match Lookup(kw.members, "value")
      case None => Some("")
      case Some(JStr(s)) => Some(s)
      case Some(_) => None
  }

  /** The keyword strings of a list, or None when one element is malformed. */
  function KeywordValues(items: seq<Json>): (r: Option<seq<string>>)
    ensures r.Some? <==> forall k :: 0 <= k < |items| ==> KeywordOf(items[k]).Some?
    ensures r.Some? ==>
      |r.value| == |items| && forall k :: 0 <= k < |items| ==> r.value[k] == KeywordOf(items[k]).value
  {
    if items == [] then Some([])
    else
      var rest := KeywordValues(items[1..]);
      assert forall k :: 1 <= k < |items| ==> items[k] == items[1..][k - 1];
      if KeywordOf(items[0]).None? then None
      else if rest.None? then None
      else Some([KeywordOf(items[0]).value] + rest.value)
  }

  /** `article['keywords']` is present and a list. */
  predicate IsKeywordList(article: Article)
  {
    Lookup(article, "keywords").Some? && Lookup(article, "keywords").value.JArr?
  }

  /** The elements of the keywords list. */
  function KeywordItems(article: Article): seq<Json>
    requires IsKeywordList(article)
  {
    Lookup(article, "keywords").value.items
  }

  /** Every element is a dict whose `value`, if any, is a string. */
  predicate WellFormedKeywords(items: seq<Json>)
  {
    forall k :: 0 <= k < |items| ==> KeywordOf(items[k]).Some?
  }

  /** `values` are the keyword strings of `items`, one per element, in order. */
  predicate JoinsKeywords(values: seq<string>, items: seq<Json>)
  {
    |values| == |items| && forall k :: 0 <= k < |items| ==> KeywordOf(items[k]) == Some(values[k])
  }

  /** The `keywords` output: the keywords joined with `,` when the field is
      a non-empty list of well-formed elements, and "" otherwise. */
  function KeywordsText(article: Article): (r: string)
    ensures !IsKeywordList(article) ==> r == ""
    ensures IsKeywordList(article) && !WellFormedKeywords(KeywordItems(article)) ==> r == ""
    ensures IsKeywordList(article) && WellFormedKeywords(KeywordItems(article)) ==>
      exists values: seq<string> :: JoinsKeywords(values, KeywordItems(article)) && r == Join(values, ",")
  {
    var kws := Lookup(article, "keywords");
    if kws.Some? && Truthy(kws.value) then
      if kws.value.JArr? then
        match KeywordValues(kws.value.items)
        case Some(values) =>
          assert JoinsKeywords(values, kws.value.items);
          Join(values, ",")
        case None => ""
      else ""
    else
      assert kws.Some? && kws.value.JArr? ==> JoinsKeywords([], kws.value.items);
      ""
  }

  /** One remaining catalog field: null when absent, the JSON text of a
      dict or list (which decodes back to it), the value itself otherwise. */
  function CatalogValue(article: Article, field: string): (r: Json)
    ensures Lookup(article, field).None? ==> r == JNull
    ensures Lookup(article, field).Some? && IsContainer(Lookup(article, field).value) ==>
      r.JStr? && JsonRoundTrip.Decode(r.s) == Some(Lookup(article, field).value)
    ensures Lookup(article, field).Some? && !IsContainer(Lookup(article, field).value) ==>
      r == Lookup(article, field).value
  {
    match Lookup(article, field)
    case None => JNull
    case Some(v) =>
      if IsContainer(v) then JStr(JsonText.Serialize(v))
      else v
  }

  /** The dotted paths of the dedicated rules ("headline.main", ...),
      spelt with `Dot`. */
  const HeadlineMain: string := "headline" + [Dot] + "main"
  const HeadlineKicker: string := "headline" + [Dot] + "kicker"
  const HeadlinePrint: string := "headline" + [Dot] + "print_headline"
  const BylineOriginal: string := "byline" + [Dot] + "original"
  const ImageUrl: string := "multimedia" + [Dot] + "default" + [Dot] + "url"

  /** The record holding the six dedicated values under their output keys. */
  function FixedMap(headline: Json, kicker: Json, printed: Json, byline: Json, image: Json, keywords: Json): (r: Record)
    ensures r.Keys == FixedKeys
    ensures r["headline"] == headline && r["headline_kicker"] == kicker && r["headline_print"] == printed
    ensures r["byline"] == byline && r["image_url"] == image && r["keywords"] == keywords
  {
    map[
      "headline" := headline,
      "headline_kicker" := kicker,
      "headline_print" := printed,
      "byline" := byline,
      "image_url" := image,
      "keywords" := keywords
    ]
  }

  /** The values of the dedicated rules. */
  function FixedFields(article: Article): (r: Record)
    ensures r.Keys == FixedKeys
  {
    var raw := JObj(article);
    FixedMap(ExtractValue(raw, HeadlineMain), ExtractValue(raw, HeadlineKicker), ExtractValue(raw, HeadlinePrint),
      ExtractValue(raw, BylineOriginal), ExtractValue(raw, ImageUrl), JStr(KeywordsText(article)))
  }

  /** The pass over the catalog: every entry outside `Excluded` is set to
      its catalog value, every other key keeps its value. */
  function CopyCatalog(p: Record, article: Article, fields: seq<string>): (r: Record)
    ensures forall f :: f in r <==> f in p || (f in fields && f !in Excluded)
    ensures forall f :: f in fields && f !in Excluded ==> r[f] == CatalogValue(article, f)
    ensures forall f :: f in p && (f !in fields || f in Excluded) ==> r[f] == p[f]
    decreases |fields|
  {
    if fields == [] then p
    else
      var next := if fields[0] in Excluded then p else p[fields[0] := CatalogValue(article, fields[0])];
      var r := CopyCatalog(next, article, fields[1..]);
      assert forall f :: f in fields <==> f == fields[0] || f in fields[1..];
      r
  }

  /** One step of the catalog pass. */
  lemma CopyFirst(p: Record, article: Article, fields: seq<string>)
    requires fields != []
    ensures CopyCatalog(p, article, fields) ==
      CopyCatalog(if fields[0] in Excluded then p else p[fields[0] := CatalogValue(article, fields[0])], article, fields[1..])
  {
  }

  /** The processed record before the required-field check. */
  function Flatten(article: Article, catalog: seq<string>): (r: Record)
    ensures forall f :: f in r <==> f in FixedKeys || (f in catalog && f !in Excluded)
  {
    CopyCatalog(FixedFields(article), article, catalog)
  }

  /** `field in processed and processed[field] is None`. */
  predicate IsMissing(p: Record, field: string)
  {
    field in p && p[field] == JNull
  }

  /** `required[k]` is missing and no earlier required field is. */
  predicate FirstMissingAt(p: Record, required: seq<string>, k: int)
  {
    0 <= k < |required| && IsMissing(p, required[k]) &&
    forall m :: 0 <= m < k ==> !IsMissing(p, required[m])
  }

  /** The first required field, in list order, that is missing. */
  function FirstMissing(p: Record, required: seq<string>): (r: Option<string>)
    ensures r.None? <==> forall k :: 0 <= k < |required| ==> !IsMissing(p, required[k])
    ensures r.Some? ==> exists k :: FirstMissingAt(p, required, k) && required[k] == r.value
  {
    if required == [] then None
    else if IsMissing(p, required[0]) then Some(required[0])
    else
      var r := FirstMissing(p, required[1..]);
      assert forall k :: 1 <= k < |required| ==> required[k] == required[1..][k - 1];
      if r.Some? then
        var k :| FirstMissingAt(p, required[1..], k) && required[1..][k] == r.value;
        assert FirstMissingAt(p, required, k + 1);
        r
      else r
  }

  /** The reported field is the first missing one: only one index can be
      the first. */
  lemma FirstMissingIs(p: Record, required: seq<string>, k: int)
    requires FirstMissingAt(p, required, k)
    ensures FirstMissing(p, required) == Some(required[k])
  {
    var r := FirstMissing(p, required);
    var j :| FirstMissingAt(p, required, j) && required[j] == r.value;
    assert !(j < k) && !(k < j);
  }

  /** `process_article` with the required-field list it is meant to read:
      the flat record, or FieldMissingError for the first required field
      that is an output key mapped to null. */
  function Normalize(required: seq<string>, catalog: seq<string>, article: Article): (r: Result<Record, Error>)
    ensures r.Success? <==> forall k :: 0 <= k < |required| ==> !IsMissing(Flatten(article, catalog), required[k])
    ensures r.Success? ==> r.value == Flatten(article, catalog)
    ensures r.Failure? ==>
      r.error.FieldMissingError? && r.error.articleId == ArticleId(article) &&
      exists k :: FirstMissingAt(Flatten(article, catalog), required, k) && required[k] == r.error.field
  {
    var p := Flatten(article, catalog);
    match FirstMissing(p, required)
    case Some(field) => Failure(FieldMissingError(field, ArticleId(article)))
    case None => Success(p)
  }

  /** The keys of every flat record built from the catalog. */
  const OutputKeys: set<string> := {
    "headline", "headline_kicker", "headline_print", "byline", "image_url", "keywords",
    "_id", "abstract", "snippet", "source", "print_page", "document_type", "web_url",
    "pub_date", "news_desk", "section_name", "subsection_name", "type_of_material",
    "word_count", "uri", "print_section"
  }

  /** Every record has the same 21 keys, whatever the article holds. */
  lemma SchemaKeys(article: Article)
    ensures Flatten(article, AllFields).Keys == OutputKeys
  {
    FlattenKeys(article, AllFields);
    CopiedKeys();
  }

  /** The keys of every record built from `catalog`. */
  function Schema(catalog: seq<string>): set<string>
  {
    FixedKeys + set f | f in catalog && f !in Excluded
  }

  lemma FlattenKeys(article: Article, catalog: seq<string>)
    ensures Flatten(article, catalog).Keys == Schema(catalog)
  {
  }

  /** The schema of the catalog `self.all_fields` is the 21 output keys. */
  lemma CopiedKeys()
    ensures Schema(AllFields) == OutputKeys
  {
    CopiedInOutput();
    OutputCopied();
  }

  lemma CopiedInOutput()
    ensures forall f :: f in AllFields && f !in Excluded ==> f in OutputKeys
  {
  }

  lemma OutputCopied()
    ensures forall f :: f in OutputKeys && f !in FixedKeys ==> f in AllFields && f !in Excluded
  {
  }

  /** Schema uniformity: two articles give records with the same keys. */
  lemma SchemaUniform(a1: Article, a2: Article, catalog: seq<string>)
    ensures Flatten(a1, catalog).Keys == Flatten(a2, catalog).Keys
  {
  }

  /** The dedicated rules, as they appear in every record: the catalog pass
      does not overwrite them. */
  lemma FixedRules(article: Article)
    ensures var p := Flatten(article, AllFields); var raw := JObj(article);
      p["headline"] == Walk(raw, ["headline", "main"]).GetOr(JNull) &&
      p["headline_kicker"] == Walk(raw, ["headline", "kicker"]).GetOr(JNull) &&
      p["headline_print"] == Walk(raw, ["headline", "print_headline"]).GetOr(JNull) &&
      p["byline"] == Walk(raw, ["byline", "original"]).GetOr(JNull) &&
      p["image_url"] == Walk(raw, ["multimedia", "default", "url"]).GetOr(JNull) &&
      p["keywords"] == JStr(KeywordsText(article))
  {
    FixedEntries(article);
    FixedPaths(JObj(article));
    DedicatedNotCopied();
    CatalogKeeps(article, "headline");
    CatalogKeeps(article, "headline_kicker");
    CatalogKeeps(article, "headline_print");
    CatalogKeeps(article, "byline");
    CatalogKeeps(article, "image_url");
    CatalogKeeps(article, "keywords");
  }

  lemma DedicatedNotCopied()
    ensures "headline" in Excluded && "byline" in Excluded && "keywords" in Excluded
    ensures "headline_kicker" !in AllFields && "headline_print" !in AllFields && "image_url" !in AllFields
  {
    NotInCatalog("headline_kicker");
    NotInCatalog("headline_print");
    NotInCatalog("image_url");
  }

  lemma NotInCatalog(f: string)
    requires f == "headline_kicker" || f == "headline_print" || f == "image_url"
    ensures f !in AllFields
  {
  }

  lemma CatalogKeeps(article: Article, f: string)
    requires f in FixedKeys && (f !in AllFields || f in Excluded)
    ensures Flatten(article, AllFields)[f] == FixedFields(article)[f]
  {
  }

  lemma FixedEntries(article: Article)
    ensures var p := FixedFields(article); var raw := JObj(article);
      p["headline"] == ExtractValue(raw, HeadlineMain) &&
      p["headline_kicker"] == ExtractValue(raw, HeadlineKicker) &&
      p["headline_print"] == ExtractValue(raw, HeadlinePrint) &&
      p["byline"] == ExtractValue(raw, BylineOriginal) &&
      p["image_url"] == ExtractValue(raw, ImageUrl) &&
      p["keywords"] == JStr(KeywordsText(article))
  {
  }

  lemma FixedPaths(raw: Json)
    ensures ExtractValue(raw, HeadlineMain) == Walk(raw, ["headline", "main"]).GetOr(JNull)
    ensures ExtractValue(raw, HeadlineKicker) == Walk(raw, ["headline", "kicker"]).GetOr(JNull)
    ensures ExtractValue(raw, HeadlinePrint) == Walk(raw, ["headline", "print_headline"]).GetOr(JNull)
    ensures ExtractValue(raw, BylineOriginal) == Walk(raw, ["byline", "original"]).GetOr(JNull)
    ensures ExtractValue(raw, ImageUrl) == Walk(raw, ["multimedia", "default", "url"]).GetOr(JNull)
  {
    TwoKeyPath("headline", "main");
    TwoKeyPath("headline", "kicker");
    TwoKeyPath("headline", "print_headline");
    TwoKeyPath("byline", "original");
    ThreeKeyPath("multimedia", "default", "url");
  }

  /** Each remaining catalog field holds its catalog value. */
  lemma CatalogFields(article: Article, field: string)
    requires field in AllFields && field !in Excluded
    ensures Flatten(article, AllFields)[field] == CatalogValue(article, field)
  {
  }

  /** With the default required fields, an article is rejected exactly when
      it has no `_id`, no `headline.main` or no `pub_date`, or one of them
      is null. */
  lemma DefaultRequiredRule(article: Article)
    ensures Normalize(DefaultRequired, AllFields, article).Failure? <==>
      CatalogValue(article, "_id") == JNull ||
      Walk(JObj(article), ["headline", "main"]).GetOr(JNull) == JNull ||
      CatalogValue(article, "pub_date") == JNull
  {
    var p := Flatten(article, AllFields);
    var id, headline, pubDate := CatalogValue(article, "_id"), Walk(JObj(article), ["headline", "main"]).GetOr(JNull),
      CatalogValue(article, "pub_date");
    assert "_id" in p && "headline" in p && "pub_date" in p by {
      DefaultInCatalog();
      SchemaKeys(article);
    }
    assert p["_id"] == id && p["headline"] == headline && p["pub_date"] == pubDate by {
      HeadlineRule(article);
      DefaultInCatalog();
      CatalogFields(article, "_id");
      CatalogFields(article, "pub_date");
    }
    assert FirstMissing(p, DefaultRequired).Some? <==> id == JNull || headline == JNull || pubDate == JNull by {
      DefaultCheck(p, id, headline, pubDate);
    }
    NormalizeFails(DefaultRequired, AllFields, article);
  }

  lemma NormalizeFails(required: seq<string>, catalog: seq<string>, article: Article)
    ensures Normalize(required, catalog, article).Failure? <==> FirstMissing(Flatten(article, catalog), required).Some?
  {
  }

  lemma DefaultCheck(p: Record, id: Json, headline: Json, pubDate: Json)
    requires "_id" in p && "headline" in p && "pub_date" in p
    requires p["_id"] == id && p["headline"] == headline && p["pub_date"] == pubDate
    ensures FirstMissing(p, DefaultRequired).Some? <==> id == JNull || headline == JNull || pubDate == JNull
  {
    ThreeRequired(p, "_id", "headline", "pub_date");
  }

  lemma HeadlineRule(article: Article)
    ensures Flatten(article, AllFields)["headline"] == Walk(JObj(article), ["headline", "main"]).GetOr(JNull)
  {
    FixedRules(article);
  }

  lemma DefaultInCatalog()
    ensures "_id" in AllFields && "_id" !in Excluded
    ensures "pub_date" in AllFields && "pub_date" !in Excluded
    ensures "_id" in OutputKeys && "headline" in OutputKeys && "pub_date" in OutputKeys
  {
  }

  /** Three required names: one of them is reported exactly when one of
      them is missing. */
  lemma ThreeRequired(p: Record, f1: string, f2: string, f3: string)
    ensures FirstMissing(p, [f1, f2, f3]).Some? <==> IsMissing(p, f1) || IsMissing(p, f2) || IsMissing(p, f3)
  {
    var req := [f1, f2, f3];
    assert req[0] == f1 && req[1] == f2 && req[2] == f3;
  }

  /** A required name that is not a key of the record is never reported:
      a list made only of such names accepts every article. */
  lemma OutsideSchemaNeverFlagged(required: seq<string>, catalog: seq<string>, article: Article)
    requires forall k :: 0 <= k < |required| ==> required[k] !in Flatten(article, catalog)
    ensures Normalize(required, catalog, article) == Success(Flatten(article, catalog))
  {
  }
}

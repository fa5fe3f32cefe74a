/** The extractor object of NYT_API.py: its construction, the dotted-path
    lookup, the normalisation of one article and the batch loop, written as
    the step-by-step code they are and proved against the functions of
    `FieldPaths`, `ArticleRecords` and `ArticleBatches`. */
module NYTApi {
  import opened Wrappers
  import opened JsonData
  import JsonText
  import opened PyStrings
  import opened FieldPaths
  import opened ArticleRecords
  import opened ArticleBatches

  /** The Article Search endpoint used when no base URL is given. */
  const DefaultBaseUrl: string := "https://api.nytimes.com/svc/search/v2/articlesearch.json"

  /** `base_url or DefaultBaseUrl`: None and "" are falsy. */
  function BaseUrlOf(baseUrl: Option<string>): (r: string)
    ensures baseUrl.Some? && baseUrl.value != [] ==> r == baseUrl.value
    ensures baseUrl.None? || baseUrl.value == [] ==> r == DefaultBaseUrl
  {
    if baseUrl.Some? && baseUrl.value != [] then baseUrl.value else DefaultBaseUrl
  }

  /** The required-field list as intended, `fields or [...]`: the caller's
      list when it is given and non-empty, the default one otherwise. */
  function RequiredFieldsOf(fields: Option<seq<string>>): (r: seq<string>)
    ensures fields.Some? && fields.value != [] ==> r == fields.value
    ensures fields.None? || fields.value == [] ==> r == DefaultRequired
  {
    if fields.Some? && fields.value != [] then fields.value else DefaultRequired
  }

  /** The required-field list as written, `[...] or fields`: a non-empty
      literal is truthy, so `fields` is never consulted and the list is
      always the three defaults. */
  function FieldsAsWritten(fields: Option<seq<string>>): (r: seq<string>)
    ensures r == DefaultRequired
  {
    if DefaultRequired != [] then DefaultRequired else fields.GetOr([])
  }

  /** As written, a caller's list is dropped whenever it differs from the
      default. */
  lemma FieldsIgnored(fields: Option<seq<string>>)
    ensures fields.Some? && fields.value != [] && fields.value != DefaultRequired ==>
      FieldsAsWritten(fields) != RequiredFieldsOf(fields)
  {
  }

  /** The list of required fields main.py asks for. */
  const MainFields: seq<string> :=
    ["_id", "headline", "pub_date", "abstract", "keywords", "section_name", "source", "web_url"]

  /** The counterexample: a constructor call given these eight names (and
      a base URL, which has no default) keeps three of them as written, and
      all eight as intended. */
  lemma MainFieldsDropped()
    ensures |FieldsAsWritten(Some(MainFields))| == 3
    ensures RequiredFieldsOf(Some(MainFields)) == MainFields && |MainFields| == 8
  {
  }

  /** The outcome `process` gives each article of a batch, in order. */
  function Outcomes(process: Article -> Result<Record, Error>, articles: seq<Article>): (r: seq<Result<Record, Error>>)
    ensures |r| == |articles| && forall k :: 0 <= k < |articles| ==> r[k] == process(articles[k])
  {
    seq(|articles|, k requires 0 <= k < |articles| => process(articles[k]))
  }

  /** The instance attributes that `__init__` assigns. */
  const InitAttributes: set<string> := {"api_key", "base_url", "fields", "all_fields"}

  /** The value `__init__` stored under an attribute name, as far as the
      required-field check is concerned: the only list-valued attribute it
      assigns is `fields`, and only under that name. */
  function AttributeValue(name: string): Option<seq<string>>
  {
    if name in InitAttributes && name == "fields" then Some(FieldsAsWritten(None)) else None
  }

  /** `self.required_fields` as written: `__init__` never assigns it, so
      reading it finds nothing. */
  function RequiredFieldsAttribute(): (r: Option<seq<string>>)
    ensures r.None?
  {
    AttributeValue("required_fields")
  }

  /** `process_article` as written.  Building the record cannot raise (the
      keyword errors are caught), so the first thing that can go wrong is
      the read of `self.required_fields`: every article raises
      AttributeError. */
  function ProcessArticleAsWritten(article: Article): (r: Result<Record, Error>)
    ensures r == Failure(AttributeError("required_fields"))
  {
    match RequiredFieldsAttribute()
    case Some(required) => Normalize(required, AllFields, article)
    case None => Failure(AttributeError("required_fields"))
  }

  /** As written, the lenient batch keeps no article at all and counts every
      one of them as an error, each logged with the AttributeError. */
  lemma AsWrittenLenient(articles: seq<Article>)
    ensures Fold(Outcomes(ProcessArticleAsWritten, articles), false) ==
      Success(Batch([], |articles|, seq(|articles|, (k: nat) => Skip(k + 1, AttributeError("required_fields")))))
  {
    var outs := Outcomes(ProcessArticleAsWritten, articles);
    Lenient(outs);
    AllFail(outs, 0);
    var expected := seq(|articles|, (k: nat) => Skip(k + 1, AttributeError("required_fields")));
    var log := Skips(outs, 0);
    assert |log| == |expected|;
    forall k | 0 <= k < |articles|
      ensures log[k] == expected[k]
    {
      assert outs[k] == ProcessArticleAsWritten(articles[k]);
    }
    assert log == expected;
  }

  /** As written, the strict batch aborts on the first article with the
      AttributeError, whatever the article holds. */
  lemma AsWrittenStrict(articles: seq<Article>)
    requires articles != []
    ensures Fold(Outcomes(ProcessArticleAsWritten, articles), true) == Failure(AttributeError("required_fields"))
  {
    StrictAbortsAtFirstFailure(Outcomes(ProcessArticleAsWritten, articles), 0);
  }

  /** Pages of ten results needed for `results` results, at most 100. */
  function PagesNeeded(results: int): (r: int)
    ensures r <= 100
    ensures results > 1000 ==> r == 100
    ensures results <= 1000 ==> 10 * (r - 1) < results <= 10 * r
  {
    var pages := (results + 9) / 10;
    if pages < 100 then pages else 100
  }

  /** With the catalog the constructor sets, every record a batch returns
      has the same 21 keys, and a lenient batch always completes. */
  lemma BatchSchema(x: NYTArticleExtractor, articles: seq<Article>, strict: bool)
    requires x.Valid() && x.allFields == AllFields
    ensures !strict ==> Fold(Outcomes(x.outcome, articles), strict).Success?
    ensures Fold(Outcomes(x.outcome, articles), strict).Success? ==>
      forall rec :: rec in Fold(Outcomes(x.outcome, articles), strict).value.records ==> rec.Keys == OutputKeys
  {
    x.RecordsHaveSchema(articles, strict);
    CopiedKeys();
  }

  class NYTArticleExtractor {
    const apiKey: string
    const baseUrl: string
    /** The required fields every processed article is checked against. */
    const requiredFields: seq<string>
    /** The field catalog. */
    const allFields: seq<string>
    /** What `ProcessArticle` computes, as a function of the article; it
        lets the batch be specified without restating the record rules. */
    ghost const outcome: Article -> Result<Record, Error>

    /** `outcome` is the normalisation under this extractor's required
        fields and catalog. */
    ghost predicate Valid()
    {
      forall a {:trigger Normalize(requiredFields, allFields, a)} :: outcome(a) == Normalize(requiredFields, allFields, a)
    }

    constructor (apiKey: string, baseUrl: Option<string>, fields: Option<seq<string>>)
      ensures this.apiKey == apiKey
      ensures this.baseUrl == BaseUrlOf(baseUrl)
      ensures requiredFields == RequiredFieldsOf(fields)
      ensures allFields == AllFields
      ensures Valid()
    {
      this.apiKey := apiKey;
      this.baseUrl := BaseUrlOf(baseUrl);
      var required := RequiredFieldsOf(fields);
      this.requiredFields := required;
      this.allFields := AllFields;
      this.outcome := a => Normalize(required, AllFields, a);
    }

    /** For a valid extractor the outcome of an article is its normalisation. */
    lemma OutcomeIsNormalize(article: Article)
      requires Valid()
      ensures outcome(article) == Normalize(requiredFields, allFields, article)
    {
      assert outcome(article) == Normalize(requiredFields, allFields, article);
    }

    /** The outcome of an article, read off its flat record. */
    lemma OutcomeOfFlat(article: Article, p: Record)
      requires Valid()
      requires p == CopyCatalog(FixedFields(article), article, allFields)
      ensures FirstMissing(p, requiredFields).Some? ==>
        outcome(article) == Failure(FieldMissingError(FirstMissing(p, requiredFields).value, ArticleId(article)))
      ensures FirstMissing(p, requiredFields).None? ==> outcome(article) == Success(p)
    {
      OutcomeIsNormalize(article);
    }

    /** Every record of a completed batch, under either policy, has the
        keys of this extractor's catalog (for the catalog the constructor
        sets, the 21 keys of `OutputKeys`, by `CopiedKeys`); under the
        lenient policy the batch always completes. */
    lemma RecordsHaveSchema(articles: seq<Article>, strict: bool)
      requires Valid()
      ensures !strict ==> Fold(Outcomes(outcome, articles), strict).Success?
      ensures Fold(Outcomes(outcome, articles), strict).Success? ==>
        forall rec :: rec in Fold(Outcomes(outcome, articles), strict).value.records ==> rec.Keys == Schema(allFields)
    {
      var outs := Outcomes(outcome, articles);
      if Fold(outs, strict).Success? {
        FoldRecords(outs, strict);
        forall rec: Record | rec in Fold(outs, strict).value.records
          ensures rec.Keys == Schema(allFields)
        {
          var k :| 0 <= k < |outs| && outs[k] == Success(rec);
          OutcomeIsNormalize(articles[k]);
          FlattenKeys(articles[k], allFields);
        }
      }
    }

    /** Follows `fieldPath` one segment at a time; null as soon as a segment
        cannot be followed. */
    method ExtractNestedField(article: Json, fieldPath: string) returns (value: Json)
      ensures value == ExtractValue(article, fieldPath)
    {
      var paths := Split(fieldPath, Dot);
      value := article;
      var i := 0;
      while i < |paths|
        invariant 0 <= i <= |paths|
        invariant Walk(article, paths[..i]) == Some(value)
      {
        if HasKey(value, paths[i]) {
          WalkAppend(article, paths[..i], [paths[i]]);
          assert paths[..i + 1] == paths[..i] + [paths[i]];
          value := Lookup(value.members, paths[i]).value;
          i := i + 1;
        } else {
          WalkAppend(article, paths[..i], paths[i..]);
          assert paths[..i] + paths[i..] == paths;
          return JNull;
        }
      }
      assert paths[..i] == paths;
    }

    /** Builds the flat record of one article and checks the required
        fields. */
    method ProcessArticle(article: Article) returns (r: Result<Record, Error>)
      requires Valid()
      ensures r == outcome(article)
    {
      var fixed := FixedPart(article);
      var processed := CopyCatalogFields(fixed, article);
      r := CheckRequired(processed, article);
      OutcomeOfFlat(article, processed);
    }

    /** The six dedicated fields, each read through its own path. */
    method FixedPart(article: Article) returns (processed: Record)
      ensures processed == FixedFields(article)
    {
      var raw := JObj(article);
      processed := map[];
      var v := ExtractNestedField(raw, HeadlineMain);
      processed := processed["headline" := v];
      v := ExtractNestedField(raw, HeadlineKicker);
      processed := processed["headline_kicker" := v];
      v := ExtractNestedField(raw, HeadlinePrint);
      processed := processed["headline_print" := v];
      v := ExtractNestedField(raw, BylineOriginal);
      processed := processed["byline" := v];
      v := ExtractNestedField(raw, ImageUrl);
      processed := processed["image_url" := v];
      processed := processed["keywords" := JStr(KeywordsText(article))];
    }

    /** The catalog loop: every catalog field that has no dedicated slot is
        copied, serialised when it is a container, null when absent. */
    method CopyCatalogFields(start: Record, article: Article) returns (processed: Record)
      ensures processed == CopyCatalog(start, article, allFields)
    {
      processed := start;
      var i := 0;
      while i < |allFields|
        invariant 0 <= i <= |allFields|
        invariant CopyCatalog(processed, article, allFields[i..]) == CopyCatalog(start, article, allFields)
      {
        var field := allFields[i];
        ghost var before := processed;
        if field !in Excluded {
          var found := Lookup(article, field);
          if found.Some? {
            if IsContainer(found.value) {
              processed := processed[field := JStr(JsonText.Serialize(found.value))];
            } else {
              processed := processed[field := found.value];
            }
          } else {
            processed := processed[field := JNull];
          }
        }
        assert allFields[i..][0] == field && allFields[i..][1..] == allFields[i + 1..];
        CopyFirst(before, article, allFields[i..]);
        i := i + 1;
      }
      assert allFields[i..] == [];
    }

    /** The check of the required fields, in list order, on the finished
        record. */
    method CheckRequired(processed: Record, article: Article) returns (r: Result<Record, Error>)
      ensures FirstMissing(processed, requiredFields).Some? ==>
        r == Failure(FieldMissingError(FirstMissing(processed, requiredFields).value, ArticleId(article)))
      ensures FirstMissing(processed, requiredFields).None? ==> r == Success(processed)
    {
      var i := 0;
      while i < |requiredFields|
        invariant 0 <= i <= |requiredFields|
        invariant forall m :: 0 <= m < i ==> !IsMissing(processed, requiredFields[m])
      {
        var field := requiredFields[i];
        if field in processed && processed[field] == JNull {
          FirstMissingIs(processed, requiredFields, i);
          return Failure(FieldMissingError(field, ArticleId(article)));
        }
        i := i + 1;
      }
      return Success(processed);
    }

    /** Processes the articles in order; strict mode stops at the first
        failure with its error, lenient mode skips and logs the failures. */
    method ProcessMultipleArticles(articles: seq<Article>, strictMode: bool)
      returns (r: Result<Batch<Record, Error>, Error>)
      requires Valid()
      ensures r == Fold(Outcomes(outcome, articles), strictMode)
      ensures !strictMode ==> r.Success?
      ensures r.Success? ==> forall rec :: rec in r.value.records ==> rec.Keys == Schema(allFields)
    {
      var processedArticles: seq<Record> := [];
      var errors: nat := 0;
      var log: seq<Skip<Error>> := [];
      ghost var outs := Outcomes(outcome, articles);
      FoldStart(outs, strictMode);
      var i := 0;
      while i < |articles|
        invariant 0 <= i <= |articles| == |outs|
        invariant FoldFrom(Batch(processedArticles, errors, log), outs[i..], i, strictMode) == Fold(outs, strictMode)
      {
        var processed := ProcessArticle(articles[i]);
        ghost var acc := Batch(processedArticles, errors, log);
        FoldStep(acc, outs, i, strictMode);
        match processed {
          case Success(record) =>
            processedArticles := processedArticles + [record];
          case Failure(e) =>
            errors := errors + 1;
            if strictMode {
              return Failure(e);
            }
            log := log + [Skip(i + 1, e)];
        }
        assert Batch(processedArticles, errors, log) == Step(acc, processed, i);
        i := i + 1;
      }
      FoldEnd(Batch(processedArticles, errors, log), outs, strictMode);
      RecordsHaveSchema(articles, strictMode);
      return Success(Batch(processedArticles, errors, log));
    }
  }
}

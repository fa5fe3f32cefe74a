# NYT article normalisation, modelled in Dafny

This project models the record-normalisation core of `NYTArticleExtractor`
(`NYT_API.py`). The extractor takes raw articles as the New York Times
Article Search API returns them (nested JSON objects) and turns each one into
a flat record with a fixed set of columns, ready to be written as one CSV
row. Three operations make up that core:

- `extract_nested_field` follows a dotted path (`headline.main`,
  `multimedia.default.url`) through nested dicts. It gives `None` as soon as
  a step meets a value that is not a dict, or a dict without the next key.
- `process_article` builds the flat record of one article:
  - five dotted-path columns (`headline`, `headline_kicker`, `headline_print`,
    `byline`, `image_url`);
  - a `keywords` column that joins the keyword values with `,`;
  - the remaining catalog fields: copied, JSON-encoded when they are dicts or
    lists, and `None` when absent.

  It then raises `FieldMissingError` when a required field is an output
  column holding `None`.
- `process_multiple_articles` runs `process_article` over a list in order.
  The strict policy re-raises the first failure. The lenient policy skips and
  counts failed articles.

The modules are:

- `Wrappers` (`wrappers.dfy`): `Option` and `Result`. A `Failure` stands for
  a raised exception.
- `JsonData` (`json_data.dfy`): the decoded JSON value `Json` and dict lookup.
- `JsonText` (`json_text.dfy`): the text that `json.dumps` writes with its
  default settings, and a parser for integer-only JSON text.
- `JsonRoundTrip` (`json_roundtrip.dfy`): `json.loads`, proved to read back
  what `json.dumps` writes.
- `PyStrings` (`py_strings.dfy`): `str.split` and `str.join`.
- `FieldPaths` (`field_paths.dfy`): dotted-path traversal.
- `ArticleRecords` (`article_records.dfy`): the rules of `process_article` as
  functions of the article, the catalog and the required-field list.
- `ArticleBatches` (`article_batches.dfy`): the batch loop as a fold over
  per-article outcomes, under either policy.
- `NYTApi` (`nyt_api.dfy`): the class `NYTArticleExtractor`. Its methods are
  written as the loops of the source and proved against the functions above.
  This module also holds the page-count formula and the as-written defects.

Python's `None` and JSON `null` are both `JNull`. The source cannot tell them
apart either: `json.loads` turns `null` into `None`. A raw article is the
member list of a JSON object. A flat record is a `map<string, Json>`, in
which `json.dumps` output appears as `JStr` of the serialised text.

The source never assigns `self.required_fields`, yet `process_article` reads
it. The model gives the extractor a required-field list that the constructor
sets from its `fields` argument, defaulting to `["_id", "headline",
"pub_date"]`. The rest of the model uses that corrected behaviour. The code as
written is modelled beside it (see "## Findings").

`process_multiple_articles` returns only the list of records. The model's
`Batch` also carries the `errors` counter and the sequence of logged skips
(1-based position and error). Those exist in the source only as logging, and
are exposed here so that properties can be stated about them.

## Model

| member | source | states |
|---|---|---|
| `JsonData.Lookup` | NYT_API.py:123-124 | `key in d` fails exactly when no member has the key; otherwise `d[key]` is the value of the member holding that key |
| `PyStrings.Split` | NYT_API.py:118 | `field_path.split('.')` gives at least one piece and no piece contains the separator |
| `PyStrings.JoinSplit` | NYT_API.py:118 | joining the pieces of a split with the separator gives back the path |
| `PyStrings.SplitJoin` | NYT_API.py:118 | splitting a join of dot-free segments gives back the segments |
| `PyStrings.SplitConcat` | NYT_API.py:118 | the segments of `p.q` are those of `p` followed by those of `q` |
| `FieldPaths.ExtractValue` | NYT_API.py:118-128 | a path into a value that is not a dict gives `None`; a path without a dot is a single lookup, giving the key's value or `None` when the key is absent |
| `FieldPaths.WalkAppend` | NYT_API.py:121-126 | following segments `a + b` is following `a` and then `b` from where `a` ended, with a failure propagating |
| `FieldPaths.WalkFailsIff` | NYT_API.py:121-128 | the traversal yields nothing exactly when, at some step, the value reached is not a dict holding the next key |
| `FieldPaths.ExtractComposes` | NYT_API.py:118-128 | extracting `p.q` equals extracting `q` from the result of extracting `p`, with `None` propagating |
| `FieldPaths.KeyPath` | NYT_API.py:118 | a path without a dot is a single key |
| `FieldPaths.TwoKeyPath` | NYT_API.py:146-150 | a path `a.b` is the key `a` followed by the key `b` |
| `FieldPaths.ThreeKeyPath` | NYT_API.py:152 | a path `a.b.c` is the keys `a`, `b`, `c` in order |
| `NYTApi.NYTArticleExtractor.ExtractNestedField` | NYT_API.py:107-128 | the segment loop returns the value reached by the whole path, or `None` as soon as a segment cannot be followed; it never fails |
| `ArticleRecords.KeywordOf` | NYT_API.py:156-157 | one keyword contributes a string exactly when it is a dict and `kw.get('value', '')` is a string, and then it contributes that string |
| `ArticleRecords.KeywordValues` | NYT_API.py:156 | the comprehension and `','.join` together succeed exactly when every element is a dict whose `value`, if present, is a string (a non-dict raises AttributeError from `.get`, a non-string raises TypeError from `join`); the result then holds one string per element in order, `''` for a missing `value` |
| `ArticleRecords.KeywordsText` | NYT_API.py:154-160 | `keywords` is `''` when the field is absent, not a list, or has a malformed element; otherwise it is the element values joined with `,` in list order |
| `ArticleRecords.CatalogValue` | NYT_API.py:164-170 | an absent field gives `None`; a dict or list gives a string that decodes back to it; a scalar is copied unchanged |
| `ArticleRecords.CopyCatalog` | NYT_API.py:162-170 | the catalog pass sets exactly the catalog fields outside `headline`, `byline`, `multimedia`, `keywords` to their catalog value and leaves every other key as it was |
| `ArticleRecords.FixedFields` | NYT_API.py:144-160 | the dedicated rules write exactly the six keys `headline`, `headline_kicker`, `headline_print`, `byline`, `image_url`, `keywords` |
| `ArticleRecords.Flatten` | NYT_API.py:144-170 | the processed record's keys are the six dedicated keys plus the copied catalog fields |
| `ArticleRecords.FirstMissing` | NYT_API.py:172-174 | no field is reported exactly when no required name is an output key holding `None`; otherwise the reported field is the first such name in list order |
| `ArticleRecords.FirstMissingIs` | NYT_API.py:172-174 | the check reports the required name at the first failing position, whatever comes after it |
| `ArticleRecords.Normalize` | NYT_API.py:130-176 | an article is accepted exactly when no required name is an output key mapped to `None`; an accepted article gives its flat record; a rejected one gives `FieldMissingError` with the first such name and the article's `_id` (or `'unknown'`) |
| `ArticleRecords.FlattenKeys` | NYT_API.py:144-170 | a record built from a catalog has exactly that catalog's schema keys, whatever the article holds |
| `ArticleRecords.CopiedKeys` | NYT_API.py:36-42 | the schema of the 19-entry catalog is the 21 output keys |
| `ArticleRecords.SchemaKeys` | NYT_API.py:144-170 | every record built from the catalog has the same 21 keys, whatever the article holds |
| `ArticleRecords.SchemaUniform` | NYT_API.py:144-170 | two articles give records with the same key set |
| `ArticleRecords.FixedRules` | NYT_API.py:146-160 | in the finished record the five path columns hold the values at `headline.main`, `headline.kicker`, `headline.print_headline`, `byline.original`, `multimedia.default.url` (or `None`), and `keywords` holds the joined keywords; the catalog pass does not overwrite them |
| `ArticleRecords.CatalogFields` | NYT_API.py:162-170 | each copied catalog field of the record holds its catalog value |
| `ArticleRecords.DefaultRequiredRule` | NYT_API.py:35 | with the default required list, an article is rejected exactly when its `_id`, its `headline.main` or its `pub_date` is absent or null |
| `ArticleRecords.ThreeRequired` | NYT_API.py:172-174 | with three required names, a field is reported exactly when one of the three is missing |
| `ArticleRecords.OutsideSchemaNeverFlagged` | NYT_API.py:172-173 | required names that are not output keys never cause a rejection |
| `JsonText.Escape` | NYT_API.py:166 | the escaped text of any string is printable ASCII |
| `JsonText.Serialize` | NYT_API.py:166 | `json.dumps(v)` is non-empty printable ASCII text for every value, as `ensure_ascii` promises |
| `JsonRoundTrip.Decode` | NYT_API.py:166 | `json.loads(json.dumps(v)) == v` for every integer-only JSON value |
| `JsonRoundTrip.IntRoundTrip` | NYT_API.py:166 | the decimal text of an integer reads back as that integer |
| `JsonRoundTrip.EscapeRoundTrip` | NYT_API.py:166 | the escaped text of a string, `\uXXXX` surrogate pairs included, reads back as that string |
| `ArticleBatches.FoldFrom` | NYT_API.py:194-208 | from any point, the lenient loop completes; a completed loop keeps or counts every remaining article; an abort happens only in strict mode, with the error of one of the remaining articles |
| `ArticleBatches.Fold` | NYT_API.py:191-211 | the whole loop: the lenient policy always completes, records plus errors equal the input length, and a strict abort carries the error of one of the articles |
| `ArticleBatches.FoldFromAppend` | NYT_API.py:194-208 | running the loop over `xs + ys` is running it over `xs` and then, unless it stopped, over `ys` |
| `ArticleBatches.StrictStays` | NYT_API.py:198-208 | once the strict loop has raised, later articles do not change the outcome |
| `ArticleBatches.InSuccesses` | NYT_API.py:194-197 | every kept record is the value of some successful article |
| `ArticleBatches.FoldFromRecords` | NYT_API.py:194-208 | every record the loop returns, under either policy, was gathered before or is the value of a successful article |
| `ArticleBatches.FoldRecords` | NYT_API.py:191-211 | every record of a completed batch is the value of some successful article |
| `ArticleBatches.SkipsCount` | NYT_API.py:191-208 | every article is either kept or counted as an error |
| `ArticleBatches.SkipsPositions` | NYT_API.py:203-206 | each logged skip names the 1-based position of a failed article and its error |
| `ArticleBatches.SkipsOrdered` | NYT_API.py:194-206 | logged skips come in input order |
| `ArticleBatches.AllSucceed` | NYT_API.py:194-197 | with no failure, every record is kept in order and nothing is logged |
| `ArticleBatches.AllFail` | NYT_API.py:198-206 | with every article failing, nothing is kept and each article is logged at its own position |
| `ArticleBatches.Lenient` | NYT_API.py:191-211 | the lenient loop always completes: the kept records are the successful ones in input order, `errors` counts the logged skips, and records plus errors equal the input length |
| `ArticleBatches.StrictAbortsAtFirstFailure` | NYT_API.py:198-208 | in strict mode the first failing article, of either kind, aborts the batch with its error and no list is returned |
| `ArticleBatches.StrictAllSucceed` | NYT_API.py:194-211 | in strict mode with no failure, every record is returned in order with no error |
| `ArticleBatches.MiddleFailure` | NYT_API.py:191-211 | for `[r1, bad, r3]`, lenient mode keeps `[r1, r3]` with one error logged at position 2, and strict mode raises the error of the second article |
| `ArticleBatches.EmptyBatch` | NYT_API.py:191-211 | an empty input gives no records and no errors under either policy |
| `NYTApi.NYTArticleExtractor.constructor` | NYT_API.py:23-42 | keeps the API key, sets the base URL (the default endpoint when none or `''` is given), the required list and the 19-entry catalog |
| `NYTApi.NYTArticleExtractor.OutcomeOfFlat` | NYT_API.py:172-176 | the extractor's outcome for an article is `FieldMissingError` for the first missing required field of its flat record, and the record otherwise |
| `NYTApi.NYTArticleExtractor.FixedPart` | NYT_API.py:144-160 | the successive assignments build the six dedicated columns |
| `NYTApi.NYTArticleExtractor.CopyCatalogFields` | NYT_API.py:162-170 | the loop over `all_fields` performs the catalog pass on the record built so far |
| `NYTApi.NYTArticleExtractor.CheckRequired` | NYT_API.py:172-176 | the loop over the required list raises for the first required field that is an output key holding `None`, and returns the record when there is none |
| `NYTApi.NYTArticleExtractor.ProcessArticle` | NYT_API.py:130-176 | one article's outcome is its normalisation under the extractor's required list and catalog |
| `NYTApi.NYTArticleExtractor.ProcessMultipleArticles` | NYT_API.py:178-211 | the loop with its `errors` counter and early raise gives exactly the fold of the articles' outcomes under the chosen policy; in lenient mode it always returns a list, and every returned record has the keys of the extractor's catalog |
| `NYTApi.NYTArticleExtractor.RecordsHaveSchema` | NYT_API.py:178-211 | under either policy every record of a completed batch has the keys of the extractor's catalog, and a lenient batch always completes |
| `NYTApi.BatchSchema` | NYT_API.py:178-211 | with the catalog the constructor sets, every record a batch returns has the same 21 keys |
| `NYTApi.BaseUrlOf` | NYT_API.py:34 | `base_url or DEFAULT`: a non-empty URL is kept; `None` or `''` gives the Article Search endpoint |
| `NYTApi.RequiredFieldsOf` | NYT_API.py:30-35 | the intended required list: the caller's non-empty `fields`, otherwise `['_id', 'headline', 'pub_date']` |
| `NYTApi.FieldsAsWritten` | NYT_API.py:35 | as written, the list is always the three defaults, whatever `fields` is |
| `NYTApi.FieldsIgnored` | NYT_API.py:35 | as written, the list differs from the intended one for any non-empty `fields` other than the three defaults |
| `NYTApi.MainFieldsDropped` | NYT_API.py:35 | the eight names of main.py:8-9, passed to a constructor call that also gives a base URL, are cut to three as written and kept as intended |
| `NYTApi.RequiredFieldsAttribute` | NYT_API.py:172 | as written, reading `self.required_fields` finds no value, since `__init__` (lines 33-36) never assigns it |
| `NYTApi.ProcessArticleAsWritten` | NYT_API.py:130-176 | as written, every article raises AttributeError at the required-field check |
| `NYTApi.AsWrittenLenient` | NYT_API.py:172-208 | as written, reading the unassigned `required_fields` makes a lenient batch keep nothing and count every article as an error |
| `NYTApi.AsWrittenStrict` | NYT_API.py:172 | as written, a strict batch aborts on its first article with that AttributeError |
| `NYTApi.PagesNeeded` | NYT_API.py:61-63 | the page count is at most 100, is 100 beyond 1000 results, and is otherwise the least number of ten-result pages covering the results |

## Findings

| source | as written | input that shows it | evidently intended | confidence | as-written member | corrected member |
|---|---|---|---|---|---|---|
| NYT_API.py:35 | `['_id', 'headline', 'pub_date'] or fields`: a non-empty list literal is always truthy, so `fields` is never used | `NYTArticleExtractor(key, None, fields=['_id', 'headline', 'pub_date', 'abstract', 'keywords', 'section_name', 'source', 'web_url'])`, the list of main.py:8-9 with a base URL argument, yields three names | `fields or ['_id', 'headline', 'pub_date']` | high; not executed | `NYTApi.MainFieldsDropped` | `NYTApi.RequiredFieldsOf` |
| NYT_API.py:172 | reads `self.required_fields`, which `__init__` never assigns (it assigns `self.fields`), so every call raises AttributeError | any article | check the required list set up in `__init__` | high; not executed | `NYTApi.AsWrittenLenient` | `NYTApi.NYTArticleExtractor.ProcessArticle` |

## Left out

- `search_articles` (NYT_API.py:44-105) is left out. It is HTTP retrieval through `requests.get` with `time.sleep` rate limiting. Only its page-count arithmetic (lines 61-63) is modelled, as `PagesNeeded`. The loop at line 67 also reads an unbound `page`.
- The constructor's `base_url` has no default at NYT_API.py:23, although the docstring at line 29 describes one. A call that omits it, as main.py:7-9 does, raises TypeError before any field is set. The model's constructor always receives a base URL argument: `None` there stands for an explicit `None`, and only an explicit `None` or `''` selects the default endpoint.
- `save_to_csv` (NYT_API.py:213-231) writes through pandas to a file, so it is left out.
- Logging (NYT_API.py:11-15, 203, 206, 210) is left out as a side channel. The lenient skips it would log are exposed as `Batch.log`. The line-206 log written just before a strict re-raise is not modelled.
- Column order is not modelled. A Python dict keeps insertion order, which becomes the CSV column order, but the flat record is a `map`, which has none.
- JSON numbers are integers only. Floats, and the exact text `json.dumps` writes for them, are not modelled.
- Articles that are not JSON objects are not modelled. The API returns objects.
- Duplicate keys in an object are not modelled. `Lookup` takes the first member with a key, while Python's `json.loads` keeps the last. The difference never arises in a decoded dict, whose keys are distinct.
- Lone surrogate code points in strings are not modelled. Dafny characters are Unicode scalar values.
- main.py only wires the API key, a query and file names into the extractor. main.py is not part of this model beyond its `fields` list, which is used in `MainFieldsDropped`.

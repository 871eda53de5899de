/** The batch pipeline in ads_pipeline.py: the keyword-file column check,
    the per-page ad collection loop and the text clean-up applied to
    stored ads. */
module Pipeline {
  import opened Maybe
  import opened PyJson
  import AdExtraction

  // ---------------------------------------------------------------------
  // Keyword file

  /** The columns the keyword file must have, in the order they are reported */
  const Required: seq<string> := ["Keyword", "Category", "Search Intent"]

  /** The required columns absent from `header`, in the order of `Required` */
  function MissingColumns(header: seq<string>): (missing: seq<string>)
    ensures forall c :: c in missing <==> c in Required && c !in header
    ensures |missing| <= |Required|
    ensures missing == [] <==> forall c :: c in Required ==> c in header
    ensures missing == (if "Keyword" in header then [] else ["Keyword"])
                       + (if "Category" in header then [] else ["Category"])
                       + (if "Search Intent" in header then [] else ["Search Intent"])
  {
    var missing := Missing(Required, header);
    assert missing != [] ==> missing[0] in missing;
    assert Required == ["Keyword"] + ["Category"] + ["Search Intent"];
    MissingAppend(["Keyword"] + ["Category"], ["Search Intent"], header);
    MissingAppend(["Keyword"], ["Category"], header);
    MissingOne("Keyword", header);
    MissingOne("Category", header);
    MissingOne("Search Intent", header);
    missing
  }

  /** The columns of `cols` absent from `header`, keeping their order */
  function Missing(cols: seq<string>, header: seq<string>): seq<string> {
    if cols == [] then []
    else (if cols[0] in header then [] else [cols[0]]) + Missing(cols[1..], header)
  }

  /** The check keeps the order of the columns asked about */
  lemma {:induction false} MissingAppend(a: seq<string>, b: seq<string>, header: seq<string>)
    ensures Missing(a + b, header) == Missing(a, header) + Missing(b, header)
  {
    if a == [] {
      assert a + b == b;
    } else {
      var head := if a[0] in header then [] else [a[0]];
      calc {
        Missing(a + b, header);
      == { assert (a + b)[0] == a[0] && (a + b)[1..] == a[1..] + b; }
        head + Missing(a[1..] + b, header);
      == { MissingAppend(a[1..], b, header); }
        head + (Missing(a[1..], header) + Missing(b, header));
      ==
        Missing(a, header) + Missing(b, header);
      }
    }
  }

  lemma MissingOne(c: string, header: seq<string>)
    ensures Missing([c], header) == if c in header then [] else [c]
  {
    assert [c][1..] == [];
    assert Missing([], header) == [];
  }

  /** A parsed CSV file: its header and rows, every row as wide as the header */
  datatype Table = Table(header: seq<string>, rows: seq<seq<string>>)

  predicate Rectangular(t: Table) {
    forall i :: 0 <= i < |t.rows| ==> |t.rows[i]| == |t.header|
  }

  /** One `to_dict('records')` entry: column name and cell, in column order */
  type Record = seq<(string, string)>

  function RecordOf(header: seq<string>, row: seq<string>): (r: Record)
    requires |row| == |header|
    ensures |r| == |header|
    ensures forall i :: 0 <= i < |r| ==> r[i] == (header[i], row[i])
  {
    seq(|header|, i requires 0 <= i < |header| => (header[i], row[i]))
  }

  /** `read_keywords_from_csv`: `read` is the parsed file, `None` when
      reading raised; a file lacking a required column yields no records */
  function ReadKeywords(read: Option<Table>): (records: seq<Record>)
    requires read.Some? ==> Rectangular(read.value)
    ensures read.None? ==> records == []
    ensures read.Some? && MissingColumns(read.value.header) != [] ==> records == []
    ensures read.Some? && MissingColumns(read.value.header) == [] ==>
              |records| == |read.value.rows|
              && forall i :: 0 <= i < |records| ==>
                   |records[i]| == |read.value.header| &&
                   forall j :: 0 <= j < |records[i]| ==>
                     records[i][j] == (read.value.header[j], read.value.rows[i][j])
  {
    match read
    case None => []
    case Some(t) =>
      if MissingColumns(t.header) != [] then []
      else seq(|t.rows|, i requires 0 <= i < |t.rows| => RecordOf(t.header, t.rows[i]))
  }

  /** Every record of an accepted file names every required column */
  lemma RecordsHaveRequiredColumns(t: Table, i: nat)
    requires Rectangular(t)
    requires i < |ReadKeywords(Some(t))|
    ensures forall c :: c in Required ==> exists j :: 0 <= j < |ReadKeywords(Some(t))[i]| && ReadKeywords(Some(t))[i][j].0 == c
  {
    var rec := ReadKeywords(Some(t))[i];
    forall c | c in Required
      ensures exists j :: 0 <= j < |rec| && rec[j].0 == c
    {
      assert c in t.header;
      var j :| 0 <= j < |t.header| && t.header[j] == c;
      assert rec[j].0 == c;
    }
  }

  // ---------------------------------------------------------------------
  // Collecting ads page by page

  /** What `get_page_ads` hands back for one page id and cursor, given the
      parsed response `respond` yields for them */
  function PageAds(respond: (Json, Json) -> Json, pageId: Json, cursor: Json): Json {
    AdExtraction.Returned(AdExtraction.GetPageAds(respond(pageId, cursor)))
  }

  /** The reads the loop makes of one returned value */
  datatype Batch = Batch(edges: seq<Json>, endCursor: Json, hasNext: Json)

  /** The connection object at `data.ad_library_main.search_results_connection`,
      read with `[]`, which raises on a missing key or a non-dict */
  function Connection(ads: Json): (r: Option<Json>)
    ensures r.Some? ==> ads.JObj?
  {
    var inner :- Index(ads, "data");
    var main :- Index(inner, "ad_library_main");
    Index(main, "search_results_connection")
  }

  /** `page_info`'s cursor and flag, then the `edges` that are appended */
  function ReadBatch(ads: Json): (r: Option<Batch>)
    ensures r.Some? ==> Connection(ads).Some? && Connection(ads).value.JObj?
    ensures r.Some? ==> "edges" in Keys(Connection(ads).value.fields)
                        && "page_info" in Keys(Connection(ads).value.fields)
  {
    var connection :- Connection(ads);
    var info :- Index(connection, "page_info");
    var cursor :- Index(info, "end_cursor");
    var hasNext :- Index(info, "has_next_page");
    var edges :- Index(connection, "edges");
    var items :- Iter(edges);
    Some(Batch(items, cursor, hasNext))
  }

  /** One request and the reads of its result: `get_page_ads` on the
      parsed response, then `ReadBatch`; `None` when a read raises */
  function Fetcher(respond: (Json, Json) -> Json): (Json, Json) -> Option<Batch> {
    (pageId: Json, cursor: Json) => ReadBatch(PageAds(respond, pageId, cursor))
  }

  /** A response of the shape the loop expects */
  function Response(edges: seq<Json>, endCursor: Json, hasNext: Json): Json {
    var info := JObj([("end_cursor", endCursor), ("has_next_page", hasNext)]);
    var connection := JObj([("edges", JArr(edges)), ("page_info", info)]);
    JObj([("data", JObj([("ad_library_main", JObj([("search_results_connection", connection)]))]))])
  }

  /** Reading a well-shaped response gives back what it was built from */
  lemma ReadResponse(edges: seq<Json>, endCursor: Json, hasNext: Json)
    ensures ReadBatch(Response(edges, endCursor, hasNext)) == Some(Batch(edges, endCursor, hasNext))
  {
    var infoFields := [("end_cursor", endCursor), ("has_next_page", hasNext)];
    var connFields := [("edges", JArr(edges)), ("page_info", JObj(infoFields))];
    ResponseConnection(edges, endCursor, hasNext);
    assert Lookup(connFields, "page_info") == Some(JObj(infoFields));
    assert Lookup(infoFields, "end_cursor") == Some(endCursor);
    assert Lookup(infoFields, "has_next_page") == Some(hasNext);
    assert Lookup(connFields, "edges") == Some(JArr(edges));
    ReadConnection(Response(edges, endCursor, hasNext), connFields, infoFields, edges, endCursor, hasNext);
  }

  lemma ResponseConnection(edges: seq<Json>, endCursor: Json, hasNext: Json)
    ensures Connection(Response(edges, endCursor, hasNext))
         == Some(JObj([("edges", JArr(edges)), ("page_info", JObj([("end_cursor", endCursor), ("has_next_page", hasNext)]))]))
  {
    var infoFields := [("end_cursor", endCursor), ("has_next_page", hasNext)];
    var connFields := [("edges", JArr(edges)), ("page_info", JObj(infoFields))];
    var mainFields := [("search_results_connection", JObj(connFields))];
    var innerFields := [("ad_library_main", JObj(mainFields))];
    var top := [("data", JObj(innerFields))];
    assert Lookup(top, "data") == Some(JObj(innerFields));
    assert Lookup(innerFields, "ad_library_main") == Some(JObj(mainFields));
    assert Lookup(mainFields, "search_results_connection") == Some(JObj(connFields));
  }

  lemma ReadConnection(ads: Json, conn: seq<(string, Json)>, info: seq<(string, Json)>,
                       edges: seq<Json>, endCursor: Json, hasNext: Json)
    requires Connection(ads) == Some(JObj(conn))
    requires Lookup(conn, "page_info") == Some(JObj(info))
    requires Lookup(info, "end_cursor") == Some(endCursor)
    requires Lookup(info, "has_next_page") == Some(hasNext)
    requires Lookup(conn, "edges") == Some(JArr(edges))
    ensures ReadBatch(ads) == Some(Batch(edges, endCursor, hasNext))
  {
    assert Index(JObj(conn), "page_info") == Some(JObj(info));
    assert Index(JObj(info), "end_cursor") == Some(endCursor);
    assert Index(JObj(info), "has_next_page") == Some(hasNext);
    assert Index(JObj(conn), "edges") == Some(JArr(edges));
    assert Iter(JArr(edges)) == Some(edges);
  }

  /** One page of the loop as written: one request with no cursor, then the
      unconditional `break`. A page without `page_id` makes no request; a
      failed read skips the page. Returns the appended edges and the number
      of requests. */
  function PageAsWritten(page: Json, fetch: (Json, Json) -> Option<Batch>): (r: (seq<Json>, nat))
    ensures r.1 == (if Index(page, "page_id").Some? then 1 else 0)
  {
    match Index(page, "page_id")
    case None => ([], 0)
    case Some(pageId) =>
      match fetch(pageId, JNull)
      case None => ([], 1)
      case Some(batch) => (batch.edges, 1)
  }

  /** The number of pages carrying a `page_id` */
  function WithPageId(pages: seq<Json>): (n: nat)
    ensures n <= |pages|
  {
    if pages == [] then 0
    else (if Index(pages[0], "page_id").Some? then 1 else 0) + WithPageId(pages[1..])
  }

  /** `collect_ads` after the page search, as written: the collected edges
      and the number of requests, exactly one per page with a `page_id` */
  function CollectAsWritten(pages: seq<Json>, fetch: (Json, Json) -> Option<Batch>): (r: (seq<Json>, nat))
    ensures r.1 == WithPageId(pages)
  {
    if pages == [] then ([], 0)
    else
      var first := PageAsWritten(pages[0], fetch);
      var rest := CollectAsWritten(pages[1..], fetch);
      (first.0 + rest.0, first.1 + rest.1)
  }

  /** Pages are handled independently: the edges collected from a
      concatenation of page lists are those of each list, in order */
  lemma {:induction false} CollectAppend(a: seq<Json>, b: seq<Json>, fetch: (Json, Json) -> Option<Batch>)
    ensures CollectAsWritten(a + b, fetch).0 == CollectAsWritten(a, fetch).0 + CollectAsWritten(b, fetch).0
  {
    if a == [] {
      assert a + b == b;
    } else {
      var first := PageAsWritten(a[0], fetch).0;
      calc {
        CollectAsWritten(a + b, fetch).0;
      == { assert (a + b)[0] == a[0] && (a + b)[1..] == a[1..] + b; }
        first + CollectAsWritten(a[1..] + b, fetch).0;
      == { CollectAppend(a[1..], b, fetch); }
        first + (CollectAsWritten(a[1..], fetch).0 + CollectAsWritten(b, fetch).0);
      ==
        CollectAsWritten(a, fetch).0 + CollectAsWritten(b, fetch).0;
      }
    }
  }

  /** A page whose `page_id` is missing or whose read raises adds nothing,
      and the pages after it are collected as if it were not there */
  lemma FailedPageIsolated(a: seq<Json>, page: Json, b: seq<Json>, fetch: (Json, Json) -> Option<Batch>)
    requires Index(page, "page_id").None? || fetch(Index(page, "page_id").value, JNull).None?
    ensures PageAsWritten(page, fetch).0 == []
    ensures CollectAsWritten(a + [page] + b, fetch).0 == CollectAsWritten(a, fetch).0 + CollectAsWritten(b, fetch).0
  {
    CollectAppend(a + [page], b, fetch);
    CollectAppend(a, [page], fetch);
    OnePageCollect(page, fetch);
    assert CollectAsWritten(a, fetch).0 + [] == CollectAsWritten(a, fetch).0;
  }

  lemma OnePageCollect(page: Json, fetch: (Json, Json) -> Option<Batch>)
    ensures CollectAsWritten([page], fetch).0 == PageAsWritten(page, fetch).0
  {
    assert [page][1..] == [];
    assert CollectAsWritten([], fetch).0 == [];
    assert PageAsWritten(page, fetch).0 + [] == PageAsWritten(page, fetch).0;
  }

  /** Per-page bounds add up to a bound on the whole */
  lemma SumBound(fuel: nat, here: nat, there: nat, a: nat, b: nat)
    requires a <= fuel * here && b <= fuel * there
    ensures a + b <= fuel * (here + there)
  {
  }

  /** Corrected: follow `end_cursor` while `has_next_page` is truthy. Edges
      appended before a failing read are kept, as the list is extended in
      place. `fuel` bounds the number of requests per page. */
  function FollowPages(fetch: (Json, Json) -> Option<Batch>, pageId: Json, cursor: Json, fuel: nat): (r: (seq<Json>, nat))
    ensures r.1 <= fuel
    ensures fuel > 0 ==> r.1 >= 1
    decreases fuel
  {
    if fuel == 0 then ([], 0)
    else
      match fetch(pageId, cursor)
      case None => ([], 1)
      case Some(batch) =>
        if !Truthy(batch.hasNext) then (batch.edges, 1)
        else
          var rest := FollowPages(fetch, pageId, batch.endCursor, fuel - 1);
          (batch.edges + rest.0, 1 + rest.1)
  }

  function PagePaginated(page: Json, fetch: (Json, Json) -> Option<Batch>, fuel: nat): (r: (seq<Json>, nat))
    ensures Index(page, "page_id").None? ==> r == ([], 0)
    ensures Index(page, "page_id").Some? ==> r.1 <= fuel
  {
    match Index(page, "page_id")
    case None => ([], 0)
    case Some(pageId) => FollowPages(fetch, pageId, JNull, fuel)
  }

  function CollectPaginated(pages: seq<Json>, fetch: (Json, Json) -> Option<Batch>, fuel: nat): (r: (seq<Json>, nat))
    ensures r.1 <= fuel * WithPageId(pages)
    ensures fuel > 0 ==> r.1 >= WithPageId(pages)
  {
    if pages == [] then ([], 0)
    else
      var first := PagePaginated(pages[0], fetch, fuel);
      var rest := CollectPaginated(pages[1..], fetch, fuel);
      var here := if Index(pages[0], "page_id").Some? then 1 else 0;
      assert WithPageId(pages) == here + WithPageId(pages[1..]);
      SumBound(fuel, here, WithPageId(pages[1..]), first.1, rest.1);
      (first.0 + rest.0, first.1 + rest.1)
  }

  /** For one page, the body as written is the paginated body with one request */
  lemma PageIsOneRequest(page: Json, fetch: (Json, Json) -> Option<Batch>)
    ensures PageAsWritten(page, fetch) == PagePaginated(page, fetch, 1)
  {
    match Index(page, "page_id")
    case None =>
    case Some(pageId) =>
      match fetch(pageId, JNull)
      case None =>
      case Some(batch) =>
        assert FollowPages(fetch, pageId, batch.endCursor, 0) == ([], 0);
        assert batch.edges + [] == batch.edges;
  }

  /** The loop as written is the paginated loop cut to one request per page */
  lemma {:induction false} AsWrittenIsOneRequest(pages: seq<Json>, fetch: (Json, Json) -> Option<Batch>)
    ensures CollectAsWritten(pages, fetch) == CollectPaginated(pages, fetch, 1)
  {
    if pages != [] {
      AsWrittenIsOneRequest(pages[1..], fetch);
      PageIsOneRequest(pages[0], fetch);
    }
  }

  /** More requests only ever add edges at the end */
  lemma {:induction false} MoreFuelExtends(fetch: (Json, Json) -> Option<Batch>, pageId: Json, cursor: Json, fuel: nat)
    ensures FollowPages(fetch, pageId, cursor, fuel).0 <= FollowPages(fetch, pageId, cursor, fuel + 1).0
    decreases fuel
  {
    var shorter := FollowPages(fetch, pageId, cursor, fuel).0;
    var longer := FollowPages(fetch, pageId, cursor, fuel + 1).0;
    if fuel == 0 {
      assert shorter == [];
    } else {
      var got := fetch(pageId, cursor);
      if got.None? {
        assert shorter == [] && longer == [];
      } else if !Truthy(got.value.hasNext) {
        assert shorter == got.value.edges && longer == got.value.edges;
      } else {
        var batch := got.value;
        MoreFuelExtends(fetch, pageId, batch.endCursor, fuel - 1);
        var a := FollowPages(fetch, pageId, batch.endCursor, fuel - 1).0;
        var b := FollowPages(fetch, pageId, batch.endCursor, fuel).0;
        assert shorter == batch.edges + a;
        assert longer == batch.edges + b;
        PrefixConcat(batch.edges, a, b);
      }
    }
  }

  lemma PrefixConcat(x: seq<Json>, a: seq<Json>, b: seq<Json>)
    requires a <= b
    ensures x + a <= x + b
  {
    assert (x + b)[..|x + a|] == x + a;
  }

  /** A well-shaped response survives `get_page_ads` unchanged */
  lemma PassesThrough(respond: (Json, Json) -> Json, pageId: Json, cursor: Json, edges: seq<Json>, endCursor: Json, hasNext: Json)
    requires respond(pageId, cursor) == Response(edges, endCursor, hasNext)
    requires forall i :: 0 <= i < |edges| ==> edges[i] == EmptyObj
    ensures Fetcher(respond)(pageId, cursor) == Some(Batch(edges, endCursor, hasNext))
  {
    var data := Response(edges, endCursor, hasNext);
    EmptyEdgesFlatten(edges);
    ResponseCollated(edges, endCursor, hasNext);
    assert AdExtraction.Walk([]) == Some([]);
    assert Keys(data.fields) == ["data"];
    assert AdExtraction.GetPageAds(data).Fetched?;
    ReadResponse(edges, endCursor, hasNext);
  }

  lemma {:induction false} EmptyEdgesFlatten(edges: seq<Json>)
    requires forall i :: 0 <= i < |edges| ==> edges[i] == EmptyObj
    ensures AdExtraction.Flatten(edges) == Some([])
  {
    if edges != [] {
      EmptyEdgesFlatten(edges[1..]);
      assert edges[0] == EmptyObj;
      assert Get(EmptyObj, "node", EmptyObj) == Some(EmptyObj);
      assert Get(EmptyObj, "collated_results", EmptyArr) == Some(EmptyArr);
      assert Iter(EmptyArr) == Some([]);
      var none: seq<Json> := [];
      assert none + none == none;
    }
  }

  lemma ResponseCollated(edges: seq<Json>, endCursor: Json, hasNext: Json)
    ensures AdExtraction.CollatedResults(Response(edges, endCursor, hasNext)) == AdExtraction.Flatten(edges)
  {
    var infoFields := [("end_cursor", endCursor), ("has_next_page", hasNext)];
    var connFields := [("edges", JArr(edges)), ("page_info", JObj(infoFields))];
    var mainFields := [("search_results_connection", JObj(connFields))];
    var innerFields := [("ad_library_main", JObj(mainFields))];
    var top := [("data", JObj(innerFields))];
    assert Field(top, "data", EmptyObj) == JObj(innerFields);
    assert Field(innerFields, "ad_library_main", EmptyObj) == JObj(mainFields);
    assert Field(mainFields, "search_results_connection", EmptyObj) == JObj(connFields);
    assert Field(connFields, "edges", EmptyArr) == JArr(edges);
  }

  /** A page whose ads span three responses, linked by the cursors "B"
      and "C" */
  function ThreeBatches(pageId: Json, cursor: Json): Json {
    if cursor == JNull then Response([EmptyObj], JStr("B"), JBool(true))
    else if cursor == JStr("B") then Response([EmptyObj], JStr("C"), JBool(true))
    else Response([EmptyObj], JNull, JBool(false))
  }

  /** One turn of the corrected loop */
  lemma FollowStep(fetch: (Json, Json) -> Option<Batch>, pageId: Json, cursor: Json, fuel: nat, batch: Batch)
    requires fuel > 0 && fetch(pageId, cursor) == Some(batch)
    ensures FollowPages(fetch, pageId, cursor, fuel).0
      == if Truthy(batch.hasNext) then batch.edges + FollowPages(fetch, pageId, batch.endCursor, fuel - 1).0
         else batch.edges
  {
  }

  /** The three batches `ThreeBatches` serves, read back */
  lemma ThreeBatchesRead(pageId: Json)
    ensures ServesThree(Fetcher(ThreeBatches), pageId)
  {
    PassesThrough(ThreeBatches, pageId, JNull, [EmptyObj], JStr("B"), JBool(true));
    PassesThrough(ThreeBatches, pageId, JStr("B"), [EmptyObj], JStr("C"), JBool(true));
    PassesThrough(ThreeBatches, pageId, JStr("C"), [EmptyObj], JNull, JBool(false));
  }

  /** Any fetch that serves the three batches of `ThreeBatches` */
  predicate ServesThree(fetch: (Json, Json) -> Option<Batch>, pageId: Json) {
    && fetch(pageId, JNull) == Some(Batch([EmptyObj], JStr("B"), JBool(true)))
    && fetch(pageId, JStr("B")) == Some(Batch([EmptyObj], JStr("C"), JBool(true)))
    && fetch(pageId, JStr("C")) == Some(Batch([EmptyObj], JNull, JBool(false)))
  }

  /** Following three batches with three requests of fuel collects one
      edge per batch */
  lemma ThreeBatchesFollowed(fetch: (Json, Json) -> Option<Batch>, pageId: Json)
    requires ServesThree(fetch, pageId)
    ensures |FollowPages(fetch, pageId, JNull, 3).0| == 3
  {
    FollowStep(fetch, pageId, JStr("C"), 1, Batch([EmptyObj], JNull, JBool(false)));
    FollowStep(fetch, pageId, JStr("B"), 2, Batch([EmptyObj], JStr("C"), JBool(true)));
    FollowStep(fetch, pageId, JNull, 3, Batch([EmptyObj], JStr("B"), JBool(true)));
  }

  lemma StopsEarly(fetch: (Json, Json) -> Option<Batch>, page: Json)
    requires Index(page, "page_id").Some? && ServesThree(fetch, Index(page, "page_id").value)
    ensures |CollectAsWritten([page], fetch).0| == 1
    ensures |CollectPaginated([page], fetch, 3).0| == 3
  {
    var pageId := Index(page, "page_id").value;
    assert [page][1..] == [];
    assert PageAsWritten(page, fetch).0 == [EmptyObj];
    ThreeBatchesFollowed(fetch, pageId);
    assert PagePaginated(page, fetch, 3) == FollowPages(fetch, pageId, JNull, 3);
  }

  /** As written only the first of the three batches is collected; the
      corrected loop collects all three */
  lemma PaginationStopsEarly(page: Json)
    requires Index(page, "page_id").Some?
    ensures |CollectAsWritten([page], Fetcher(ThreeBatches)).0| == 1
    ensures |CollectPaginated([page], Fetcher(ThreeBatches), 3).0| == 3
  {
    ThreeBatchesRead(Index(page, "page_id").value);
    StopsEarly(Fetcher(ThreeBatches), page);
  }

  // ---------------------------------------------------------------------
  // Cleaning stored ads

  /** `b` is `a` with every string value replaced by its re-encoding: same
      constructors, same keys in the same order, same lengths, equal values
      everywhere else */
  predicate Reencoded(a: Json, b: Json, reencode: string -> string)
    decreases a
  {
    match a
    case JStr(s) => b == JStr(reencode(s))
    case JArr(xs) =>
      b.JArr? && |b.items| == |xs| && forall i :: 0 <= i < |xs| ==> Reencoded(xs[i], b.items[i], reencode)
    case JObj(fs) =>
      b.JObj? && |b.fields| == |fs|
      && forall i :: 0 <= i < |fs| ==> b.fields[i].0 == fs[i].0 && Reencoded(fs[i].1, b.fields[i].1, reencode)
    case _ => b == a
  }

  /** `clean_data`: re-encode every string value, keep keys and every
      other value; `reencode` stands for `encode('utf-8', 'replace')`
      followed by `decode('utf-8')` */
  function CleanData(j: Json, reencode: string -> string): (r: Json)
    ensures Reencoded(j, r, reencode)
    decreases j
  {
    match j
    case JStr(s) => JStr(reencode(s))
    case JArr(items) =>
      JArr(seq(|items|, i requires 0 <= i < |items| => CleanData(items[i], reencode)))
    case JObj(fields) =>
      JObj(seq(|fields|, i requires 0 <= i < |fields| =>
        assert fields[i] in fields;
        (fields[i].0, CleanData(fields[i].1, reencode))))
    case _ => j
  }

  /** With a codec that changes nothing, cleaning changes nothing */
  lemma {:induction false} CleanIdentity(j: Json, reencode: string -> string)
    requires forall s :: reencode(s) == s
    ensures CleanData(j, reencode) == j
    decreases j
  {
    match j
    case JArr(items) =>
      forall i | 0 <= i < |items| ensures CleanData(items[i], reencode) == items[i] {
        CleanIdentity(items[i], reencode);
      }
      assert CleanData(j, reencode).items == items;
    case JObj(fields) =>
      forall i | 0 <= i < |fields| ensures CleanData(fields[i].1, reencode) == fields[i].1 {
        assert fields[i] in fields;
        CleanIdentity(fields[i].1, reencode);
      }
      assert CleanData(j, reencode).fields == fields;
    case _ =>
  }

  /** Cleaning twice is cleaning once when the codec is idempotent, as
      replacing undecodable characters is */
  lemma {:induction false} CleanIdempotent(j: Json, reencode: string -> string)
    requires forall s :: reencode(reencode(s)) == reencode(s)
    ensures CleanData(CleanData(j, reencode), reencode) == CleanData(j, reencode)
    decreases j
  {
    var c := CleanData(j, reencode);
    match j
    case JArr(items) =>
      forall i | 0 <= i < |items|
        ensures CleanData(c.items[i], reencode) == c.items[i]
      {
        CleanIdempotent(items[i], reencode);
      }
      assert CleanData(c, reencode).items == c.items;
    case JObj(fields) =>
      forall i | 0 <= i < |fields|
        ensures CleanData(c.fields[i].1, reencode) == c.fields[i].1
      {
        assert fields[i] in fields;
        CleanIdempotent(fields[i].1, reencode);
      }
      assert CleanData(c, reencode).fields == c.fields;
    case _ =>
  }
}

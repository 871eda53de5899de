/** The walk over a page-ads response in `get_page_ads` (meta.py): the
    edges of `data.ad_library_main.search_results_connection`, the
    `collated_results` of each edge's node, and one ad record per result
    that has a truthy `ad_archive_id`. The walk sits inside the method's
    `try`, so a raising step turns the whole answer into `[]`. */
module AdExtraction {
  import opened Maybe
  import opened PyJson

  /** The values the ad dict literal reads from one result; the fields the
      literal fills with constants (`languages`, `spend`, the `target_*`
      lists and the distribution fields) are the same for every ad and are
      not repeated here. `start_date` fills both `ad_creation_time` and
      `ad_delivery_start_time`. */
  datatype Ad = Ad(
    archiveId: Json,
    pageId: Json,
    pageName: Json,
    status: Json,
    startDate: Json,
    endDate: Json,
    currency: Json,
    snapshot: Json,
    platforms: Json,
    impressions: Json,
    reach: Json)

  /** What the loop body does with one result */
  datatype Step = Skip | Keep(ad: Ad) | Raise

  /** The body-text rule: a dict body gives its `text`, a string body is
      the text itself, anything else gives nothing. The value is computed
      for each ad but not stored in it. */
  function BodyText(snapshot: seq<(string, Json)>): (t: Json)
    ensures "body" !in Keys(snapshot) ==> t == JNull
    ensures Field(snapshot, "body", EmptyObj).JStr? ==> t == Field(snapshot, "body", EmptyObj)
    ensures !Field(snapshot, "body", EmptyObj).JStr? && !Field(snapshot, "body", EmptyObj).JObj? ==> t == JNull
    ensures t != JNull ==> ("body", JObj([("text", t)])) in snapshot || ("body", t) in snapshot ||
                           exists fs :: ("body", JObj(fs)) in snapshot && ("text", t) in fs
  {
    var body := Field(snapshot, "body", EmptyObj);
    match body
    case JObj(fields) => Field(fields, "text", JNull)
    case JStr(_) => body
    case _ => JNull
  }

  /** One pass of the inner loop body */
  function AdOf(result: Json): (r: Step)
    ensures r.Skip? <==> !Truthy(result) || (result.JObj? && !Truthy(Field(result.fields, "ad_archive_id", JNull)))
    ensures r.Keep? ==> result.JObj? && ("ad_archive_id", r.ad.archiveId) in result.fields
    ensures r.Keep? ==> Truthy(r.ad.archiveId) && Hashable(r.ad.archiveId) && r.ad.snapshot.JObj?
    ensures Truthy(result) && !result.JObj? ==> r.Raise?
    ensures r.Raise? <==> && Truthy(result)
                          && (result.JObj? ==>
                                && Truthy(Field(result.fields, "ad_archive_id", JNull))
                                && (!Hashable(Field(result.fields, "ad_archive_id", JNull))
                                    || !Or(Field(result.fields, "snapshot", EmptyObj), EmptyObj).JObj?))
    ensures r.Keep? ==> r.ad.snapshot == Or(Field(result.fields, "snapshot", EmptyObj), EmptyObj)
    ensures r.Keep? ==> && GetsAs(result.fields, "page_id", JNull, r.ad.pageId)
                        && GetsAs(result.fields, "page_name", JNull, r.ad.pageName)
                        && GetsAs(result.fields, "is_active", JNull, r.ad.status)
                        && GetsAs(result.fields, "start_date", JNull, r.ad.startDate)
                        && GetsAs(result.fields, "end_date", JNull, r.ad.endDate)
                        && GetsAs(result.fields, "currency", JNull, r.ad.currency)
    ensures r.Keep? ==> && GetsAs(result.fields, "publisher_platform", EmptyArr, r.ad.platforms)
                        && GetsAs(result.fields, "impressions_with_index", JNull, r.ad.impressions)
                        && GetsAs(result.fields, "reach_estimate", JNull, r.ad.reach)
  {
    if !Truthy(result) then Skip
    else match result
      case JObj(fields) =>
        var id := Field(fields, "ad_archive_id", JNull);
        if !Truthy(id) then Skip
        else if !Hashable(id) then Raise
        else
          var snapshot := Or(Field(fields, "snapshot", EmptyObj), EmptyObj);
          if !snapshot.JObj? then Raise
          else Keep(Ad(
            id,
            Field(fields, "page_id", JNull),
            Field(fields, "page_name", JNull),
            Field(fields, "is_active", JNull),
            Field(fields, "start_date", JNull),
            Field(fields, "end_date", JNull),
            Field(fields, "currency", JNull),
            snapshot,
            Field(fields, "publisher_platform", EmptyArr),
            Field(fields, "impressions_with_index", JNull),
            Field(fields, "reach_estimate", JNull)))
      case _ => Raise
  }

  /** The inner loop over all results, result by result, with the loop
      body `step` as a parameter */
  function Gather(results: seq<Json>, step: Json -> Step): Option<seq<Ad>> {
    if results == [] then Some([])
    else
      var rest := Gather(results[1..], step);
      match step(results[0])
      case Raise => None
      case Skip => rest
      case Keep(ad) => if rest.None? then None else Some([ad] + rest.value)
  }

  /** The inner loop over all results: every kept result contributes its
      ad, in order, and nothing else does */
  function Walk(results: seq<Json>): (r: Option<seq<Ad>>)
    ensures r.Some? <==> forall i :: 0 <= i < |results| ==> !AdOf(results[i]).Raise?
    ensures r.Some? ==> |r.value| <= |results|
    ensures r.Some? ==> forall i :: 0 <= i < |results| && AdOf(results[i]).Keep? ==> AdOf(results[i]).ad in r.value
    ensures r.Some? ==> forall a :: a in r.value ==> exists i :: 0 <= i < |results| && AdOf(results[i]) == Keep(a)
  {
    GatherCollects(results, AdOf);
    Gather(results, AdOf)
  }

  lemma {:induction false} GatherCollects(results: seq<Json>, step: Json -> Step)
    ensures var r := Gather(results, step);
      && (r.Some? <==> forall i :: 0 <= i < |results| ==> !step(results[i]).Raise?)
      && (r.Some? ==> |r.value| <= |results|)
      && (r.Some? ==> forall i :: 0 <= i < |results| && step(results[i]).Keep? ==> step(results[i]).ad in r.value)
      && (r.Some? ==> forall a :: a in r.value ==> exists i :: 0 <= i < |results| && step(results[i]) == Keep(a))
  {
    if results != [] {
      GatherCollects(results[1..], step);
      assert forall i :: 1 <= i < |results| ==> results[i] == results[1..][i - 1];
    }
  }

  /** Concatenated result lists are walked one after the other: the walk
      raises if either part does, and otherwise yields the ads of the first
      part followed by those of the second */
  lemma WalkAppend(a: seq<Json>, b: seq<Json>)
    ensures Walk(a + b) == if Walk(a).Some? && Walk(b).Some? then Some(Walk(a).value + Walk(b).value) else None
  {
    GatherAppend(a, b, AdOf);
  }

  lemma {:induction false} GatherAppend(a: seq<Json>, b: seq<Json>, step: Json -> Step)
    ensures var ga, gb := Gather(a, step), Gather(b, step);
      Gather(a + b, step) == if ga.Some? && gb.Some? then Some(ga.value + gb.value) else None
  {
    if a == [] {
      assert a + b == b;
      if Gather(b, step).Some? {
        assert [] + Gather(b, step).value == Gather(b, step).value;
      }
    } else {
      GatherAppend(a[1..], b, step);
      assert (a + b)[0] == a[0] && (a + b)[1..] == a[1..] + b;
      match step(a[0])
      case Raise =>
      case Skip =>
      case Keep(ad) =>
        var ga, gb := Gather(a[1..], step), Gather(b, step);
        if ga.Some? && gb.Some? {
          assert [ad] + (ga.value + gb.value) == ([ad] + ga.value) + gb.value;
        }
    }
  }

  /** `edges` flattened into the collated results of each edge's node;
      `None` when an edge or node is not a dict or a result list cannot be
      iterated */
  function Flatten(edges: seq<Json>): (r: Option<seq<Json>>)
    ensures r.Some? ==> forall i :: 0 <= i < |edges| ==> edges[i].JObj?
  {
    if edges == [] then Some([])
    else
      var node :- Get(edges[0], "node", EmptyObj);
      var collated :- Get(node, "collated_results", EmptyArr);
      var results :- Iter(collated);
      var rest :- Flatten(edges[1..]);
      assert forall i :: 1 <= i < |edges| ==> edges[i] == edges[1..][i - 1];
      Some(results + rest)
  }

  /** The chain of `.get` calls down to `edges`, then the flattening */
  function CollatedResults(data: Json): (r: Option<seq<Json>>)
    ensures r.Some? ==> data.JObj?
  {
    var inner :- Get(data, "data", EmptyObj);
    var main :- Get(inner, "ad_library_main", EmptyObj);
    var connection :- Get(main, "search_results_connection", EmptyObj);
    var edges :- Get(connection, "edges", EmptyArr);
    var items :- Iter(edges);
    Flatten(items)
  }

  /** The element an id becomes in a Python set: `True` hashes and
      compares equal to `1`, so the two are one element; `False` and `0`
      never get there, being falsy */
  function HashKey(id: Json): (k: Json)
    ensures k == JInt(1) <==> id == JInt(1) || id == JBool(true)
    ensures id != JBool(true) ==> k == id
  {
    if id == JBool(true) then JInt(1) else id
  }

  /** The distinct ids collected in the `ad_archive_ids` set */
  function IdSet(ads: seq<Ad>): set<Json> {
    set a | a in ads :: HashKey(a.archiveId)
  }

  /** The outcome of the walk: the ads list (duplicates kept) and the
      number of distinct ids that is logged */
  datatype Extracted = Extracted(ads: seq<Ad>, uniqueIds: nat)

  function ExtractAds(data: Json): (r: Option<Extracted>)
    ensures r.Some? <==> CollatedResults(data).Some? && Walk(CollatedResults(data).value).Some?
    ensures r.Some? ==> r.value.ads == Walk(CollatedResults(data).value).value
    ensures r.Some? ==> r.value.uniqueIds == |IdSet(r.value.ads)| <= |r.value.ads|
    ensures r.Some? ==> forall a :: a in r.value.ads ==> Truthy(a.archiveId) && Hashable(a.archiveId)
    ensures r.Some? ==> data.JObj?
  {
    var results :- CollatedResults(data);
    var ads :- Walk(results);
    UniqueAtMostAds(ads);
    Some(Extracted(ads, |IdSet(ads)|))
  }

  /** There are never more distinct ids than ads */
  lemma {:induction false} UniqueAtMostAds(ads: seq<Ad>)
    ensures |IdSet(ads)| <= |ads|
  {
    if ads != [] {
      UniqueAtMostAds(ads[1..]);
      assert IdSet(ads) <= {HashKey(ads[0].archiveId)} + IdSet(ads[1..]) by {
        forall a | a in ads ensures HashKey(a.archiveId) in {HashKey(ads[0].archiveId)} + IdSet(ads[1..]) {
          if a != ads[0] {
            assert a in ads[1..];
          }
        }
      }
      SetSizeBound(IdSet(ads), {HashKey(ads[0].archiveId)}, IdSet(ads[1..]));
    }
  }

  lemma SetSizeBound<T>(s: set<T>, a: set<T>, b: set<T>)
    requires s <= a + b
    ensures |s| <= |a| + |b|
  {
    assert |a + b| <= |a| + |b|;
    SubsetSize(s, a + b);
  }

  lemma SubsetSize<T>(s: set<T>, t: set<T>)
    requires s <= t
    ensures |s| <= |t|
  {
    assert t == s + (t - s);
  }

  /** A result listed twice yields two ads but one distinct id: the walk
      does not de-duplicate */
  lemma DuplicatesKept(result: Json)
    requires AdOf(result).Keep?
    ensures Walk([result, result]) == Some([AdOf(result).ad, AdOf(result).ad])
    ensures |IdSet([AdOf(result).ad, AdOf(result).ad])| == 1
  {
    WalkSingle(result);
    WalkAppend([result], [result]);
    assert [result] + [result] == [result, result];
    TwiceOneId(AdOf(result).ad);
  }

  /** An ad listed twice is one distinct id, and the two copies are the
      concatenation of two one-ad lists */
  lemma TwiceOneId(ad: Ad)
    ensures [ad] + [ad] == [ad, ad]
    ensures |IdSet([ad, ad])| == 1
  {
    assert IdSet([ad, ad]) == {HashKey(ad.archiveId)};
  }

  /** A single kept result walks to its ad */
  lemma WalkSingle(result: Json)
    requires AdOf(result).Keep?
    ensures Walk([result]) == Some([AdOf(result).ad])
  {
    assert [result][1..] == [];
    assert Gather([], AdOf) == Some([]);
    assert [AdOf(result).ad] + [] == [AdOf(result).ad];
  }

  /** Ads with ids `1` and `True` are counted as one distinct id */
  lemma OneAndTrueCountOnce(a: Ad, b: Ad)
    requires a.archiveId == JInt(1) && b.archiveId == JBool(true)
    ensures |IdSet([a, b])| == 1
  {
    assert IdSet([a, b]) == {JInt(1)};
  }

  /** What `get_page_ads` does with a parsed response */
  datatype PageAds =
    | Throttled(response: Json)
    | Failed
    | Fetched(response: Json, extracted: Extracted)

  /** A falsy response, or one without a `data` member, is the rate-limit
      path: the retry's result is discarded and the response itself is
      returned. `'data' in data` on a number or boolean raises. */
  function GetPageAds(data: Json): (r: PageAds)
    ensures r.Throttled? <==> !Truthy(data) || Contains(data, "data") == Some(false)
    ensures r.Throttled? ==> r.response == data
    ensures r.Fetched? ==> r.response == data && data.JObj? && "data" in Keys(data.fields)
    ensures r.Failed? <==> Truthy(data) && (Contains(data, "data").None? ||
                                            (Contains(data, "data") == Some(true) && ExtractAds(data).None?))
  {
    if !Truthy(data) then Throttled(data)
    else match Contains(data, "data")
      case None => Failed
      case Some(present) =>
        if !present then Throttled(data)
        else match ExtractAds(data)
          case None => Failed
          case Some(extracted) => Fetched(data, extracted)
  }

  /** The value the caller receives */
  function Returned(r: PageAds): Json {
    match r
    case Throttled(response) => response
    case Failed => EmptyArr
    case Fetched(response, _) => response
  }

  /** The caller always receives the raw response or an empty list, never
      the extracted ads */
  lemma ReturnsResponseNotAds(data: Json)
    ensures Returned(GetPageAds(data)) == data || Returned(GetPageAds(data)) == EmptyArr
    ensures GetPageAds(data).Fetched? ==> Returned(GetPageAds(data)) == data
  {
  }

  /** A response with one edge holding one result with a string id yields
      exactly that ad */
  lemma OneResultResponse(id: string)
    requires id != []
    ensures var data := OneResultData(id);
            var r := GetPageAds(data);
            r.Fetched? && |r.extracted.ads| == 1 && r.extracted.ads[0].archiveId == JStr(id)
            && r.extracted.uniqueIds == 1
  {
    OneResultExtracted(id);
    assert Keys(OneResultData(id).fields) == ["data"];
  }

  lemma OneResultExtracted(id: string)
    requires id != []
    ensures var r := ExtractAds(OneResultData(id));
            r.Some? && |r.value.ads| == 1 && r.value.ads[0].archiveId == JStr(id) && r.value.uniqueIds == 1
  {
    OneResultCollated(id);
    OneResultWalked(OneResultData(id), id);
  }

  lemma OneResultWalked(data: Json, id: string)
    requires id != []
    requires CollatedResults(data) == Some([JObj([("ad_archive_id", JStr(id))])])
    ensures var r := ExtractAds(data);
            r.Some? && |r.value.ads| == 1 && r.value.ads[0].archiveId == JStr(id) && r.value.uniqueIds == 1
  {
    var result := JObj([("ad_archive_id", JStr(id))]);
    OneResultWalk(id);
    var ad := AdOf(result).ad;
    assert IdSet([ad]) == {JStr(id)};
    ExtractsWalked(data, [result], [ad]);
  }

  lemma ExtractsWalked(data: Json, results: seq<Json>, ads: seq<Ad>)
    requires CollatedResults(data) == Some(results) && Walk(results) == Some(ads)
    ensures ExtractAds(data) == Some(Extracted(ads, |IdSet(ads)|))
  {
  }

  /** The response of `OneResultResponse` */
  function OneResultData(id: string): Json {
    var result := JObj([("ad_archive_id", JStr(id))]);
    var edge := JObj([("node", JObj([("collated_results", JArr([result]))]))]);
    var connection := JObj([("edges", JArr([edge]))]);
    JObj([("data", JObj([("ad_library_main", JObj([("search_results_connection", connection)]))]))])
  }

  lemma OneResultWalk(id: string)
    requires id != []
    ensures var result := JObj([("ad_archive_id", JStr(id))]);
            AdOf(result).Keep? && AdOf(result).ad.archiveId == JStr(id) && Walk([result]) == Some([AdOf(result).ad])
  {
    var resultFields := [("ad_archive_id", JStr(id))];
    var result := JObj(resultFields);
    assert Field(resultFields, "ad_archive_id", JNull) == JStr(id);
    assert Field(resultFields, "snapshot", EmptyObj) == EmptyObj;
    var ad := AdOf(result).ad;
    assert [result][1..] == [];
    assert Walk([]) == Some([]);
    assert [ad] + [] == [ad];
  }

  lemma OneResultCollated(id: string)
    ensures CollatedResults(OneResultData(id)) == Some([JObj([("ad_archive_id", JStr(id))])])
  {
    var result := JObj([("ad_archive_id", JStr(id))]);
    var nodeFields := [("collated_results", JArr([result]))];
    var edgeFields := [("node", JObj(nodeFields))];
    var edge := JObj(edgeFields);
    var connFields := [("edges", JArr([edge]))];
    var mainFields := [("search_results_connection", JObj(connFields))];
    var innerFields := [("ad_library_main", JObj(mainFields))];
    var top := [("data", JObj(innerFields))];
    assert Field(edgeFields, "node", EmptyObj) == JObj(nodeFields);
    assert Field(nodeFields, "collated_results", EmptyArr) == JArr([result]);
    assert [edge][1..] == [];
    assert [result] + [] == [result];
    assert Flatten([edge]) == Some([result]);
    assert Field(connFields, "edges", EmptyArr) == JArr([edge]);
    assert Field(mainFields, "search_results_connection", EmptyObj) == JObj(connFields);
    assert Field(innerFields, "ad_library_main", EmptyObj) == JObj(mainFields);
    assert Field(top, "data", EmptyObj) == JObj(innerFields);
  }
}

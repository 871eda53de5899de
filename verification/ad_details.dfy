/** `get_ad_details` in meta.py: the id checks and swap, then the
    formatting of one ad-details response into a fixed record with
    defaults. Everything between the request and the return sits in one
    `try` whose handler answers `None`, so any raising step below makes the
    whole answer `None`. */
module AdDetails {
  import opened Maybe
  import opened PyJson
  import opened Text
  import RateLimiter

  /** The two ids after the format checks: both must be non-empty decimal
      strings, and the longer one is taken as the ad id */
  function ValidateIds(adId: string, pageId: string): (r: Option<(string, string)>)
    ensures r.Some? <==> IsDigitString(adId) && IsDigitString(pageId)
    ensures r.Some? ==> |r.value.0| >= |r.value.1|
    ensures r.Some? ==> multiset{r.value.0, r.value.1} == multiset{adId, pageId}
    ensures r.Some? && |adId| >= |pageId| ==> r.value == (adId, pageId)
  {
    if adId == [] || pageId == [] then None
    else if !AllDigits(adId) || !AllDigits(pageId) then None
    else if |adId| < |pageId| then Some((pageId, adId))
    else Some((adId, pageId))
  }

  /** Validating an already validated pair changes nothing */
  lemma ValidateIdempotent(adId: string, pageId: string)
    requires ValidateIds(adId, pageId).Some?
    ensures ValidateIds(ValidateIds(adId, pageId).value.0, ValidateIds(adId, pageId).value.1)
            == ValidateIds(adId, pageId)
  {
  }

  /** The audience-targeting part of the formatted record */
  datatype Targeting = Targeting(
    locations: seq<Json>,
    excludedLocations: seq<Json>,
    gender: Json,
    ageMin: Json,
    ageMax: Json,
    euTotalReach: Json,
    demographicBreakdown: Json)

  datatype AdPart = AdPart(
    archiveId: string,
    pageId: string,
    snapshot: Json,
    status: Json,
    spend: Json,
    isPolitical: Json,
    targeting: Targeting,
    payerBeneficiary: Json,
    isTakenDown: Json,
    hasViolations: Json)

  datatype PagePart = PagePart(
    name: Json,
    category: Json,
    about: Json,
    verification: Json,
    profileUrl: Json,
    likes: Json)

  datatype Instagram = Instagram(username: Json, followers: Json, verified: Json)

  /** The record `get_ad_details` returns */
  datatype Details = Details(ad: AdPart, page: PagePart, instagram: Instagram)

  /** `loc.get('name', '')` of a location entry; only dict entries get here */
  function NameOf(loc: Json): Json {
    Get(loc, "name", JStr("")).GetOr(JNull)
  }

  /** The names of the truthy entries, in order: what the two list
      comprehensions share out between them */
  function Names(items: seq<Json>): (ns: seq<Json>)
    ensures |ns| <= |items|
  {
    if items == [] then []
    else if Truthy(items[0]) then [NameOf(items[0])] + Names(items[1..])
    else Names(items[1..])
  }

  /** Every truthy entry is a dict, so `loc.get('excluded')` cannot raise */
  predicate TruthyAreDicts(items: seq<Json>) {
    forall i :: 0 <= i < |items| && Truthy(items[i]) ==> items[i].JObj?
  }

  lemma TruthyAreDictsCons(items: seq<Json>)
    requires items != []
    ensures TruthyAreDicts(items) <==> (Truthy(items[0]) ==> items[0].JObj?) && TruthyAreDicts(items[1..])
  {
    if TruthyAreDicts(items) {
      forall i | 0 <= i < |items[1..]| && Truthy(items[1..][i]) ensures items[1..][i].JObj? {
        assert items[1..][i] == items[i + 1];
      }
    }
    if TruthyAreDicts(items[1..]) && (Truthy(items[0]) ==> items[0].JObj?) {
      forall i | 0 <= i < |items| && Truthy(items[i]) ensures items[i].JObj? {
        if i > 0 { assert items[i] == items[1..][i - 1]; }
      }
    }
  }

  /** `loc.get('excluded')` read as a condition, for a dict entry */
  predicate Excluded(loc: Json)
    requires loc.JObj?
  {
    Truthy(Field(loc.fields, "excluded", JNull))
  }

  /** One comprehension on its own: the names of the truthy entries whose
      `excluded` flag reads as `excluded`, in order. It is meant for lists
      on which the comprehension does not raise (`TruthyAreDicts`); a truthy
      entry that is not a dict contributes nothing here. */
  function NamesWhere(items: seq<Json>, excluded: bool): (ns: seq<Json>) {
    if items == [] then []
    else Selected(items[0], excluded) + NamesWhere(items[1..], excluded)
  }

  /** The name of one entry, when it is a truthy dict whose flag reads as
      `excluded` */
  function Selected(loc: Json, excluded: bool): seq<Json> {
    if Truthy(loc) && loc.JObj? && Excluded(loc) == excluded then [NameOf(loc)] else []
  }

  /** Each comprehension keeps the order of the list: the names of a
      concatenation are the names of its parts, concatenated */
  lemma {:induction false} NamesWhereAppend(a: seq<Json>, b: seq<Json>, excluded: bool)
    ensures NamesWhere(a + b, excluded) == NamesWhere(a, excluded) + NamesWhere(b, excluded)
  {
    if a == [] {
      assert a + b == b;
    } else {
      var head := Selected(a[0], excluded);
      calc {
        NamesWhere(a + b, excluded);
      == { assert (a + b)[0] == a[0] && (a + b)[1..] == a[1..] + b; }
        head + NamesWhere(a[1..] + b, excluded);
      == { NamesWhereAppend(a[1..], b, excluded); }
        head + (NamesWhere(a[1..], excluded) + NamesWhere(b, excluded));
      ==
        NamesWhere(a, excluded) + NamesWhere(b, excluded);
      }
    }
  }

  /** The two comprehensions over `location_audience`: names of truthy
      entries whose `excluded` flag is falsy, and of those whose flag is
      truthy. Falsy entries are skipped; a truthy entry that is not a dict
      raises. */
  function SplitLocations(items: seq<Json>): (r: Option<(seq<Json>, seq<Json>)>)
    ensures r.Some? <==> TruthyAreDicts(items)
    ensures r.Some? ==> multiset(r.value.0) + multiset(r.value.1) == multiset(Names(items))
  {
    if items == [] then Some(([], []))
    else
      var rest := SplitLocations(items[1..]);
      TruthyAreDictsCons(items);
      if !Truthy(items[0]) then rest
      else match Get(items[0], "excluded", JNull)
        case None => None
        case Some(flag) =>
          match rest
          case None => None
          case Some(split) =>
            if Truthy(flag) then Some((split.0, [NameOf(items[0])] + split.1))
            else Some(([NameOf(items[0])] + split.0, split.1))
  }

  /** The split is the two comprehensions, each on its own: every truthy
      entry lands, in order, in the list its `excluded` flag selects */
  lemma {:induction false} SplitIsComprehensions(items: seq<Json>)
    requires SplitLocations(items).Some?
    ensures TruthyAreDicts(items)
    ensures SplitLocations(items).value == (NamesWhere(items, false), NamesWhere(items, true))
  {
    if items != [] {
      SplitCons(items);
      SplitIsComprehensions(items[1..]);
      NamesWhereCons(items, false);
      NamesWhereCons(items, true);
    }
  }

  /** `SplitLocations` one entry at a time */
  lemma SplitCons(items: seq<Json>)
    requires items != [] && SplitLocations(items).Some?
    ensures TruthyAreDicts(items) && SplitLocations(items[1..]).Some?
    ensures var split := SplitLocations(items[1..]).value;
            SplitLocations(items).value ==
              if !Truthy(items[0]) then split
              else if Excluded(items[0]) then (split.0, [NameOf(items[0])] + split.1)
              else ([NameOf(items[0])] + split.0, split.1)
  {
    TruthyAreDictsCons(items);
    if Truthy(items[0]) {
      assert Get(items[0], "excluded", JNull) == Some(Field(items[0].fields, "excluded", JNull));
    }
  }

  /** `NamesWhere` one entry at a time */
  lemma NamesWhereCons(items: seq<Json>, excluded: bool)
    requires items != [] && TruthyAreDicts(items)
    ensures TruthyAreDicts(items[1..])
    ensures NamesWhere(items, excluded) ==
              if Truthy(items[0]) && Excluded(items[0]) == excluded then [NameOf(items[0])] + NamesWhere(items[1..], excluded)
              else NamesWhere(items[1..], excluded)
  {
    TruthyAreDictsCons(items);
    assert [] + NamesWhere(items[1..], excluded) == NamesWhere(items[1..], excluded);
  }

  /** One location entry lands in the list its `excluded` flag selects */
  lemma ExcludedFlagRoutes(loc: Json)
    requires loc.JObj? && Truthy(loc)
    ensures Truthy(Get(loc, "excluded", JNull).value) ==> SplitLocations([loc]) == Some(([], [NameOf(loc)]))
    ensures !Truthy(Get(loc, "excluded", JNull).value) ==> SplitLocations([loc]) == Some(([NameOf(loc)], []))
  {
    var items := [loc];
    assert items[0] == loc && items[1..] == [];
    assert SplitLocations(items[1..]) == Some(([], []));
    var flag := Get(loc, "excluded", JNull);
    assert flag.Some?;
    assert [NameOf(loc)] + [] == [NameOf(loc)];
    if Truthy(flag.value) {
      assert SplitLocations(items) == Some(([], [NameOf(loc)]));
    } else {
      assert SplitLocations(items) == Some(([NameOf(loc)], []));
    }
  }

  /** The `targeting` record built from the fields of `aaa_info` */
  function FormatTargeting(aaa: seq<(string, Json)>): (r: Option<Targeting>)
    ensures "gender_audience" !in Keys(aaa) && r.Some? ==> r.value.gender == JStr("Unknown")
    ensures !Truthy(Field(aaa, "location_audience", JNull)) && r.Some? ==>
              r.value.locations == [] && r.value.excludedLocations == []
    ensures "age_audience" !in Keys(aaa) && r.Some? ==> r.value.ageMin == JNull && r.value.ageMax == JNull
    ensures Field(aaa, "age_audience", EmptyObj).JObj? && !Truthy(Field(aaa, "location_audience", JNull)) ==> r.Some?
    ensures r.Some? ==> Field(aaa, "age_audience", EmptyObj).JObj?
    ensures var audience := Field(aaa, "location_audience", JNull);
            r.Some? <==> && Field(aaa, "age_audience", EmptyObj).JObj?
                         && (Truthy(audience) ==> Iter(audience).Some? && TruthyAreDicts(Iter(audience).value))
    ensures r.Some? ==> GetsAs(aaa, "gender_audience", JStr("Unknown"), r.value.gender)
    ensures r.Some? ==> var ages := Field(aaa, "age_audience", EmptyObj);
                        && ages.JObj?
                        && GetsAs(ages.fields, "min", JNull, r.value.ageMin)
                        && GetsAs(ages.fields, "max", JNull, r.value.ageMax)
    ensures r.Some? ==> GetsAs(aaa, "eu_total_reach", JNull, r.value.euTotalReach)
    ensures r.Some? ==> GetsAs(aaa, "age_country_gender_reach_breakdown", EmptyArr, r.value.demographicBreakdown)
  {
    var audience := Field(aaa, "location_audience", JNull);
    var ages := Field(aaa, "age_audience", EmptyObj);
    if !ages.JObj? then None
    else
      var split :- if !Truthy(audience) then Some(([], []))
                   else match Iter(audience)
                     case None => None
                     case Some(items) => SplitLocations(items);
      Some(Targeting(
        split.0,
        split.1,
        Field(aaa, "gender_audience", JStr("Unknown")),
        Field(ages.fields, "min", JNull),
        Field(ages.fields, "max", JNull),
        Field(aaa, "eu_total_reach", JNull),
        Field(aaa, "age_country_gender_reach_breakdown", EmptyArr)))
  }

  /** With a truthy `location_audience`, the two location lists are the two
      comprehensions over its entries */
  lemma TargetingLocations(aaa: seq<(string, Json)>)
    requires FormatTargeting(aaa).Some?
    requires Truthy(Field(aaa, "location_audience", JNull))
    ensures var items := Iter(Field(aaa, "location_audience", JNull));
            && items.Some? && TruthyAreDicts(items.value)
            && FormatTargeting(aaa).value.locations == NamesWhere(items.value, false)
            && FormatTargeting(aaa).value.excludedLocations == NamesWhere(items.value, true)
  {
    var items := Iter(Field(aaa, "location_audience", JNull));
    assert items.Some? && SplitLocations(items.value).Some?;
    SplitIsComprehensions(items.value);
  }

  /** An `age_audience` that is present but not a dict (a JSON `null`, say)
      makes the whole record fail, although the rest of the formatting
      guards its look-ups with defaults */
  lemma NullAgeAudienceFails(aaa: seq<(string, Json)>)
    requires Lookup(aaa, "age_audience") == Some(JNull)
    ensures FormatTargeting(aaa).None?
  {
  }

  /** `lifetime_by_disclaimer[0].get('spend')` when the disclaimers form a
      non-empty list, otherwise nothing; the `.get` raises when the first
      entry is not a dict */
  function Spend(pageSpend: seq<(string, Json)>): (r: Option<Json>)
    ensures var ds := Field(pageSpend, "lifetime_by_disclaimer", EmptyArr);
            r.Some? && r.value != JNull ==> ds.JArr? && ds.items != [] && ds.items[0].JObj?
    ensures var ds := Field(pageSpend, "lifetime_by_disclaimer", EmptyArr);
            !(ds.JArr? && ds.items != []) ==> r == Some(JNull)
    ensures var ds := Field(pageSpend, "lifetime_by_disclaimer", EmptyArr);
            ds.JArr? && ds.items != [] ==>
              && (r.Some? <==> ds.items[0].JObj?)
              && (r.Some? ==> GetsAs(ds.items[0].fields, "spend", JNull, r.value))
  {
    var disclaimers := Field(pageSpend, "lifetime_by_disclaimer", EmptyArr);
    if Truthy(disclaimers) && disclaimers.JArr? then
      match disclaimers.items[0]
      case JObj(first) => Some(Field(first, "spend", JNull))
      case _ => None
    else Some(JNull)
  }

  /** Only the first disclaimer is read: what follows it never changes the
      spend */
  lemma OnlyFirstDisclaimer(pageSpend: seq<(string, Json)>, other: seq<(string, Json)>, first: Json, rest: seq<Json>, rest': seq<Json>)
    requires Lookup(pageSpend, "lifetime_by_disclaimer") == Some(JArr([first] + rest))
    requires Lookup(other, "lifetime_by_disclaimer") == Some(JArr([first] + rest'))
    ensures Spend(pageSpend) == Spend(other)
  {
    assert ([first] + rest)[0] == first && ([first] + rest')[0] == first;
  }

  /** The loop over `data['errors']` that logs each entry's path and
      message: it raises when `errors` cannot be iterated or holds a truthy
      entry that is not a dict */
  predicate ErrorsLoggable(data: seq<(string, Json)>) {
    "errors" !in Keys(data) ||
    match Iter(Field(data, "errors", EmptyArr))
    case None => false
    case Some(errors) => TruthyAreDicts(errors)
  }

  /** `value or {}` */
  function OrEmpty(value: Json): Json {
    Or(value, EmptyObj)
  }

  /** Lines 449-551 of meta.py for a parsed response `data` and the
      validated ids. The snapshot look-up through `get_page_ads` always
      raises (it is called without its required arguments) and is caught,
      so `snapshot` and `status` stay `None`; its one effect, on the rate
      limiter, is `SnapshotJoin`. */
  function FormatDetails(adId: string, pageId: string, data: Json): (r: Option<Details>)
    ensures r.Some? ==> Truthy(data) && data.JObj? && "data" in Keys(data.fields)
    ensures r.Some? ==> ErrorsLoggable(data.fields)
    ensures r.Some? ==> r.value.ad.archiveId == adId && r.value.ad.pageId == pageId
    ensures r.Some? ==> r.value.ad.snapshot == JNull && r.value.ad.status == JNull
    ensures AdvertiserOf(data).None? ==> r.None?
    ensures AdvertiserOf(data).Some? ==>
              var path := AdvertiserOf(data).value;
              r == FromAdvertiser(adId, pageId, path.top, path.details, path.advertiser)
  {
    match AdvertiserOf(data)
    case None => None
    case Some(path) => FromAdvertiser(adId, pageId, path.top, path.details, path.advertiser)
  }

  /** The dicts on the way to the advertiser: the response's own fields,
      `ad_details` and `advertiser` */
  datatype Path = Path(top: seq<(string, Json)>, details: seq<(string, Json)>, advertiser: seq<(string, Json)>)

  /** The walk down `data.ad_library_main.ad_details.advertiser`; `None`
      where a step raises or the falsy check fires */
  function AdvertiserOf(data: Json): (r: Option<Path>)
    ensures r.Some? ==> Truthy(data) && data.JObj? && "data" in Keys(data.fields) && r.value.top == data.fields
  {
    if !Truthy(data) || Contains(data, "data") != Some(true) then None
    else match data
      case JObj(top) =>
        var inner :- Child(top, "data", false);
        var main :- Child(inner, "ad_library_main", true);
        var details :- Child(main, "ad_details", true);
        var advertiser :- Child(details, "advertiser", true);
        Some(Path(top, details, advertiser))
      case _ => None
  }

  /** One step of the walk: `fields.get(k, {})`, which must be a dict to be
      stepped into, and also truthy when `guarded` (the `if not ...` checks) */
  function Child(fields: seq<(string, Json)>, k: string, guarded: bool): (r: Option<seq<(string, Json)>>)
    ensures r.Some? ==> Field(fields, k, EmptyObj) == JObj(r.value)
    ensures r.Some? && guarded ==> r.value != []
  {
    var v := Field(fields, k, EmptyObj);
    if (guarded && !Truthy(v)) || !v.JObj? then None else Some(v.fields)
  }

  lemma ChildFound(fields: seq<(string, Json)>, k: string, guarded: bool, c: seq<(string, Json)>)
    requires Lookup(fields, k) == Some(JObj(c))
    requires guarded ==> c != []
    ensures Child(fields, k, guarded) == Some(c)
  {
  }

  /** The record built once the `advertiser` dict is reached; `top` is the
      response's own fields, where `errors` sits */
  function FromAdvertiser(adId: string, pageId: string, top: seq<(string, Json)>,
                          details: seq<(string, Json)>, advertiser: seq<(string, Json)>): (r: Option<Details>)
    ensures r.Some? <==> Formatted(adId, pageId, details, advertiser).Some? && ErrorsLoggable(top)
    ensures r.Some? ==> r.value.ad.archiveId == adId && r.value.ad.pageId == pageId
    ensures r.Some? ==> r.value.ad.snapshot == JNull && r.value.ad.status == JNull
    ensures r.Some? ==> r == Formatted(adId, pageId, details, advertiser)
  {
    var formatted :- Formatted(adId, pageId, details, advertiser);
    if !ErrorsLoggable(top) then None else Some(formatted)
  }

  /** The four dicts the record is read from, each after its `or {}`:
      `page`, `page_info`, `page_spend` and `aaa_info` */
  datatype Sources = Sources(
    page: seq<(string, Json)>,
    pageInfo: seq<(string, Json)>,
    pageSpend: seq<(string, Json)>,
    aaa: seq<(string, Json)>)

  /** Lines 473-476 of meta.py and the first `.get` on each result: a
      truthy non-dict where a dict is read from raises */
  function SourcesOf(details: seq<(string, Json)>, advertiser: seq<(string, Json)>): (r: Option<Sources>)
    ensures var info := OrEmpty(Field(advertiser, "ad_library_page_info", EmptyObj));
            r.Some? <==> && OrEmpty(Field(advertiser, "page", EmptyObj)).JObj?
                         && OrEmpty(Field(details, "aaa_info", EmptyObj)).JObj?
                         && info.JObj?
                         && OrEmpty(Field(info.fields, "page_info", EmptyObj)).JObj?
                         && OrEmpty(Field(info.fields, "page_spend", EmptyObj)).JObj?
    ensures r.Some? ==> JObj(r.value.page) == OrEmpty(Field(advertiser, "page", EmptyObj))
    ensures r.Some? ==> JObj(r.value.aaa) == OrEmpty(Field(details, "aaa_info", EmptyObj))
    ensures r.Some? ==> var info := OrEmpty(Field(advertiser, "ad_library_page_info", EmptyObj));
                        && info.JObj?
                        && JObj(r.value.pageInfo) == OrEmpty(Field(info.fields, "page_info", EmptyObj))
                        && JObj(r.value.pageSpend) == OrEmpty(Field(info.fields, "page_spend", EmptyObj))
  {
    var page := OrEmpty(Field(advertiser, "page", EmptyObj));
    var libraryInfo := OrEmpty(Field(advertiser, "ad_library_page_info", EmptyObj));
    if !libraryInfo.JObj? then None
    else
      var pageInfo := OrEmpty(Field(libraryInfo.fields, "page_info", EmptyObj));
      var pageSpend := OrEmpty(Field(libraryInfo.fields, "page_spend", EmptyObj));
      var aaa := OrEmpty(Field(details, "aaa_info", EmptyObj));
      if !page.JObj? || !pageInfo.JObj? || !pageSpend.JObj? || !aaa.JObj? then None
      else Some(Sources(page.fields, pageInfo.fields, pageSpend.fields, aaa.fields))
  }

  /** The record as it stands when the snapshot look-up is attempted,
      before the `errors` entries are logged: each part formatted from its
      source dicts */
  function Formatted(adId: string, pageId: string, details: seq<(string, Json)>, advertiser: seq<(string, Json)>)
    : (r: Option<Details>)
    ensures r.Some? ==> r.value.ad.archiveId == adId && r.value.ad.pageId == pageId
    ensures r.Some? ==> r.value.ad.snapshot == JNull && r.value.ad.status == JNull
    ensures r.Some? <==> && SourcesOf(details, advertiser).Some?
                         && Spend(SourcesOf(details, advertiser).value.pageSpend).Some?
                         && FormatTargeting(SourcesOf(details, advertiser).value.aaa).Some?
                         && FormatPage(SourcesOf(details, advertiser).value.page,
                                       SourcesOf(details, advertiser).value.pageInfo).Some?
    ensures r.Some? ==>
              var src := SourcesOf(details, advertiser).value;
              && r.value.ad.spend == Spend(src.pageSpend).value
              && FormatAd(adId, pageId, r.value.ad.spend, src.pageSpend, src.aaa) == Some(r.value.ad)
              && FormatPage(src.page, src.pageInfo) == Some(r.value.page)
              && r.value.instagram == FormatInstagram(src.pageInfo)
  {
    var src :- SourcesOf(details, advertiser);
    var spend :- Spend(src.pageSpend);
    var ad :- FormatAd(adId, pageId, spend, src.pageSpend, src.aaa);
    var pagePart :- FormatPage(src.page, src.pageInfo);
    Some(Details(ad, pagePart, FormatInstagram(src.pageInfo)))
  }

  /** Whether formatting gets as far as the snapshot look-up */
  predicate ReachesSnapshotJoin(adId: string, pageId: string, data: Json) {
    match AdvertiserOf(data)
    case None => false
    case Some(path) => Formatted(adId, pageId, path.details, path.advertiser).Some?
  }

  /** The shared `get_page_ads` limiter after the snapshot look-up: the
      decorator prunes, may sleep and records the call before the wrapped
      call raises for its missing arguments. If the decorator itself raises
      (no room and nothing to wait for), the pruned list has already been
      stored. */
  function SnapshotJoin(l: RateLimiter.Limiter, now: int, after: int): (r: RateLimiter.Limiter)
    ensures r.maxCalls == l.maxCalls && r.period == l.period
    ensures RateLimiter.Admit(l, now, after).Some? ==> r.calls == RateLimiter.Prune(l.calls, now, l.period) + [after]
    ensures RateLimiter.Admit(l, now, after).None? ==> r.calls == RateLimiter.Prune(l.calls, now, l.period)
  {
    match RateLimiter.Admit(l, now, after)
    case Some(admission) => admission.next
    case None => l.(calls := RateLimiter.Prune(l.calls, now, l.period))
  }

  /** The `ad` part; `spend` is filled in from the disclaimers */
  function FormatAd(adId: string, pageId: string, spend: Json, pageSpend: seq<(string, Json)>, aaa: seq<(string, Json)>)
    : (r: Option<AdPart>)
    ensures r.Some? <==> FormatTargeting(aaa).Some?
    ensures r.Some? ==> r.value.archiveId == adId && r.value.pageId == pageId && r.value.spend == spend
    ensures r.Some? ==> r.value.snapshot == JNull && r.value.status == JNull
    ensures r.Some? && "is_political_page" !in Keys(pageSpend) ==> r.value.isPolitical == JBool(false)
    ensures r.Some? && "is_ad_taken_down" !in Keys(aaa) ==> r.value.isTakenDown == JBool(false)
    ensures r.Some? ==> r.value.targeting == FormatTargeting(aaa).value
    ensures r.Some? ==> GetsAs(pageSpend, "is_political_page", JBool(false), r.value.isPolitical)
    ensures r.Some? ==> GetsAs(aaa, "payer_beneficiary_data", EmptyArr, r.value.payerBeneficiary)
    ensures r.Some? ==> GetsAs(aaa, "is_ad_taken_down", JBool(false), r.value.isTakenDown)
    ensures r.Some? ==> GetsAs(aaa, "has_violating_payer_beneficiary", JBool(false), r.value.hasViolations)
  {
    var targeting :- FormatTargeting(aaa);
    Some(AdPart(
      adId, pageId, JNull, JNull, spend,
      Field(pageSpend, "is_political_page", JBool(false)),
      targeting,
      Field(aaa, "payer_beneficiary_data", EmptyArr),
      Field(aaa, "is_ad_taken_down", JBool(false)),
      Field(aaa, "has_violating_payer_beneficiary", JBool(false))))
  }

  /** The `page` part: `about` is read through `(page.get('about') or {})`,
      which raises when `about` is a truthy non-dict */
  function FormatPage(page: seq<(string, Json)>, pageInfo: seq<(string, Json)>): (r: Option<PagePart>)
    ensures r.Some? <==> OrEmpty(Field(page, "about", EmptyObj)).JObj?
    ensures r.Some? && "page_name" !in Keys(pageInfo) ==> r.value.name == JStr("Unknown")
    ensures r.Some? && "page_verification" !in Keys(pageInfo) ==> r.value.verification == JStr("Unknown")
    ensures r.Some? && "likes" !in Keys(pageInfo) ==> r.value.likes == JInt(0)
    ensures r.Some? ==> GetsAs(pageInfo, "page_name", JStr("Unknown"), r.value.name)
    ensures r.Some? ==> GetsAs(pageInfo, "page_category", JStr("Unknown"), r.value.category)
    ensures r.Some? ==> GetsAs(pageInfo, "page_verification", JStr("Unknown"), r.value.verification)
    ensures r.Some? ==> GetsAs(pageInfo, "page_profile_uri", JNull, r.value.profileUrl)
    ensures r.Some? ==> GetsAs(pageInfo, "likes", JInt(0), r.value.likes)
    ensures r.Some? && !Truthy(Field(page, "about", EmptyObj)) ==> r.value.about == JNull
    ensures r.Some? && Truthy(Field(page, "about", EmptyObj)) ==>
              && Field(page, "about", EmptyObj).JObj?
              && GetsAs(Field(page, "about", EmptyObj).fields, "text", JNull, r.value.about)
  {
    var about := OrEmpty(Field(page, "about", EmptyObj));
    if !about.JObj? then None
    else Some(PagePart(
      Field(pageInfo, "page_name", JStr("Unknown")),
      Field(pageInfo, "page_category", JStr("Unknown")),
      Field(about.fields, "text", JNull),
      Field(pageInfo, "page_verification", JStr("Unknown")),
      Field(pageInfo, "page_profile_uri", JNull),
      Field(pageInfo, "likes", JInt(0))))
  }

  /** The `instagram` part */
  function FormatInstagram(pageInfo: seq<(string, Json)>): (r: Instagram)
    ensures "ig_username" !in Keys(pageInfo) ==> r.username == JNull
    ensures "ig_followers" !in Keys(pageInfo) ==> r.followers == JInt(0)
    ensures "ig_verification" !in Keys(pageInfo) ==> r.verified == JBool(false)
    ensures GetsAs(pageInfo, "ig_username", JNull, r.username)
    ensures GetsAs(pageInfo, "ig_followers", JInt(0), r.followers)
    ensures GetsAs(pageInfo, "ig_verification", JBool(false), r.verified)
  {
    Instagram(
      Field(pageInfo, "ig_username", JNull),
      Field(pageInfo, "ig_followers", JInt(0)),
      Field(pageInfo, "ig_verification", JBool(false)))
  }

  /** `get_ad_details`: invalid ids answer `None` before any request is
      built; otherwise one request is made (advancing the request counter)
      with the possibly swapped ids, and `respond` stands for the HTTP round
      trip and parsing, `None` when the post or `raise_for_status` raises.
      `limiter` is the `get_page_ads` limiter, which the snapshot look-up
      passes through; `now` and `after` are its clock readings. */
  function GetAdDetails(adId: string, pageId: string, counter: nat, limiter: RateLimiter.Limiter, now: int, after: int,
                        respond: (string, string) -> Option<Json>)
    : (r: (Option<Details>, nat, RateLimiter.Limiter))
    ensures !IsDigitString(adId) || !IsDigitString(pageId) ==> r == (None, counter, limiter)
    ensures IsDigitString(adId) && IsDigitString(pageId) ==> r.1 == counter + 1
    ensures r.0.Some? ==> |r.0.value.ad.archiveId| >= |r.0.value.ad.pageId|
    ensures r.0.Some? ==> multiset{r.0.value.ad.archiveId, r.0.value.ad.pageId} == multiset{adId, pageId}
    ensures r.0.Some? ==> r.2 == SnapshotJoin(limiter, now, after)
    ensures r.2 == limiter || r.2 == SnapshotJoin(limiter, now, after)
    ensures ValidateIds(adId, pageId).Some? ==>
              var ids := ValidateIds(adId, pageId).value;
              match respond(ids.0, ids.1)
              case None => r == (None, counter + 1, limiter)
              case Some(data) =>
                && r.0 == FormatDetails(ids.0, ids.1, data)
                && (ReachesSnapshotJoin(ids.0, ids.1, data) ==> r.2 == SnapshotJoin(limiter, now, after))
                && (!ReachesSnapshotJoin(ids.0, ids.1, data) ==> r.2 == limiter)
  {
    match ValidateIds(adId, pageId)
    case None => (None, counter, limiter)
    case Some(ids) =>
      match respond(ids.0, ids.1)
      case None => (None, counter + 1, limiter)
      case Some(data) => (FormatDetails(ids.0, ids.1, data), counter + 1, Joined(ids.0, ids.1, data, limiter, now, after))
  }

  /** The limiter once a response has been formatted: the snapshot call's
      decorator runs exactly when formatting reaches it */
  function Joined(adId: string, pageId: string, data: Json, limiter: RateLimiter.Limiter, now: int, after: int)
    : (r: RateLimiter.Limiter)
    ensures ReachesSnapshotJoin(adId, pageId, data) ==> r == SnapshotJoin(limiter, now, after)
    ensures !ReachesSnapshotJoin(adId, pageId, data) ==> r == limiter
    ensures FormatDetails(adId, pageId, data).Some? ==> r == SnapshotJoin(limiter, now, after)
  {
    if ReachesSnapshotJoin(adId, pageId, data) then SnapshotJoin(limiter, now, after) else limiter
  }

  /** Ids of different lengths may be passed in either order */
  lemma ArgumentOrderIrrelevant(adId: string, pageId: string, counter: nat, limiter: RateLimiter.Limiter, now: int, after: int,
                                respond: (string, string) -> Option<Json>)
    requires |adId| != |pageId|
    ensures GetAdDetails(adId, pageId, counter, limiter, now, after, respond)
         == GetAdDetails(pageId, adId, counter, limiter, now, after, respond)
  {
    assert ValidateIds(adId, pageId) == ValidateIds(pageId, adId);
  }

  lemma HasData(top: seq<(string, Json)>, inner: seq<(string, Json)>)
    requires Lookup(top, "data") == Some(JObj(inner))
    ensures Truthy(JObj(top)) && Contains(JObj(top), "data") == Some(true)
  {
    assert "data" in Keys(top);
  }

  /** A response that leads down `data.ad_library_main.ad_details.advertiser`
      to dicts is formatted from that advertiser */
  lemma ReachesAdvertiser(top: seq<(string, Json)>, inner: seq<(string, Json)>,
                          main: seq<(string, Json)>, details: seq<(string, Json)>, advertiser: seq<(string, Json)>)
    requires Stores(top, "data", JObj(inner))
    requires Stores(inner, "ad_library_main", JObj(main)) && main != []
    requires Stores(main, "ad_details", JObj(details)) && details != []
    requires Stores(details, "advertiser", JObj(advertiser)) && advertiser != []
    ensures AdvertiserOf(JObj(top)) == Some(Path(top, details, advertiser))
  {
    HasData(top, inner);
    ChildFound(top, "data", false, inner);
    ChildFound(inner, "ad_library_main", true, main);
    ChildFound(main, "ad_details", true, details);
    ChildFound(details, "advertiser", true, advertiser);
  }

  /** An advertiser without `page` and `ad_library_page_info`, in details
      without `aaa_info`, yields the documented defaults */
  lemma SparseAdvertiserDefaults(adId: string, pageId: string, top: seq<(string, Json)>,
                                 details: seq<(string, Json)>, advertiser: seq<(string, Json)>)
    requires ErrorsLoggable(top)
    requires "page" !in Keys(advertiser) && "ad_library_page_info" !in Keys(advertiser)
    requires "aaa_info" !in Keys(details)
    ensures var r := FromAdvertiser(adId, pageId, top, details, advertiser);
            && r.Some?
            && r.value.page.name == JStr("Unknown")
            && r.value.page.likes == JInt(0)
            && r.value.ad.targeting.gender == JStr("Unknown")
            && r.value.ad.targeting.locations == []
            && r.value.ad.spend == JNull
            && r.value.instagram.followers == JInt(0)
  {
    assert Field(advertiser, "page", EmptyObj) == EmptyObj;
    assert Field(advertiser, "ad_library_page_info", EmptyObj) == EmptyObj;
    assert Field(details, "aaa_info", EmptyObj) == EmptyObj;
    assert Spend([]) == Some(JNull);
    assert FormatTargeting([]).Some?;
    assert FormatPage([], []).Some?;
  }

  /** Non-empty dicts stored under `ad_library_page_info`, `page_info` and
      `page_spend` are the sources the record is read from */
  lemma InfoSources(details: seq<(string, Json)>, advertiser: seq<(string, Json)>,
                    info: seq<(string, Json)>, pageInfo: seq<(string, Json)>, pageSpend: seq<(string, Json)>)
    requires SourcesOf(details, advertiser).Some?
    requires Stores(advertiser, "ad_library_page_info", JObj(info)) && info != []
    requires Stores(info, "page_info", JObj(pageInfo)) && pageInfo != []
    requires Stores(info, "page_spend", JObj(pageSpend)) && pageSpend != []
    ensures SourcesOf(details, advertiser).value.pageInfo == pageInfo
    ensures SourcesOf(details, advertiser).value.pageSpend == pageSpend
  {
    assert OrEmpty(Field(advertiser, "ad_library_page_info", EmptyObj)) == JObj(info);
    assert OrEmpty(Field(info, "page_info", EmptyObj)) == JObj(pageInfo);
    assert OrEmpty(Field(info, "page_spend", EmptyObj)) == JObj(pageSpend);
  }

  /** Whenever the record is returned, a page name stored in `page_info`
      and the spend of the first disclaimer in `page_spend` are the values
      it reports, whatever else the response holds */
  lemma PresentValuesReported(adId: string, pageId: string, top: seq<(string, Json)>,
                              details: seq<(string, Json)>, advertiser: seq<(string, Json)>,
                              info: seq<(string, Json)>, pageInfo: seq<(string, Json)>, pageSpend: seq<(string, Json)>,
                              items: seq<Json>, first: seq<(string, Json)>, name: Json, spend: Json)
    requires FromAdvertiser(adId, pageId, top, details, advertiser).Some?
    requires Stores(advertiser, "ad_library_page_info", JObj(info)) && info != []
    requires Stores(info, "page_info", JObj(pageInfo)) && pageInfo != []
    requires Stores(info, "page_spend", JObj(pageSpend)) && pageSpend != []
    requires Stores(pageInfo, "page_name", name)
    requires Stores(pageSpend, "lifetime_by_disclaimer", JArr(items))
    requires items != [] && items[0] == JObj(first)
    requires Stores(first, "spend", spend)
    ensures var r := FromAdvertiser(adId, pageId, top, details, advertiser).value;
            r.page.name == name && r.ad.spend == spend
  {
    var r := Formatted(adId, pageId, details, advertiser);
    assert FromAdvertiser(adId, pageId, top, details, advertiser) == r;
    InfoSources(details, advertiser, info, pageInfo, pageSpend);
    assert r.value.page == FormatPage(SourcesOf(details, advertiser).value.page, pageInfo).value;
    assert r.value.ad.spend == Spend(pageSpend).value;
  }
}

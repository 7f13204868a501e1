/**
 * The crawler's main run: resolve the prefectures on the landing page, visit
 * each prefecture page, merge its organizations, visit each kept wishlist and
 * record the organizations that offer at least one item.
 *
 * The site is given as what each page would show. A page missing from a map
 * stands for a visit that failed; its unit is skipped, as the crawler's
 * `try`/`catch` blocks do.
 */
module Crawl {
  import opened Wrappers
  import opened Seqs
  import opened Text
  import opened Prefectures
  import opened Organizations
  import opened Items

  /** One entry of the saved data. */
  datatype OrgRecord = OrgRecord(orgName: string, orgUrl: string, prefecture: string, items: seq<Item>)

  /**
   * The pages the crawler can reach: the landing page's anchors (`None`
   * when it cannot be loaded), the prefecture pages and the wishlist pages
   * by address.
   */
  datatype Site = Site(
    landing: Option<seq<Anchor>>,
    prefecturePages: map<string, seq<AnchorContext>>,
    wishlistPages: map<string, seq<Node>>)

  /** What every saved entry satisfies. */
  ghost predicate ValidRecord(r: OrgRecord) {
    && |r.items| > 0
    && (forall k :: 0 <= k < |r.items| ==> ValidItem(r.items[k]))
    && Distinct(Links(r.items))
    && r.prefecture in TargetPrefectures
    && Contains(r.orgUrl, WISHLIST_PATH)
  }

  /** The entry for one kept organization, when its wishlist loads and has items. */
  function OrgEntry(site: Site, parse: string -> JsonKeys, prefName: string, org: Org): seq<OrgRecord> {
    if org.url in site.wishlistPages && PageItems(site.wishlistPages[org.url], parse) != [] then
      [OrgRecord(org.name, org.url, prefName, PageItems(site.wishlistPages[org.url], parse))]
    else []
  }

  /** The entries for the kept organizations of one prefecture, in order. */
  function OrgRecords(site: Site, parse: string -> JsonKeys, prefName: string, orgs: seq<Org>): seq<OrgRecord> {
    if orgs == [] then []
    else OrgRecords(site, parse, prefName, orgs[..|orgs| - 1]) + OrgEntry(site, parse, prefName, orgs[|orgs| - 1])
  }

  /** The entries for one prefecture: none when its page does not load. */
  function PrefRecords(site: Site, parse: string -> JsonKeys, pref: PrefLink): seq<OrgRecord> {
    if pref.url in site.prefecturePages then
      OrgRecords(site, parse, pref.name, MergedOrgs(PageOrganizations(site.prefecturePages[pref.url], pref.name)))
    else []
  }

  function AllRecords(site: Site, parse: string -> JsonKeys, prefs: seq<PrefLink>): seq<OrgRecord> {
    if prefs == [] then []
    else AllRecords(site, parse, prefs[..|prefs| - 1]) + PrefRecords(site, parse, prefs[|prefs| - 1])
  }

  /** The prefectures the run visits. */
  function VisitedPrefectures(anchors: seq<Anchor>): seq<PrefLink> {
    UniquePrefectures(Candidates(TargetPrefectures, anchors))
  }

  /** The saved data of a run: prefecture by prefecture, organization by organization. */
  function Records(site: Site, parse: string -> JsonKeys): seq<OrgRecord> {
    match site.landing
    case None => []
    case Some(anchors) => AllRecords(site, parse, VisitedPrefectures(anchors))
  }

  /** `links.map(...)`: the organizations of a prefecture page, each named by the ancestor walk. */
  method CollectOrganizations(page: seq<AnchorContext>, prefName: string) returns (orgs: seq<Org>)
    ensures orgs == PageOrganizations(page, prefName)
  {
    var links := WishlistAnchors(page);
    ghost var expected := PageOrganizations(page, prefName);
    assert |expected| == |links|;
    orgs := [];
    for i := 0 to |links|
      invariant orgs == expected[..i]
    {
      var name := InferName(links[i]);
      assert expected[i] == Org(name, links[i].href, prefName);
      orgs := orgs + [Org(name, links[i].href, prefName)];
      assert expected[..i + 1] == expected[..i] + [expected[i]];
    }
    assert expected[..|links|] == expected;
  }

  /** The `for (const org of uniqueOrgs)` loop. */
  method VisitWishlists(site: Site, parse: string -> JsonKeys, prefName: string, uniqueOrgs: seq<Org>)
    returns (records: seq<OrgRecord>)
    ensures records == OrgRecords(site, parse, prefName, uniqueOrgs)
    ensures |records| <= |uniqueOrgs|
  {
    records := [];
    for i := 0 to |uniqueOrgs|
      invariant records == OrgRecords(site, parse, prefName, uniqueOrgs[..i])
      invariant |records| <= i
    {
      assert uniqueOrgs[..i + 1][..i] == uniqueOrgs[..i];
      var org := uniqueOrgs[i];
      if org.url in site.wishlistPages {
        var results := ScanNodes(site.wishlistPages[org.url], parse);
        var items := DedupByLink(results);
        if |items| > 0 {
          records := records + [OrgRecord(org.name, org.url, prefName, items)];
        }
      }
    }
    assert uniqueOrgs[..|uniqueOrgs|] == uniqueOrgs;
  }

  /** The crawler's run; `allData` is what is saved. */
  method Crawl(site: Site, parse: string -> JsonKeys) returns (allData: seq<OrgRecord>)
    ensures allData == Records(site, parse)
    ensures forall k :: 0 <= k < |allData| ==> ValidRecord(allData[k])
    ensures |allData| <= MAX_PREFECTURES * MAX_ORGS_PER_PREF
  {
    allData := [];
    if site.landing.None? {
      return;
    }
    var prefectureLinks := ResolveCandidates(TargetPrefectures, site.landing.value);
    var uniquePrefs := UniquePrefectures(prefectureLinks);
    allData := VisitPrefectures(site, parse, uniquePrefs);
    RecordsValid(site, parse);
  }

  /** The `for (const pref of uniquePrefs)` loop. */
  method VisitPrefectures(site: Site, parse: string -> JsonKeys, uniquePrefs: seq<PrefLink>)
    returns (allData: seq<OrgRecord>)
    ensures allData == AllRecords(site, parse, uniquePrefs)
  {
    allData := [];
    for i := 0 to |uniquePrefs|
      invariant allData == AllRecords(site, parse, uniquePrefs[..i])
    {
      assert uniquePrefs[..i + 1][..i] == uniquePrefs[..i];
      var pref := uniquePrefs[i];
      if pref.url in site.prefecturePages {
        var organizations := CollectOrganizations(site.prefecturePages[pref.url], pref.name);
        var uniqueOrgs := MergeByUrl(organizations);
        var records := VisitWishlists(site, parse, pref.name, uniqueOrgs);
        allData := allData + records;
      }
    }
    assert uniquePrefs[..|uniquePrefs|] == uniquePrefs;
  }

  /** The entries made for a list of organizations are valid when the organizations have wishlist addresses. */
  lemma {:induction false} OrgRecordsValid(site: Site, parse: string -> JsonKeys, prefName: string, orgs: seq<Org>)
    requires prefName in TargetPrefectures
    requires forall i :: 0 <= i < |orgs| ==> Contains(orgs[i].url, WISHLIST_PATH)
    ensures forall k :: 0 <= k < |OrgRecords(site, parse, prefName, orgs)| ==> ValidRecord(OrgRecords(site, parse, prefName, orgs)[k])
    ensures |OrgRecords(site, parse, prefName, orgs)| <= |orgs|
  {
    if orgs != [] {
      var n := |orgs| - 1;
      OrgRecordsValid(site, parse, prefName, orgs[..n]);
      var org := orgs[n];
      if org.url in site.wishlistPages {
        PageItemsFacts(site.wishlistPages[org.url], parse);
      }
    }
  }

  /** One prefecture yields at most `MAX_ORGS_PER_PREF` entries, all valid. */
  lemma PrefRecordsValid(site: Site, parse: string -> JsonKeys, pref: PrefLink)
    requires pref.name in TargetPrefectures
    ensures forall k :: 0 <= k < |PrefRecords(site, parse, pref)| ==> ValidRecord(PrefRecords(site, parse, pref)[k])
    ensures |PrefRecords(site, parse, pref)| <= MAX_ORGS_PER_PREF
  {
    if pref.url in site.prefecturePages {
      var orgs := PageOrganizations(site.prefecturePages[pref.url], pref.name);
      OrganizationsFacts(site.prefecturePages[pref.url], pref.name);
      MergedOrgsKept(orgs);
      MergedOrgsUrls(orgs);
      var merged := MergedOrgs(orgs);
      forall i | 0 <= i < |merged|
        ensures Contains(merged[i].url, WISHLIST_PATH)
      {
        var j :| IsKept(orgs, merged[i].url, j) && merged[i] == orgs[j];
      }
      OrgRecordsValid(site, parse, pref.name, merged);
    }
  }

  lemma {:induction false} AllRecordsValid(site: Site, parse: string -> JsonKeys, prefs: seq<PrefLink>)
    requires forall i :: 0 <= i < |prefs| ==> prefs[i].name in TargetPrefectures
    ensures forall k :: 0 <= k < |AllRecords(site, parse, prefs)| ==> ValidRecord(AllRecords(site, parse, prefs)[k])
    ensures |AllRecords(site, parse, prefs)| <= MAX_ORGS_PER_PREF * |prefs|
  {
    if prefs != [] {
      var n := |prefs| - 1;
      AllRecordsValid(site, parse, prefs[..n]);
      PrefRecordsValid(site, parse, prefs[n]);
    }
  }

  /**
   * Every saved entry has at least one item, its items are valid with
   * pairwise distinct links, its prefecture is one of the 47 and its
   * address is a wishlist; a run saves at most 47 * 3 entries.
   */
  lemma RecordsValid(site: Site, parse: string -> JsonKeys)
    ensures forall k :: 0 <= k < |Records(site, parse)| ==> ValidRecord(Records(site, parse)[k])
    ensures |Records(site, parse)| <= MAX_PREFECTURES * MAX_ORGS_PER_PREF
  {
    if site.landing.Some? {
      var anchors := site.landing.value;
      UniquePrefecturesNames(TargetPrefectures, anchors);
      UniquePrefecturesUrls(Candidates(TargetPrefectures, anchors));
      AllRecordsValid(site, parse, VisitedPrefectures(anchors));
    }
  }
}

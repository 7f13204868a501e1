/**
 * The prefecture resolver of the crawler: for each of the 47 prefecture names,
 * the first landing-page anchor whose text holds the name and whose address is
 * a browse page; then one entry per address, at most `MAX_PREFECTURES` of them.
 */
module Prefectures {
  import opened Wrappers
  import opened Text
  import opened Seqs
  import opened OrderedMaps

  const MAX_PREFECTURES: nat := 47

  /** The 47 prefectures in the crawler's order, written ten to a row. */
  const TargetPrefectures: seq<string> :=
    ["北海道", "青森", "岩手", "宮城", "秋田", "山形", "福島", "茨城", "栃木", "群馬"] +
    ["埼玉", "千葉", "東京", "神奈川", "新潟", "富山", "石川", "福井", "山梨", "長野"] +
    ["岐阜", "静岡", "愛知", "三重", "滋賀", "京都", "大阪", "兵庫", "奈良", "和歌山"] +
    ["鳥取", "島根", "岡山", "広島", "山口", "徳島", "香川", "愛媛", "高知", "福岡"] +
    ["佐賀", "長崎", "熊本", "大分", "宮崎", "鹿児島", "沖縄"]

  /** An anchor of the landing page: its visible text and its address. */
  datatype Anchor = Anchor(text: string, href: string)

  /** A prefecture and the browse page found for it. */
  datatype PrefLink = PrefLink(name: string, url: string)

  /** A browse page: its address has a `/b/` path segment or a `node=` parameter. */
  predicate IsBrowseHref(href: string) {
    Contains(href, "/b/") || Contains(href, "node=")
  }

  predicate LinksTo(a: Anchor, name: string) {
    Contains(a.text, name) && IsBrowseHref(a.href)
  }

  /** `allLinks.find(...)`: the position of the first anchor that links to `name`'s browse page. */
  function FindLink(anchors: seq<Anchor>, name: string): (r: Option<nat>)
    ensures r.Some? ==> r.value < |anchors| && LinksTo(anchors[r.value], name)
    ensures r.Some? ==> forall j :: 0 <= j < r.value ==> !LinksTo(anchors[j], name)
    ensures r.None? ==> forall j :: 0 <= j < |anchors| ==> !LinksTo(anchors[j], name)
  {
    if anchors == [] then None
    else if LinksTo(anchors[0], name) then Some(0)
    else match FindLink(anchors[1..], name)
      case None => None
      case Some(j) => Some(j + 1)
  }

  /** What one target contributes: its link, or nothing when no anchor matches. */
  function CandidateFor(name: string, anchors: seq<Anchor>): seq<PrefLink> {
    match FindLink(anchors, name)
    case None => []
    case Some(j) => [PrefLink(name, anchors[j].href)]
  }

  /** The candidates of the targets, in target order. */
  function Candidates(targets: seq<string>, anchors: seq<Anchor>): seq<PrefLink> {
    if targets == [] then []
    else Candidates(targets[..|targets| - 1], anchors) + CandidateFor(targets[|targets| - 1], anchors)
  }

  /** The `targets.forEach` loop that pushes one link per matched target into `results`. */
  method ResolveCandidates(targets: seq<string>, anchors: seq<Anchor>) returns (results: seq<PrefLink>)
    ensures results == Candidates(targets, anchors)
    ensures |results| <= |targets|
    ensures forall k :: 0 <= k < |results| ==> results[k].name in targets && IsBrowseHref(results[k].url)
  {
    results := [];
    for i := 0 to |targets|
      invariant results == Candidates(targets[..i], anchors)
    {
      CandidatesSnoc(targets, anchors, i);
      var pref := targets[i];
      var link := FindLink(anchors, pref);
      if link.Some? {
        results := results + [PrefLink(pref, anchors[link.value].href)];
      }
    }
    assert targets[..|targets|] == targets;
    CandidatesBounded(targets, anchors);
  }

  /** One more target adds its link, when an anchor links to it. */
  lemma CandidatesSnoc(targets: seq<string>, anchors: seq<Anchor>, i: nat)
    requires i < |targets|
    ensures Candidates(targets[..i + 1], anchors) == Candidates(targets[..i], anchors) + CandidateFor(targets[i], anchors)
  {
    assert targets[..i + 1][..i] == targets[..i];
  }

  /** At most one candidate per target, each naming a target and a browse page. */
  lemma CandidatesBounded(targets: seq<string>, anchors: seq<Anchor>)
    ensures |Candidates(targets, anchors)| <= |targets|
    ensures forall k :: 0 <= k < |Candidates(targets, anchors)| ==>
              Candidates(targets, anchors)[k].name in targets && IsBrowseHref(Candidates(targets, anchors)[k].url)
  {
    var r := Candidates(targets, anchors);
    var idx := CandidateOrigins(targets, anchors);
    SortedBelow(idx, |targets|);
    forall k | 0 <= k < |r|
      ensures r[k].name in targets && IsBrowseHref(r[k].url)
    {
      assert r[k].name == targets[idx[k]];
      var j := FindLink(anchors, r[k].name).value;
      assert LinksTo(anchors[j], r[k].name);
    }
  }

  /** Strictly rising positions below `n` number at most `n`. */
  lemma {:induction false} SortedBelow(idx: seq<nat>, n: nat)
    requires forall k :: 0 <= k < |idx| ==> idx[k] < n
    requires forall k, l :: 0 <= k < l < |idx| ==> idx[k] < idx[l]
    ensures |idx| <= n
  {
    if idx != [] {
      var m := |idx| - 1;
      assert forall k :: 0 <= k < m ==> idx[..m][k] < idx[m];
      SortedBelow(idx[..m], idx[m]);
    }
  }

  /**
   * `idx` gives, for each candidate, the position of the target it comes from:
   * positions rise, the candidate names the first anchor linking to that
   * target, and a target has a candidate exactly when some anchor links to it.
   */
  ghost predicate OriginsOf(targets: seq<string>, anchors: seq<Anchor>, r: seq<PrefLink>, idx: seq<nat>) {
    && |idx| == |r|
    && (forall k :: 0 <= k < |r| ==> idx[k] < |targets| && r[k].name == targets[idx[k]])
    && (forall k :: 0 <= k < |r| ==>
          FindLink(anchors, r[k].name).Some? && r[k].url == anchors[FindLink(anchors, r[k].name).value].href)
    && (forall k, l :: 0 <= k < l < |r| ==> idx[k] < idx[l])
    && (forall i :: 0 <= i < |targets| ==> (FindLink(anchors, targets[i]).Some? <==> i in idx))
  }

  /**
   * At most one candidate per target, in target order; each names the first
   * anchor linking to its target; targets without such an anchor are omitted.
   */
  lemma {:induction false} CandidateOrigins(targets: seq<string>, anchors: seq<Anchor>) returns (idx: seq<nat>)
    ensures OriginsOf(targets, anchors, Candidates(targets, anchors), idx)
  {
    if targets == [] {
      idx := [];
    } else {
      var n := |targets| - 1;
      var pidx := CandidateOrigins(targets[..n], anchors);
      idx := OriginsStep(targets, anchors, pidx);
    }
  }

  /** The induction step of `CandidateOrigins`: one more target at the end. */
  lemma OriginsStep(targets: seq<string>, anchors: seq<Anchor>, pidx: seq<nat>) returns (idx: seq<nat>)
    requires targets != []
    requires OriginsOf(targets[..|targets| - 1], anchors, Candidates(targets[..|targets| - 1], anchors), pidx)
    ensures OriginsOf(targets, anchors, Candidates(targets, anchors), idx)
  {
    var n := |targets| - 1;
    var p := targets[..n];
    var pr := Candidates(p, anchors);
    var r := Candidates(targets, anchors);
    CandidatesSnoc(targets, anchors, n);
    assert targets[..n + 1] == targets;
    assert r == pr + CandidateFor(targets[n], anchors);
    assert forall k :: 0 <= k < |pidx| ==> pidx[k] < n;
    if FindLink(anchors, targets[n]).Some? {
      idx := pidx + [n];
      OriginsStepMatched(targets, anchors, pidx, pr, r, idx);
    } else {
      idx := pidx;
      assert r == pr + [];
      OriginsStepUnmatched(targets, anchors, pidx, pr);
    }
  }

  lemma OriginsStepUnmatched(targets: seq<string>, anchors: seq<Anchor>, pidx: seq<nat>, pr: seq<PrefLink>)
    requires targets != []
    requires OriginsOf(targets[..|targets| - 1], anchors, pr, pidx)
    requires forall k :: 0 <= k < |pidx| ==> pidx[k] < |targets| - 1
    requires FindLink(anchors, targets[|targets| - 1]).None?
    ensures OriginsOf(targets, anchors, pr, pidx)
  {
    var n := |targets| - 1;
    forall k | 0 <= k < |pr|
      ensures pidx[k] < |targets| && pr[k].name == targets[pidx[k]]
    {
      assert targets[..n][pidx[k]] == targets[pidx[k]];
    }
    forall i | 0 <= i < |targets|
      ensures FindLink(anchors, targets[i]).Some? <==> i in pidx
    {
      if i < n {
        assert targets[..n][i] == targets[i];
      } else {
        assert i !in pidx;
      }
    }
  }

  lemma OriginsStepMatched(targets: seq<string>, anchors: seq<Anchor>, pidx: seq<nat>, pr: seq<PrefLink>, r: seq<PrefLink>, idx: seq<nat>)
    requires targets != []
    requires OriginsOf(targets[..|targets| - 1], anchors, pr, pidx)
    requires forall k :: 0 <= k < |pidx| ==> pidx[k] < |targets| - 1
    requires FindLink(anchors, targets[|targets| - 1]).Some?
    requires r == pr + [PrefLink(targets[|targets| - 1], anchors[FindLink(anchors, targets[|targets| - 1]).value].href)]
    requires idx == pidx + [|targets| - 1]
    ensures OriginsOf(targets, anchors, r, idx)
  {
    var n := |targets| - 1;
    forall k | 0 <= k < |r|
      ensures idx[k] < |targets| && r[k].name == targets[idx[k]]
    {
      if k < |pr| {
        assert r[k] == pr[k] && idx[k] == pidx[k];
        assert targets[..n][pidx[k]] == targets[pidx[k]];
      }
    }
    forall k | 0 <= k < |r|
      ensures FindLink(anchors, r[k].name).Some? && r[k].url == anchors[FindLink(anchors, r[k].name).value].href
    {
      if k < |pr| {
        assert r[k] == pr[k];
      }
    }
    forall k, l | 0 <= k < l < |r|
      ensures idx[k] < idx[l]
    {
      if l < |pr| {
        assert idx[k] == pidx[k] && idx[l] == pidx[l];
      }
    }
    forall i | 0 <= i < |targets|
      ensures FindLink(anchors, targets[i]).Some? <==> i in idx
    {
      SnocMember(pidx, n, i);
      if i < n {
        assert targets[..n][i] == targets[i];
      }
    }
  }

  /** Appending `n` to positions below `n` adds exactly `n`. */
  lemma SnocMember(pidx: seq<nat>, n: nat, i: nat)
    ensures i in pidx + [n] <==> i in pidx || i == n
  {
    if i in pidx {
      var k :| 0 <= k < |pidx| && pidx[k] == i;
      assert (pidx + [n])[k] == i;
    }
  }

  /** The addresses of a list of links. */
  function Urls(cs: seq<PrefLink>): (us: seq<string>)
    ensures |us| == |cs| && forall i :: 0 <= i < |cs| ==> us[i] == cs[i].url
  {
    seq(|cs|, i requires 0 <= i < |cs| => cs[i].url)
  }

  lemma UrlsSnoc(cs: seq<PrefLink>)
    requires cs != []
    ensures Urls(cs) == Urls(cs[..|cs| - 1]) + [cs[|cs| - 1].url]
  {
  }

  /** `new Map(candidates.map(c => [c.url, c]))`. */
  function UrlMap(cs: seq<PrefLink>): (m: OrderedMap<PrefLink>)
    ensures m.Valid()
  {
    if cs == [] then Empty()
    else UrlMap(cs[..|cs| - 1]).Set(cs[|cs| - 1].url, cs[|cs| - 1])
  }

  /** `[...map.values()].slice(0, MAX_PREFECTURES)`. */
  function UniquePrefectures(cs: seq<PrefLink>): seq<PrefLink> {
    Take(UrlMap(cs).Values(), MAX_PREFECTURES)
  }

  /** The map holds each address once, in first-seen order. */
  lemma {:induction false} UrlMapKeys(cs: seq<PrefLink>)
    ensures UrlMap(cs).keys == Dedup(Urls(cs))
  {
    if cs != [] {
      var n := |cs| - 1;
      UrlMapKeys(cs[..n]);
      UrlsSnoc(cs);
      KeysSnoc(UrlMap(cs[..n]), Urls(cs[..n]), cs[n].url, UrlMap(cs));
    }
  }

  /** The value kept for an address is the last candidate with that address. */
  lemma {:induction false} UrlMapEntries(cs: seq<PrefLink>)
    ensures forall u :: u in UrlMap(cs).entries ==> u in Urls(cs) && UrlMap(cs).entries[u] == cs[LastIndex(Urls(cs), u)]
  {
    if cs != [] {
      var n := |cs| - 1;
      UrlMapEntries(cs[..n]);
      UrlMapEntriesStep(cs);
    }
  }

  lemma UrlMapEntriesStep(cs: seq<PrefLink>)
    requires cs != []
    requires var p := cs[..|cs| - 1];
      forall u :: u in UrlMap(p).entries ==> u in Urls(p) && UrlMap(p).entries[u] == p[LastIndex(Urls(p), u)]
    ensures forall u :: u in UrlMap(cs).entries ==> u in Urls(cs) && UrlMap(cs).entries[u] == cs[LastIndex(Urls(cs), u)]
  {
    var n := |cs| - 1;
    var p, c := cs[..n], cs[n];
    UrlsSnoc(cs);
    var m := UrlMap(cs);
    assert m.entries == UrlMap(p).entries[c.url := c];
    forall u | u in m.entries
      ensures u in Urls(cs) && m.entries[u] == cs[LastIndex(Urls(cs), u)]
    {
      if u == c.url {
        LastIndexUnique(Urls(cs), u, n);
      } else {
        LastIndexOfExtension(Urls(p), c.url, u);
      }
    }
  }

  /**
   * After the `Map` pass the addresses are pairwise distinct, in the order of
   * their first occurrence, and there are at most `MAX_PREFECTURES` of them.
   */
  lemma UniquePrefecturesUrls(cs: seq<PrefLink>)
    ensures Urls(UniquePrefectures(cs)) == Take(Dedup(Urls(cs)), MAX_PREFECTURES)
    ensures Distinct(Urls(UniquePrefectures(cs)))
    ensures |UniquePrefectures(cs)| <= MAX_PREFECTURES
  {
    UrlMapKeys(cs);
    var keys := UrlMap(cs).keys;
    var r := UniquePrefectures(cs);
    var d := Take(keys, MAX_PREFECTURES);
    assert |r| == |d|;
    forall k | 0 <= k < |r|
      ensures Urls(r)[k] == d[k]
    {
      UniquePrefectureAt(cs, k);
    }
    assert Urls(r) == d;
    DistinctTake(keys, MAX_PREFECTURES);
  }

  /** The `k`-th kept entry has the `k`-th address of the map. */
  lemma UniquePrefectureAt(cs: seq<PrefLink>, k: nat)
    requires k < |UniquePrefectures(cs)|
    ensures UniquePrefectures(cs)[k].url == UrlMap(cs).keys[k]
    ensures UrlMap(cs).keys[k] in Urls(cs)
    ensures UniquePrefectures(cs)[k] == cs[LastIndex(Urls(cs), UrlMap(cs).keys[k])]
  {
    UrlMapEntries(cs);
    var m := UrlMap(cs);
    var u := m.keys[k];
    assert UniquePrefectures(cs)[k] == m.Values()[k] == m.entries[u];
    var i := LastIndex(Urls(cs), u);
    assert Urls(cs)[i] == cs[i].url;
  }

  /** The entry kept for an address is the last candidate with that address. */
  lemma UniquePrefecturesLast(cs: seq<PrefLink>)
    ensures forall k :: 0 <= k < |UniquePrefectures(cs)| ==>
              var c := UniquePrefectures(cs)[k]; c.url in Urls(cs) && c == cs[LastIndex(Urls(cs), c.url)]
  {
    var r := UniquePrefectures(cs);
    forall k | 0 <= k < |r|
      ensures r[k].url in Urls(cs) && r[k] == cs[LastIndex(Urls(cs), r[k].url)]
    {
      UniquePrefectureAt(cs, k);
    }
  }

  /** Every prefecture left after the `Map` pass is one of the targets. */
  lemma UniquePrefecturesNames(targets: seq<string>, anchors: seq<Anchor>)
    ensures forall k :: 0 <= k < |UniquePrefectures(Candidates(targets, anchors))| ==>
              UniquePrefectures(Candidates(targets, anchors))[k].name in targets
  {
    var cs := Candidates(targets, anchors);
    var idx := CandidateOrigins(targets, anchors);
    UniquePrefecturesLast(cs);
    var r := UniquePrefectures(cs);
    forall k | 0 <= k < |r|
      ensures r[k].name in targets
    {
      var i := LastIndex(Urls(cs), r[k].url);
      assert r[k] == cs[i];
      assert cs[i].name == targets[idx[i]];
    }
  }
}

/**
 * The prefecture selector of the filter page. One copy groups the
 * prefectures present in the data by region, in the fixed region order,
 * with an `その他` group for names outside the mapping; the other copy lists
 * them in ascending order.
 */
module Regions {
  import opened Wrappers
  import opened Text
  import opened Seqs
  import opened Prefectures
  import opened Crawl

  /** A region and its prefectures, in display order. */
  datatype Region = Region(name: string, prefectures: seq<string>)

  /** An `optgroup` and the values of its options. */
  datatype OptGroup = OptGroup(name: string, options: seq<string>)

  const OTHER_LABEL: string := "その他"

  const HOKKAIDO: seq<string> := ["北海道"]
  const TOHOKU: seq<string> := ["青森", "岩手", "宮城", "秋田", "山形", "福島"]
  const KANTO: seq<string> := ["茨城", "栃木", "群馬", "埼玉", "千葉", "東京", "神奈川"]
  const CHUBU: seq<string> := ["新潟", "富山", "石川", "福井", "山梨", "長野", "岐阜", "静岡", "愛知", "三重"]
  const KINKI: seq<string> := ["滋賀", "京都", "大阪", "兵庫", "奈良", "和歌山"]
  const CHUGOKU_SHIKOKU: seq<string> := ["鳥取", "島根", "岡山", "広島", "山口", "徳島", "香川", "愛媛", "高知"]
  const KYUSHU: seq<string> := ["福岡", "佐賀", "長崎", "熊本", "大分", "宮崎", "鹿児島", "沖縄"]

  /** `regionMapping`, in its entry order. */
  const RegionMapping: seq<Region> := [
    Region("北海道", HOKKAIDO), Region("東北", TOHOKU), Region("関東", KANTO), Region("中部", CHUBU),
    Region("近畿", KINKI), Region("中国・四国", CHUGOKU_SHIKOKU), Region("九州", KYUSHU)]

  /** `Object.values(mapping).flat()`. */
  function Mapped(mapping: seq<Region>): seq<string> {
    if mapping == [] then [] else Mapped(mapping[..|mapping| - 1]) + mapping[|mapping| - 1].prefectures
  }

  lemma MappedRegions()
    ensures Mapped(RegionMapping) == HOKKAIDO + TOHOKU + KANTO + CHUBU + KINKI + CHUGOKU_SHIKOKU + KYUSHU
  {
    var m := RegionMapping;
    assert m[..0] == [];
    MappedSnoc(m, 0);
    assert Mapped(m[..1]) == HOKKAIDO;
    MappedSnoc(m, 1);
    assert Mapped(m[..2]) == HOKKAIDO + TOHOKU;
    MappedSnoc(m, 2);
    assert Mapped(m[..3]) == HOKKAIDO + TOHOKU + KANTO;
    MappedSnoc(m, 3);
    assert Mapped(m[..4]) == HOKKAIDO + TOHOKU + KANTO + CHUBU;
    MappedSnoc(m, 4);
    assert Mapped(m[..5]) == HOKKAIDO + TOHOKU + KANTO + CHUBU + KINKI;
    MappedSnoc(m, 5);
    assert Mapped(m[..6]) == HOKKAIDO + TOHOKU + KANTO + CHUBU + KINKI + CHUGOKU_SHIKOKU;
    MappedSnoc(m, 6);
    assert m[..7] == m;
  }

  ghost predicate Disjoint(a: seq<string>, b: seq<string>) {
    forall x :: x in a ==> x !in b
  }

  lemma DisjointAppend(a: seq<string>, b: seq<string>, c: seq<string>)
    requires Disjoint(a, c) && Disjoint(b, c)
    ensures Disjoint(a + b, c)
  {
    forall x | x in a + b
      ensures x !in c
    {
      var i :| 0 <= i < |a + b| && (a + b)[i] == x;
      if i < |a| {
        assert a[i] == x;
      } else {
        assert b[i - |a|] == x;
      }
    }
  }

  lemma DistinctStep(acc: seq<string>, r: seq<string>)
    requires Distinct(acc) && Distinct(r) && Disjoint(acc, r)
    ensures Distinct(acc + r)
  {
    DistinctAppend(acc, r);
  }

  lemma EachRegionDistinct()
    ensures Distinct(HOKKAIDO) && Distinct(TOHOKU) && Distinct(KANTO) && Distinct(CHUBU)
    ensures Distinct(KINKI) && Distinct(CHUGOKU_SHIKOKU) && Distinct(KYUSHU)
  {
  }

  // The pairwise disjointness of the seven regions is split into one lemma per
  // region so that each proof obligation compares only a few literal lists;
  // `RegionsDistinct` puts them together.

  /** Hokkaido shares no name with another region. */
  lemma DisjointHokkaido()
    ensures Disjoint(HOKKAIDO, TOHOKU) && Disjoint(HOKKAIDO, KANTO) && Disjoint(HOKKAIDO, CHUBU)
    ensures Disjoint(HOKKAIDO, KINKI) && Disjoint(HOKKAIDO, CHUGOKU_SHIKOKU) && Disjoint(HOKKAIDO, KYUSHU)
  {
  }

  lemma DisjointTohokuKanto()
    ensures Disjoint(TOHOKU, KANTO)
  {
  }

  lemma DisjointTohokuChubu()
    ensures Disjoint(TOHOKU, CHUBU)
  {
  }

  lemma DisjointKantoChubu()
    ensures Disjoint(KANTO, CHUBU)
  {
  }

  lemma DisjointTohokuKinki()
    ensures Disjoint(TOHOKU, KINKI)
  {
  }

  lemma DisjointKantoKinki()
    ensures Disjoint(KANTO, KINKI)
  {
  }

  lemma DisjointChubuKinki()
    ensures Disjoint(CHUBU, KINKI)
  {
  }

  lemma DisjointTohokuChugokuShikoku()
    ensures Disjoint(TOHOKU, CHUGOKU_SHIKOKU)
  {
  }

  lemma DisjointKantoChugokuShikoku()
    ensures Disjoint(KANTO, CHUGOKU_SHIKOKU)
  {
  }

  lemma DisjointChubuChugokuShikoku()
    ensures Disjoint(CHUBU, CHUGOKU_SHIKOKU)
  {
  }

  lemma DisjointKinkiChugokuShikoku()
    ensures Disjoint(KINKI, CHUGOKU_SHIKOKU)
  {
  }

  lemma DisjointTohokuKyushu()
    ensures Disjoint(TOHOKU, KYUSHU)
  {
  }

  lemma DisjointKantoKyushu()
    ensures Disjoint(KANTO, KYUSHU)
  {
  }

  lemma DisjointChubuKyushu()
    ensures Disjoint(CHUBU, KYUSHU)
  {
  }

  lemma DisjointKinkiKyushu()
    ensures Disjoint(KINKI, KYUSHU)
  {
  }

  lemma DisjointChugokuShikokuKyushu()
    ensures Disjoint(CHUGOKU_SHIKOKU, KYUSHU)
  {
  }

  lemma RegionsDistinct()
    ensures Distinct(HOKKAIDO + TOHOKU + KANTO + CHUBU + KINKI + CHUGOKU_SHIKOKU + KYUSHU)
  {
    EachRegionDistinct();
    DisjointHokkaido();
    DisjointTohokuKanto();
    DisjointTohokuChubu();
    DisjointKantoChubu();
    DisjointTohokuKinki();
    DisjointKantoKinki();
    DisjointChubuKinki();
    DisjointTohokuChugokuShikoku();
    DisjointKantoChugokuShikoku();
    DisjointChubuChugokuShikoku();
    DisjointKinkiChugokuShikoku();
    DisjointTohokuKyushu();
    DisjointKantoKyushu();
    DisjointChubuKyushu();
    DisjointKinkiKyushu();
    DisjointChugokuShikokuKyushu();
    var a1 := HOKKAIDO + TOHOKU;
    DistinctStep(HOKKAIDO, TOHOKU);
    var a2 := a1 + KANTO;
    DisjointAppend(HOKKAIDO, TOHOKU, KANTO);
    DistinctStep(a1, KANTO);
    var a3 := a2 + CHUBU;
    DisjointAppend(HOKKAIDO, TOHOKU, CHUBU);
    DisjointAppend(a1, KANTO, CHUBU);
    DistinctStep(a2, CHUBU);
    var a4 := a3 + KINKI;
    DisjointAppend(HOKKAIDO, TOHOKU, KINKI);
    DisjointAppend(a1, KANTO, KINKI);
    DisjointAppend(a2, CHUBU, KINKI);
    DistinctStep(a3, KINKI);
    var a5 := a4 + CHUGOKU_SHIKOKU;
    DisjointAppend(HOKKAIDO, TOHOKU, CHUGOKU_SHIKOKU);
    DisjointAppend(a1, KANTO, CHUGOKU_SHIKOKU);
    DisjointAppend(a2, CHUBU, CHUGOKU_SHIKOKU);
    DisjointAppend(a3, KINKI, CHUGOKU_SHIKOKU);
    DistinctStep(a4, CHUGOKU_SHIKOKU);
    DisjointAppend(HOKKAIDO, TOHOKU, KYUSHU);
    DisjointAppend(a1, KANTO, KYUSHU);
    DisjointAppend(a2, CHUBU, KYUSHU);
    DisjointAppend(a3, KINKI, KYUSHU);
    DisjointAppend(a4, CHUGOKU_SHIKOKU, KYUSHU);
    DistinctStep(a5, KYUSHU);
  }

  lemma FirstRows()
    ensures TargetPrefectures[..10] == HOKKAIDO + TOHOKU + KANTO[..3]
    ensures TargetPrefectures[10..20] == KANTO[3..] + CHUBU[..6]
  {
  }

  lemma MiddleRows()
    ensures TargetPrefectures[20..30] == CHUBU[6..] + KINKI
    ensures TargetPrefectures[30..40] == CHUGOKU_SHIKOKU + KYUSHU[..1]
  {
  }

  lemma LastRow()
    ensures TargetPrefectures[40..] == KYUSHU[1..]
  {
  }

  lemma TargetsAsRegions()
    ensures TargetPrefectures == HOKKAIDO + TOHOKU + KANTO + CHUBU + KINKI + CHUGOKU_SHIKOKU + KYUSHU
  {
    var t := TargetPrefectures;
    FirstRows();
    MiddleRows();
    LastRow();
    RowsOfTen(t);
    JoinRegions(t[..10], t[10..20], t[20..30], t[30..40], t[40..],
      HOKKAIDO, TOHOKU, KANTO, CHUBU, KINKI, CHUGOKU_SHIKOKU, KYUSHU, 3, 6, 1);
  }

  /** A list of 47 is its five rows of ten, the last one short. */
  lemma RowsOfTen<T>(s: seq<T>)
    requires |s| == 47
    ensures s == s[..10] + s[10..20] + s[20..30] + s[30..40] + s[40..]
  {
  }

  /** Regions cut across rows join back into the whole list. */
  lemma JoinRegions<T>(r1: seq<T>, r2: seq<T>, r3: seq<T>, r4: seq<T>, r5: seq<T>,
                       a: seq<T>, b: seq<T>, c: seq<T>, d: seq<T>, e: seq<T>, f: seq<T>, g: seq<T>,
                       i: nat, j: nat, k: nat)
    requires i <= |c| && j <= |d| && k <= |g|
    requires r1 == a + b + c[..i] && r2 == c[i..] + d[..j] && r3 == d[j..] + e
    requires r4 == f + g[..k] && r5 == g[k..]
    ensures r1 + r2 + r3 + r4 + r5 == a + b + c + d + e + f + g
  {
    assert c == c[..i] + c[i..];
    assert d == d[..j] + d[j..];
    assert g == g[..k] + g[k..];
  }

  /** The seven regions list the 47 prefectures in the crawler's order, each exactly once. */
  lemma RegionPartition()
    ensures Mapped(RegionMapping) == TargetPrefectures
    ensures Distinct(TargetPrefectures)
  {
    MappedRegions();
    RegionsDistinct();
    TargetsAsRegions();
  }

  lemma MappedDistinct()
    ensures Distinct(Mapped(RegionMapping))
  {
    RegionPartition();
  }

  lemma MappedSnoc(mapping: seq<Region>, k: nat)
    requires k < |mapping|
    ensures Mapped(mapping[..k + 1]) == Mapped(mapping[..k]) + mapping[k].prefectures
  {
    assert mapping[..k + 1][..k] == mapping[..k];
  }

  /** With no name listed twice, two different regions share no prefecture. */
  lemma {:induction false} MappedDisjoint(mapping: seq<Region>, a: nat, b: nat, x: string)
    requires Distinct(Mapped(mapping))
    requires a < b < |mapping| && x in mapping[a].prefectures
    ensures x !in mapping[b].prefectures
  {
    var n := |mapping| - 1;
    var init := mapping[..n];
    DistinctAppend(Mapped(init), mapping[n].prefectures);
    assert mapping[a] == init[a];
    if b == n {
      MappedContains(init, a, x);
    } else {
      assert mapping[b] == init[b];
      MappedDisjoint(init, a, b, x);
    }
  }

  lemma {:induction false} MappedContains(mapping: seq<Region>, a: nat, x: string)
    requires a < |mapping| && x in mapping[a].prefectures
    ensures x in Mapped(mapping)
  {
    var n := |mapping| - 1;
    if a < n {
      assert mapping[a] == mapping[..n][a];
      MappedContains(mapping[..n], a, x);
    }
  }

  /** The region lists are pairwise disjoint. */
  lemma RegionsDisjoint(a: nat, b: nat, x: string)
    requires a < b < |RegionMapping| && x in RegionMapping[a].prefectures
    ensures x !in RegionMapping[b].prefectures
  {
    RegionPartition();
    MappedDisjoint(RegionMapping, a, b, x);
  }

  // ---------------------------------------------------------------- available prefectures

  /** The non-empty prefectures of the organizations, in data order. */
  function PrefsOf(data: seq<OrgRecord>): seq<string> {
    if data == [] then []
    else
      var p := data[|data| - 1].prefecture;
      PrefsOf(data[..|data| - 1]) + (if p != "" then [p] else [])
  }

  lemma {:induction false} PrefsOfMember(data: seq<OrgRecord>, x: string)
    ensures x in PrefsOf(data) <==> x != "" && exists i :: 0 <= i < |data| && data[i].prefecture == x
  {
    if data != [] {
      var n := |data| - 1;
      var p := data[n].prefecture;
      PrefsOfMember(data[..n], x);
      assert PrefsOf(data) == PrefsOf(data[..n]) + (if p != "" then [p] else []);
      if x in PrefsOf(data[..n]) {
        var i :| 0 <= i < n && data[..n][i].prefecture == x;
        assert data[i].prefecture == x;
      } else if x in PrefsOf(data) {
        assert x == p && p != "";
      }
      if x != "" && exists i :: 0 <= i < |data| && data[i].prefecture == x {
        var i :| 0 <= i < |data| && data[i].prefecture == x;
        if i < n {
          assert data[..n][i].prefecture == x;
        }
      }
    }
  }

  /** `availablePrefs`: the `Set` of non-empty prefectures, in insertion order. */
  function AvailablePrefs(data: seq<OrgRecord>): seq<string> {
    Dedup(PrefsOf(data))
  }

  /** Visiting one more organization adds its prefecture when it is non-empty and new. */
  lemma AvailableStep(data: seq<OrgRecord>, i: nat)
    requires i < |data|
    ensures AvailablePrefs(data[..i + 1]) ==
              if data[i].prefecture != "" && data[i].prefecture !in AvailablePrefs(data[..i])
              then AvailablePrefs(data[..i]) + [data[i].prefecture]
              else AvailablePrefs(data[..i])
  {
    var p := data[i].prefecture;
    assert data[..i + 1][..i] == data[..i];
    assert PrefsOf(data[..i + 1]) == PrefsOf(data[..i]) + (if p != "" then [p] else []);
    DedupMember(PrefsOf(data[..i]), p);
    if p != "" {
      DedupSnoc(PrefsOf(data[..i]), p);
    } else {
      assert PrefsOf(data[..i]) + [] == PrefsOf(data[..i]);
    }
  }

  /** The `data.forEach` loop that fills the prefecture `Set`. */
  method CollectPrefectures(data: seq<OrgRecord>) returns (prefs: seq<string>)
    ensures prefs == AvailablePrefs(data)
    ensures Distinct(prefs)
    ensures forall x :: x in prefs <==> x != "" && exists i :: 0 <= i < |data| && data[i].prefecture == x
  {
    prefs := [];
    for i := 0 to |data|
      invariant prefs == AvailablePrefs(data[..i])
    {
      AvailableStep(data, i);
      var p := data[i].prefecture;
      if p != "" && p !in prefs {
        prefs := prefs + [p];
      }
    }
    assert data[..|data|] == data;
    AvailablePrefsFacts(data);
  }

  /** The available prefectures are the non-empty prefectures of the data, each once. */
  lemma AvailablePrefsFacts(data: seq<OrgRecord>)
    ensures Distinct(AvailablePrefs(data))
    ensures forall x :: x in AvailablePrefs(data) <==> x != "" && exists i :: 0 <= i < |data| && data[i].prefecture == x
  {
    forall x
      ensures x in AvailablePrefs(data) <==> x != "" && exists i :: 0 <= i < |data| && data[i].prefecture == x
    {
      DedupMember(PrefsOf(data), x);
      PrefsOfMember(data, x);
    }
  }

  // ---------------------------------------------------------------- string sort

  /** Places `x` after every element that does not exceed it. */
  function InsertString(x: string, s: seq<string>): seq<string> {
    if s == [] then [x]
    else if StrLe(s[|s| - 1], x) then s + [x]
    else InsertString(x, s[..|s| - 1]) + [s[|s| - 1]]
  }

  /** The default `Array.prototype.sort` on strings. */
  function SortStrings(s: seq<string>): seq<string> {
    if s == [] then [] else InsertString(s[|s| - 1], SortStrings(s[..|s| - 1]))
  }

  ghost predicate StrSorted(s: seq<string>) {
    forall i, j :: 0 <= i < j < |s| ==> StrLe(s[i], s[j])
  }

  lemma {:induction false} InsertStringPermutes(x: string, s: seq<string>)
    ensures multiset(InsertString(x, s)) == multiset(s) + multiset{x}
  {
    if s != [] && !StrLe(s[|s| - 1], x) {
      var n := |s| - 1;
      InsertStringPermutes(x, s[..n]);
      assert s == s[..n] + [s[n]];
    }
  }

  /** Inserting a name no greater than a bound into a list bounded by it keeps the list bounded. */
  lemma {:induction false} InsertStringBounded(x: string, s: seq<string>, b: string)
    requires StrLe(x, b)
    requires forall k :: 0 <= k < |s| ==> StrLe(s[k], b)
    ensures forall k :: 0 <= k < |InsertString(x, s)| ==> StrLe(InsertString(x, s)[k], b)
  {
    if s != [] && !StrLe(s[|s| - 1], x) {
      var n := |s| - 1;
      InsertStringBounded(x, s[..n], b);
      assert InsertString(x, s) == InsertString(x, s[..n]) + [s[n]];
    }
  }

  lemma {:induction false} InsertStringSorted(x: string, s: seq<string>)
    requires StrSorted(s)
    ensures StrSorted(InsertString(x, s))
  {
    if s == [] {
    } else if StrLe(s[|s| - 1], x) {
      var n := |s| - 1;
      var r := s + [x];
      forall i, j | 0 <= i < j < |r|
        ensures StrLe(r[i], r[j])
      {
        if j == |s| && i < n {
          StrLeTransitive(s[i], s[n], x);
        }
      }
    } else {
      var n := |s| - 1;
      InsertStringSorted(x, s[..n]);
      StrLeTotal(s[n], x);
      InsertStringBounded(x, s[..n], s[n]);
      assert InsertString(x, s) == InsertString(x, s[..n]) + [s[n]];
    }
  }

  /** The sorted list is a rearrangement of the input in ascending order; without repeats the order is strict. */
  lemma SortStringsFacts(s: seq<string>)
    ensures multiset(SortStrings(s)) == multiset(s)
    ensures StrSorted(SortStrings(s))
    ensures Distinct(s) ==> Distinct(SortStrings(s))
  {
    SortStringsPermutes(s);
    SortStringsSorted(s);
    if Distinct(s) {
      DistinctPermutation(s, SortStrings(s));
    }
  }

  lemma {:induction false} SortStringsPermutes(s: seq<string>)
    ensures multiset(SortStrings(s)) == multiset(s)
  {
    if s != [] {
      var n := |s| - 1;
      SortStringsPermutes(s[..n]);
      InsertStringPermutes(s[n], SortStrings(s[..n]));
      MultisetSnoc(s);
    }
  }

  lemma {:induction false} SortStringsSorted(s: seq<string>)
    ensures StrSorted(SortStrings(s))
  {
    if s != [] {
      var n := |s| - 1;
      SortStringsSorted(s[..n]);
      InsertStringSorted(s[n], SortStrings(s[..n]));
    }
  }

  // ---------------------------------------------------------------- region groups

  /** `prefectures.filter(p => availablePrefs.has(p))`. */
  function Present(prefectures: seq<string>, available: seq<string>): seq<string> {
    Filter(prefectures, p => p in available)
  }

  /** The group of a region: its present prefectures in mapping order, when there are any. */
  function GroupFor(r: Region, available: seq<string>): (g: Option<OptGroup>)
    ensures g.Some? <==> exists i :: 0 <= i < |r.prefectures| && r.prefectures[i] in available
    ensures g.Some? ==> g.value.name == r.name
    ensures g.Some? ==> forall x :: x in g.value.options <==> x in r.prefectures && x in available
  {
    var ps := Present(r.prefectures, available);
    FilterMember(r.prefectures, p => p in available);
    assert forall i :: 0 <= i < |r.prefectures| && r.prefectures[i] in available ==> r.prefectures[i] in ps;
    assert ps != [] ==> ps[0] in r.prefectures && ps[0] in available;
    if ps != [] then Some(OptGroup(r.name, ps)) else None
  }

  function Groups(mapping: seq<Region>, available: seq<string>): (gs: seq<Option<OptGroup>>)
    ensures |gs| == |mapping| && forall i :: 0 <= i < |mapping| ==> gs[i] == GroupFor(mapping[i], available)
  {
    seq(|mapping|, i requires 0 <= i < |mapping| => GroupFor(mapping[i], available))
  }

  /** `availablePrefs` entries outside the mapping, sorted. */
  function OtherPrefs(available: seq<string>): seq<string> {
    SortStrings(Filter(available, p => p !in Mapped(RegionMapping)))
  }

  function OtherGroup(available: seq<string>): seq<OptGroup> {
    var others := OtherPrefs(available);
    if others != [] then [OptGroup(OTHER_LABEL, others)] else []
  }

  /** The option groups for a set of available prefectures. */
  function RegionOptions(available: seq<string>): seq<OptGroup> {
    Somes(Groups(RegionMapping, available)) + OtherGroup(available)
  }

  /** The option values of a list of groups, in display order. */
  function AllOptions(groups: seq<OptGroup>): seq<string> {
    if groups == [] then [] else AllOptions(groups[..|groups| - 1]) + groups[|groups| - 1].options
  }

  /** `populatePrefectures` of the region-grouped page. */
  method PopulateRegionGroups(data: seq<OrgRecord>) returns (groups: seq<OptGroup>)
    ensures groups == RegionOptions(AvailablePrefs(data))
    ensures Distinct(AllOptions(groups))
    ensures forall x :: x in AllOptions(groups) <==> x != "" && exists i :: 0 <= i < |data| && data[i].prefecture == x
  {
    var availablePrefs := CollectPrefectures(data);
    var mapping := RegionMapping;
    groups := [];
    for i := 0 to |mapping|
      invariant groups == Somes(Groups(mapping[..i], availablePrefs))
    {
      GroupsStep(mapping, i, availablePrefs);
      var region := mapping[i];
      var currentRegionPrefs := Present(region.prefectures, availablePrefs);
      if |currentRegionPrefs| > 0 {
        groups := groups + [OptGroup(region.name, currentRegionPrefs)];
      }
    }
    assert mapping[..|mapping|] == mapping;
    var otherPrefs := OtherPrefs(availablePrefs);
    if |otherPrefs| > 0 {
      groups := groups + [OptGroup(OTHER_LABEL, otherPrefs)];
    }
    RegionGroupsFacts(data);
  }

  /** One more region adds its group, when it has one, after the groups so far. */
  lemma GroupsStep(mapping: seq<Region>, i: nat, available: seq<string>)
    requires i < |mapping|
    ensures Somes(Groups(mapping[..i + 1], available)) ==
      Somes(Groups(mapping[..i], available))
      + (if Present(mapping[i].prefectures, available) != []
         then [OptGroup(mapping[i].name, Present(mapping[i].prefectures, available))] else [])
  {
    assert Groups(mapping[..i + 1], available)[..i] == Groups(mapping[..i], available);
  }

  /** The grouped options offer each non-empty prefecture of the data exactly once. */
  lemma RegionGroupsFacts(data: seq<OrgRecord>)
    ensures Distinct(AllOptions(RegionOptions(AvailablePrefs(data))))
    ensures forall x :: x in AllOptions(RegionOptions(AvailablePrefs(data))) <==>
              x != "" && exists i :: 0 <= i < |data| && data[i].prefecture == x
  {
    AvailablePrefsFacts(data);
    RegionOptionsOnce(AvailablePrefs(data));
  }

  lemma AllOptionsAppend(g: seq<OptGroup>, h: seq<OptGroup>)
    ensures AllOptions(g + h) == AllOptions(g) + AllOptions(h)
    decreases |h|
  {
    if h != [] {
      var n := |h| - 1;
      AllOptionsAppend(g, h[..n]);
      assert (g + h)[..|g + h| - 1] == g + h[..n];
    } else {
      assert g + h == g;
    }
  }

  /** The options of the region groups are the present prefectures of the mapping, in mapping order. */
  lemma {:induction false} RegionGroupsOptions(mapping: seq<Region>, available: seq<string>)
    ensures AllOptions(Somes(Groups(mapping, available))) == Present(Mapped(mapping), available)
  {
    if mapping != [] {
      var n := |mapping| - 1;
      RegionGroupsOptions(mapping[..n], available);
      assert Groups(mapping, available)[..n] == Groups(mapping[..n], available);
      FilterAppend(Mapped(mapping[..n]), mapping[n].prefectures, p => p in available);
      var g := GroupFor(mapping[n], available);
      var prev := Somes(Groups(mapping[..n], available));
      assert Somes(Groups(mapping, available)) == prev + (if g.Some? then [g.value] else []);
      assert Present(mapping[n].prefectures, available) == (if g.Some? then g.value.options else []);
      if g.Some? {
        AllOptionsAppend(prev, [g.value]);
        assert [g.value][..0] == [];
        assert AllOptions([g.value]) == g.value.options;
      } else {
        assert prev + [] == prev;
        assert Present(Mapped(mapping[..n]), available) + [] == Present(Mapped(mapping[..n]), available);
      }
    }
  }

  /** The options come in two parts: the present mapped prefectures, then the other group. */
  lemma RegionOptionsSplit(available: seq<string>)
    ensures AllOptions(RegionOptions(available)) == Present(Mapped(RegionMapping), available) + OtherPrefs(available)
  {
    RegionGroupsOptions(RegionMapping, available);
    AllOptionsAppend(Somes(Groups(RegionMapping, available)), OtherGroup(available));
    if OtherPrefs(available) != [] {
      assert [OptGroup(OTHER_LABEL, OtherPrefs(available))][..0] == [];
    }
  }

  /** The other names are the available names outside the mapping, each once, in ascending order. */
  lemma OtherPrefsFacts(available: seq<string>)
    requires Distinct(available)
    ensures forall x :: x in OtherPrefs(available) <==> x in available && x !in Mapped(RegionMapping)
    ensures Distinct(OtherPrefs(available))
    ensures StrSorted(OtherPrefs(available))
  {
    var unmapped := Filter(available, p => p !in Mapped(RegionMapping));
    FilterMember(available, p => p !in Mapped(RegionMapping));
    FilterDistinct(available, p => p !in Mapped(RegionMapping));
    SortStringsFacts(unmapped);
    forall x
      ensures x in OtherPrefs(available) <==> x in unmapped
    {
      assert x in multiset(OtherPrefs(available)) <==> x in multiset(unmapped);
    }
  }

  /**
   * Over all groups, each available prefecture is offered exactly once, and
   * nothing else is offered.
   */
  lemma RegionOptionsOnce(available: seq<string>)
    requires Distinct(available)
    ensures Distinct(AllOptions(RegionOptions(available)))
    ensures forall x :: x in AllOptions(RegionOptions(available)) <==> x in available
  {
    RegionOptionsSplit(available);
    MappedDistinct();
    OtherPrefsFacts(available);
    PresentThenOthers(Mapped(RegionMapping), available, OtherPrefs(available));
  }

  /**
   * The present names of a list without repeats, followed by the other
   * available names without repeats, give each available name once.
   */
  lemma PresentThenOthers(mapped: seq<string>, available: seq<string>, others: seq<string>)
    requires Distinct(mapped) && Distinct(others)
    requires forall x :: x in others <==> x in available && x !in mapped
    ensures Distinct(Present(mapped, available) + others)
    ensures forall x :: x in Present(mapped, available) + others <==> x in available
  {
    FilterMember(mapped, p => p in available);
    FilterDistinct(mapped, p => p in available);
    DistinctAppend(Present(mapped, available), others);
  }

  /** The other group holds exactly the available names outside the 47 prefectures, strictly ascending. */
  lemma OtherGroupFacts(available: seq<string>)
    requires Distinct(available)
    ensures forall x :: x in OtherPrefs(available) <==> x in available && x !in TargetPrefectures
    ensures forall i, j :: 0 <= i < j < |OtherPrefs(available)| ==>
              StrLe(OtherPrefs(available)[i], OtherPrefs(available)[j]) && OtherPrefs(available)[i] != OtherPrefs(available)[j]
  {
    RegionPartition();
    OtherPrefsFacts(available);
  }

  // ---------------------------------------------------------------- sorted list

  /** `populatePrefectures` of the sorted-list page: the available prefectures in ascending order. */
  method PopulateSortedPrefectures(data: seq<OrgRecord>) returns (options: seq<string>)
    ensures options == SortStrings(AvailablePrefs(data))
    ensures forall i, j :: 0 <= i < j < |options| ==> StrLe(options[i], options[j]) && options[i] != options[j]
    ensures forall x :: x in options <==> x != "" && exists i :: 0 <= i < |data| && data[i].prefecture == x
  {
    var prefs := CollectPrefectures(data);
    options := SortStrings(prefs);
    SortStringsFacts(prefs);
    forall x
      ensures x in options <==> x in prefs
    {
      assert x in multiset(options) <==> x in multiset(prefs);
    }
  }
}

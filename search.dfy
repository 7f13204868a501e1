/**
 * The search of the filter page: check the budget, collect the affordable
 * items of the selected prefecture's organizations (or of all of them), tag
 * each with its organization, sort by price and pick each card's image.
 * Both copies of the page run the same search.
 */
module Search {
  import opened Wrappers
  import opened Text
  import opened Items
  import opened Crawl

  const ALL: string := "All"
  const PRICE_ASC: string := "priceAsc"
  const OTHER_PREFECTURE: string := "その他"
  const PLACEHOLDER_IMAGE: string := "https://placehold.co/200x200?text=No+Image"

  /** An item of the result list: the item's fields and its organization's. */
  datatype FoundItem = FoundItem(
    title: string, link: string, image: string, price: nat,
    orgName: string, orgUrl: string, prefecture: string)

  /** A search either stops at the budget check or lists what it found. */
  datatype SearchOutcome = InvalidBudget | Found(items: seq<FoundItem>)

  /** The organization is shown under the selection. */
  predicate Selected(org: OrgRecord, selectedPref: string) {
    selectedPref == ALL || org.prefecture == selectedPref
  }

  /** `{...item, orgName, orgUrl, prefecture}`; an empty prefecture shows as `その他`. */
  function Tag(org: OrgRecord, it: Item): FoundItem {
    FoundItem(it.title, it.link, it.image, it.price, org.orgName, org.orgUrl,
              if org.prefecture != "" then org.prefecture else OTHER_PREFECTURE)
  }

  /** The items of `items` within the budget, tagged with `org`, in order. */
  function Affordable(org: OrgRecord, items: seq<Item>, budget: int): seq<FoundItem> {
    if items == [] then []
    else
      var it := items[|items| - 1];
      Affordable(org, items[..|items| - 1], budget) + (if it.price <= budget then [Tag(org, it)] else [])
  }

  /** The found items before sorting: organization by organization, item by item. */
  function Flatten(data: seq<OrgRecord>, budget: int, selectedPref: string): seq<FoundItem> {
    if data == [] then []
    else
      var org := data[|data| - 1];
      Flatten(data[..|data| - 1], budget, selectedPref)
      + (if Selected(org, selectedPref) then Affordable(org, org.items, budget) else [])
  }

  /** An item is affordable exactly when it is the tagged form of an item within the budget. */
  lemma {:induction false} AffordableMember(org: OrgRecord, items: seq<Item>, budget: int, x: FoundItem)
    ensures x in Affordable(org, items, budget) <==>
              exists j :: 0 <= j < |items| && items[j].price <= budget && x == Tag(org, items[j])
  {
    if items != [] {
      var n := |items| - 1;
      AffordableMember(org, items[..n], budget, x);
      assert forall j :: 0 <= j < n ==> items[..n][j] == items[j];
    }
  }

  /**
   * The found items are exactly the tagged items, within the budget, of the
   * organizations the selection admits.
   */
  lemma {:induction false} FlattenMember(data: seq<OrgRecord>, budget: int, selectedPref: string, x: FoundItem)
    ensures x in Flatten(data, budget, selectedPref) <==>
              exists i, j :: 0 <= i < |data| && Selected(data[i], selectedPref)
                             && 0 <= j < |data[i].items| && data[i].items[j].price <= budget
                             && x == Tag(data[i], data[i].items[j])
  {
    if data != [] {
      var n := |data| - 1;
      FlattenMember(data[..n], budget, selectedPref, x);
      AffordableMember(data[n], data[n].items, budget, x);
      assert forall i :: 0 <= i < n ==> data[..n][i] == data[i];
    }
  }

  /** The nested `forEach` loops that push into `foundItems`. */
  method FilterAndFlatten(data: seq<OrgRecord>, budget: int, selectedPref: string) returns (foundItems: seq<FoundItem>)
    ensures foundItems == Flatten(data, budget, selectedPref)
  {
    foundItems := [];
    for i := 0 to |data|
      invariant foundItems == Flatten(data[..i], budget, selectedPref)
    {
      assert data[..i + 1][..i] == data[..i];
      var org := data[i];
      if Selected(org, selectedPref) {
        ghost var before := foundItems;
        for j := 0 to |org.items|
          invariant foundItems == before + Affordable(org, org.items[..j], budget)
        {
          assert org.items[..j + 1][..j] == org.items[..j];
          var it := org.items[j];
          if it.price <= budget {
            foundItems := foundItems + [Tag(org, it)];
          }
        }
        assert org.items[..|org.items|] == org.items;
      }
    }
    assert data[..|data|] == data;
  }

  // ---------------------------------------------------------------- sort

  /** The sort key: the price for `priceAsc`, its negation otherwise. */
  function Key(x: FoundItem, asc: bool): int {
    if asc then x.price else -(x.price as int)
  }

  ghost predicate SortedBy(s: seq<FoundItem>, asc: bool) {
    forall i, j :: 0 <= i < j < |s| ==> Key(s[i], asc) <= Key(s[j], asc)
  }

  /** Places `x` after every element whose key does not exceed its own. */
  function Insert(x: FoundItem, s: seq<FoundItem>, asc: bool): seq<FoundItem> {
    if s == [] then [x]
    else if Key(s[|s| - 1], asc) <= Key(x, asc) then s + [x]
    else Insert(x, s[..|s| - 1], asc) + [s[|s| - 1]]
  }

  /** `foundItems.sort(...)`, a stable sort, ascending by price for `priceAsc` and descending otherwise. */
  function SortByPrice(s: seq<FoundItem>, asc: bool): seq<FoundItem> {
    if s == [] then [] else Insert(s[|s| - 1], SortByPrice(s[..|s| - 1], asc), asc)
  }

  /** The elements of `s` priced `p`, in order. */
  function WithPrice(s: seq<FoundItem>, p: nat): seq<FoundItem> {
    if s == [] then []
    else WithPrice(s[..|s| - 1], p) + (if s[|s| - 1].price == p then [s[|s| - 1]] else [])
  }

  lemma {:induction false} InsertPermutes(x: FoundItem, s: seq<FoundItem>, asc: bool)
    ensures multiset(Insert(x, s, asc)) == multiset(s) + multiset{x}
  {
    if s != [] && Key(s[|s| - 1], asc) > Key(x, asc) {
      var n := |s| - 1;
      InsertPermutes(x, s[..n], asc);
      assert s == s[..n] + [s[n]];
    }
  }

  /** Inserting an element no greater than a bound into a list bounded by it keeps the list bounded. */
  lemma {:induction false} InsertBounded(x: FoundItem, s: seq<FoundItem>, asc: bool, b: int)
    requires Key(x, asc) <= b
    requires forall k :: 0 <= k < |s| ==> Key(s[k], asc) <= b
    ensures forall k :: 0 <= k < |Insert(x, s, asc)| ==> Key(Insert(x, s, asc)[k], asc) <= b
  {
    if s != [] && Key(s[|s| - 1], asc) > Key(x, asc) {
      var n := |s| - 1;
      InsertBounded(x, s[..n], asc, b);
      assert Insert(x, s, asc) == Insert(x, s[..n], asc) + [s[n]];
    }
  }

  lemma {:induction false} InsertSorted(x: FoundItem, s: seq<FoundItem>, asc: bool)
    requires SortedBy(s, asc)
    ensures SortedBy(Insert(x, s, asc), asc)
  {
    if s != [] && Key(s[|s| - 1], asc) > Key(x, asc) {
      var n := |s| - 1;
      InsertSorted(x, s[..n], asc);
      InsertBounded(x, s[..n], asc, Key(s[n], asc));
      var t := Insert(x, s[..n], asc);
      assert Insert(x, s, asc) == t + [s[n]];
    }
  }

  lemma {:induction false} WithPriceSnoc(s: seq<FoundItem>, y: FoundItem, p: nat)
    ensures WithPrice(s + [y], p) == WithPrice(s, p) + (if y.price == p then [y] else [])
  {
    assert (s + [y])[..|s|] == s;
  }

  /** Inserting `x` adds it behind every element of its price and moves no other element of that price. */
  lemma {:induction false} InsertStable(x: FoundItem, s: seq<FoundItem>, asc: bool, p: nat)
    ensures WithPrice(Insert(x, s, asc), p) == WithPrice(s, p) + (if x.price == p then [x] else [])
  {
    if s == [] {
      WithPriceSnoc([], x, p);
    } else {
      var n := |s| - 1;
      if Key(s[n], asc) <= Key(x, asc) {
        WithPriceSnoc(s, x, p);
      } else {
        InsertStable(x, s[..n], asc, p);
        InsertStableStep(x, s, asc, p);
      }
    }
  }

  /** The step of `InsertStable` where `x` goes before the last element. */
  lemma InsertStableStep(x: FoundItem, s: seq<FoundItem>, asc: bool, p: nat)
    requires s != [] && Key(s[|s| - 1], asc) > Key(x, asc)
    requires WithPrice(Insert(x, s[..|s| - 1], asc), p) == WithPrice(s[..|s| - 1], p) + (if x.price == p then [x] else [])
    ensures WithPrice(Insert(x, s, asc), p) == WithPrice(s, p) + (if x.price == p then [x] else [])
  {
    var n := |s| - 1;
    var t := Insert(x, s[..n], asc);
    assert Insert(x, s, asc) == t + [s[n]];
    WithPriceSnoc(t, s[n], p);
    assert WithPrice(s, p) == WithPrice(s[..n], p) + (if s[n].price == p then [s[n]] else []);
    assert s[n].price != x.price;
    SwapEmpty(WithPrice(s[..n], p), if x.price == p then [x] else [], if s[n].price == p then [s[n]] else []);
  }

  /** Two parts of which one is empty can be appended in either order. */
  lemma SwapEmpty<T>(a: seq<T>, b: seq<T>, c: seq<T>)
    requires b == [] || c == []
    ensures a + b + c == a + c + b
  {
    if b == [] {
      assert a + b == a;
      assert a + c + b == a + c;
    } else {
      assert a + b + c == a + b;
      assert a + c == a;
    }
  }

  lemma {:induction false} SortByPricePermutes(s: seq<FoundItem>, asc: bool)
    ensures multiset(SortByPrice(s, asc)) == multiset(s)
  {
    if s != [] {
      var n := |s| - 1;
      SortByPricePermutes(s[..n], asc);
      InsertPermutes(s[n], SortByPrice(s[..n], asc), asc);
      assert s == s[..n] + [s[n]];
    }
  }

  lemma {:induction false} SortByPriceSorted(s: seq<FoundItem>, asc: bool)
    ensures SortedBy(SortByPrice(s, asc), asc)
  {
    if s != [] {
      var n := |s| - 1;
      SortByPriceSorted(s[..n], asc);
      InsertSorted(s[n], SortByPrice(s[..n], asc), asc);
    }
  }

  lemma {:induction false} SortByPriceStable(s: seq<FoundItem>, asc: bool, p: nat)
    ensures WithPrice(SortByPrice(s, asc), p) == WithPrice(s, p)
  {
    if s != [] {
      var n := |s| - 1;
      SortByPriceStable(s[..n], asc, p);
      InsertStable(s[n], SortByPrice(s[..n], asc), asc, p);
      WithPriceSnoc(s[..n], s[n], p);
      assert s == s[..n] + [s[n]];
    }
  }

  /**
   * The sorted list is a permutation of the input, ordered by price in the
   * chosen direction, and items of equal price keep their relative order.
   */
  lemma SortByPriceFacts(s: seq<FoundItem>, asc: bool)
    ensures multiset(SortByPrice(s, asc)) == multiset(s)
    ensures SortedBy(SortByPrice(s, asc), asc)
    ensures forall p: nat :: WithPrice(SortByPrice(s, asc), p) == WithPrice(s, p)
  {
    SortByPricePermutes(s, asc);
    SortByPriceSorted(s, asc);
    forall p: nat
      ensures WithPrice(SortByPrice(s, asc), p) == WithPrice(s, p)
    {
      SortByPriceStable(s, asc, p);
    }
  }

  /** For `priceAsc` prices never fall along the list; for any other choice they never rise. */
  lemma SortByPriceOrder(s: seq<FoundItem>, asc: bool)
    ensures asc ==> forall i, j :: 0 <= i < j < |SortByPrice(s, asc)| ==>
                      SortByPrice(s, asc)[i].price <= SortByPrice(s, asc)[j].price
    ensures !asc ==> forall i, j :: 0 <= i < j < |SortByPrice(s, asc)| ==>
                      SortByPrice(s, asc)[i].price >= SortByPrice(s, asc)[j].price
  {
    SortByPriceFacts(s, asc);
    var r := SortByPrice(s, asc);
    forall i, j | 0 <= i < j < |r|
      ensures Key(r[i], asc) <= Key(r[j], asc)
    {
    }
  }

  // ---------------------------------------------------------------- search

  /** `performSearch`: the budget check, the filter-and-flatten pass and the sort. */
  method PerformSearch(data: seq<OrgRecord>, budget: Option<int>, selectedPref: string, selectedSort: string)
    returns (outcome: SearchOutcome)
    ensures outcome.InvalidBudget? <==> budget.None? || budget.value <= 0
    ensures outcome.Found? ==>
              outcome.items == SortByPrice(Flatten(data, budget.value, selectedPref), selectedSort == PRICE_ASC)
    ensures outcome.Found? ==> forall k :: 0 <= k < |outcome.items| ==> outcome.items[k].price <= budget.value
  {
    if budget.None? || budget.value <= 0 {
      return InvalidBudget;
    }
    var foundItems := FilterAndFlatten(data, budget.value, selectedPref);
    ghost var flat := foundItems;
    foundItems := SortByPrice(foundItems, selectedSort == PRICE_ASC);
    outcome := Found(foundItems);
    SortByPriceFacts(flat, selectedSort == PRICE_ASC);
    forall k | 0 <= k < |foundItems|
      ensures foundItems[k].price <= budget.value
    {
      assert foundItems[k] in multiset(flat);
      FlattenMember(data, budget.value, selectedPref, foundItems[k]);
    }
  }

  /** The card's image: the stored one when it is non-empty and not an SVG, else the placeholder. */
  function CardImage(image: string): (src: string)
    ensures image != "" && !Contains(image, ".svg") ==> src == image
    ensures image == "" || Contains(image, ".svg") ==> src == PLACEHOLDER_IMAGE
  {
    if image != "" && !Contains(image, ".svg") then image else PLACEHOLDER_IMAGE
  }

  /** For an image the crawler recorded, the card shows it exactly when it is non-empty. */
  lemma CardImageOfRecorded(image: string)
    requires CleanImage(image)
    ensures image != "" ==> CardImage(image) == image
    ensures image == "" ==> CardImage(image) == PLACEHOLDER_IMAGE
  {
  }
}

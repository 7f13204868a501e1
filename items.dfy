/**
 * The wishlist-page extractor of the crawler: which page nodes become items,
 * how a price, an image and a link are read off a node, and the removal of
 * repeated links. A node is given as the parts the extractor queries.
 */
module Items {
  import opened Wrappers
  import opened Text
  import opened Seqs

  const AMAZON_ORIGIN: string := "https://www.amazon.co.jp"
  const PLACEHOLDER_TITLE: string := "その他"
  const QUICK_VIEW: string := "クイックビュー"

  /** The `a[id^="itemName_"]` anchor: its text and its `href`. */
  datatype TitleLink = TitleLink(text: string, href: string)

  /** An `img` element: `data-src`, `data-a-dynamic-image` (empty when absent) and `src`. */
  datatype Image = Image(dataSrc: string, dynamicImage: string, src: string)

  /** A page node: its title anchor, the text of its price element, and its images in document order. */
  datatype Node = Node(title: Option<TitleLink>, priceText: Option<string>, images: seq<Image>)

  /** A recorded wishlist item. */
  datatype Item = Item(title: string, link: string, image: string, price: nat)

  /** What `Object.keys(JSON.parse(s))[0]` gives: a parse error, no key, or the first key. */
  datatype JsonKeys = Unparsable | NoKeys | FirstKey(key: string)

  // ---------------------------------------------------------------- price

  predicate IsDigit(c: char) {
    '0' <= c <= '9'
  }

  predicate IsPriceChar(c: char) {
    IsDigit(c) || c == ','
  }

  predicate AllDigits(s: string) {
    forall i :: 0 <= i < |s| ==> IsDigit(s[i])
  }

  function SkipToPrice(s: string): string {
    if s != [] && !IsPriceChar(s[0]) then SkipToPrice(s[1..]) else s
  }

  function PriceRun(s: string): string {
    if s != [] && IsPriceChar(s[0]) then [s[0]] + PriceRun(s[1..]) else []
  }

  /** `text.match(/([0-9,]+)/)`: the leftmost, longest run of digits and commas. */
  function FirstPriceRun(s: string): Option<string> {
    var t := SkipToPrice(s);
    if t == [] then None else Some(PriceRun(t))
  }

  /** `s.replace(/[^0-9]/g, '')`. */
  function DigitsOf(s: string): (ds: string)
    ensures AllDigits(ds)
    ensures |ds| <= |s|
  {
    if s == [] then [] else (if IsDigit(s[0]) then [s[0]] else []) + DigitsOf(s[1..])
  }

  function DigitValue(c: char): nat
    requires IsDigit(c)
  {
    c as int - '0' as int
  }

  function DecimalValue(ds: string): nat
    requires AllDigits(ds)
  {
    if ds == [] then 0 else 10 * DecimalValue(ds[..|ds| - 1]) + DigitValue(ds[|ds| - 1])
  }

  /** `parseInt` of a string of digits: NaN (`None`) for the empty string. */
  function ParseDigits(ds: string): Option<nat>
    requires AllDigits(ds)
  {
    if ds == [] then None else Some(DecimalValue(ds))
  }

  /**
   * The price of a price text: the first run, `'0'` when there is none, without
   * its commas. It is NaN exactly when the first run holds no digit.
   */
  function ParsePrice(text: string): (r: Option<nat>)
    ensures r.None? <==> FirstPriceRun(text).Some? && NoDigit(FirstPriceRun(text).value)
  {
    var run := match FirstPriceRun(text) case Some(r) => r case None => "0";
    DigitsOfEmpty(run);
    assert DigitsOf("0") == "0";
    ParseDigits(DigitsOf(run))
  }

  predicate NoDigit(s: string) {
    forall i :: 0 <= i < |s| ==> !IsDigit(s[i])
  }

  /** The replace leaves nothing exactly when there is no digit. */
  lemma {:induction false} DigitsOfEmpty(s: string)
    ensures DigitsOf(s) == [] <==> NoDigit(s)
  {
    if s != [] {
      DigitsOfEmpty(s[1..]);
      assert forall i :: 1 <= i < |s| ==> s[i] == s[1..][i - 1];
    }
  }

  function DigitChar(d: nat): (c: char)
    requires d < 10
    ensures IsDigit(c) && DigitValue(c) == d
  {
    ('0' as int + d) as char
  }

  /** The decimal notation of `n`, without leading zeros. */
  function Decimal(n: nat): (ds: string)
    ensures ds != [] && AllDigits(ds)
  {
    if n < 10 then [DigitChar(n)] else Decimal(n / 10) + [DigitChar(n % 10)]
  }

  lemma {:induction false} DecimalRoundTrip(n: nat)
    ensures DecimalValue(Decimal(n)) == n
  {
    if n >= 10 {
      DecimalRoundTrip(n / 10);
      var ds := Decimal(n);
      assert ds[..|ds| - 1] == Decimal(n / 10);
    }
  }

  lemma {:induction false} SkipToPriceSkips(p: string, t: string)
    requires forall i :: 0 <= i < |p| ==> !IsPriceChar(p[i])
    requires t == [] || IsPriceChar(t[0])
    ensures SkipToPrice(p + t) == t
  {
    if p != [] {
      assert (p + t)[1..] == p[1..] + t;
      SkipToPriceSkips(p[1..], t);
    }
  }

  lemma {:induction false} PriceRunStops(r: string, q: string)
    requires forall i :: 0 <= i < |r| ==> IsPriceChar(r[i])
    requires q == [] || !IsPriceChar(q[0])
    ensures PriceRun(r + q) == r
  {
    if r != [] {
      assert (r + q)[1..] == r[1..] + q;
      PriceRunStops(r[1..], q);
    }
  }

  lemma {:induction false} DigitsOfDigits(ds: string)
    requires AllDigits(ds)
    ensures DigitsOf(ds) == ds
  {
    if ds != [] {
      DigitsOfDigits(ds[1..]);
    }
  }

  /** Removing the non-digits of a concatenation removes them from each part. */
  lemma {:induction false} DigitsOfAppend(a: string, b: string)
    ensures DigitsOf(a + b) == DigitsOf(a) + DigitsOf(b)
  {
    if a == [] {
      assert a + b == b;
    } else {
      DigitsOfAppend(a[1..], b);
      ConsSplit(a, b);
      DigitsOfCons(a[0], a[1..] + b);
      AppendAssoc(if IsDigit(a[0]) then [a[0]] else [], DigitsOf(a[1..]), DigitsOf(b));
    }
  }

  lemma DigitsOfCons(c: char, u: string)
    ensures DigitsOf([c] + u) == (if IsDigit(c) then [c] else []) + DigitsOf(u)
  {
    assert ([c] + u)[1..] == u;
  }

  /** Removing the comma of a thousands separator joins the groups' digits. */
  lemma DigitsOfGroups(hi: string, lo: string)
    requires AllDigits(lo)
    ensures DigitsOf(hi + "," + lo) == DigitsOf(hi) + lo
  {
    DigitsOfAppend(hi + ",", lo);
    DigitsOfAppend(hi, ",");
    DigitsOfCommas(",");
    DigitsOfDigits(lo);
    assert DigitsOf(hi) + [] == DigitsOf(hi);
  }

  /** The replace keeps exactly the digits of its input, in their order. */
  lemma {:induction false} DigitsOfKeepsDigits(s: string)
    ensures DigitsOf(s) == Filter(s, IsDigit)
  {
    if s != [] {
      DigitsOfKeepsDigits(s[1..]);
      assert s == [s[0]] + s[1..];
      FilterCons(s[0], s[1..], IsDigit);
    }
  }

  lemma {:induction false} DigitsOfCommas(s: string)
    requires forall i :: 0 <= i < |s| ==> s[i] == ','
    ensures DigitsOf(s) == []
  {
    if s != [] {
      DigitsOfCommas(s[1..]);
    }
  }

  /**
   * The price of `p + run + q`, where `p` holds no digit or comma and `run`
   * is a maximal run of them, is `run` without its commas, read as a decimal.
   */
  lemma ParsePriceOfRun(p: string, run: string, q: string)
    requires forall i :: 0 <= i < |p| ==> !IsPriceChar(p[i])
    requires run != [] && forall i :: 0 <= i < |run| ==> IsPriceChar(run[i])
    requires q == [] || !IsPriceChar(q[0])
    ensures ParsePrice(p + run + q) == ParseDigits(DigitsOf(run))
  {
    FirstPriceRunOf(p, run, q);
  }

  lemma FirstPriceRunOf(p: string, run: string, q: string)
    requires forall i :: 0 <= i < |p| ==> !IsPriceChar(p[i])
    requires run != [] && forall i :: 0 <= i < |run| ==> IsPriceChar(run[i])
    requires q == [] || !IsPriceChar(q[0])
    ensures FirstPriceRun(p + run + q) == Some(run)
  {
    assert p + run + q == p + (run + q);
    SkipToPriceSkips(p, run + q);
    PriceRunStops(run, q);
  }

  /** A text with no digit and no comma is priced 0. */
  lemma ParsePriceNoRun(s: string)
    requires forall i :: 0 <= i < |s| ==> !IsPriceChar(s[i])
    ensures ParsePrice(s) == Some(0)
  {
    SkipToPriceSkips(s, []);
    assert s + [] == s;
    assert DigitsOf("0") == "0";
  }

  /** A text whose first run is commas only has no price (NaN). */
  lemma ParsePriceCommasOnly(p: string, run: string, q: string)
    requires forall i :: 0 <= i < |p| ==> !IsPriceChar(p[i])
    requires run != [] && forall i :: 0 <= i < |run| ==> run[i] == ','
    requires q == [] || !IsPriceChar(q[0])
    ensures ParsePrice(p + run + q) == None
  {
    ParsePriceOfRun(p, run, q);
    DigitsOfCommas(run);
  }

  /** A number written out in decimal, framed by non-price text, reads back as itself. */
  lemma ParsePriceDecimal(p: string, n: nat, q: string)
    requires forall i :: 0 <= i < |p| ==> !IsPriceChar(p[i])
    requires q == [] || !IsPriceChar(q[0])
    ensures ParsePrice(p + Decimal(n) + q) == Some(n)
  {
    ParsePriceOfRun(p, Decimal(n), q);
    DigitsOfDigits(Decimal(n));
    DecimalRoundTrip(n);
  }

  function Pow10(k: nat): nat {
    if k == 0 then 1 else 10 * Pow10(k - 1)
  }

  /** Digits written after others scale the value of the others by a power of ten. */
  lemma {:induction false} DecimalAppend(a: string, b: string)
    requires AllDigits(a) && AllDigits(b)
    ensures AllDigits(a + b)
    ensures DecimalValue(a + b) == DecimalValue(a) * Pow10(|b|) + DecimalValue(b)
  {
    if b == [] {
      assert a + b == a;
    } else {
      var n := |b| - 1;
      DecimalAppend(a, b[..n]);
      assert (a + b)[..|a + b| - 1] == a + b[..n];
      assert DecimalValue(a + b) == 10 * DecimalValue(a + b[..n]) + DigitValue(b[n]);
      assert DecimalValue(b) == 10 * DecimalValue(b[..n]) + DigitValue(b[n]);
      ShiftDigit(DecimalValue(a), Pow10(n), DecimalValue(b[..n]), DigitValue(b[n]));
    }
  }

  lemma ShiftDigit(x: nat, p: nat, y: nat, d: nat)
    ensures 10 * (x * p + y) + d == x * (10 * p) + (10 * y + d)
  {
  }

  /** A thousands group: `n` in exactly three digits, with leading zeros. */
  function Group3(n: nat): (ds: string)
    requires n < 1000
    ensures |ds| == 3 && AllDigits(ds)
  {
    [DigitChar(n / 100), DigitChar(n / 10 % 10), DigitChar(n % 10)]
  }

  lemma Group3Value(n: nat)
    requires n < 1000
    ensures DecimalValue(Group3(n)) == n
  {
    var ds := Group3(n);
    var a, b, c := n / 100, n / 10 % 10, n % 10;
    assert ds[..1] == [ds[0]] && DecimalValue(ds[..1]) == a;
    assert ds[..2][..1] == ds[..1];
    assert DecimalValue(ds[..2]) == 10 * a + b;
    assert DecimalValue(ds) == 10 * (10 * a + b) + c;
    assert n / 10 == 10 * a + b;
  }

  /** `n` with a comma between thousands groups, the usual way a yen price is shown. */
  function Grouped(n: nat): (s: string)
    ensures s != [] && forall i :: 0 <= i < |s| ==> IsPriceChar(s[i])
  {
    if n < 1000 then Decimal(n) else Grouped(n / 1000) + "," + Group3(n % 1000)
  }

  /** Dropping the commas of a grouped number leaves digits that read back as the number. */
  lemma {:induction false} GroupedDigits(n: nat)
    ensures DigitsOf(Grouped(n)) != []
    ensures DecimalValue(DigitsOf(Grouped(n))) == n
  {
    if n < 1000 {
      DigitsOfDigits(Decimal(n));
      DecimalRoundTrip(n);
    } else {
      GroupedDigits(n / 1000);
      var hi := DigitsOf(Grouped(n / 1000));
      var lo := Group3(n % 1000);
      DigitsOfGroups(Grouped(n / 1000), lo);
      DecimalAppend(hi, lo);
      Group3Value(n % 1000);
      assert Pow10(3) == 1000;
    }
  }

  /** A price with thousands separators, framed by non-price text, reads back as itself. */
  lemma ParsePriceGrouped(p: string, n: nat, q: string)
    requires forall i :: 0 <= i < |p| ==> !IsPriceChar(p[i])
    requires q == [] || !IsPriceChar(q[0])
    ensures ParsePrice(p + Grouped(n) + q) == Some(n)
  {
    ParsePriceOfRun(p, Grouped(n), q);
    GroupedDigits(n);
  }

  // ---------------------------------------------------------------- image

  predicate IsSvg(img: Image) {
    Contains(img.src, ".svg")
  }

  /**
   * `img:not([src*=".svg"])`, else the first `img`: the position of the
   * first image that is not an SVG, or of the first image when all are.
   */
  function ChosenImage(images: seq<Image>): (r: Option<nat>)
    ensures r.None? <==> images == []
    ensures r.Some? ==> r.value < |images| && forall j :: 0 <= j < r.value ==> IsSvg(images[j])
    ensures r.Some? ==> !IsSvg(images[r.value]) || (r.value == 0 && forall j :: 0 <= j < |images| ==> IsSvg(images[j]))
  {
    match FirstWhere(images, img => !IsSvg(img))
    case Some(i) => Some(i)
    case None => if images == [] then None else Some(0)
  }

  /** `data-src || data-a-dynamic-image || src`. */
  function RawSource(img: Image): (s: string)
    ensures s in [img.dataSrc, img.dynamicImage, img.src]
    ensures img.dataSrc != "" ==> s == img.dataSrc
    ensures img.dataSrc == "" && img.dynamicImage != "" ==> s == img.dynamicImage
    ensures img.dataSrc == "" && img.dynamicImage == "" ==> s == img.src
    ensures s == "" <==> img.dataSrc == "" && img.dynamicImage == "" && img.src == ""
  {
    if img.dataSrc != "" then img.dataSrc
    else if img.dynamicImage != "" then img.dynamicImage
    else img.src
  }

  /**
   * A source starting with `{` is read as JSON and replaced by its first key;
   * a parse failure keeps it, an object without keys leaves no image.
   */
  function Decoded(raw: string, parse: string -> JsonKeys): (s: string)
    ensures !StartsWith(raw, "{") ==> s == raw
    ensures parse(raw).Unparsable? ==> s == raw
    ensures StartsWith(raw, "{") && parse(raw).FirstKey? ==> s == parse(raw).key
    ensures StartsWith(raw, "{") && parse(raw).NoKeys? ==> s == ""
  {
    if StartsWith(raw, "{") then
      match parse(raw)
      case Unparsable => raw
      case NoKeys => ""
      case FirstKey(k) => k
    else raw
  }

  predicate CleanImage(s: string) {
    !Contains(s, ".svg") && !Contains(s, "transparent")
  }

  /** An address naming an SVG or a transparent pixel is dropped. */
  function Scrub(s: string): (r: string)
    ensures CleanImage(r)
    ensures r == s || r == ""
    ensures CleanImage(s) ==> r == s
  {
    if s != "" && (Contains(s, ".svg") || Contains(s, "transparent")) then "" else s
  }

  /** The image address recorded for a node. */
  function ItemImage(node: Node, parse: string -> JsonKeys): (s: string)
    ensures CleanImage(s)
    ensures node.images == [] ==> s == ""
  {
    match ChosenImage(node.images)
    case None => ""
    case Some(i) => Scrub(Decoded(RawSource(node.images[i]), parse))
  }

  // ---------------------------------------------------------------- link

  /** A relative `href` is prefixed with the shop's origin. */
  function Absolutize(href: string): (link: string)
    ensures StartsWith(link, "http")
    ensures link == href || link == AMAZON_ORIGIN + href
    ensures StartsWith(href, "http") ==> link == href
  {
    if StartsWith(href, "http") then href
    else
      assert (AMAZON_ORIGIN + href)[..4] == "http";
      AMAZON_ORIGIN + href
  }

  lemma AbsolutizeIdempotent(href: string)
    ensures Absolutize(Absolutize(href)) == Absolutize(href)
  {
  }

  // ---------------------------------------------------------------- acceptance

  /** A title worth recording: non-empty, not the `その他` placeholder, not a quick-view control. */
  predicate AdmissibleTitle(t: string) {
    |t| > 0 && t != PLACEHOLDER_TITLE && !Contains(t, QUICK_VIEW)
  }

  /** What every recorded item satisfies. */
  predicate ValidItem(it: Item) {
    && it.price > 0
    && AdmissibleTitle(it.title)
    && StartsWith(it.link, "http")
    && CleanImage(it.image)
  }

  /**
   * The item a node yields: only when it has a title and a price element,
   * its trimmed title is admissible and its price is a number above 0.
   */
  function ExtractItem(node: Node, parse: string -> JsonKeys): (r: Option<Item>)
    ensures r.Some? ==> ValidItem(r.value)
    ensures r.Some? ==>
              && node.title.Some? && node.priceText.Some?
              && r.value.title == Trim(node.title.value.text)
              && ParsePrice(node.priceText.value) == Some(r.value.price)
              && r.value.link == Absolutize(node.title.value.href)
              && r.value.image == ItemImage(node, parse)
    ensures node.title.Some? && node.priceText.Some? && AdmissibleTitle(Trim(node.title.value.text))
            && ParsePrice(node.priceText.value).Some? && ParsePrice(node.priceText.value).value > 0
            ==> r.Some?
  {
    if node.title.None? || node.priceText.None? then None
    else
      var titleText := Trim(node.title.value.text);
      if titleText == PLACEHOLDER_TITLE || Contains(titleText, QUICK_VIEW) then None
      else
        var price := ParsePrice(node.priceText.value);
        if price.Some? && price.value > 0 && |titleText| > 0 then
          Some(Item(titleText, Absolutize(node.title.value.href), ItemImage(node, parse), price.value))
        else None
  }

  /** What each node yields, in node order. */
  function Extracted(nodes: seq<Node>, parse: string -> JsonKeys): (os: seq<Option<Item>>)
    ensures |os| == |nodes| && forall i :: 0 <= i < |nodes| ==> os[i] == ExtractItem(nodes[i], parse)
  {
    seq(|nodes|, i requires 0 <= i < |nodes| => ExtractItem(nodes[i], parse))
  }

  /** The items of the nodes, in node order. */
  function Accepted(nodes: seq<Node>, parse: string -> JsonKeys): seq<Item> {
    Somes(Extracted(nodes, parse))
  }

  /** The `nodes.forEach` loop that pushes accepted items into `results`. */
  method ScanNodes(nodes: seq<Node>, parse: string -> JsonKeys) returns (results: seq<Item>)
    ensures results == Accepted(nodes, parse)
    ensures forall k :: 0 <= k < |results| ==> ValidItem(results[k])
  {
    results := [];
    for i := 0 to |nodes|
      invariant results == Accepted(nodes[..i], parse)
      invariant forall k :: 0 <= k < |results| ==> ValidItem(results[k])
    {
      assert Extracted(nodes[..i + 1], parse)[..i] == Extracted(nodes[..i], parse);
      var node := nodes[i];
      var imgEl := ChosenImage(node.images);
      if node.title.Some? && node.priceText.Some? {
        var titleText := Trim(node.title.value.text);
        if titleText != PLACEHOLDER_TITLE && !Contains(titleText, QUICK_VIEW) {
          var price := ParsePrice(node.priceText.value);
          var imgSrc := "";
          if imgEl.Some? {
            imgSrc := Decoded(RawSource(node.images[imgEl.value]), parse);
          }
          imgSrc := Scrub(imgSrc);
          if price.Some? && price.value > 0 && |titleText| > 0 {
            results := results + [Item(titleText, Absolutize(node.title.value.href), imgSrc, price.value)];
          }
        }
      }
    }
    assert nodes[..|nodes|] == nodes;
  }

  /** Each node yielding an item contributes that item once, in node order, and no other node contributes. */
  lemma AcceptedSources(nodes: seq<Node>, parse: string -> JsonKeys) returns (idx: seq<nat>)
    ensures SomesFrom(Extracted(nodes, parse), Accepted(nodes, parse), idx)
  {
    idx := SomesOrigins(Extracted(nodes, parse));
  }

  // ---------------------------------------------------------------- dedup

  function Links(items: seq<Item>): (ls: seq<string>)
    ensures |ls| == |items| && forall i :: 0 <= i < |items| ==> ls[i] == items[i].link
  {
    seq(|items|, i requires 0 <= i < |items| => items[i].link)
  }

  /** The items whose link was not seen earlier. */
  function FirstByLink(rs: seq<Item>): seq<Item> {
    if rs == [] then []
    else
      var p := rs[..|rs| - 1];
      if rs[|rs| - 1].link in Links(p) then FirstByLink(p) else FirstByLink(p) + [rs[|rs| - 1]]
  }

  /** The links kept are those of the input, each once, in first-seen order. */
  lemma {:induction false} FirstByLinkLinks(rs: seq<Item>)
    ensures Links(FirstByLink(rs)) == Dedup(Links(rs))
  {
    if rs != [] {
      var n := |rs| - 1;
      FirstByLinkLinks(rs[..n]);
      LinksSnoc(rs[..n], rs[n]);
      assert rs[..n] + [rs[n]] == rs;
      LinksSnoc(FirstByLink(rs[..n]), rs[n]);
      DedupSnoc(Links(rs[..n]), rs[n].link);
    }
  }

  lemma LinksSnoc(s: seq<Item>, x: Item)
    ensures Links(s + [x]) == Links(s) + [x.link]
  {
  }

  /** The item kept for a link is its first occurrence. */
  lemma {:induction false} FirstByLinkFirst(rs: seq<Item>)
    ensures forall k :: 0 <= k < |FirstByLink(rs)| ==>
              FirstByLink(rs)[k].link in Links(rs) && FirstByLink(rs)[k] == rs[FirstIndex(Links(rs), FirstByLink(rs)[k].link)]
  {
    if rs != [] {
      var n := |rs| - 1;
      var p := rs[..n];
      FirstByLinkFirst(p);
      assert Links(rs) == Links(p) + [rs[n].link];
      var u := FirstByLink(rs);
      forall k | 0 <= k < |u|
        ensures u[k].link in Links(rs) && u[k] == rs[FirstIndex(Links(rs), u[k].link)]
      {
        if k < |FirstByLink(p)| {
          assert u[k] == FirstByLink(p)[k];
          FirstIndexOfExtension(Links(p), rs[n].link, u[k].link);
        } else {
          assert u[k] == rs[n] && rs[n].link !in Links(p);
          assert Links(rs)[..n] == Links(p);
          FirstIndexUnique(Links(rs), rs[n].link, n);
        }
      }
    }
  }

  /** The `seen`/`unique` loop that keeps the first item of each link. */
  method DedupByLink(results: seq<Item>) returns (unique: seq<Item>)
    ensures unique == FirstByLink(results)
    ensures Links(unique) == Dedup(Links(results))
  {
    unique := [];
    var seen: set<string> := {};
    for i := 0 to |results|
      invariant unique == FirstByLink(results[..i])
      invariant forall l :: l in seen <==> l in Links(results[..i])
    {
      var r := results[i];
      assert results[..i + 1][..i] == results[..i];
      assert Links(results[..i + 1]) == Links(results[..i]) + [r.link];
      if r.link !in seen {
        seen := seen + {r.link};
        unique := unique + [r];
      }
    }
    assert results[..|results|] == results;
    FirstByLinkLinks(results);
  }

  /** The item list of a wishlist page. */
  function PageItems(nodes: seq<Node>, parse: string -> JsonKeys): seq<Item> {
    FirstByLink(Accepted(nodes, parse))
  }

  /** A page's items are valid, have distinct links, and cover every accepted link. */
  lemma PageItemsFacts(nodes: seq<Node>, parse: string -> JsonKeys)
    ensures forall k :: 0 <= k < |PageItems(nodes, parse)| ==> ValidItem(PageItems(nodes, parse)[k])
    ensures Distinct(Links(PageItems(nodes, parse)))
    ensures forall k :: 0 <= k < |Accepted(nodes, parse)| ==> Accepted(nodes, parse)[k].link in Links(PageItems(nodes, parse))
  {
    var acc := Accepted(nodes, parse);
    var idx := AcceptedSources(nodes, parse);
    FirstByLinkLinks(acc);
    FirstByLinkFirst(acc);
    var u := PageItems(nodes, parse);
    forall k | 0 <= k < |u|
      ensures ValidItem(u[k])
    {
      var j := FirstIndex(Links(acc), u[k].link);
      assert ExtractItem(nodes[idx[j]], parse) == Some(acc[j]);
    }
    forall k | 0 <= k < |acc|
      ensures acc[k].link in Links(u)
    {
      assert Links(acc)[k] == acc[k].link;
    }
  }
}

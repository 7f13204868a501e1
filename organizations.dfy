/**
 * The organization extractor of the crawler: the name inferred for each
 * wishlist anchor of a prefecture page, and the merge of anchors that lead to
 * the same wishlist, which prefers a known name and then a longer one.
 */
module Organizations {
  import opened Wrappers
  import opened Text
  import opened Seqs
  import opened OrderedMaps

  const MAX_ORGS_PER_PREF: nat := 3

  /** How many ancestors of an anchor the name search climbs. */
  const MAX_ANCESTOR_LEVELS: nat := 5

  /** The sentinel name of an organization whose name could not be inferred. */
  const UNKNOWN_NAME: string := "名称不明の団体"

  /** The address fragment that marks a wishlist anchor. */
  const WISHLIST_PATH: string := "/hz/wishlist/ls/"

  /** The literal alternatives of the organization-keyword pattern (besides `by` and a space). */
  const OrgKeywords: seq<string> := [
    "作成", "団体", "NPO", "法人", "食堂", "支援", "クラブ", "会", "隊", "センター", "社団",
    "財団", "プロジェクト", "ネットワーク", "委員会", "サポーター", "塾", "の家", "園",
    "スクール", "協会", "連盟"]

  /** Anchor texts that say nothing about the organization. */
  const GenericTerms: seq<string> := [
    "ほしい物リスト", "応援", "Amazon", "支援", "作成", "See More", "詳細", "買い物", "検索", "ギフト"]

  /**
   * A wishlist anchor in its page: its visible text, its address, the visible
   * text of each of its ancestors (nearest first) split into lines, and the
   * `alt` text of the image it holds, if it holds one.
   */
  datatype AnchorContext = AnchorContext(text: string, href: string, ancestors: seq<seq<string>>, alt: Option<string>)

  datatype Org = Org(name: string, url: string, prefecture: string)

  /** Some term occurs in `s` (`terms.some(t => s.includes(t))`). */
  predicate ContainsAny(s: string, terms: seq<string>) {
    exists i :: 0 <= i < |terms| && Contains(s, terms[i])
  }

  /** The `by\s` alternative: `by` followed by a white-space character. */
  predicate HasByThenSpace(s: string) {
    |s| >= 3 && ((s[0] == 'b' && s[1] == 'y' && IsSpace(s[2])) || HasByThenSpace(s[1..]))
  }

  /** The organization-keyword pattern matches somewhere in the line. */
  predicate HasOrgKeyword(line: string) {
    ContainsAny(line, OrgKeywords) || HasByThenSpace(line)
  }

  predicate IsGeneric(name: string) {
    ContainsAny(name, GenericTerms)
  }

  predicate IsSeparator(c: char) {
    c == ':' || IsSpace(c)
  }

  /** The `[:\s]*` part of the label pattern: the run of separators at the front. */
  function DropSeparators(s: string): (r: string)
    ensures |r| <= |s| && r == s[|s| - |r|..]
    ensures r == [] || !IsSeparator(r[0])
  {
    if s != [] && IsSeparator(s[0]) then DropSeparators(s[1..]) else s
  }

  /**
   * The global replacement of `作成[:\s]*|by[:\s]*` by nothing: scanning from
   * the left, every `作成` and every `by` goes, with the separators after it.
   */
  function StripLabels(s: string): (r: string)
    ensures |r| <= |s|
    decreases |s|
  {
    if s == [] then []
    else if StartsWith(s, "作成") || StartsWith(s, "by") then StripLabels(DropSeparators(s[2..]))
    else [s[0]] + StripLabels(s[1..])
  }

  /** A line without `作成` and without `by` passes the label removal unchanged. */
  lemma {:induction false} StripLabelsWithoutLabels(s: string)
    requires !Contains(s, "作成") && !Contains(s, "by")
    ensures StripLabels(s) == s
    decreases |s|
  {
    if s != [] {
      StripLabelsWithoutLabels(s[1..]);
      assert s == [s[0]] + s[1..];
    }
  }

  /** The separators after a label go with it, up to the first other character. */
  lemma {:induction false} DropSeparatorsRun(seps: string, rest: string)
    requires forall i :: 0 <= i < |seps| ==> IsSeparator(seps[i])
    requires rest == [] || !IsSeparator(rest[0])
    ensures DropSeparators(seps + rest) == rest
  {
    if seps != [] {
      assert (seps + rest)[1..] == seps[1..] + rest;
      DropSeparatorsRun(seps[1..], rest);
    } else {
      assert seps + rest == rest;
    }
  }

  /** The first character of a label. */
  predicate IsTagStart(c: char) {
    c == '作' || c == 'b'
  }

  /** A text starting with a label loses it and the separators after it. */
  lemma StripLabelsDrop(t: string)
    requires StartsWith(t, "作成") || StartsWith(t, "by")
    ensures StripLabels(t) == StripLabels(DropSeparators(t[2..]))
  {
  }

  /** A text not starting with a label keeps its first character. */
  lemma StripLabelsKeep(c: char, u: string)
    requires !StartsWith([c] + u, "作成") && !StartsWith([c] + u, "by")
    ensures StripLabels([c] + u) == [c] + StripLabels(u)
  {
    assert ([c] + u)[1..] == u;
  }

  /** A label at the front goes, with the separators after it. */
  lemma StripLabelsAtTag(tag: string, seps: string, rest: string)
    requires tag == "作成" || tag == "by"
    requires forall i :: 0 <= i < |seps| ==> IsSeparator(seps[i])
    requires rest == [] || !IsSeparator(rest[0])
    ensures StripLabels(tag + seps + rest) == StripLabels(rest)
  {
    var u := seps + rest;
    var t := tag + u;
    assert tag + seps + rest == t;
    assert t[..2] == tag && t[2..] == u;
    StripLabelsDrop(t);
    DropSeparatorsRun(seps, rest);
  }

  /** A label-free text followed by a label does not start with a label. */
  lemma NoTagAtFront(p: string, tail: string)
    requires p != [] && !Contains(p, "作成") && !Contains(p, "by")
    requires tail != [] && IsTagStart(tail[0])
    ensures !StartsWith(p + tail, "作成") && !StartsWith(p + tail, "by")
  {
    var t := p + tail;
    if |p| >= 2 {
      assert t[..2] == p[..2];
    } else {
      assert t[..2] == [p[0], tail[0]];
    }
  }

  /** A label-free prefix before a label passes the label removal unchanged. */
  lemma {:induction false} StripLabelsPrefix(p: string, tail: string)
    requires !Contains(p, "作成") && !Contains(p, "by")
    requires tail != [] && IsTagStart(tail[0])
    ensures StripLabels(p + tail) == p + StripLabels(tail)
    decreases |p|
  {
    if p == [] {
      assert p + tail == tail;
    } else {
      assert !Contains(p[1..], "作成") && !Contains(p[1..], "by");
      StripLabelsPrefix(p[1..], tail);
      NoTagAtFront(p, tail);
      ConsSplit(p, tail);
      StripLabelsKeep(p[0], p[1..] + tail);
      ConsSplit(p, StripLabels(tail));
    }
  }

  /**
   * The label removal keeps a label-free prefix, drops the first `作成` or `by`
   * after it with the separators that follow, and carries on with the rest.
   */
  lemma StripLabelsRemovesLabel(p: string, tag: string, seps: string, rest: string)
    requires !Contains(p, "作成") && !Contains(p, "by")
    requires tag == "作成" || tag == "by"
    requires forall i :: 0 <= i < |seps| ==> IsSeparator(seps[i])
    requires rest == [] || !IsSeparator(rest[0])
    ensures StripLabels(p + tag + seps + rest) == p + StripLabels(rest)
  {
    var u := seps + rest;
    var tail := tag + u;
    assert p + tag + seps + rest == p + tail;
    assert tag + seps + rest == tail;
    assert tail[0] == tag[0];
    StripLabelsPrefix(p, tail);
    StripLabelsAtTag(tag, seps, rest);
  }

  /** The name a qualifying line gives: labels removed, then trimmed. */
  function Clean(line: string): string {
    Trim(StripLabels(line))
  }

  /** A line that is adopted as the name, when the anchor text is `name`. */
  predicate Qualifies(line: string, name: string) {
    HasOrgKeyword(line) && line != name && 1 < |line| < 60 && |Clean(line)| > 1
  }

  /** The position of the first qualifying line of one ancestor. */
  function FirstQualifying(lines: seq<string>, name: string): (r: Option<nat>)
    ensures r.Some? ==> r.value < |lines|
  {
    if lines == [] then None
    else if Qualifies(lines[0], name) then Some(0)
    else match FirstQualifying(lines[1..], name)
      case None => None
      case Some(j) => Some(j + 1)
  }

  /** `FirstQualifying` finds the first qualifying line, and none when no line qualifies. */
  lemma {:induction false} FirstQualifyingFacts(lines: seq<string>, name: string)
    ensures FirstQualifying(lines, name).Some? ==>
              var k := FirstQualifying(lines, name).value;
              Qualifies(lines[k], name) && forall j :: 0 <= j < k ==> !Qualifies(lines[j], name)
    ensures FirstQualifying(lines, name).None? ==> forall j :: 0 <= j < |lines| ==> !Qualifies(lines[j], name)
  {
    if lines != [] {
      FirstQualifyingFacts(lines[1..], name);
      assert forall j :: 1 <= j < |lines| ==> lines[j] == lines[1..][j - 1];
    }
  }

  /** A qualifying line with none before it is the one `FirstQualifying` finds. */
  lemma {:induction false} FirstQualifyingIs(lines: seq<string>, name: string, k: nat)
    requires k < |lines| && Qualifies(lines[k], name)
    requires forall j :: 0 <= j < k ==> !Qualifies(lines[j], name)
    ensures FirstQualifying(lines, name) == Some(k)
  {
    if k > 0 {
      assert forall j :: 0 <= j < k - 1 ==> lines[1..][j] == lines[j + 1];
      FirstQualifyingIs(lines[1..], name, k - 1);
    }
  }

  lemma {:induction false} FirstQualifyingNone(lines: seq<string>, name: string)
    requires forall j :: 0 <= j < |lines| ==> !Qualifies(lines[j], name)
    ensures FirstQualifying(lines, name).None?
  {
    if lines != [] {
      assert forall j :: 0 <= j < |lines| - 1 ==> lines[1..][j] == lines[j + 1];
      FirstQualifyingNone(lines[1..], name);
    }
  }

  /** The ancestors the name search looks at: the nearest five, or fewer when the page has fewer. */
  function SearchedAncestors(ancestors: seq<seq<string>>): seq<seq<string>> {
    Take(ancestors, MAX_ANCESTOR_LEVELS)
  }

  /** The nearest searched ancestor that has a qualifying line. */
  function FirstQualifyingLevel(ancestors: seq<seq<string>>, name: string): Option<nat> {
    FirstWhere(SearchedAncestors(ancestors), lines => FirstQualifying(lines, name).Some?)
  }

  /** The name found in the ancestors: the first qualifying line of the nearest ancestor that has one, cleaned. */
  function Refine(ancestors: seq<seq<string>>, name: string): Option<string> {
    match FirstQualifyingLevel(ancestors, name)
    case None => None
    case Some(level) =>
      var lines := SearchedAncestors(ancestors)[level];
      Some(Clean(lines[FirstQualifying(lines, name).value]))
  }

  /** A refined name is longer than one character. */
  lemma RefineLong(ancestors: seq<seq<string>>, name: string)
    ensures Refine(ancestors, name).Some? ==> |Refine(ancestors, name).value| > 1
  {
    if Refine(ancestors, name).Some? {
      var lines := SearchedAncestors(ancestors)[FirstQualifyingLevel(ancestors, name).value];
      FirstQualifyingFacts(lines, name);
    }
  }

  /** The name an anchor gets when no ancestor line qualifies. */
  function Fallback(name: string, alt: Option<string>): string {
    if |name| < 2 || IsGeneric(name) then
      if alt.Some? && |alt.value| > 2 then Trim(alt.value) else UNKNOWN_NAME
    else name
  }

  /**
   * The name of the organization behind an anchor: a refined ancestor line,
   * else the anchor text, else the image text, else the sentinel.
   */
  function OrgName(a: AnchorContext): (r: string)
    ensures r == UNKNOWN_NAME || |r| > 1 || (a.alt.Some? && |a.alt.value| > 2 && r == Trim(a.alt.value))
  {
    var name := Trim(a.text);
    match Refine(a.ancestors, name)
    case Some(n) => RefineLong(a.ancestors, name); n
    case None => Fallback(name, a.alt)
  }

  /**
   * The line loop of the name search over one ancestor: stop at the first line
   * with an organization keyword, other than the current name, of length 2 to
   * 59, whose cleaned form is longer than one character.
   */
  method ScanAncestor(lines: seq<string>, name: string) returns (found: bool, clean: string)
    ensures found <==> FirstQualifying(lines, name).Some?
    ensures found ==> clean == Clean(lines[FirstQualifying(lines, name).value])
  {
    found, clean := false, "";
    var k := 0;
    while k < |lines| && !found
      invariant 0 <= k <= |lines|
      invariant !found ==> forall j :: 0 <= j < k ==> !Qualifies(lines[j], name)
      invariant found ==> 0 < k && FirstQualifying(lines, name) == Some(k - 1) && clean == Clean(lines[k - 1])
    {
      var line := lines[k];
      if HasOrgKeyword(line) && line != name && 1 < |line| < 60 {
        var c := Clean(line);
        if |c| > 1 {
          found, clean := true, c;
          FirstQualifyingIs(lines, name, k);
        }
      }
      k := k + 1;
    }
    if !found {
      FirstQualifyingNone(lines, name);
    }
  }

  /**
   * The ancestor walk of the name callback: at most five ancestors, nearest
   * first, stopping at the first one with a qualifying line.
   */
  method SearchAncestors(ancestors: seq<seq<string>>, name: string) returns (foundAuthor: bool, refined: string)
    ensures foundAuthor <==> Refine(ancestors, name).Some?
    ensures foundAuthor ==> refined == Refine(ancestors, name).value
  {
    ghost var levels := SearchedAncestors(ancestors);
    SearchedAncestorsPrefix(ancestors);
    foundAuthor, refined := false, "";
    var level := 0;
    while level < MAX_ANCESTOR_LEVELS && level < |ancestors| && !foundAuthor
      invariant 0 <= level <= |levels|
      invariant !foundAuthor ==> forall l :: 0 <= l < level ==> FirstQualifying(levels[l], name).None?
      invariant foundAuthor ==> Refine(ancestors, name) == Some(refined)
    {
      assert ancestors[level] == levels[level];
      foundAuthor, refined := ScanAncestor(ancestors[level], name);
      if foundAuthor {
        RefineAt(ancestors, name, level);
      }
      level := level + 1;
    }
    if !foundAuthor {
      RefineNone(ancestors, name);
    }
  }

  /** The ancestors searched are the first ones of the page, at most five. */
  lemma SearchedAncestorsPrefix(ancestors: seq<seq<string>>)
    ensures SearchedAncestors(ancestors) == ancestors[..|SearchedAncestors(ancestors)|]
    ensures |SearchedAncestors(ancestors)| == Min(|ancestors|, MAX_ANCESTOR_LEVELS)
  {
  }

  /** A searched ancestor with a qualifying line and none before it gives the refined name. */
  lemma RefineAt(ancestors: seq<seq<string>>, name: string, level: nat)
    requires level < |SearchedAncestors(ancestors)|
    requires FirstQualifying(SearchedAncestors(ancestors)[level], name).Some?
    requires forall l :: 0 <= l < level ==> FirstQualifying(SearchedAncestors(ancestors)[l], name).None?
    ensures Refine(ancestors, name) ==
              var lines := SearchedAncestors(ancestors)[level];
              Some(Clean(lines[FirstQualifying(lines, name).value]))
  {
    FirstWhereIs(SearchedAncestors(ancestors), lines => FirstQualifying(lines, name).Some?, level);
  }

  /** With no qualifying line in any searched ancestor, nothing is refined. */
  lemma RefineNone(ancestors: seq<seq<string>>, name: string)
    requires forall l :: 0 <= l < |SearchedAncestors(ancestors)| ==> FirstQualifying(SearchedAncestors(ancestors)[l], name).None?
    ensures Refine(ancestors, name).None?
  {
    FirstWhereNone(SearchedAncestors(ancestors), lines => FirstQualifying(lines, name).Some?);
  }

  /**
   * The name callback of the crawler: the trimmed anchor text, replaced by the
   * name the ancestor walk finds, or else, when the text is too short or
   * generic, by the image text or the sentinel.
   */
  method InferName(a: AnchorContext) returns (name: string)
    ensures name == OrgName(a)
  {
    name := Trim(a.text);
    var foundAuthor, refined := SearchAncestors(a.ancestors, name);
    if foundAuthor {
      name := refined;
    }
    if !foundAuthor && (|name| < 2 || IsGeneric(name)) {
      if a.alt.Some? && |a.alt.value| > 2 {
        name := Trim(a.alt.value);
      } else {
        name := UNKNOWN_NAME;
      }
    }
  }

  /**
   * An adopted name comes from the nearest of at most five ancestors that has a
   * qualifying line: a line with an organization keyword, other than the
   * anchor text, of length 2 to 59; the name is that line with its labels
   * removed and trimmed, and is longer than one character. No line of a
   * nearer ancestor, and no earlier line of the same ancestor, qualifies.
   */
  lemma RefinedNameOrigin(a: AnchorContext) returns (level: nat, k: nat)
    requires Refine(a.ancestors, Trim(a.text)).Some?
    ensures level < MAX_ANCESTOR_LEVELS && level < |a.ancestors| && k < |a.ancestors[level]|
    ensures var line := a.ancestors[level][k];
      && HasOrgKeyword(line) && line != Trim(a.text) && 1 < |line| < 60
      && OrgName(a) == Clean(line) && |OrgName(a)| > 1
    ensures forall l, j :: 0 <= l < level && 0 <= j < |a.ancestors[l]| ==> !Qualifies(a.ancestors[l][j], Trim(a.text))
    ensures forall j :: 0 <= j < k ==> !Qualifies(a.ancestors[level][j], Trim(a.text))
  {
    var name := Trim(a.text);
    var levels := SearchedAncestors(a.ancestors);
    level := FirstQualifyingLevel(a.ancestors, name).value;
    k := FirstQualifying(levels[level], name).value;
    FirstQualifyingFacts(levels[level], name);
    assert levels[level] == a.ancestors[level];
    forall l, j | 0 <= l < level && 0 <= j < |a.ancestors[l]|
      ensures !Qualifies(a.ancestors[l][j], name)
    {
      assert a.ancestors[l] == levels[l];
      assert FirstQualifying(levels[l], name).None?;
      FirstQualifyingFacts(levels[l], name);
    }
  }

  /**
   * When no line of the first five ancestors qualifies, a short or generic
   * anchor text gives way to the trimmed image text when that is longer than
   * two characters, else to the sentinel; any other anchor text is kept.
   */
  lemma FallbackName(a: AnchorContext)
    requires forall l, j :: 0 <= l < MAX_ANCESTOR_LEVELS && l < |a.ancestors| && 0 <= j < |a.ancestors[l]| ==>
      !Qualifies(a.ancestors[l][j], Trim(a.text))
    ensures var t := Trim(a.text);
      OrgName(a) == if |t| < 2 || IsGeneric(t) then
                      if a.alt.Some? && |a.alt.value| > 2 then Trim(a.alt.value) else UNKNOWN_NAME
                    else t
  {
    var name := Trim(a.text);
    var levels := SearchedAncestors(a.ancestors);
    forall l | 0 <= l < |levels|
      ensures FirstQualifying(levels[l], name).None?
    {
      assert levels[l] == a.ancestors[l];
      FirstQualifyingNone(levels[l], name);
    }
  }

  predicate IsWishlistAnchor(a: AnchorContext) {
    Contains(a.href, WISHLIST_PATH)
  }

  /** The wishlist anchors of a page (`a[href*="/hz/wishlist/ls/"]`), in page order. */
  function WishlistAnchors(page: seq<AnchorContext>): (w: seq<AnchorContext>)
    ensures |w| <= |page|
    ensures forall i :: 0 <= i < |w| ==> Contains(w[i].href, WISHLIST_PATH) && w[i] in page
    ensures forall i :: 0 <= i < |page| && Contains(page[i].href, WISHLIST_PATH) ==> page[i] in w
  {
    if page == [] then []
    else (if IsWishlistAnchor(page[0]) then [page[0]] else []) + WishlistAnchors(page[1..])
  }

  /** The anchors kept are exactly the page's `/hz/wishlist/ls/` anchors, in page order, repeats included. */
  lemma {:induction false} WishlistAnchorsInOrder(page: seq<AnchorContext>)
    ensures WishlistAnchors(page) == Filter(page, IsWishlistAnchor)
  {
    if page != [] {
      WishlistAnchorsInOrder(page[1..]);
      assert page == [page[0]] + page[1..];
      FilterCons(page[0], page[1..], IsWishlistAnchor);
    }
  }

  /** The organizations of a prefecture page: one per wishlist anchor, named by `OrgName`. */
  function PageOrganizations(page: seq<AnchorContext>, prefecture: string): seq<Org> {
    var w := WishlistAnchors(page);
    seq(|w|, i requires 0 <= i < |w| => Org(OrgName(w[i]), w[i].href, prefecture))
  }

  /** Every organization of a page has a wishlist address and the page's prefecture. */
  lemma OrganizationsFacts(page: seq<AnchorContext>, prefecture: string)
    ensures forall i :: 0 <= i < |PageOrganizations(page, prefecture)| ==>
              Contains(PageOrganizations(page, prefecture)[i].url, WISHLIST_PATH)
              && PageOrganizations(page, prefecture)[i].prefecture == prefecture
  {
  }

  predicate IsKnown(name: string) {
    name != UNKNOWN_NAME
  }

  /** An incoming entry replaces the one held for its address: known over unknown, else longer over shorter. */
  predicate Replaces(existing: Org, incoming: Org) {
    || (!IsKnown(existing.name) && IsKnown(incoming.name))
    || (IsKnown(existing.name) && IsKnown(incoming.name) && |incoming.name| > |existing.name|)
  }

  /** One turn of the `organizations.forEach` merge. */
  function MergeStep(m: OrderedMap<Org>, o: Org): (m': OrderedMap<Org>)
    requires m.Valid()
    ensures m'.Valid()
    ensures m'.keys == if o.url in m.entries then m.keys else m.keys + [o.url]
    ensures m'.entries == if o.url !in m.entries || Replaces(m.entries[o.url], o) then m.entries[o.url := o] else m.entries
  {
    match m.Get(o.url)
    case None => m.Set(o.url, o)
    case Some(existing) => if Replaces(existing, o) then m.Set(o.url, o) else m
  }

  /** The `orgMap` after the merge of `orgs`. */
  function OrgMap(orgs: seq<Org>): (m: OrderedMap<Org>)
    ensures m.Valid()
  {
    if orgs == [] then Empty() else MergeStep(OrgMap(orgs[..|orgs| - 1]), orgs[|orgs| - 1])
  }

  /** `[...orgMap.values()].slice(0, MAX_ORGS_PER_PREF)`. */
  function MergedOrgs(orgs: seq<Org>): seq<Org> {
    Take(OrgMap(orgs).Values(), MAX_ORGS_PER_PREF)
  }

  function OrgUrls(orgs: seq<Org>): (us: seq<string>)
    ensures |us| == |orgs| && forall i :: 0 <= i < |orgs| ==> us[i] == orgs[i].url
  {
    seq(|orgs|, i requires 0 <= i < |orgs| => orgs[i].url)
  }

  ghost predicate HasKnown(orgs: seq<Org>, u: string) {
    exists i :: 0 <= i < |orgs| && orgs[i].url == u && IsKnown(orgs[i].name)
  }

  /**
   * `orgs[j]` is the entry the merge keeps for address `u`: when some entry
   * for `u` has a known name, the first known one of greatest length;
   * otherwise the first entry for `u`.
   */
  ghost predicate IsKept(orgs: seq<Org>, u: string, j: int) {
    && 0 <= j < |orgs| && orgs[j].url == u
    && if HasKnown(orgs, u) then
         && IsKnown(orgs[j].name)
         && (forall i :: 0 <= i < |orgs| && orgs[i].url == u && IsKnown(orgs[i].name) ==> |orgs[i].name| <= |orgs[j].name|)
         && (forall i :: 0 <= i < j && orgs[i].url == u && IsKnown(orgs[i].name) ==> |orgs[i].name| < |orgs[j].name|)
       else
         forall i :: 0 <= i < j ==> orgs[i].url != u
  }

  /** At most one entry is the kept one. */
  lemma KeptUnique(orgs: seq<Org>, u: string, j1: int, j2: int)
    requires IsKept(orgs, u, j1) && IsKept(orgs, u, j2)
    ensures j1 == j2
  {
  }

  lemma KeptFirst(s: seq<Org>, o: Org)
    requires forall i :: 0 <= i < |s| ==> s[i].url != o.url
    ensures IsKept(s + [o], o.url, |s|)
  {
    var t := s + [o];
    assert forall i :: 0 <= i < |s| ==> t[i] == s[i];
  }

  lemma KeptOther(s: seq<Org>, o: Org, u: string, j: int)
    requires IsKept(s, u, j) && o.url != u
    ensures IsKept(s + [o], u, j)
  {
    var t := s + [o];
    assert forall i :: 0 <= i < |s| ==> t[i] == s[i];
    assert HasKnown(t, u) <==> HasKnown(s, u);
  }

  lemma KeptSameStays(s: seq<Org>, o: Org, j: int)
    requires IsKept(s, o.url, j) && !Replaces(s[j], o)
    ensures IsKept(s + [o], o.url, j)
  {
    var t := s + [o];
    assert forall i :: 0 <= i < |s| ==> t[i] == s[i];
    if !IsKnown(o.name) {
      assert HasKnown(t, o.url) <==> HasKnown(s, o.url);
    } else {
      assert HasKnown(s, o.url);
      assert HasKnown(t, o.url);
    }
  }

  lemma KeptSameReplaced(s: seq<Org>, o: Org, j: int)
    requires IsKept(s, o.url, j) && Replaces(s[j], o)
    ensures IsKept(s + [o], o.url, |s|)
  {
    var t := s + [o];
    assert forall i :: 0 <= i < |s| ==> t[i] == s[i];
    assert t[|s|] == o;
    assert HasKnown(t, o.url);
  }

  /** The map holds each address once, in first-seen order. */
  lemma {:induction false} OrgMapKeys(orgs: seq<Org>)
    ensures OrgMap(orgs).keys == Dedup(OrgUrls(orgs))
  {
    if orgs != [] {
      var n := |orgs| - 1;
      var s, o := orgs[..n], orgs[n];
      OrgMapKeys(s);
      OrgUrlsSnoc(orgs);
      KeysSnoc(OrgMap(s), OrgUrls(s), o.url, OrgMap(orgs));
    }
  }

  /** An address missing from the deduplicated addresses belongs to no entry. */
  lemma NotSeen(s: seq<Org>, u: string)
    requires u !in Dedup(OrgUrls(s))
    ensures forall i :: 0 <= i < |s| ==> s[i].url != u
  {
    DedupMember(OrgUrls(s), u);
    forall i | 0 <= i < |s|
      ensures s[i].url != u
    {
      assert OrgUrls(s)[i] == s[i].url;
    }
  }

  lemma OrgUrlsSnoc(orgs: seq<Org>)
    requires orgs != []
    ensures OrgUrls(orgs) == OrgUrls(orgs[..|orgs| - 1]) + [orgs[|orgs| - 1].url]
  {
  }

  /** The map holds, for each address, the entry `IsKept` describes. */
  lemma {:induction false} OrgMapEntries(orgs: seq<Org>) returns (kept: map<string, nat>)
    ensures forall u :: u in OrgMap(orgs).entries ==>
              u in kept && IsKept(orgs, u, kept[u]) && OrgMap(orgs).entries[u] == orgs[kept[u]]
  {
    if orgs == [] {
      kept := map[];
    } else {
      var n := |orgs| - 1;
      var prev := OrgMapEntries(orgs[..n]);
      kept := OrgMapEntriesStep(orgs, prev);
    }
  }

  lemma OrgMapEntriesStep(orgs: seq<Org>, prev: map<string, nat>) returns (kept: map<string, nat>)
    requires orgs != []
    requires var s := orgs[..|orgs| - 1];
      forall u :: u in OrgMap(s).entries ==> u in prev && IsKept(s, u, prev[u]) && OrgMap(s).entries[u] == s[prev[u]]
    ensures forall u :: u in OrgMap(orgs).entries ==>
              u in kept && IsKept(orgs, u, kept[u]) && OrgMap(orgs).entries[u] == orgs[kept[u]]
  {
    var n := |orgs| - 1;
    var s, o := orgs[..n], orgs[n];
    assert orgs == s + [o];
    var m := OrgMap(s);
    var m' := OrgMap(orgs);
    assert m' == MergeStep(m, o);
    var replaced := o.url !in m.entries || Replaces(m.entries[o.url], o);
    kept := if replaced then prev[o.url := n] else prev;
    forall u | u in m'.entries
      ensures u in kept && IsKept(orgs, u, kept[u]) && m'.entries[u] == orgs[kept[u]]
    {
      if u != o.url {
        KeptOther(s, o, u, prev[u]);
      } else if o.url !in m.entries {
        OrgMapKeys(s);
        assert o.url !in m.keys;
        NotSeen(s, o.url);
        KeptFirst(s, o);
      } else if replaced {
        KeptSameReplaced(s, o, prev[u]);
      } else {
        KeptSameStays(s, o, prev[u]);
      }
    }
  }

  /**
   * The merge yields distinct addresses in first-seen order, at most
   * `MAX_ORGS_PER_PREF` of them, and for each the entry `IsKept` describes:
   * a known name is never given up for the sentinel, and among known names
   * the first longest one wins.
   */
  lemma MergedOrgsUrls(orgs: seq<Org>)
    ensures OrgUrls(MergedOrgs(orgs)) == Take(Dedup(OrgUrls(orgs)), MAX_ORGS_PER_PREF)
    ensures Distinct(OrgUrls(MergedOrgs(orgs)))
    ensures |MergedOrgs(orgs)| <= MAX_ORGS_PER_PREF
  {
    OrgMapKeys(orgs);
    var keys := OrgMap(orgs).keys;
    var r := MergedOrgs(orgs);
    var d := Take(keys, MAX_ORGS_PER_PREF);
    assert |r| == |d|;
    forall k | 0 <= k < |r|
      ensures OrgUrls(r)[k] == d[k]
    {
      var _ := MergedOrgAt(orgs, k);
    }
    assert OrgUrls(r) == d;
    DistinctTake(keys, MAX_ORGS_PER_PREF);
  }

  /** The `k`-th merged entry has the `k`-th address of the map and is the kept entry for it. */
  lemma MergedOrgAt(orgs: seq<Org>, k: nat) returns (j: nat)
    requires k < |MergedOrgs(orgs)|
    ensures MergedOrgs(orgs)[k].url == OrgMap(orgs).keys[k]
    ensures IsKept(orgs, OrgMap(orgs).keys[k], j) && MergedOrgs(orgs)[k] == orgs[j]
  {
    var kept := OrgMapEntries(orgs);
    var m := OrgMap(orgs);
    var u := m.keys[k];
    assert MergedOrgs(orgs)[k] == m.Values()[k] == m.entries[u];
    j := kept[u];
  }

  /** Each entry of `r` is the entry `IsKept` describes for its address. */
  ghost predicate AllKept(orgs: seq<Org>, r: seq<Org>) {
    forall k :: 0 <= k < |r| ==> exists j :: IsKept(orgs, r[k].url, j) && r[k] == orgs[j]
  }

  lemma MergedOrgsKept(orgs: seq<Org>)
    ensures AllKept(orgs, MergedOrgs(orgs))
  {
    var r := MergedOrgs(orgs);
    forall k | 0 <= k < |r|
      ensures exists j :: IsKept(orgs, r[k].url, j) && r[k] == orgs[j]
    {
      var j := MergedOrgAt(orgs, k);
    }
  }

  /** The `orgMap` loop of the crawler, then the cap. */
  method MergeByUrl(orgs: seq<Org>) returns (unique: seq<Org>)
    ensures unique == MergedOrgs(orgs)
    ensures OrgUrls(unique) == Take(Dedup(OrgUrls(orgs)), MAX_ORGS_PER_PREF)
    ensures AllKept(orgs, unique)
  {
    var orgMap := Empty();
    for i := 0 to |orgs|
      invariant orgMap == OrgMap(orgs[..i])
    {
      var o := orgs[i];
      ghost var before := orgMap;
      var existing := orgMap.Get(o.url);
      if existing.None? {
        orgMap := orgMap.Set(o.url, o);
      } else if !IsKnown(existing.value.name) && IsKnown(o.name) {
        orgMap := orgMap.Set(o.url, o);
      } else if IsKnown(existing.value.name) && IsKnown(o.name) {
        if |o.name| > |existing.value.name| {
          orgMap := orgMap.Set(o.url, o);
        }
      }
      assert orgMap == MergeStep(before, o);
      assert orgs[..i + 1][..i] == orgs[..i];
    }
    assert orgs[..|orgs|] == orgs;
    unique := Take(orgMap.Values(), MAX_ORGS_PER_PREF);
    MergedOrgsUrls(orgs);
    MergedOrgsKept(orgs);
  }
}

/** The search-results page: the reported number of vacancies and the list
    of detail links to visit. */
module Listing {
  import opened Wrappers
  import opened Text
  import opened Seqs
  import opened Numbers
  import Extract

  /** What the search page's lookups yield. */
  datatype SearchPage = SearchPage(
    searchHeader: Option<string>,    // [data-qa="vacancies-search-header"], text joined by " "
    serpFound: Option<string>,       // [data-qa="serp__found"], text joined by " "
    h1: Option<string>,              // the first <h1>, text joined by " "
    sectionHeader: Option<string>,   // .bloko-header-section-3, text joined by " "
    header2: Option<string>,         // .bloko-header-2, text joined by " "
    strings: seq<string>,            // the page's stripped, non-empty text nodes
    titleHrefs: seq<Option<string>>, // the href of each a.serp-item__title, if it has one
    anchorHrefs: seq<string>)        // the href of each <a> that has one

  // ---------- total found ----------

  /** The element `_extract_total_found` reads: a labelled header, else the
      first of `h1`, `.bloko-header-section-3` with text, else whatever
      `.bloko-header-2` gives. (A text joined by " " is empty exactly when
      the stripped text is.) */
  function HeaderText(p: SearchPage): (t: Option<string>)
    ensures p.searchHeader.Some? ==> t == p.searchHeader
    ensures p.searchHeader.None? && p.serpFound.Some? ==> t == p.serpFound
    ensures p.searchHeader.None? && p.serpFound.None? ==>
      if p.h1.Some? && p.h1.value != "" then t == p.h1
      else if p.sectionHeader.Some? && p.sectionHeader.value != "" then t == p.sectionHeader
      else t == p.header2
  {
    if p.searchHeader.Some? then p.searchHeader
    else if p.serpFound.Some? then p.serpFound
    else if p.h1.Some? && p.h1.value != "" then p.h1
    else if p.sectionHeader.Some? && p.sectionHeader.value != "" then p.sectionHeader
    else p.header2
  }

  /** The fallback's test, `n and n > 10`. */
  predicate IsLarge(t: string) {
    match ExtractNum(t)
    case None => false
    case Some(n) => n > 10
  }

  /** The first text node whose number exceeds 10. */
  function FirstLargeIndex(strings: seq<string>): (r: Option<nat>)
    ensures r.None? ==> forall i :: 0 <= i < |strings| ==> !IsLarge(strings[i])
    ensures r.Some? ==> r.value < |strings| && IsLarge(strings[r.value])
    ensures r.Some? ==> forall i :: 0 <= i < r.value ==> !IsLarge(strings[i])
  {
    if strings == [] then None
    else if IsLarge(strings[0]) then Some(0)
    else
      assert forall i :: 0 < i < |strings| ==> strings[i] == strings[1..][i - 1];
      match FirstLargeIndex(strings[1..])
      case None => None
      case Some(k) => Some(k + 1)
  }

  /** `_extract_total_found`: the header's number if it has one (even a small
      one), else the first number above 10 anywhere in the page. */
  function TotalFound(p: SearchPage): (n: Option<nat>)
    ensures HeaderText(p).Some? && ExtractNum(HeaderText(p).value).Some? ==>
      n == ExtractNum(HeaderText(p).value)
    ensures (HeaderText(p).None? || ExtractNum(HeaderText(p).value).None?) ==>
      n == (if FirstLargeIndex(p.strings).Some?
            then ExtractNum(p.strings[FirstLargeIndex(p.strings).value]) else None)
  {
    var header := HeaderText(p);
    if header.Some? && ExtractNum(header.value).Some? then ExtractNum(header.value)
    else match FirstLargeIndex(p.strings)
      case None => None
      case Some(i) => ExtractNum(p.strings[i])
  }

  /** Without a header number, the count is a number above 10 read from one
      of the page's text nodes, or absent. */
  lemma FallbackTotalAboveTen(p: SearchPage)
    requires HeaderText(p).None? || ExtractNum(HeaderText(p).value).None?
    ensures TotalFound(p).Some? ==> TotalFound(p).value > 10
    ensures TotalFound(p).Some? ==> exists i :: 0 <= i < |p.strings| && ExtractNum(p.strings[i]) == TotalFound(p)
  {
  }

  // ---------- links ----------

  /** The primary strategy: every title link's `href` that is present and non-empty. */
  function TitleLinks(hrefs: seq<Option<string>>): (links: seq<string>)
    ensures forall u :: u in links <==> u != "" && Some(u) in hrefs
  {
    if hrefs == [] then []
    else
      var rest := TitleLinks(hrefs[1..]);
      assert forall h :: h in hrefs <==> h == hrefs[0] || h in hrefs[1..];
      if hrefs[0].Some? && hrefs[0].value != "" then [hrefs[0].value] + rest else rest
  }

  /** The title links keep the page's order: each anchor contributes its own
      href, or nothing, in its place. */
  lemma {:induction false} TitleLinksAppend(a: seq<Option<string>>, b: seq<Option<string>>)
    ensures TitleLinks(a + b) == TitleLinks(a) + TitleLinks(b)
  {
    if a == [] {
      assert a + b == b;
    } else {
      assert (a + b)[1..] == a[1..] + b;
      TitleLinksAppend(a[1..], b);
    }
  }

  lemma TitleLinksOne(h: Option<string>)
    ensures TitleLinks([h]) == if h.Some? && h.value != "" then [h.value] else []
  {
    assert [h][1..] == [];
  }

  /** `re.search(r"/vacancy/\d+", href)` finds a match. */
  predicate HasVacancyPath(href: string) {
    Extract.VacancyPathIndex(href).Some?
  }

  /** The fallback strategy: every anchor whose `href` mentions `/vacancy/<digits>`,
      with its query string cut off. */
  function VacancyLinks(hrefs: seq<string>): (links: seq<string>)
    ensures forall u :: u in links <==> exists h :: h in hrefs && HasVacancyPath(h) && u == BeforeQuery(h)
  {
    if hrefs == [] then []
    else
      var rest := VacancyLinks(hrefs[1..]);
      assert forall h :: h in hrefs <==> h == hrefs[0] || h in hrefs[1..];
      if HasVacancyPath(hrefs[0]) then [BeforeQuery(hrefs[0])] + rest else rest
  }

  /** The fallback links keep the page's order as well. */
  lemma {:induction false} VacancyLinksAppend(a: seq<string>, b: seq<string>)
    ensures VacancyLinks(a + b) == VacancyLinks(a) + VacancyLinks(b)
  {
    if a == [] {
      assert a + b == b;
    } else {
      assert (a + b)[1..] == a[1..] + b;
      VacancyLinksAppend(a[1..], b);
    }
  }

  lemma VacancyLinksOne(h: string)
    ensures VacancyLinks([h]) == if HasVacancyPath(h) then [BeforeQuery(h)] else []
  {
    assert [h][1..] == [];
  }

  /** The title links, or the fallback when there are none. */
  function CandidateLinks(p: SearchPage): (links: seq<string>)
    ensures TitleLinks(p.titleHrefs) != [] ==> links == TitleLinks(p.titleHrefs)
    ensures TitleLinks(p.titleHrefs) == [] ==> links == VacancyLinks(p.anchorHrefs)
  {
    var primary := TitleLinks(p.titleHrefs);
    if primary != [] then primary else VacancyLinks(p.anchorHrefs)
  }

  /** Each link with its query string cut off. */
  function StripAll(links: seq<string>): (r: seq<string>)
    ensures |r| == |links| && forall i :: 0 <= i < |links| ==> r[i] == BeforeQuery(links[i])
  {
    seq(|links|, i requires 0 <= i < |links| => BeforeQuery(links[i]))
  }

  /** The links `search` visits, in order. */
  function Links(p: SearchPage, limit: int): seq<string> {
    SliceTo(Distinct(StripAll(CandidateLinks(p))), limit)
  }

  /** The de-duplication loop of `search` and the `[:limit]` cut. */
  method DedupLinks(links: seq<string>, limit: int) returns (uniq: seq<string>)
    ensures uniq == SliceTo(Distinct(StripAll(links)), limit)
  {
    var seen: set<string> := {};
    uniq := [];
    var i := 0;
    while i < |links|
      invariant 0 <= i <= |links|
      invariant uniq == Distinct(StripAll(links[..i]))
      invariant forall u :: u in seen <==> u in uniq
    {
      var u := BeforeQuery(links[i]);
      assert StripAll(links[..i + 1]) == StripAll(links[..i]) + [u];
      DistinctAppend(StripAll(links[..i]), u);
      if u !in seen {
        seen := seen + {u};
        uniq := uniq + [u];
      }
      i := i + 1;
    }
    assert links[..i] == links;
    uniq := SliceTo(uniq, limit);
  }

  /** What the search promises of its link list: no query strings, no
      repeats, at most `limit` links, each the cut-off form of a candidate,
      in the order first seen; and every cut-off candidate when the limit
      allows it. */
  lemma LinksSpec(p: SearchPage, limit: int)
    ensures var links := Links(p, limit);
      && (forall i :: 0 <= i < |links| ==> '?' !in links[i])
      && NoDuplicates(links)
      && (0 <= limit ==> |links| <= limit)
      && (forall u :: u in links ==> exists h :: h in CandidateLinks(p) && u == BeforeQuery(h))
      && (0 <= limit && |Distinct(StripAll(CandidateLinks(p)))| <= limit ==>
            forall h :: h in CandidateLinks(p) ==> BeforeQuery(h) in links)
    ensures var links := Links(p, limit); var all := StripAll(CandidateLinks(p));
      forall i, j :: 0 <= i < j < |links| ==> FirstIndex(all, links[i]) < FirstIndex(all, links[j])
  {
    var cands := CandidateLinks(p);
    var all := StripAll(cands);
    var d := Distinct(all);
    var links := Links(p, limit);
    assert links <= d;
    forall i | 0 <= i < |links| ensures links[i] in all {
      assert links[i] == d[i] && d[i] in d;
    }
    forall i | 0 <= i < |links| ensures '?' !in links[i] {
      var k :| 0 <= k < |all| && all[k] == links[i];
    }
    forall u | u in links ensures exists h :: h in cands && u == BeforeQuery(h) {
      var k :| 0 <= k < |all| && all[k] == u;
      assert cands[k] in cands;
    }
    forall h | h in cands && 0 <= limit && |d| <= limit ensures BeforeQuery(h) in links {
      var k :| 0 <= k < |cands| && cands[k] == h;
      assert all[k] in all;
    }
    forall i, j | 0 <= i < j < |links| ensures FirstIndex(all, links[i]) < FirstIndex(all, links[j]) {
      assert links[i] == d[i] && links[j] == d[j];
      DistinctFirstSeenOrder(all, i, j);
    }
  }

  /** Where the candidates come from: the present, non-empty title links if
      there are any, else the cut-off `href`s of anchors with a vacancy path. */
  lemma CandidateSources(p: SearchPage)
    ensures forall u :: u in CandidateLinks(p) ==>
      (u != "" && Some(u) in p.titleHrefs) ||
      (TitleLinks(p.titleHrefs) == [] && exists h :: h in p.anchorHrefs && HasVacancyPath(h) && u == BeforeQuery(h))
  {
  }
}

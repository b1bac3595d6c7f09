/** The field readers of a vacancy detail page and `parse_vacancy`, which
    assembles their results into a record. Each HTML lookup is replaced by
    the text it would yield, carried by a `Page`. */
module Extract {
  import opened Wrappers
  import opened Text
  import opened Seqs
  import opened Numbers
  import opened Models

  /** An `<a>` element next to the company name. */
  datatype Anchor = Anchor(href: Option<string>)

  /** What the detail page's lookups yield. */
  datatype Page = Page(
    titleTag: Option<string>,           // [data-qa="vacancy-title"], text stripped
    h1: Option<string>,                 // the first <h1>, text stripped
    companyName: Option<string>,        // [data-qa="vacancy-company-name"], text stripped
    companyParentLink: Option<Anchor>,  // the <a> enclosing that element
    companyChildLink: Option<Anchor>,   // the first <a> inside it
    salary: Option<string>,             // [data-qa="vacancy-salary"], text joined by " "
    experience: Option<string>,         // [data-qa="vacancy-experience"], text joined by " "
    location: Option<string>,           // [data-qa="vacancy-view-location"], text joined by " "
    locationClass: Option<string>,      // .vacancy-view-location, text joined by " "
    creationTime: Option<string>,       // [data-qa="vacancy-view-creation-time"], text joined by " "
    time: Option<string>,               // the first <time>, text joined by " "
    description: Option<string>,        // [data-qa="vacancy-description"], text joined by newlines
    skillTexts: seq<string>,            // each skill tag's stripped text, in document order
    text: string,                       // the whole page's text joined by " "
    strings: seq<string>)               // every text node, in document order

  /** A page on which no lookup finds anything. */
  const BlankPage := Page(None, None, None, None, None, None, None, None, None, None, None, None, [], "", [])

  // ---------- vacancy id ----------

  /** `/vacancy/` followed by a digit starts at position `k` of `s`. */
  predicate VacancyPathAt(s: string, k: nat) {
    k + 10 <= |s| && s[k..k + 9] == "/vacancy/" && IsDigit(s[k + 9])
  }

  /** Where `re.search(r"/vacancy/(\d+)", s)` matches: the leftmost such position. */
  function VacancyPathIndex(s: string): (r: Option<nat>)
    ensures r.None? ==> forall k: nat :: !VacancyPathAt(s, k)
    ensures r.Some? ==> VacancyPathAt(s, r.value) && forall k: nat :: k < r.value ==> !VacancyPathAt(s, k)
  {
    if |s| < 10 then None
    else if s[..9] == "/vacancy/" && IsDigit(s[9]) then Some(0)
    else
      var r := VacancyPathIndex(s[1..]);
      assert forall k: nat :: VacancyPathAt(s, k) <==> k > 0 && VacancyPathAt(s[1..], k - 1) by {
        forall k: nat ensures VacancyPathAt(s, k) <==> k > 0 && VacancyPathAt(s[1..], k - 1) {
          if k > 0 && k + 10 <= |s| {
            assert s[k..k + 9] == s[1..][k - 1..k - 1 + 9];
          }
        }
      }
      match r
      case None => None
      case Some(k) => Some(k + 1)
  }

  /** `_extract_id_from_url`: the digits after the first `/vacancy/` that
      has any, else the whole URL. */
  function ExtractIdFromUrl(url: string): (id: string)
    ensures VacancyPathIndex(url).None? ==> id == url
    ensures VacancyPathIndex(url).Some? ==>
      var k := VacancyPathIndex(url).value;
      id != [] && AllDigits(id) && k + 9 + |id| <= |url| && url[k + 9..k + 9 + |id|] == id &&
      (k + 9 + |id| == |url| || !IsDigit(url[k + 9 + |id|]))
  {
    match VacancyPathIndex(url)
    case None => url
    case Some(k) =>
      var d := DigitRun(url[k + 9..]);
      assert d[0] == url[k + 9];
      assert url[k + 9..k + 9 + |d|] == url[k + 9..][..|d|];
      d
  }

  /** The id is never empty unless the URL is. */
  lemma IdIsPresent(url: string)
    requires url != []
    ensures ExtractIdFromUrl(url) != []
  {
  }

  // ---------- first-match classification ----------

  /** One alternative of an `if`/`elif` chain: its outcome is chosen when one
      of `exact` occurs in the text or one of `lowered` in the lower-cased text. */
  datatype Rule = Rule(outcome: string, exact: seq<string>, lowered: seq<string>)

  predicate AnyIn(s: string, keys: seq<string>) {
    exists i :: 0 <= i < |keys| && Contains(s, keys[i])
  }

  predicate Fires(rule: Rule, text: string) {
    AnyIn(text, rule.exact) || AnyIn(Lower(text), rule.lowered)
  }

  /** The index of the first rule that fires. */
  function FirstFiring(rules: seq<Rule>, text: string): (r: Option<nat>)
    ensures r.None? <==> forall i :: 0 <= i < |rules| ==> !Fires(rules[i], text)
    ensures r.Some? ==> r.value < |rules| && Fires(rules[r.value], text)
    ensures r.Some? ==> forall i :: 0 <= i < r.value ==> !Fires(rules[i], text)
  {
    if rules == [] then None
    else if Fires(rules[0], text) then Some(0)
    else match FirstFiring(rules[1..], text)
      case None => None
      case Some(k) => Some(k + 1)
  }

  /** The outcome of the first rule that fires, the reference reading of "first
      match in priority order wins". */
  function FirstMatch(rules: seq<Rule>, text: string): Option<string> {
    match FirstFiring(rules, text)
    case None => None
    case Some(i) => Some(rules[i].outcome)
  }

  lemma AnyInOne(s: string, a: string)
    ensures AnyIn(s, [a]) <==> Contains(s, a)
  {
    assert Contains(s, a) ==> Contains(s, [a][0]);
  }

  lemma AnyInPair(s: string, a: string, b: string)
    ensures AnyIn(s, [a, b]) <==> Contains(s, a) || Contains(s, b)
  {
    assert Contains(s, a) ==> Contains(s, [a, b][0]);
    assert Contains(s, b) ==> Contains(s, [a, b][1]);
  }

  /** A three-way `if`/`elif` chain is `FirstMatch` over its three rules. */
  lemma FirstMatchOfThree(r0: Rule, r1: Rule, r2: Rule, text: string)
    ensures FirstMatch([r0, r1, r2], text) ==
      if Fires(r0, text) then Some(r0.outcome)
      else if Fires(r1, text) then Some(r1.outcome)
      else if Fires(r2, text) then Some(r2.outcome)
      else None
  {
    var rules := [r0, r1, r2];
    assert rules[1..] == [r1, r2] && rules[1..][1..] == [r2] && rules[1..][1..][1..] == [];
    if Fires(r0, text) {
      assert FirstFiring(rules, text) == Some(0);
    } else if Fires(r1, text) {
      assert FirstFiring(rules[1..], text) == Some(0);
      assert FirstFiring(rules, text) == Some(1);
    } else if Fires(r2, text) {
      assert FirstFiring(rules[1..][1..], text) == Some(0);
      assert FirstFiring(rules, text) == Some(2);
    } else {
      assert FirstFiring(rules, text) == None;
    }
  }

  // ---------- salary ----------

  datatype Salary = Salary(
    from: Option<nat>,
    to: Option<nat>,
    currency: Option<string>,
    isGross: Option<bool>,
    text: Option<string>)

  /** The currency test of `_parse_salary`, as written. */
  function SalaryCurrency(text: string): Option<string> {
    var low := Lower(text);
    if Contains(text, "₽") || Contains(low, "руб") then Some("RUB")
    else if Contains(text, "€") || Contains(low, "eur") then Some("EUR")
    else if Contains(text, "$") || Contains(low, "usd") then Some("USD")
    else None
  }

  const CurrencyRules: seq<Rule> := [
    Rule("RUB", ["₽"], ["руб"]),
    Rule("EUR", ["€"], ["eur"]),
    Rule("USD", ["$"], ["usd"])]

  /** The currency is RUB before EUR before USD: the first that occurs. */
  lemma CurrencyPrecedence(text: string)
    ensures SalaryCurrency(text) == FirstMatch(CurrencyRules, text)
  {
    var low := Lower(text);
    AnyInOne(text, "₽");
    AnyInOne(low, "руб");
    AnyInOne(text, "€");
    AnyInOne(low, "eur");
    AnyInOne(text, "$");
    AnyInOne(low, "usd");
    FirstMatchOfThree(CurrencyRules[0], CurrencyRules[1], CurrencyRules[2], text);
  }

  /** `_parse_salary`. */
  function ParseSalary(element: Option<string>): (s: Salary)
    ensures element.None? ==> s == Salary(None, None, None, None, None)
    ensures element.Some? ==> s.text == element && s.currency == SalaryCurrency(element.value)
    ensures s.isGross != Some(false)
    ensures element.Some? ==> (s.isGross == Some(true) <==> Contains(Lower(element.value), "до вычета"))
    ensures element.Some? && !HasDigit(element.value) ==> s.from.None? && s.to.None?
  {
    match element
    case None => Salary(None, None, None, None, None)
    case Some(text) =>
      var nums := AllGroups(text);
      var from := if |nums| >= 1 then GroupValue(nums[0]) else None;
      var to := if |nums| >= 2 then GroupValue(nums[1]) else None;
      var gross := if Contains(Lower(text), "до вычета") then Some(true) else None;
      Salary(from, to, SalaryCurrency(text), gross, Some(text))
  }

  /** One number sets only the lower bound; two or more give the bounds from
      the first two, each read as the number its digits spell. */
  lemma SalaryBounds(text: string)
    ensures var s := ParseSalary(Some(text)); var nums := AllGroups(text);
      && (|nums| == 1 ==> s.from == GroupValue(nums[0]) && s.to.None?)
      && (|nums| >= 2 ==> s.from == GroupValue(nums[0]) && s.to == GroupValue(nums[1]))
      && (s.from.Some? ==> s.from == Some(Value(DigitsOf(nums[0]))))
      && (s.to.Some? ==> s.to == Some(Value(DigitsOf(nums[1]))))
  {
    var nums := AllGroups(text);
    if |nums| >= 1 && GroupValue(nums[0]).Some? {
      GroupValueIsItsDigits(nums[0]);
    }
    if |nums| >= 2 && GroupValue(nums[1]).Some? {
      GroupValueIsItsDigits(nums[1]);
    }
  }

  /** A salary line of the shape "<words> 100 000 <words> 150 000 <words>"
      reads as the range between the two grouped numbers. */
  lemma SalaryRangeReading(p: string, g1: string, m: string, g2: string, q: string)
    requires !HasDigit(p) && !HasDigit(m) && !HasDigit(q)
    requires m != [] && !IsGroupChar(m[0])
    requires q == [] || !IsGroupChar(q[0])
    requires g1 != [] && IsDigit(g1[0]) && forall i :: 0 <= i < |g1| ==> IsDigit(g1[i]) || IsSeparator(g1[i])
    requires g2 != [] && IsDigit(g2[0]) && forall i :: 0 <= i < |g2| ==> IsDigit(g2[i]) || IsSeparator(g2[i])
    ensures var s := ParseSalary(Some(p + g1 + m + g2 + q));
      s.from == Some(Value(DigitsOf(g1))) && s.to == Some(Value(DigitsOf(g2)))
  {
    var text := p + g1 + m + g2 + q;
    AllGroupsOfTwo(p, g1, m, g2, q);
    GroupedDigitsConvert(g1);
    GroupedDigitsConvert(g2);
    SalaryBounds(text);
  }

  // ---------- experience ----------

  /** A dash of the pattern `[–-]`: a hyphen or an en dash. */
  predicate IsDash(c: char) {
    c == '-' || c == '\U{2013}'
  }

  /** `(\d)[–-](\d)` matches at position `k`. */
  predicate RangeAt(s: string, k: nat) {
    k + 3 <= |s| && IsDigit(s[k]) && IsDash(s[k + 1]) && IsDigit(s[k + 2])
  }

  /** Where `re.search(r"(\d)[–-](\d)", s)` matches: the leftmost position. */
  function RangeIndex(s: string): (r: Option<nat>)
    ensures r.None? ==> forall k: nat :: !RangeAt(s, k)
    ensures r.Some? ==> RangeAt(s, r.value) && forall k: nat :: k < r.value ==> !RangeAt(s, k)
  {
    if |s| < 3 then None
    else if IsDigit(s[0]) && IsDash(s[1]) && IsDigit(s[2]) then Some(0)
    else
      assert forall k: nat :: RangeAt(s, k) <==> k > 0 && RangeAt(s[1..], k - 1);
      match RangeIndex(s[1..])
      case None => None
      case Some(k) => Some(k + 1)
  }

  /** The bucket table applied to a number of years. */
  function Threshold(years: nat): (b: string)
    ensures b in {"0-1", "1-3", "3-6", "6+"}
    ensures b == "0-1" <==> years <= 1
    ensures b == "1-3" <==> 1 < years <= 3
    ensures b == "3-6" <==> 3 < years <= 6
    ensures b == "6+" <==> 6 < years
  {
    if years <= 1 then "0-1"
    else if years <= 3 then "1-3"
    else if years <= 6 then "3-6"
    else "6+"
  }

  /** The value of the first run of digits (`re.search(r"(\d+)", s)`), if any. */
  function FirstInt(s: string): (r: Option<nat>)
    ensures r.None? <==> !HasDigit(s)
  {
    match FirstDigitIndex(s)
    case None => None
    case Some(k) =>
      assert DigitRun(s[k..]) != [];
      Some(Value(DigitRun(s[k..])))
  }

  /** The number read is the first run of digits, read in full: a digit-free
      prefix, then digits, then a non-digit gives exactly those digits' value. */
  lemma FirstIntAt(p: string, d: string, q: string)
    requires !HasDigit(p) && d != [] && AllDigits(d)
    requires q == [] || !IsDigit(q[0])
    ensures FirstInt(p + d + q) == Some(Value(d))
  {
    assert p + d + q == p + (d + q);
    FirstDigitIndexAfterPrefix(p, d + q);
    assert (p + d + q)[|p|..] == d + q;
    DigitRunOfDigits(d, q);
  }

  /** The bucket part of `_parse_experience`: by the upper digit of the first
      single-digit range, else by the first number; none without digits. */
  function ExperienceBucket(text: Option<string>): (b: Option<string>)
    ensures text.None? || text == Some("") ==> b.None?
    ensures text.Some? && text.value != "" && RangeIndex(text.value).Some? ==>
      b == Some(Threshold(DigitValue(text.value[RangeIndex(text.value).value + 2])))
    ensures text.Some? && text.value != "" && RangeIndex(text.value).None? ==>
      b == if HasDigit(text.value) then Some(Threshold(FirstInt(text.value).value)) else None
  {
    match text
    case None => None
    case Some(t) =>
      if t == "" then None
      else match RangeIndex(t)
        case Some(k) => Some(Threshold(DigitValue(t[k + 2])))
        case None =>
          match FirstInt(t)
          case Some(v) => Some(Threshold(v))
          case None => None
  }

  /** Any text with a digit gets a bucket, and a text without one gets none. */
  lemma BucketIffDigit(t: string)
    requires t != ""
    ensures ExperienceBucket(Some(t)).Some? <==> HasDigit(t)
  {
    if RangeIndex(t).Some? {
      assert IsDigit(t[RangeIndex(t).value]);
    }
  }

  /** The first text node whose lower-cased text contains one of `keys`, the
      reading of `soup.find(string=re.compile(..., re.I))`. */
  function FirstNodeWith(nodes: seq<string>, keys: seq<string>): (r: Option<nat>)
    ensures r.None? ==> forall i :: 0 <= i < |nodes| ==> !AnyIn(Lower(nodes[i]), keys)
    ensures r.Some? ==> r.value < |nodes| && AnyIn(Lower(nodes[r.value]), keys)
    ensures r.Some? ==> forall i :: 0 <= i < r.value ==> !AnyIn(Lower(nodes[i]), keys)
  {
    if nodes == [] then None
    else if AnyIn(Lower(nodes[0]), keys) then Some(0)
    else match FirstNodeWith(nodes[1..], keys)
      case None => None
      case Some(k) => Some(k + 1)
  }

  /** The text part of `_parse_experience`: the labelled element if it has
      text, else the first node mentioning "опыт", stripped. */
  function ExperienceText(p: Page): (t: Option<string>)
    ensures p.experience.Some? && p.experience.value != "" ==> t == p.experience
    ensures !(p.experience.Some? && p.experience.value != "") ==>
      match FirstNodeWith(p.strings, ["опыт"])
      case None => t.None?
      case Some(i) => t == Some(Strip(p.strings[i]))
  {
    if p.experience.Some? && p.experience.value != "" then p.experience
    else match FirstNodeWith(p.strings, ["опыт"])
      case None => None
      case Some(i) => Some(Strip(p.strings[i]))
  }

  /** `_parse_experience`. */
  function ParseExperience(p: Page): (r: (Option<string>, Option<string>))
    ensures r.0 == ExperienceText(p) && r.1 == ExperienceBucket(r.0)
  {
    var text := ExperienceText(p);
    (text, ExperienceBucket(text))
  }

  // ---------- schedule and employment ----------

  /** The schedule test of `_parse_schedule_and_employment`, as written. */
  function Schedule(pageText: string): Option<string> {
    var low := Lower(pageText);
    if Contains(low, "удал") || Contains(low, "remote") then Some("remote")
    else if Contains(low, "гибрид") || Contains(low, "hybrid") then Some("hybrid")
    else if Contains(low, "офис") then Some("office")
    else None
  }

  /** The employment test, as written. */
  function Employment(pageText: string): Option<string> {
    var low := Lower(pageText);
    if Contains(low, "полная занятость") || Contains(low, "full time") then Some("full-time")
    else if Contains(low, "частичная занятость") || Contains(low, "part time") then Some("part-time")
    else if Contains(low, "стажировка") || Contains(low, "intern") then Some("intern")
    else None
  }

  const ScheduleRules: seq<Rule> := [
    Rule("remote", [], ["удал", "remote"]),
    Rule("hybrid", [], ["гибрид", "hybrid"]),
    Rule("office", [], ["офис"])]

  const EmploymentRules: seq<Rule> := [
    Rule("full-time", [], ["полная занятость", "full time"]),
    Rule("part-time", [], ["частичная занятость", "part time"]),
    Rule("intern", [], ["стажировка", "intern"])]

  /** Schedule is remote before hybrid before office, over the whole lower-cased page text. */
  lemma SchedulePriority(pageText: string)
    ensures Schedule(pageText) == FirstMatch(ScheduleRules, pageText)
  {
    var low := Lower(pageText);
    AnyInPair(low, "удал", "remote");
    AnyInPair(low, "гибрид", "hybrid");
    AnyInOne(low, "офис");
    FirstMatchOfThree(ScheduleRules[0], ScheduleRules[1], ScheduleRules[2], pageText);
  }

  /** Employment is full-time before part-time before intern. */
  lemma EmploymentPriority(pageText: string)
    ensures Employment(pageText) == FirstMatch(EmploymentRules, pageText)
  {
    var low := Lower(pageText);
    AnyInPair(low, "полная занятость", "full time");
    AnyInPair(low, "частичная занятость", "part time");
    AnyInPair(low, "стажировка", "intern");
    FirstMatchOfThree(EmploymentRules[0], EmploymentRules[1], EmploymentRules[2], pageText);
  }

  // ---------- the remaining fields ----------

  /** `_parse_title`: the labelled title, else the first `<h1>`. */
  function ParseTitle(p: Page): (t: Option<string>)
    ensures p.titleTag.Some? ==> t == p.titleTag
    ensures p.titleTag.None? ==> t == p.h1
  {
    if p.titleTag.Some? then p.titleTag else p.h1
  }

  /** `_parse_company`: the name and, if the enclosing (else the inner) link
      has an `href`, that URL; nothing without the name element. */
  function ParseCompany(p: Page): (r: (Option<string>, Option<string>))
    ensures p.companyName.None? ==> r == (None, None)
    ensures r.0 == p.companyName
    ensures p.companyName.Some? && p.companyParentLink.Some? ==> r.1 == p.companyParentLink.value.href
    ensures p.companyName.Some? && p.companyParentLink.None? && p.companyChildLink.Some? ==>
      r.1 == p.companyChildLink.value.href
    ensures p.companyParentLink.None? && p.companyChildLink.None? ==> r.1.None?
  {
    if p.companyName.None? then (None, None)
    else
      var link := if p.companyParentLink.Some? then p.companyParentLink else p.companyChildLink;
      var href := if link.Some? then link.value.href else None;
      (p.companyName, href)
  }

  /** The country names `_parse_location` falls back to (matched case-insensitively). */
  const CountryKeys: seq<string> := ["россия", "украина", "казахстан", "беларус"]

  /** `_parse_location`. */
  function ParseLocation(p: Page): (l: Option<string>)
    ensures p.location.Some? ==> l == p.location
    ensures p.location.None? && p.locationClass.Some? ==> l == p.locationClass
    ensures p.location.None? && p.locationClass.None? ==>
      match FirstNodeWith(p.strings, CountryKeys)
      case None => l.None?
      case Some(i) => l == Some(Strip(p.strings[i]))
  {
    if p.location.Some? then p.location
    else if p.locationClass.Some? then p.locationClass
    else match FirstNodeWith(p.strings, CountryKeys)
      case None => None
      case Some(i) => Some(Strip(p.strings[i]))
  }

  /** `_parse_published_at`. */
  function ParsePublishedAt(p: Page): (t: Option<string>)
    ensures t.Some? <==> p.creationTime.Some? || p.time.Some?
    ensures p.creationTime.Some? ==> t == p.creationTime
    ensures p.creationTime.None? ==> t == p.time
  {
    if p.creationTime.Some? then p.creationTime else p.time
  }

  /** `_parse_responses_count`: the first number in the first text node that
      mentions "тклик" (any case), if that node has a number. */
  function ParseResponsesCount(nodes: seq<string>): (n: Option<nat>)
    ensures FirstNodeWith(nodes, ["тклик"]).None? ==> n.None?
    ensures FirstNodeWith(nodes, ["тклик"]).Some? ==>
      n == FirstInt(nodes[FirstNodeWith(nodes, ["тклик"]).value])
  {
    match FirstNodeWith(nodes, ["тклик"])
    case None => None
    case Some(i) => if nodes[i] == "" then None else FirstInt(nodes[i])
  }

  // ---------- skills ----------

  /** The non-empty texts, in order. */
  function NonEmpty(texts: seq<string>): (r: seq<string>)
    ensures forall x :: x in r <==> x in texts && x != ""
  {
    if texts == [] then []
    else
      var init := texts[..|texts| - 1];
      var last := texts[|texts| - 1];
      assert texts == init + [last];
      NonEmpty(init) + (if last != "" then [last] else [])
  }

  /** The non-empty texts keep the page's order: each text contributes
      itself, or nothing when it is empty, in its place. */
  lemma {:induction false} NonEmptyAppend(a: seq<string>, b: seq<string>)
    ensures NonEmpty(a + b) == NonEmpty(a) + NonEmpty(b)
    decreases |b|
  {
    if b == [] {
      assert a + b == a;
    } else {
      var c := b[..|b| - 1];
      assert (a + b)[..|a + b| - 1] == a + c;
      assert (a + b)[|a + b| - 1] == b[|b| - 1];
      NonEmptyAppend(a, c);
    }
  }

  lemma NonEmptyOne(x: string)
    ensures NonEmpty([x]) == if x != "" then [x] else []
  {
    assert [x][..0] == [];
  }

  /** The skill list `_parse_skills` builds. */
  function Skills(texts: seq<string>): seq<string> {
    Distinct(NonEmpty(texts))
  }

  /** The skill list has no repeats and no empty strings, holds exactly the
      distinct non-empty texts, and keeps the order they are first seen in. */
  lemma SkillsSpec(texts: seq<string>)
    ensures NoDuplicates(Skills(texts))
    ensures "" !in Skills(texts)
    ensures forall x :: x in Skills(texts) <==> x in texts && x != ""
    ensures forall i, j :: 0 <= i < j < |Skills(texts)| ==>
      FirstIndex(NonEmpty(texts), Skills(texts)[i]) < FirstIndex(NonEmpty(texts), Skills(texts)[j])
  {
    forall i, j | 0 <= i < j < |Skills(texts)|
      ensures FirstIndex(NonEmpty(texts), Skills(texts)[i]) < FirstIndex(NonEmpty(texts), Skills(texts)[j])
    {
      DistinctFirstSeenOrder(NonEmpty(texts), i, j);
    }
  }

  /** `_parse_skills`' loop: append each non-empty text not yet in the list. */
  method ParseSkills(texts: seq<string>) returns (skills: seq<string>)
    ensures skills == Skills(texts)
  {
    skills := [];
    var i := 0;
    while i < |texts|
      invariant 0 <= i <= |texts|
      invariant skills == Distinct(NonEmpty(texts[..i]))
    {
      var txt := texts[i];
      assert texts[..i + 1] == texts[..i] + [txt];
      assert NonEmpty(texts[..i + 1]) == NonEmpty(texts[..i]) + (if txt != "" then [txt] else []);
      if txt != "" {
        DistinctAppend(NonEmpty(texts[..i]), txt);
        if txt !in skills {
          skills := skills + [txt];
        }
      } else {
        assert NonEmpty(texts[..i] + [txt]) == NonEmpty(texts[..i]);
      }
      i := i + 1;
    }
    assert texts[..i] == texts;
  }

  // ---------- parse_vacancy ----------

  /** `parse_vacancy`: every reader applied to the page, the results and the
      `raw_json` summary assembled into a record. */
  function ParseVacancy(p: Page, url: string): (v: Vacancy)
    ensures v.id == ExtractIdFromUrl(url) && v.url == url && v.source == "http"
  {
    var (companyName, companyUrl) := ParseCompany(p);
    var salary := ParseSalary(p.salary);
    var (experienceText, expBucket) := ParseExperience(p);
    var schedule := Schedule(p.text);
    var employment := Employment(p.text);
    var location := ParseLocation(p);
    var published := ParsePublishedAt(p);
    var responses := ParseResponsesCount(p.strings);
    var skills := Skills(p.skillTexts);
    var title := ParseTitle(p);
    var raw := RawFields(title, companyName, companyUrl, salary.text, experienceText,
                         schedule, employment, location, published, responses, skills);
    Vacancy(
      id := ExtractIdFromUrl(url),
      url := url,
      title := title,
      companyName := companyName,
      companyUrl := companyUrl,
      salaryFrom := salary.from,
      salaryTo := salary.to,
      salaryCurrency := salary.currency,
      isGross := salary.isGross,
      salaryText := salary.text,
      experienceText := experienceText,
      expBucket := expBucket,
      schedule := schedule,
      employmentType := employment,
      locationCity := location,
      responsesCount := responses,
      publishedAt := published,
      description := p.description,
      skills := skills,
      rawJson := Some(raw))
  }

  /** Each field of the record comes from its own reader: the record keeps
      the salary text and the description, its bucket belongs to its
      experience text, its skills are distinct and non-empty, and `raw_json`
      repeats the record's own fields. */
  lemma VacancyRecord(p: Page, url: string)
    ensures var v := ParseVacancy(p, url);
      && v.title == ParseTitle(p)
      && (v.companyName, v.companyUrl) == ParseCompany(p)
      && v.salaryFrom == ParseSalary(p.salary).from && v.salaryTo == ParseSalary(p.salary).to
      && v.salaryCurrency == ParseSalary(p.salary).currency && v.isGross == ParseSalary(p.salary).isGross
      && v.experienceText == ExperienceText(p)
      && v.schedule == Schedule(p.text) && v.employmentType == Employment(p.text)
      && v.locationCity == ParseLocation(p) && v.publishedAt == ParsePublishedAt(p)
      && v.responsesCount == ParseResponsesCount(p.strings)
      && v.skills == Skills(p.skillTexts)
      && v.expBucket == ExperienceBucket(v.experienceText)
      && v.salaryText == p.salary && v.description == p.description
      && NoDuplicates(v.skills) && "" !in v.skills
      && v.rawJson == Some(RawFields(v.title, v.companyName, v.companyUrl, v.salaryText,
           v.experienceText, v.schedule, v.employmentType, v.locationCity, v.publishedAt,
           v.responsesCount, v.skills))
  {
    SkillsSpec(p.skillTexts);
  }

  /** A page on which nothing is found still yields a record: only the id,
      the URL and the `raw_json` summary are set. */
  lemma BlankPageYieldsIdentityOnly(url: string)
    ensures var v := ParseVacancy(BlankPage, url);
      v.id == ExtractIdFromUrl(url) && v.url == url && OnlyIdentity(v)
  {
    assert !Contains(Lower(""), "удал") && !Contains(Lower(""), "remote");
  }
}

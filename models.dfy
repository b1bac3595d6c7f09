/** The vacancy record that a detail page is parsed into. */
module Models {
  import opened Wrappers

  /** The `raw_json` dictionary: the fields as the page gave them. */
  datatype RawFields = RawFields(
    title: Option<string>,
    companyName: Option<string>,
    companyUrl: Option<string>,
    salaryText: Option<string>,
    experienceText: Option<string>,
    schedule: Option<string>,
    employmentType: Option<string>,
    locationCity: Option<string>,
    publishedAt: Option<string>,
    responsesCount: Option<int>,
    skills: seq<string>)

  /** `Vacancy`: `id` and `url` are required; `source` defaults to "http",
      every other scalar to absent and the skill list to empty. A `seq` is a
      value, so no two records share one list. */
  datatype Vacancy = Vacancy(
    id: string,
    url: string,
    source: string := "http",
    title: Option<string> := None,
    companyName: Option<string> := None,
    companyUrl: Option<string> := None,
    salaryFrom: Option<int> := None,
    salaryTo: Option<int> := None,
    salaryCurrency: Option<string> := None,
    isGross: Option<bool> := None,
    salaryText: Option<string> := None,
    experienceText: Option<string> := None,
    expBucket: Option<string> := None,
    schedule: Option<string> := None,
    employmentType: Option<string> := None,
    locationCity: Option<string> := None,
    responsesCount: Option<int> := None,
    publishedAt: Option<string> := None,
    description: Option<string> := None,
    skills: seq<string> := [],
    rawJson: Option<RawFields> := None)

  /** Every optional field of the record is absent. */
  predicate OnlyIdentity(v: Vacancy) {
    && v.title.None? && v.companyName.None? && v.companyUrl.None?
    && v.salaryFrom.None? && v.salaryTo.None? && v.salaryCurrency.None?
    && v.isGross.None? && v.salaryText.None? && v.experienceText.None?
    && v.expBucket.None? && v.schedule.None? && v.employmentType.None?
    && v.locationCity.None? && v.responsesCount.None? && v.publishedAt.None?
    && v.description.None? && v.skills == []
  }

  /** A record built from the two required fields alone has the defaults. */
  lemma Defaults(id: string, url: string)
    ensures Vacancy(id, url).id == id && Vacancy(id, url).url == url
    ensures Vacancy(id, url).source == "http"
    ensures OnlyIdentity(Vacancy(id, url)) && Vacancy(id, url).rawJson.None?
  {
  }
}

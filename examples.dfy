/** Worked inputs for the readers, checked against the model. */
module Examples {
  import opened Wrappers
  import opened Text
  import opened Numbers
  import opened Extract

  /** "опыт 3-6 лет" is bucket "3-6". */
  lemma ExperienceRange()
    ensures ExperienceBucket(Some("опыт 3-6 лет")) == Some("3-6")
  {
    var t := "опыт 3-6 лет";
    assert RangeAt(t, 5);
    assert RangeIndex(t) == Some(5);
  }

  /** "опыт 7 лет" has no range and is bucket "6+". */
  lemma ExperienceSingle()
    ensures ExperienceBucket(Some("опыт 7 лет")) == Some("6+")
  {
  }

  /** The range pattern matches single digits only, so "10-15 лет" is read
      as the range 0-1 and lands in bucket "0-1". */
  lemma ExperienceTwoDigitRange()
    ensures RangeIndex("10-15 лет") == Some(1)
    ensures ExperienceBucket(Some("10-15 лет")) == Some("0-1")
  {
  }
}

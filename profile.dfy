/** `get_personal_info`: the student's name and college, read from the `<p>` texts of the
    profile page's `personal_left` block. */
module Profile {
  import opened Wrappers
  import opened Replies
  import opened Text

  /** The label in front of the college text ("college:" with a full-width colon). */
  const CollegeLabel := "学院："

  /** The label's three characters are distinct, so no occurrence of it can overlap another. */
  lemma CollegeLabelUnbordered()
    ensures Unbordered(CollegeLabel)
  {
    forall m | 0 < m < |CollegeLabel| ensures CollegeLabel[..m] != CollegeLabel[|CollegeLabel| - m..] {
      assert CollegeLabel[..m][0] == '学';
      assert CollegeLabel[|CollegeLabel| - m..][0] != '学';
    }
  }

  /** Removing the label from a college text: the text before the first label is kept and
      the removal carries on after it. */
  lemma RemoveCollegeLabel(a: string, b: string)
    requires !Contains(a, CollegeLabel)
    ensures RemoveAll(a + CollegeLabel + b, CollegeLabel) == a + RemoveAll(b, CollegeLabel)
  {
    CollegeLabelUnbordered();
    RemoveAllPassesOver(a, CollegeLabel, b);
  }

  datatype Identity = Identity(name: string, college: string)

  datatype Error = TransportFailed | NoProfileBlock | TooFewFields

  /** `page` is the reply to the profile request; its body holds the texts of the block's
      `<p>` elements in document order, or None when the block is not on the page. */
  function ReadProfile(page: Http<Option<seq<string>>>): (r: Result<Identity, Error>)
    ensures r.Success? <==> page.Received? && page.body.Some? && |page.body.value| >= 2
    ensures r.Success? ==> Trimmed(r.value.name) && Trimmed(r.value.college)
    ensures r.Success? ==> |r.value.name| <= |page.body.value[0]| && |r.value.college| <= |page.body.value[1]|
  {
    match page
    case TransportError => Failure(TransportFailed)
    case Received(None) => Failure(NoProfileBlock)
    case Received(Some(texts)) =>
      if |texts| < 2 then Failure(TooFewFields)
      else
        var name := Strip(texts[0]);
        var college := Strip(RemoveAll(texts[1], CollegeLabel));
        assert exists i :: PaddedAt(RemoveAll(texts[1], CollegeLabel), college, i);
        Success(Identity(name, college))
  }

  /** The script goes on only with a non-empty name and a non-empty college. */
  predicate Usable(id: Identity) {
    id.name != "" && id.college != ""
  }

  /** A page whose first text is a padded name and whose second is the label followed by a
      padded college name yields exactly that name and college. */
  lemma ReadProfileRecovers(w1: string, name: string, w2: string, w3: string, college: string, w4: string, rest: seq<string>)
    requires AllSpace(w1) && AllSpace(w2) && AllSpace(w3) && AllSpace(w4)
    requires Trimmed(name) && Trimmed(college)
    requires !Contains(w3 + college + w4, CollegeLabel)
    ensures ReadProfile(Received(Some([w1 + name + w2, CollegeLabel + (w3 + college + w4)] + rest)))
      == Success(Identity(name, college))
  {
    RemoveLeadingLabel(CollegeLabel, w3 + college + w4);
    StripPadded(w1, name, w2);
    StripPadded(w3, college, w4);
  }
}

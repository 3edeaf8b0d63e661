/** The three states of a post and the names they travel under in requests,
    form fields and filters. */
module PostStatus {
  import opened Wrappers

  datatype Status = Draft | Published | Archived

  /** `'draft'`, `'published'` or `'archived'`. */
  function Name(s: Status): string {
    match s
    case Draft => "draft"
    case Published => "published"
    case Archived => "archived"
  }

  /** The status a name stands for, if any. */
  function Parse(name: string): (r: Option<Status>)
    ensures r.Some? ==> Name(r.value) == name
  {
    if name == "draft" then Some(Draft)
    else if name == "published" then Some(Published)
    else if name == "archived" then Some(Archived)
    else None
  }

  /** Every status is read back from its name, so distinct statuses have
      distinct names. */
  lemma ParseName(s: Status)
    ensures Parse(Name(s)) == Some(s)
  {
  }

  lemma NameInjective(s: Status, t: Status)
    ensures Name(s) == Name(t) <==> s == t
  {
    ParseName(s);
    ParseName(t);
  }
}

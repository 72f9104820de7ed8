/** The record and enumeration types the profile table works on. */
module Types {

  /** A nullable value: `T | null` in the source. */
  datatype Option<T> = None | Some(value: T)

  /** One candidate profile as loaded from the store; every field but `id` may be null. */
  datatype Profile = Profile(
    id: string,
    linkedinUrl: Option<string>,
    fullName: Option<string>,
    locationResolved: Option<string>,
    currentCompany: Option<string>,
    currentTitle: Option<string>,
    yearsExperience: Option<int>,
    yearsAtCurrentCompany: Option<int>,
    skillsTags: Option<seq<string>>,
    focusAreaTags: Option<seq<string>>,
    excellenceTags: Option<seq<string>>,
    domainTags: Option<seq<string>>,
    notes: Option<string>,
    createdAt: Option<string>,
    updatedAt: Option<string>)

  /** The two numeric columns the table can be sorted by. */
  datatype NumericField = YearsExperience | YearsAtCurrentCompany

  /** The chosen sort column, or `None` when the table is unsorted. */
  type SortField = Option<NumericField>

  datatype SortDirection = Asc | Desc

  /** The four tag columns, each with its own filter. */
  datatype TagCategory = Skills | FocusAreas | Excellence | Domains

  /** The tag list of a profile in one category. */
  function Tags(p: Profile, c: TagCategory): Option<seq<string>>
  {
    match c
    case Skills => p.skillsTags
    case FocusAreas => p.focusAreaTags
    case Excellence => p.excellenceTags
    case Domains => p.domainTags
  }
}

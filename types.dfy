/** The records of the doctor directory: a doctor, and the search, filter
    and sort criteria the user edits. */
module Types {

  datatype Option<T> = None | Some(value: T)

  /** How a doctor consults. */
  datatype Consultation = VideoConsult | InClinic

  /** A doctor as the directory holds it after loading. Every doctor has
      exactly one consultation type, and its specialities are an ordered list
      that may repeat an entry. */
  datatype Doctor = Doctor(
    id: string,
    name: string,
    speciality: seq<string>,
    experience: int,
    fee: int,
    consultationType: Consultation,
    image: string)

  /** The consultation criterion: unset, or one consultation type. */
  datatype ModeFilter = AnyMode | Only(mode: Consultation)

  datatype SortKey = Fees | Experience

  /** The sort criterion: at most one key is active at a time. */
  datatype SortChoice = Unsorted | SortBy(key: SortKey)

  /** The criteria. The selected specialities are an ordered list; nothing in
      the type rules out a repeated entry. */
  datatype FilterState = FilterState(
    searchQuery: string,
    consultationType: ModeFilter,
    specialities: seq<string>,
    sortBy: SortChoice)

  /** The string a consultation type stands for in the source. */
  function ConsultationLabel(c: Consultation): (r: string)
    ensures r == "Video Consult" || r == "In Clinic"
  {
    match c
    case VideoConsult => "Video Consult"
    case InClinic => "In Clinic"
  }

  /** The string the consultation criterion stands for: the empty string when unset. */
  function ModeValue(m: ModeFilter): (r: string)
    ensures r == "" <==> m == AnyMode
    ensures r == "" || r == "Video Consult" || r == "In Clinic"
  {
    match m
    case AnyMode => ""
    case Only(c) => ConsultationLabel(c)
  }

  /** The string the sort criterion stands for: the empty string when unset. */
  function SortValue(s: SortChoice): (r: string)
    ensures r == "" <==> s == Unsorted
    ensures r == "" || r == "fees" || r == "experience"
  {
    match s
    case Unsorted => ""
    case SortBy(Fees) => "fees"
    case SortBy(Experience) => "experience"
  }

  /** Distinct criteria have distinct strings, so comparing the enum values
      decides exactly what comparing the source's strings decides. */
  lemma ValuesInjective(a: ModeFilter, b: ModeFilter, x: SortChoice, y: SortChoice)
    ensures ModeValue(a) == ModeValue(b) ==> a == b
    ensures SortValue(x) == SortValue(y) ==> x == y
  {
    assert "Video Consult"[0] != "In Clinic"[0];
    assert "fees"[0] != "experience"[0];
  }
}

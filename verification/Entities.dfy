/** The rows the seeders read. */
module Entities {
  import opened Wrappers

  /** A primary key. The seeders draw fresh keys from `Guid.NewGuid()`; the
      model draws them from a caller-supplied counter instead, so the k-th
      record a seeder builds gets key `nextId + k`. */
  type Id = nat

  /** The columns of a subject that the seeders look at. The subject code
      is a reference type and may be null. */
  datatype Subject = Subject(id: Id, subjectCode: Option<string>)

  /** Subject keys are unique (they are the table's primary key). */
  predicate DistinctSubjectIds(subjects: seq<Subject>) {
    forall i, j :: 0 <= i < j < |subjects| ==> subjects[i].id != subjects[j].id
  }
}

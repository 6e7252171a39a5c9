/** The Colombian case line list: one record per reported case, with the
    attributes the derivations read. A NaN cell of the CSV is `None`. */
module LineList {
  import opened Results

  /** One case. `date` is the notification date as it is written in the
      file, "dd/mm/yyyy" and a time of day whose hour may be unpadded
      ("15/03/2020 0:00:00"); `deathDate` is present exactly when the
      patient died; `origin` is the free-text country of origin. */
  datatype Record = Record(
    date: Option<string>,
    deathDate: Option<string>,
    city: Option<string>,
    age: Option<int>,
    origin: Option<string>)

  /** The column of cities, in file order. */
  function CityColumn(records: seq<Record>): (r: seq<Option<string>>)
    ensures |r| == |records|
    ensures forall i :: 0 <= i < |r| ==> r[i] == records[i].city
  {
    seq(|records|, i requires 0 <= i < |records| => records[i].city)
  }

  /** The column of ages, in file order. */
  function AgeColumn(records: seq<Record>): (r: seq<Option<int>>)
    ensures |r| == |records|
    ensures forall i :: 0 <= i < |r| ==> r[i] == records[i].age
  {
    seq(|records|, i requires 0 <= i < |records| => records[i].age)
  }

  /** The column of origins, in file order. */
  function OriginColumn(records: seq<Record>): (r: seq<Option<string>>)
    ensures |r| == |records|
    ensures forall i :: 0 <= i < |r| ==> r[i] == records[i].origin
  {
    seq(|records|, i requires 0 <= i < |records| => records[i].origin)
  }
}

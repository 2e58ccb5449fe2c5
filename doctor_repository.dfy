/** DoctorRepository: the doctor table's finders as selections over the
    table, in stored order. */
module DoctorRepository {
  import opened Wrappers
  import opened Seqs
  import opened Text
  import opened Models
  import opened Database

  function DoctorEmail(d: Doctor): string { d.email }

  /** No two doctors share an email. */
  ghost predicate UniqueEmails(doctors: seq<Doctor>) {
    DistinctKeys(doctors, DoctorEmail)
  }

  /** findByEmail: the doctor with that email, null when there is none. */
  function FindByEmail(doctors: seq<Doctor>, email: string): (r: Result<Option<Doctor>>)
    ensures r.Returns? && r.value.None? <==> forall d :: d in doctors ==> d.email != email
    ensures r.Returns? && r.value.Some? ==> r.value.value in doctors && r.value.value.email == email
    ensures r.Returns? && r.value.Some? ==> forall d :: d in doctors && d.email == email ==> d == r.value.value
    ensures r.Throws? <==> exists i, j :: 0 <= i < j < |doctors| && doctors[i].email == email && doctors[j].email == email
  {
    var rows := Filter(doctors, (d: Doctor) => d.email == email);
    assert rows != [] ==> rows[0] in rows;
    FilterAtLeastTwo(doctors, (d: Doctor) => d.email == email);
    SingleResult(rows)
  }

  /** While emails are unique, findByEmail never meets two rows. */
  lemma FindByEmailReturns(doctors: seq<Doctor>, email: string)
    requires UniqueEmails(doctors)
    ensures FindByEmail(doctors, email).Returns?
  {
    var p := (d: Doctor) => d.email == email;
    SingleResultOnUniqueKey(doctors, p, DoctorEmail, email);
  }

  /** findByNameLike: name LIKE '%name%', case-sensitive as written. */
  function FindByNameLike(doctors: seq<Doctor>, name: string): (r: seq<Doctor>)
    ensures forall d :: d in r <==> d in doctors && Contains(d.name, name)
  {
    Filter(doctors, (d: Doctor) => Contains(d.name, name))
  }

  /** findByNameContainingIgnoreCaseAndSpecialtyIgnoreCase: the name contains
      the argument and the specialty equals the other, both ignoring case. */
  function FindByNameContainingIgnoreCaseAndSpecialtyIgnoreCase(doctors: seq<Doctor>, name: string, specialty: string): (r: seq<Doctor>)
    ensures forall d :: d in r <==> d in doctors && ContainsIgnoreCase(d.name, name) && EqualsIgnoreCase(d.specialty, specialty)
  {
    Filter(doctors, (d: Doctor) => ContainsIgnoreCase(d.name, name) && EqualsIgnoreCase(d.specialty, specialty))
  }

  /** findBySpecialtyIgnoreCase. */
  function FindBySpecialtyIgnoreCase(doctors: seq<Doctor>, specialty: string): (r: seq<Doctor>)
    ensures forall d :: d in r <==> d in doctors && EqualsIgnoreCase(d.specialty, specialty)
  {
    Filter(doctors, (d: Doctor) => EqualsIgnoreCase(d.specialty, specialty))
  }

  /** A case-sensitive match is also a case-insensitive one: findByNameLike
      never finds a doctor the ignore-case finder would miss. */
  lemma {:induction false} ContainsImpliesIgnoreCase(s: string, sub: string)
    requires Contains(s, sub)
    ensures ContainsIgnoreCase(s, sub)
  {
    ContainsIff(s, sub);
    var i :| 0 <= i <= |s| && StartsWith(s[i..], sub);
    var ls, lsub := ToLower(s), ToLower(sub);
    assert ls[i..][..|lsub|] == lsub by {
      forall k | 0 <= k < |lsub| ensures ls[i..][..|lsub|][k] == lsub[k] {
        assert s[i..][k] == sub[k];
      }
    }
    ContainsIff(ls, lsub);
  }

  /** save of a stored doctor: the row with its id is replaced in place. */
  function ReplaceDoctor(doctors: seq<Doctor>, d: Doctor): (r: seq<Doctor>)
    ensures |r| == |doctors|
    ensures forall i :: 0 <= i < |r| ==> r[i] == if doctors[i].id == d.id then d else doctors[i]
  {
    Map(doctors, (x: Doctor) => if x.id == d.id then d else x)
  }

  /** The rows delete of the doctor with that id keeps. */
  function OtherDoctor(id: nat): Doctor -> bool {
    (d: Doctor) => d.id != Some(id)
  }
}
